/** The mutable game object of the bubble game (view/game/model/Sprite.java).

    The interface declares getter/setter pairs for position, speed, radius,
    text and visibility, two collision queries, a per-frame update and a draw.
    Its implementation (BubbleSprite) is not part of this model, so the
    behaviour that only the implementation defines (the collision geometry,
    the hit test, the motion) is passed in as a function over a snapshot of
    the sprite's state.
 */
module Sprites {

  datatype Option<T> = None | Some(value: T)

  /** Everything a sprite holds that the game reads or writes. Java floats
      are modelled as reals; `text` may be null in the source. */
  datatype SpriteState = SpriteState(
    x: real,
    y: real,
    xSpeed: real,
    ySpeed: real,
    radius: real,
    text: Option<string>,
    visible: bool)

  /** Sprite.isCollision(Sprite): does the first sprite collide with the second? */
  type CollisionTest = (SpriteState, SpriteState) -> bool

  /** Sprite.isCollision(float, float), called isTouched by the game view:
      does the sprite contain the point? */
  type HitTest = (SpriteState, real, real) -> bool

  /** Sprite.update(): the sprite's next state and whether it has expired. */
  type Motion = SpriteState -> (SpriteState, bool)

  /** The state of a freshly built bubble at (x, y) with the given radius and
      label: at rest and visible. */
  function NewBubble(x: int, y: int, radius: int, text: string): (s: SpriteState)
    ensures s.text == Some(text) && s.visible
  {
    SpriteState(x as real, y as real, 0.0, 0.0, radius as real, Some(text), true)
  }

  class Sprite {
    var x: real
    var y: real
    var xSpeed: real
    var ySpeed: real
    var radius: real
    var text: Option<string>
    var visible: bool

    /** The abstract value of this sprite. */
    function State(): SpriteState
      reads this
    {
      SpriteState(x, y, xSpeed, ySpeed, radius, text, visible)
    }

    /** A bubble centred at (x, y), as the game view builds one per attempt. */
    constructor Bubble(x: int, y: int, radius: int, text: string)
      ensures State() == NewBubble(x, y, radius, text)
    {
      this.x := x as real;
      this.y := y as real;
      this.xSpeed := 0.0;
      this.ySpeed := 0.0;
      this.radius := radius as real;
      this.text := Some(text);
      this.visible := true;
    }

    function GetX(): real
      reads this
    {
      x
    }

    method SetX(x: real)
      modifies this
      ensures GetX() == x
      ensures State() == old(State()).(x := x)
    {
      this.x := x;
    }

    function GetY(): real
      reads this
    {
      y
    }

    method SetY(y: real)
      modifies this
      ensures GetY() == y
      ensures State() == old(State()).(y := y)
    {
      this.y := y;
    }

    function GetYSpeed(): real
      reads this
    {
      ySpeed
    }

    method SetYSpeed(speed: real)
      modifies this
      ensures GetYSpeed() == speed
      ensures State() == old(State()).(ySpeed := speed)
    {
      ySpeed := speed;
    }

    function GetXSpeed(): real
      reads this
    {
      xSpeed
    }

    method SetXSpeed(speed: real)
      modifies this
      ensures GetXSpeed() == speed
      ensures State() == old(State()).(xSpeed := speed)
    {
      xSpeed := speed;
    }

    function GetRadius(): real
      reads this
    {
      radius
    }

    method SetRadius(radius: real)
      modifies this
      ensures GetRadius() == radius
      ensures State() == old(State()).(radius := radius)
    {
      this.radius := radius;
    }

    /** None stands for a null text. */
    function GetText(): Option<string>
      reads this
    {
      text
    }

    method SetText(text: Option<string>)
      modifies this
      ensures GetText() == text
      ensures State() == old(State()).(text := text)
    {
      this.text := text;
    }

    function GetVisibility(): bool
      reads this
    {
      visible
    }

    method SetVisibility(isVisible: bool)
      modifies this
      ensures GetVisibility() == isVisible
      ensures State() == old(State()).(visible := isVisible)
    {
      visible := isVisible;
    }

    /** Does this sprite collide with `other`? A query: it changes no sprite. */
    method IsCollision(other: Sprite, collides: CollisionTest) returns (hit: bool)
      ensures hit == collides(State(), other.State())
    {
      hit := collides(State(), other.State());
    }

    /** Does this sprite contain the point (px, py)? A query: it changes no sprite. */
    method IsCollisionAt(px: real, py: real, hits: HitTest) returns (hit: bool)
      ensures hit == hits(State(), px, py)
    {
      hit := hits(State(), px, py);
    }

    /** Advances the sprite one frame; reports whether it has expired. */
    method Update(motion: Motion) returns (expired: bool)
      modifies this
      ensures State() == motion(old(State())).0
      ensures expired == motion(old(State())).1
    {
      var next := motion(State());
      x, y, xSpeed, ySpeed := next.0.x, next.0.y, next.0.xSpeed, next.0.ySpeed;
      radius, text, visible := next.0.radius, next.0.text, next.0.visible;
      expired := next.1;
    }

    /** Draws the sprite: what is painted is its state, and nothing at all
        when it is not visible. */
    method Draw() returns (painted: Option<SpriteState>)
      ensures !GetVisibility() ==> painted == None
      ensures GetVisibility() ==> painted == Some(State())
    {
      if visible {
        painted := Some(State());
      } else {
        painted := None;
      }
    }
  }
}
