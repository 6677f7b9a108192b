/** The game view (view/GameView.java): the list of sprites of the running
    game, the round placement that fills it, the per-frame update and draw,
    and the touch handler. The worker thread that calls update and draw in
    a loop, and the Android canvas, are not part of this model. */
module GameViews {
  import opened Sprites
  import opened Placement
  import SpriteList

  /** MotionEvent.ACTION_DOWN. */
  const ACTION_DOWN: int := 0

  /** The part of a MotionEvent the touch handler reads. */
  datatype MotionEvent = MotionEvent(action: int, x: real, y: real)

  /** How prepareRound ends: normally, or with the IllegalArgumentException
      that nextInt throws for a bound that is not positive. */
  datatype Outcome = Completed | IllegalArgumentException

  /** The states of the sprites of a list, in list order. */
  function Snapshots(ss: seq<Sprite>): (r: seq<SpriteState>)
    reads ss
    ensures |r| == |ss|
    ensures forall k :: 0 <= k < |ss| ==> r[k] == ss[k].State()
  {
    if ss == [] then [] else Snapshots(ss[..|ss| - 1]) + [ss[|ss| - 1].State()]
  }

  /** The sprites of ss are, in order, in the states of states. */
  ghost predicate SameStates(ss: seq<Sprite>, states: seq<SpriteState>)
    reads ss
  {
    |ss| == |states| && forall k :: 0 <= k < |ss| ==> ss[k].State() == states[k]
  }

  lemma SameStatesAppend(ss: seq<Sprite>, states: seq<SpriteState>, s: Sprite, state: SpriteState)
    requires SameStates(ss, states) && s.State() == state
    ensures SameStates(ss + [s], states + [state])
  {
  }

  lemma SameStatesSnapshots(ss: seq<Sprite>, states: seq<SpriteState>)
    requires SameStates(ss, states)
    ensures Snapshots(ss) == states
  {
  }

  class GameView {
    /** The sprites of the game, in drawing order. */
    var sprites: seq<Sprite>
    /** (int) screenWidth and (int) gameHeight: the sprite zone in whole pixels. */
    var screenWidth: int
    var gameHeight: int
    var isPlaying: bool
    var roundCount: int

    /** No sprite object is in the list twice. */
    ghost predicate Valid()
      reads this
    {
      forall m, k :: 0 <= m < |sprites| && 0 <= k < |sprites| && m != k ==> sprites[m] != sprites[k]
    }

    constructor ()
      ensures Valid()
      ensures sprites == [] && roundCount == 0 && isPlaying
      ensures screenWidth == 0 && gameHeight == 0
    {
      sprites := [];
      screenWidth, gameHeight := 0, 0;
      roundCount := 0;
      isPlaying := true;
    }

    /** onResume: takes the sprite zone's size, marks the game as playing and
        prepares a round. The list is not cleared first, so a second resume
        leaves the first round's sprites in place ahead of the new ones. */
    method OnResume(width: int, height: int, rand: Draws, collides: CollisionTest) returns (outcome: Outcome)
      requires Valid()
      modifies this
      ensures Valid() && isPlaying
      ensures screenWidth == width && gameHeight == height && roundCount == old(roundCount)
      ensures outcome == (if Placeable(Area(width, height)) then Completed else IllegalArgumentException)
      ensures outcome == IllegalArgumentException ==> sprites == old(sprites)
      ensures outcome == Completed ==>
        && |sprites| == old(|sprites|) + SPRITE_COUNT
        && sprites[..old(|sprites|)] == old(sprites)
        && (forall k :: old(|sprites|) <= k < |sprites| ==> fresh(sprites[k]))
        && Snapshots(sprites) == PlaceRound(Area(width, height), rand, collides, old(Snapshots(sprites))).sprites
    {
      ghost var before := Snapshots(sprites);
      screenWidth, gameHeight := width, height;
      isPlaying := true;
      assert Snapshots(sprites) == before;
      outcome := PrepareRound(rand, collides);
    }

    /** onPause, without the join on the worker thread: the game stops playing. */
    method OnPause()
      modifies this
      ensures !isPlaying
      ensures sprites == old(sprites) && screenWidth == old(screenWidth) && gameHeight == old(gameHeight)
      ensures roundCount == old(roundCount)
    {
      isPlaying := false;
    }

    /** prepareRound: appends SPRITE_COUNT bubbles, each placed by up to 11
        attempts of the random source, exactly as PlaceRound says. When a
        bound is not positive, nextInt throws on the first attempt's x call
        (width) or y call (height), before any bubble is added; that case is
        decided up front. */
    method PrepareRound(rand: Draws, collides: CollisionTest) returns (outcome: Outcome)
      requires Valid()
      modifies this
      ensures Valid()
      ensures screenWidth == old(screenWidth) && gameHeight == old(gameHeight)
      ensures isPlaying == old(isPlaying) && roundCount == old(roundCount)
      ensures outcome == (if Placeable(Area(screenWidth, gameHeight)) then Completed else IllegalArgumentException)
      ensures outcome == IllegalArgumentException ==> sprites == old(sprites)
      ensures outcome == Completed ==>
        && |sprites| == old(|sprites|) + SPRITE_COUNT
        && sprites[..old(|sprites|)] == old(sprites)
        && (forall k :: old(|sprites|) <= k < |sprites| ==> fresh(sprites[k]))
        && Snapshots(sprites) == PlaceRound(Area(screenWidth, gameHeight), rand, collides, old(Snapshots(sprites))).sprites
    {
      var area := Area(screenWidth, gameHeight);
      if !Placeable(area) {
        return IllegalArgumentException;
      }
      outcome := Completed;
      ghost var start := Snapshots(sprites);
      ghost var round := Round(start, [], 0);
      assert round == PlaceUpTo(area, rand, collides, start, 0);
      hide Step, Settle, PlaceUpTo;
      var tries := 0;
      for i := 0 to SPRITE_COUNT
        invariant Valid()
        invariant screenWidth == old(screenWidth) && gameHeight == old(gameHeight)
        invariant isPlaying == old(isPlaying) && roundCount == old(roundCount)
        invariant |sprites| == old(|sprites|) + i && sprites[..old(|sprites|)] == old(sprites)
        invariant forall k :: old(|sprites|) <= k < |sprites| ==> fresh(sprites[k])
        invariant SameStates(sprites, round.sprites)
        invariant round.tries == tries && |round.attempts| == i
        invariant round == PlaceUpTo(area, rand, collides, start, i)
      {
        PlaceUpToNext(area, rand, collides, start, i);
        var bubble, attemptCount := AddBubble(area, rand, collides, i, tries, round);
        tries := tries + attemptCount;
        round := Step(area, rand, collides, round, i);
      }
      SameStatesSnapshots(sprites, round.sprites);
    }

    /** One pass of the for loop of prepareRound: the do-while places the
        i-th bubble, which is appended to the list. `round` is the round so
        far, whose states the list holds. */
    method AddBubble(area: Area, rand: Draws, collides: CollisionTest, i: nat, tries: nat, ghost round: Round)
      returns (bubble: Sprite, attemptCount: nat)
      requires Valid() && SameStates(sprites, round.sprites) && round.tries == tries
      modifies this
      ensures Valid()
      ensures screenWidth == old(screenWidth) && gameHeight == old(gameHeight)
      ensures isPlaying == old(isPlaying) && roundCount == old(roundCount)
      ensures sprites == old(sprites) + [bubble] && fresh(bubble)
      ensures var next := Step(area, rand, collides, round, i);
        SameStates(sprites, next.sprites) && tries + attemptCount == next.tries
    {
      bubble, attemptCount := PlaceBubble(area, rand, collides, i, tries, round.sprites);
      SameStatesAppend(sprites, round.sprites, bubble, bubble.State());
      sprites := sprites + [bubble];
    }

    /** The do-while of prepareRound for the i-th bubble, whose first attempt
        is attempt `tries` of the round: it settles on the bubble Settle
        describes and ends with the attemptCount Settle reports. `placed` is
        the list's states when the do-while starts. */
    method PlaceBubble(area: Area, rand: Draws, collides: CollisionTest, i: nat, tries: nat,
                       ghost placed: seq<SpriteState>)
      returns (bubble: Sprite, attemptCount: nat)
      requires SameStates(sprites, placed)
      ensures SameStates(sprites, placed)
      ensures fresh(bubble)
      ensures var s := Settle(area, rand, collides, placed, i, tries, 1);
        bubble.State() == s.bubble && attemptCount == s.attempts
    {
      attemptCount := 0;
      // overlap starts true so that the body runs at least once, as the do-while does
      var overlap := true;
      var candidate: Sprite? := null;
      while overlap && attemptCount < MAX_ATTEMPTS
        invariant 0 <= attemptCount <= MAX_ATTEMPTS
        invariant SameStates(sprites, placed)
        invariant attemptCount == 0 ==> overlap
        invariant attemptCount > 0 ==>
          && candidate != null && fresh(candidate)
          && candidate.State() == Candidate(area, rand, tries + attemptCount - 1, i)
          && overlap == Overlaps(collides, candidate.State(), placed)
        invariant forall t :: tries <= t < tries + attemptCount - 1 ==> Overlaps(collides, Candidate(area, rand, t, i), placed)
        decreases MAX_ATTEMPTS - attemptCount
      {
        attemptCount := attemptCount + 1;
        candidate := NewCandidate(area, rand, tries + attemptCount - 1, i);
        overlap := CollidesWithAny(candidate, collides, placed);
      }
      SettleAt(area, rand, collides, placed, i, tries, 1, attemptCount);
      bubble := candidate;
    }

    /** One attempt's bubble: the centre is drawn by calls 2t and 2t + 1 of
        nextInt, each shifted by the radius, and the label is "" + (i + 1). */
    static method NewCandidate(area: Area, rand: Draws, t: nat, i: nat) returns (candidate: Sprite)
      ensures fresh(candidate)
      ensures candidate.State() == Candidate(area, rand, t, i)
    {
      var x := rand(2 * t, XBound(area)) + BUBBLE_RADIUS;
      var y := rand(2 * t + 1, YBound(area)) + BUBBLE_RADIUS;
      candidate := new Sprite.Bubble(x, y, BUBBLE_RADIUS, Label(i));
    }

    /** The scan of the list for a sprite the candidate collides with;
        `placed` is the list's states. */
    method CollidesWithAny(bubble: Sprite, collides: CollisionTest, ghost placed: seq<SpriteState>)
      returns (overlap: bool)
      requires SameStates(sprites, placed)
      ensures overlap == Overlaps(collides, bubble.State(), placed)
    {
      overlap := false;
      for k := 0 to |sprites|
        invariant overlap <==> exists m :: 0 <= m < k && collides(bubble.State(), placed[m])
      {
        var hit := bubble.IsCollision(sprites[k], collides);
        if hit {
          overlap := true;
        }
      }
    }

    /** update: every sprite is advanced by its own update exactly once, in
        list order; the expired flags are dropped and the list is unchanged. */
    method Update(motion: Motion)
      requires Valid()
      modifies sprites
      ensures Snapshots(sprites) == SpriteList.Advance(old(Snapshots(sprites)), motion)
    {
      for k := 0 to |sprites|
        invariant forall m :: 0 <= m < k ==> sprites[m].State() == motion(old(sprites[m].State())).0
        invariant forall m :: k <= m < |sprites| ==> sprites[m].State() == old(sprites[m].State())
      {
        var _ := sprites[k].Update(motion);
      }
    }

    /** draw: when the surface is valid, the sprites painted are exactly the
        visible ones, in list order; when it is not, nothing is painted. */
    method Draw(surfaceValid: bool) returns (painted: seq<SpriteState>)
      ensures painted == if surfaceValid then SpriteList.Visible(Snapshots(sprites)) else []
    {
      painted := [];
      if surfaceValid {
        ghost var all := Snapshots(sprites);
        for k := 0 to |sprites|
          invariant painted == SpriteList.Visible(all[..k])
        {
          assert all[..k + 1][..k] == all[..k];
          if sprites[k].GetVisibility() {
            painted := painted + [sprites[k].State()];
          }
        }
        assert all[..|sprites|] == all;
      }
    }

    /** onTouchEvent: on a pointer-down, every sprite whose hit test matches
        the point is hidden; any other event changes nothing. */
    method OnTouchEvent(event: MotionEvent, hits: HitTest)
      requires Valid()
      modifies sprites
      ensures Snapshots(sprites) ==
        if event.action == ACTION_DOWN then SpriteList.Hide(old(Snapshots(sprites)), hits, event.x, event.y)
        else old(Snapshots(sprites))
    {
      if event.action == ACTION_DOWN {
        for k := 0 to |sprites|
          invariant forall m :: 0 <= m < k ==>
            sprites[m].State() == SpriteList.HideIfTouched(old(sprites[m].State()), hits, event.x, event.y)
          invariant forall m :: k <= m < |sprites| ==> sprites[m].State() == old(sprites[m].State())
        {
          var touched := sprites[k].IsCollisionAt(event.x, event.y, hits);
          if touched {
            sprites[k].SetVisibility(false);
          }
        }
      }
    }
  }
}
