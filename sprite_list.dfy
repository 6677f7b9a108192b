/** What one frame does to the game view's list of sprites, stated on the
    sprites' states: the per-frame update, the hide-on-touch of a pointer-down
    event, and the choice of sprites that a draw pass paints. The class
    GameView (game_view.dfy) is proved to do exactly these. */
module SpriteList {
  import opened Sprites

  /** The elements of s that satisfy keep, in their order in s. */
  function Filter<T>(s: seq<T>, keep: T -> bool): (r: seq<T>)
    ensures |r| <= |s|
    ensures forall v :: v in r ==> v in s && keep(v)
  {
    if s == [] then []
    else Filter(s[..|s| - 1], keep) + (if keep(s[|s| - 1]) then [s[|s| - 1]] else [])
  }

  predicate IsVisible(v: SpriteState) {
    v.visible
  }

  /** The sprites a draw pass paints: the visible ones, in list order. */
  function Visible(s: seq<SpriteState>): seq<SpriteState> {
    Filter(s, IsVisible)
  }

  /** A state is kept by a filter exactly when it is in the list and passes. */
  lemma {:induction false} FilterMembership<T>(s: seq<T>, keep: T -> bool, v: T)
    ensures v in Filter(s, keep) <==> v in s && keep(v)
  {
    if s != [] {
      FilterMembership(s[..|s| - 1], keep, v);
      assert s == s[..|s| - 1] + [s[|s| - 1]];
    }
  }

  /** Filtering distributes over concatenation, so it keeps list order. */
  lemma {:induction false} FilterConcat<T>(a: seq<T>, b: seq<T>, keep: T -> bool)
    ensures Filter(a + b, keep) == Filter(a, keep) + Filter(b, keep)
  {
    if b != [] {
      var b' := b[..|b| - 1];
      assert (a + b)[..|a + b| - 1] == a + b';
      FilterConcat(a, b', keep);
    } else {
      assert a + b == a;
    }
  }

  /** A draw pass paints every visible sprite and only those. */
  lemma VisibleMembership(s: seq<SpriteState>, v: SpriteState)
    ensures v in Visible(s) <==> v in s && v.visible
  {
    FilterMembership(s, IsVisible, v);
  }

  /** When every sprite is visible the draw pass paints the whole list. */
  lemma {:induction false} VisibleAllVisible(s: seq<SpriteState>)
    requires forall k :: 0 <= k < |s| ==> s[k].visible
    ensures Visible(s) == s
  {
    if s != [] {
      VisibleAllVisible(s[..|s| - 1]);
      assert s == s[..|s| - 1] + [s[|s| - 1]];
    }
  }

  /** The effect of a pointer-down at (px, py) on one sprite: hidden when the
      hit test matches, unchanged otherwise. */
  function HideIfTouched(v: SpriteState, hits: HitTest, px: real, py: real): SpriteState {
    if hits(v, px, py) then v.(visible := false) else v
  }

  /** A pointer-down at (px, py) applied to every sprite of the list. */
  function Hide(s: seq<SpriteState>, hits: HitTest, px: real, py: real): (r: seq<SpriteState>)
    ensures |r| == |s|
    ensures forall k :: 0 <= k < |s| ==> r[k] == HideIfTouched(s[k], hits, px, py)
  {
    if s == [] then []
    else Hide(s[..|s| - 1], hits, px, py) + [HideIfTouched(s[|s| - 1], hits, px, py)]
  }

  /** After a pointer-down, a sprite is visible exactly when it was visible
      and was not hit; nothing else about any sprite changes. */
  lemma HideAt(s: seq<SpriteState>, hits: HitTest, px: real, py: real, k: int)
    requires 0 <= k < |s|
    ensures Hide(s, hits, px, py)[k].visible <==> s[k].visible && !hits(s[k], px, py)
    ensures Hide(s, hits, px, py)[k] == s[k].(visible := Hide(s, hits, px, py)[k].visible)
  {
  }

  /** The same pointer-down applied twice has the effect of applying it once. */
  lemma HideIdempotent(s: seq<SpriteState>, hits: HitTest, px: real, py: real)
    ensures Hide(Hide(s, hits, px, py), hits, px, py) == Hide(s, hits, px, py)
  {
    var once := Hide(s, hits, px, py);
    forall k | 0 <= k < |s|
      ensures HideIfTouched(once[k], hits, px, py) == once[k]
    {
    }
  }

  /** The draw pass that follows a pointer-down paints exactly the sprites that
      were visible and were not hit, in list order. */
  lemma {:induction false} VisibleAfterHide(s: seq<SpriteState>, hits: HitTest, px: real, py: real)
    ensures Visible(Hide(s, hits, px, py)) == Filter(s, (v: SpriteState) => v.visible && !hits(v, px, py))
  {
    if s != [] {
      var init := s[..|s| - 1];
      var h := Hide(s, hits, px, py);
      assert h[..|h| - 1] == Hide(init, hits, px, py);
      VisibleAfterHide(init, hits, px, py);
    }
  }

  /** One frame's update of every sprite: each advanced by its motion exactly
      once, visible or not; the expired flags are dropped. */
  function Advance(s: seq<SpriteState>, motion: Motion): (r: seq<SpriteState>)
    ensures |r| == |s|
    ensures forall k :: 0 <= k < |s| ==> r[k] == motion(s[k]).0
  {
    if s == [] then []
    else Advance(s[..|s| - 1], motion) + [motion(s[|s| - 1]).0]
  }

  /** Updating a list in two parts is updating it whole: no sprite's update
      depends on another's. */
  lemma AdvanceConcat(a: seq<SpriteState>, b: seq<SpriteState>, motion: Motion)
    ensures Advance(a + b, motion) == Advance(a, motion) + Advance(b, motion)
  {
  }
}
