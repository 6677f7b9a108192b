/** The round placement of GameView.prepareRound, stated as functions: which
    bubbles a round adds, given the screen area, the values the round's
    random source returns and the collision test. The method
    GameView.PrepareRound (game_view.dfy) is proved to compute exactly this;
    the lemmas here say what the placement guarantees. */
module Placement {
  import opened Sprites
  import Decimal

  /** Bubbles added per round. */
  const SPRITE_COUNT: nat := 10
  /** Radius of every bubble, in pixels. */
  const BUBBLE_RADIUS: nat := 100
  /** attemptCount may reach this value; the attempt that reaches it is kept
      whatever the collision test says. */
  const MAX_ATTEMPTS: nat := 11

  /** The random source of one round: rand(k, n) is what the k-th call
      (from 0) of nextInt(n) on the round's fresh generator returns. */
  type Draws = (nat, int) -> int

  /** nextInt(n) returns a value in [0, n) whenever n is positive. */
  ghost predicate NextIntContract(rand: Draws) {
    forall k: nat, n: int :: 0 < n ==> 0 <= rand(k, n) < n
  }

  /** The sprite zone, in whole pixels: (int) screenWidth by (int) gameHeight. */
  datatype Area = Area(width: int, height: int)

  /** The bounds passed to nextInt for the x and the y of a centre. */
  function XBound(area: Area): int {
    area.width - BUBBLE_RADIUS * 2 + 1
  }

  function YBound(area: Area): int {
    area.height - BUBBLE_RADIUS * 2 + 1
  }

  /** Both nextInt bounds are positive, so no nextInt call throws. */
  predicate Placeable(area: Area) {
    XBound(area) > 0 && YBound(area) > 0
  }

  /** The label of the i-th bubble (from 0): "" + (i + 1). */
  function Label(i: nat): string {
    Decimal.Show(i + 1)
  }

  /** The bubble built on attempt t of the round (t counts every attempt of
      the round, from 0) for the i-th bubble: the x is drawn by call 2t and
      the y by call 2t + 1, both shifted by the radius. */
  function Candidate(area: Area, rand: Draws, t: nat, i: nat): SpriteState {
    NewBubble(rand(2 * t, XBound(area)) + BUBBLE_RADIUS,
              rand(2 * t + 1, YBound(area)) + BUBBLE_RADIUS,
              BUBBLE_RADIUS, Label(i))
  }

  /** The candidate collides with at least one sprite already in the list. */
  predicate Overlaps(collides: CollisionTest, candidate: SpriteState, placed: seq<SpriteState>) {
    exists k :: 0 <= k < |placed| && collides(candidate, placed[k])
  }

  /** The bubble the do-while settles on and the final attemptCount. */
  datatype Settled = Settled(bubble: SpriteState, attempts: nat)

  /** The do-while for the i-th bubble, from the attempt that leaves
      attemptCount at n. `first` is the round attempt on which this bubble's
      first candidate was built, so attempt n builds its candidate on round
      attempt first + n - 1. */
  function Settle(area: Area, rand: Draws, collides: CollisionTest,
                  placed: seq<SpriteState>, i: nat, first: nat, n: nat): (r: Settled)
    requires 1 <= n <= MAX_ATTEMPTS
    ensures n <= r.attempts <= MAX_ATTEMPTS
    ensures r.bubble == Candidate(area, rand, first + r.attempts - 1, i)
    ensures r.attempts < MAX_ATTEMPTS ==> !Overlaps(collides, r.bubble, placed)
    ensures forall u :: first + n - 1 <= u < first + r.attempts - 1 ==>
              Overlaps(collides, Candidate(area, rand, u, i), placed)
    decreases MAX_ATTEMPTS - n
  {
    var candidate := Candidate(area, rand, first + n - 1, i);
    if Overlaps(collides, candidate, placed) && n < MAX_ATTEMPTS then
      Settle(area, rand, collides, placed, i, first, n + 1)
    else
      Settled(candidate, n)
  }

  /** An attempt whose candidate overlaps, made before the cap, is followed
      by another attempt. */
  lemma SettleRetries(area: Area, rand: Draws, collides: CollisionTest,
                      placed: seq<SpriteState>, i: nat, first: nat, n: nat)
    requires 1 <= n < MAX_ATTEMPTS
    requires Overlaps(collides, Candidate(area, rand, first + n - 1, i), placed)
    ensures Settle(area, rand, collides, placed, i, first, n) == Settle(area, rand, collides, placed, i, first, n + 1)
  {
  }

  /** An attempt whose candidate does not overlap, or the attempt that
      reaches the cap, settles on its candidate. */
  lemma SettleStops(area: Area, rand: Draws, collides: CollisionTest,
                    placed: seq<SpriteState>, i: nat, first: nat, n: nat)
    requires 1 <= n <= MAX_ATTEMPTS
    requires !Overlaps(collides, Candidate(area, rand, first + n - 1, i), placed) || n == MAX_ATTEMPTS
    ensures Settle(area, rand, collides, placed, i, first, n) == Settled(Candidate(area, rand, first + n - 1, i), n)
  {
  }

  /** When the attempts from n on overlapped up to attempt m, and attempt m
      either does not overlap or reaches the cap, the do-while started at n
      settles on attempt m's candidate. */
  lemma {:induction false} SettleAt(area: Area, rand: Draws, collides: CollisionTest,
                                    placed: seq<SpriteState>, i: nat, first: nat, n: nat, m: nat)
    requires 1 <= n <= m <= MAX_ATTEMPTS
    requires forall t :: first + n - 1 <= t < first + m - 1 ==> Overlaps(collides, Candidate(area, rand, t, i), placed)
    requires !Overlaps(collides, Candidate(area, rand, first + m - 1, i), placed) || m == MAX_ATTEMPTS
    ensures Settle(area, rand, collides, placed, i, first, n) == Settled(Candidate(area, rand, first + m - 1, i), m)
    decreases m - n
  {
    hide *;
    if n == m {
      SettleStops(area, rand, collides, placed, i, first, n);
    } else {
      SettleRetries(area, rand, collides, placed, i, first, n);
      SettleAt(area, rand, collides, placed, i, first, n + 1, m);
    }
  }

  /** The state of a round in progress: the list so far, the attemptCount
      each added bubble ended with, and the number of attempts made. */
  datatype Round = Round(sprites: seq<SpriteState>, attempts: seq<nat>, tries: nat)

  /** One pass of the for loop of prepareRound: the do-while settles the
      i-th bubble, which is appended to the list. */
  function Step(area: Area, rand: Draws, collides: CollisionTest, r: Round, i: nat): (next: Round)
    ensures |next.sprites| == |r.sprites| + 1 && next.sprites[..|r.sprites|] == r.sprites
    ensures |next.attempts| == |r.attempts| + 1 && next.attempts[..|r.attempts|] == r.attempts
  {
    var s := Settle(area, rand, collides, r.sprites, i, r.tries, 1);
    Round(r.sprites + [s.bubble], r.attempts + [s.attempts], r.tries + s.attempts)
  }

  /** The round after the first n passes of the for loop of prepareRound,
      started on the sprites already in the list. */
  function PlaceUpTo(area: Area, rand: Draws, collides: CollisionTest, existing: seq<SpriteState>, n: nat): (r: Round)
    requires n <= SPRITE_COUNT
    ensures |r.sprites| == |existing| + n && |r.attempts| == n
    ensures r.sprites[..|existing|] == existing
  {
    if n == 0 then Round(existing, [], 0)
    else
      var prev := PlaceUpTo(area, rand, collides, existing, n - 1);
      var r := Step(area, rand, collides, prev, n - 1);
      assert r.sprites[..|existing|] == r.sprites[..|prev.sprites|][..|existing|];
      r
  }

  /** The pass of the loop for bubble n appends to the round after n passes. */
  lemma PlaceUpToNext(area: Area, rand: Draws, collides: CollisionTest, existing: seq<SpriteState>, n: nat)
    requires n < SPRITE_COUNT
    ensures PlaceUpTo(area, rand, collides, existing, n + 1) == Step(area, rand, collides, PlaceUpTo(area, rand, collides, existing, n), n)
  {
  }

  /** A whole round added to the sprites already in the list: exactly
      SPRITE_COUNT bubbles are appended, and the sprites already in the list
      stay, unchanged and first. */
  function PlaceRound(area: Area, rand: Draws, collides: CollisionTest, existing: seq<SpriteState>): (r: Round)
    ensures |r.sprites| == |existing| + SPRITE_COUNT
    ensures |r.attempts| == SPRITE_COUNT
    ensures r.sprites[..|existing|] == existing
  {
    PlaceUpTo(area, rand, collides, existing, SPRITE_COUNT)
  }

  /** Bubble j (from 0) of a round placed after `base` earlier sprites: its
      attempt count is 1 to 11, it is a full-size visible bubble labelled
      j + 1, unless it took all 11 attempts it collides with no sprite before
      it, and its centre is in the zone whenever nextInt keeps its contract. */
  ghost predicate WellPlaced(area: Area, rand: Draws, collides: CollisionTest, r: Round, base: nat, j: nat)
    requires base + j < |r.sprites| && j < |r.attempts|
  {
    var s := r.sprites[base + j];
    && 1 <= r.attempts[j] <= MAX_ATTEMPTS
    && s.radius == BUBBLE_RADIUS as real
    && s.text == Some(Label(j))
    && s.visible
    && (r.attempts[j] < MAX_ATTEMPTS ==> !Overlaps(collides, s, r.sprites[..base + j]))
    && (NextIntContract(rand) && Placeable(area) ==> InArea(area, s))
  }

  /** The centre lies in [R, width - R] x [R, height - R]. */
  ghost predicate InArea(area: Area, s: SpriteState) {
    && BUBBLE_RADIUS as real <= s.x <= (area.width - BUBBLE_RADIUS) as real
    && BUBBLE_RADIUS as real <= s.y <= (area.height - BUBBLE_RADIUS) as real
  }

  /** Every candidate lies in the zone when nextInt keeps its contract. */
  lemma CandidateInArea(area: Area, rand: Draws, t: nat, i: nat)
    requires NextIntContract(rand) && Placeable(area)
    ensures InArea(area, Candidate(area, rand, t, i))
  {
    var x := rand(2 * t, XBound(area));
    var y := rand(2 * t + 1, YBound(area));
    assert 0 <= x < XBound(area) && 0 <= y < YBound(area);
  }

  /** The bubble the loop adds for index i is well placed. */
  lemma StepWellPlaced(area: Area, rand: Draws, collides: CollisionTest, r: Round, base: nat, i: nat)
    requires |r.sprites| == base + i && |r.attempts| == i
    ensures WellPlaced(area, rand, collides, Step(area, rand, collides, r, i), base, i)
  {
    var s := Settle(area, rand, collides, r.sprites, i, r.tries, 1);
    var next := Step(area, rand, collides, r, i);
    assert next.sprites[..base + i] == r.sprites;
    if NextIntContract(rand) && Placeable(area) {
      CandidateInArea(area, rand, r.tries + s.attempts - 1, i);
    }
  }

  /** A step keeps every earlier bubble well placed. */
  lemma StepKeepsWellPlaced(area: Area, rand: Draws, collides: CollisionTest, r: Round, base: nat, i: nat, j: nat)
    requires |r.sprites| == base + i && |r.attempts| == i && j < i
    requires WellPlaced(area, rand, collides, r, base, j)
    ensures WellPlaced(area, rand, collides, Step(area, rand, collides, r, i), base, j)
  {
    var next := Step(area, rand, collides, r, i);
    assert next.sprites[base + j] == r.sprites[base + j];
    assert next.attempts[j] == r.attempts[j];
    assert next.sprites[..base + j] == r.sprites[..base + j];
  }

  /** After n passes of the loop, each of the n bubbles added is well placed. */
  lemma {:induction false} PlaceUpToWellPlaced(area: Area, rand: Draws, collides: CollisionTest,
                                               existing: seq<SpriteState>, n: nat, j: nat)
    requires j < n <= SPRITE_COUNT
    ensures WellPlaced(area, rand, collides, PlaceUpTo(area, rand, collides, existing, n), |existing|, j)
  {
    var prev := PlaceUpTo(area, rand, collides, existing, n - 1);
    if j < n - 1 {
      PlaceUpToWellPlaced(area, rand, collides, existing, n - 1, j);
      StepKeepsWellPlaced(area, rand, collides, prev, |existing|, n - 1, j);
    } else {
      StepWellPlaced(area, rand, collides, prev, |existing|, n - 1);
    }
  }

  /** Every bubble of a whole round is well placed. */
  lemma PlaceRoundWellPlaced(area: Area, rand: Draws, collides: CollisionTest, existing: seq<SpriteState>, j: nat)
    requires j < SPRITE_COUNT
    ensures WellPlaced(area, rand, collides, PlaceRound(area, rand, collides, existing), |existing|, j)
  {
    PlaceUpToWellPlaced(area, rand, collides, existing, SPRITE_COUNT, j);
  }

  /** Each bubble of a round is built on 1 to 11 attempts, and one that was
      accepted before its 11th attempt collides with no sprite that was in the
      list when it was added: only the 11th attempt may overlap. */
  lemma PlaceRoundNoOverlap(area: Area, rand: Draws, collides: CollisionTest, existing: seq<SpriteState>, j: nat)
    requires j < SPRITE_COUNT
    ensures var r := PlaceRound(area, rand, collides, existing);
      && 1 <= r.attempts[j] <= MAX_ATTEMPTS
      && (r.attempts[j] < MAX_ATTEMPTS ==>
            !Overlaps(collides, r.sprites[|existing| + j], r.sprites[..|existing| + j]))
  {
    PlaceRoundWellPlaced(area, rand, collides, existing, j);
  }

  /** Bubble j of a round has radius BUBBLE_RADIUS, label "" + (j + 1), and
      is visible. */
  lemma PlaceRoundBubble(area: Area, rand: Draws, collides: CollisionTest, existing: seq<SpriteState>, j: nat)
    requires j < SPRITE_COUNT
    ensures var added := PlaceRound(area, rand, collides, existing).sprites[|existing|..];
      && |added| == SPRITE_COUNT
      && added[j].radius == BUBBLE_RADIUS as real
      && added[j].text == Some(Decimal.Show(j + 1))
      && added[j].visible
  {
    var r := PlaceRound(area, rand, collides, existing);
    PlaceRoundWellPlaced(area, rand, collides, existing, j);
    assert r.sprites[|existing|..][j] == r.sprites[|existing| + j];
  }

  /** No two bubbles of a round share a label. */
  lemma PlaceRoundLabelsDistinct(area: Area, rand: Draws, collides: CollisionTest, existing: seq<SpriteState>,
                                 m: nat, j: nat)
    requires m < j < SPRITE_COUNT
    ensures var added := PlaceRound(area, rand, collides, existing).sprites[|existing|..];
      added[m].text != added[j].text
  {
    PlaceRoundBubble(area, rand, collides, existing, m);
    PlaceRoundBubble(area, rand, collides, existing, j);
    Decimal.ShowInjective(m + 1, j + 1);
  }

  /** With nextInt keeping its contract, every centre a round places lies in
      [R, width - R] x [R, height - R]. */
  lemma PlaceRoundInArea(area: Area, rand: Draws, collides: CollisionTest, existing: seq<SpriteState>, j: nat)
    requires NextIntContract(rand) && Placeable(area)
    requires j < SPRITE_COUNT
    ensures var added := PlaceRound(area, rand, collides, existing).sprites[|existing|..];
      && |added| == SPRITE_COUNT
      && BUBBLE_RADIUS as real <= added[j].x <= (area.width - BUBBLE_RADIUS) as real
      && BUBBLE_RADIUS as real <= added[j].y <= (area.height - BUBBLE_RADIUS) as real
  {
    PlaceRoundWellPlaced(area, rand, collides, existing, j);
  }
}
