# Bubble Count: the game view and its sprites

This project models the core of the Bubble Count Android game: the game
view (`GameView`) and the sprites it manages (`Sprite`).

- The game view holds a list of sprites. At the start of a round it fills
  the list with `SPRITE_COUNT` (10) numbered bubbles of radius
  `BUBBLE_RADIUS` (100), placed at random in the sprite zone. Each bubble
  gets up to 11 attempts to land where it overlaps no sprite already in the
  list; the 11th attempt is kept whatever it overlaps.
- Once per frame the view advances every sprite by its `update`, then draws
  the visible sprites in list order.
- A pointer-down event hides every sprite whose hit test matches the
  touched point.
- A sprite is a mutable object with these fields: position, speed, radius,
  an optional (nullable) text label and a visibility flag. Each field has a
  getter and a setter. A sprite also has two collision queries, a
  per-frame update and a draw.

Files:

- `sprite.dfy` (module `Sprites`): the sprite class and `SpriteState`, the
  value its fields make up.
- `decimal.dfy` (module `Decimal`): Java's `"" + n` for the bubble labels,
  with its inverse.
- `sprite_list.dfy` (module `SpriteList`): what one frame does to the list,
  stated on sprite states: `Advance` (update), `Hide` (touch) and
  `Visible` (the choice a draw makes).
- `placement.dfy` (module `Placement`): the round placement as functions.
  `Settle` is the do-while for one bubble, `Step` is one pass of the for
  loop, `PlaceUpTo`/`PlaceRound` are the loop. The lemmas here state what a
  placed round guarantees.
- `game_view.dfy` (module `GameViews`): the `GameView` class. Its methods
  run the source's loops over the list of sprite objects and are proved
  equal to the functions above.

Abstractions:

- The random generator is a function `rand(k, n)`: the value the k-th call
  of `nextInt(n)` returns on the generator built for the round. Attempt t
  of a round (counted over all bubbles) draws the x with call 2t and the y
  with call 2t + 1, in the order Java evaluates the constructor's
  arguments.
- `nextInt`'s own contract (a result in [0, n)) is the hypothesis
  `NextIntContract`. Only the in-area lemmas use it.
- The bubble implementation is not part of this model. So the collision
  test between two sprites, the hit test at a point and a sprite's motion
  are function parameters over `SpriteState`.
- Java `float` values are `real`.
- Screen width and game height come in as the integers `(int) screenWidth`
  and `(int) gameHeight` that the placement uses.

Where the documentation and the code disagree, the model follows the code:

- The doc comment of `prepareRound` (GameView.java:145-147) says a sprite
  is skipped on its 11th attempt. The code adds it anyway (line 169), and
  the model adds it too (`Placement.PlaceRoundNoOverlap` only promises no
  overlap for bubbles accepted before the 11th attempt).
- `prepareRound` never clears the list, so the model appends. A second
  `onResume` leaves the first round's sprites in front of the new ones.
- `roundCount` is never incremented, so every method keeps it unchanged.
- `onTouchEvent` hit-tests every sprite, visible or not. Hiding a hidden
  sprite changes nothing, so this is not visible in the result.

## Model

The contracts below are stated in terms of a few reference definitions, which have no row of their own:
`Placement.Candidate` (the bubble built on one attempt, GameView.java:159-162),
`Placement.Overlaps` (the candidate collides with some sprite of the list, GameView.java:163-167),
`SpriteList.Visible` (the sprites a draw paints, GameView.java:195-200) and
`SpriteList.HideIfTouched` (the effect of a pointer-down on one sprite, GameView.java:210-212).

| member | source | states |
|---|---|---|
| Sprites.NewBubble | app/src/main/java/ca/chrisbarrett/bubblecount/view/GameView.java:159-162 | a bubble built for a round carries the label it was given and is visible |
| Sprites.Sprite.Bubble | app/src/main/java/ca/chrisbarrett/bubblecount/view/GameView.java:159-162 | the new sprite's state is the bubble at the given centre, radius and label |
| Sprites.Sprite.SetX | app/src/main/java/ca/chrisbarrett/bubblecount/view/game/model/Sprite.java:17-29 | getX after setX(x) returns x, and no other field changes |
| Sprites.Sprite.SetY | app/src/main/java/ca/chrisbarrett/bubblecount/view/game/model/Sprite.java:31-43 | getY after setY(y) returns y, and no other field changes |
| Sprites.Sprite.SetYSpeed | app/src/main/java/ca/chrisbarrett/bubblecount/view/game/model/Sprite.java:45-57 | getYSpeed after setYSpeed(s) returns s, and no other field changes |
| Sprites.Sprite.SetXSpeed | app/src/main/java/ca/chrisbarrett/bubblecount/view/game/model/Sprite.java:59-71 | getXSpeed after setXSpeed(s) returns s, and no other field changes |
| Sprites.Sprite.SetRadius | app/src/main/java/ca/chrisbarrett/bubblecount/view/game/model/Sprite.java:73-85 | getRadius after setRadius(r) returns r, and no other field changes |
| Sprites.Sprite.SetText | app/src/main/java/ca/chrisbarrett/bubblecount/view/game/model/Sprite.java:87-99 | getText after setText(t) returns t, null included, and no other field changes |
| Sprites.Sprite.SetVisibility | app/src/main/java/ca/chrisbarrett/bubblecount/view/game/model/Sprite.java:101-111 | getVisibility after setVisibility(b) returns b, and no other field changes |
| Sprites.Sprite.IsCollision | app/src/main/java/ca/chrisbarrett/bubblecount/view/game/model/Sprite.java:113-119 | reports the collision test of the two sprites' states and changes no sprite |
| Sprites.Sprite.IsCollisionAt | app/src/main/java/ca/chrisbarrett/bubblecount/view/game/model/Sprite.java:121-128 | reports the hit test of the sprite at the point and changes no sprite |
| Sprites.Sprite.Update | app/src/main/java/ca/chrisbarrett/bubblecount/view/game/model/Sprite.java:158-163 | the sprite takes its next state and reports whether it has expired |
| Sprites.Sprite.Draw | app/src/main/java/ca/chrisbarrett/bubblecount/view/game/model/Sprite.java:175-182 | an invisible sprite paints nothing; a visible one paints its current state |
| Decimal.Show | app/src/main/java/ca/chrisbarrett/bubblecount/view/GameView.java:162 | the label of a number is a non-empty string of decimal digits without a leading zero |
| Decimal.ParseShow | app/src/main/java/ca/chrisbarrett/bubblecount/view/GameView.java:162 | reading a label back as a number gives the number it was made from |
| Decimal.ShowInjective | app/src/main/java/ca/chrisbarrett/bubblecount/view/GameView.java:162 | different numbers get different labels |
| Placement.Settle | app/src/main/java/ca/chrisbarrett/bubblecount/view/GameView.java:155-168 | the do-while ends after 1 to 11 attempts on the last candidate built; when it ends before the 11th, that candidate overlaps no sprite in the list; every candidate before it overlapped one |
| Placement.SettleRetries | app/src/main/java/ca/chrisbarrett/bubblecount/view/GameView.java:168 | an overlapping candidate before the 11th attempt leads to another attempt |
| Placement.SettleStops | app/src/main/java/ca/chrisbarrett/bubblecount/view/GameView.java:168 | a candidate that overlaps nothing, or the 11th, ends the do-while and is the bubble kept |
| Placement.SettleAt | app/src/main/java/ca/chrisbarrett/bubblecount/view/GameView.java:155-168 | when attempts n to m - 1 overlapped and attempt m stops the loop, the do-while from n keeps attempt m's candidate with attemptCount m |
| Placement.Step | app/src/main/java/ca/chrisbarrett/bubblecount/view/GameView.java:155-169 | one pass of the for loop appends exactly one bubble and keeps the list before it |
| Placement.PlaceUpTo | app/src/main/java/ca/chrisbarrett/bubblecount/view/GameView.java:154-170 | after n passes the list has grown by n, and the sprites that were there stay first |
| Placement.PlaceUpToNext | app/src/main/java/ca/chrisbarrett/bubblecount/view/GameView.java:154-170 | the round after n + 1 passes is pass n applied to the round after n passes |
| Placement.PlaceRound | app/src/main/java/ca/chrisbarrett/bubblecount/view/GameView.java:150-171 | a round appends exactly SPRITE_COUNT bubbles; the sprites already in the list stay, unchanged and first |
| Placement.CandidateInArea | app/src/main/java/ca/chrisbarrett/bubblecount/view/GameView.java:160-161 | when nextInt keeps its contract, every candidate's centre lies in [R, width - R] x [R, height - R] |
| Placement.StepWellPlaced | app/src/main/java/ca/chrisbarrett/bubblecount/view/GameView.java:155-169 | the bubble a pass adds has 1 to 11 attempts, radius R, label i + 1, is visible, overlaps nothing before it unless it took 11 attempts, and lies in the zone |
| Placement.StepKeepsWellPlaced | app/src/main/java/ca/chrisbarrett/bubblecount/view/GameView.java:169 | appending a bubble leaves every earlier bubble well placed |
| Placement.PlaceUpToWellPlaced | app/src/main/java/ca/chrisbarrett/bubblecount/view/GameView.java:154-170 | every bubble added in the first n passes is well placed |
| Placement.PlaceRoundWellPlaced | app/src/main/java/ca/chrisbarrett/bubblecount/view/GameView.java:150-171 | every bubble of a round is well placed |
| Placement.PlaceRoundNoOverlap | app/src/main/java/ca/chrisbarrett/bubblecount/view/GameView.java:155-169 | each bubble of a round took 1 to 11 attempts; one accepted before the 11th overlaps no sprite that was in the list when it was added |
| Placement.PlaceRoundBubble | app/src/main/java/ca/chrisbarrett/bubblecount/view/GameView.java:159-162 | bubble j of a round has radius BUBBLE_RADIUS, label "" + (j + 1) and is visible |
| Placement.PlaceRoundLabelsDistinct | app/src/main/java/ca/chrisbarrett/bubblecount/view/GameView.java:162 | no two bubbles of a round share a label |
| Placement.PlaceRoundInArea | app/src/main/java/ca/chrisbarrett/bubblecount/view/GameView.java:160-161 | when nextInt keeps its contract, every centre of a round lies in [R, width - R] x [R, height - R] |
| SpriteList.Filter | app/src/main/java/ca/chrisbarrett/bubblecount/view/GameView.java:195-200 | the selection is no longer than the list and holds only members of the list that pass |
| SpriteList.FilterMembership | app/src/main/java/ca/chrisbarrett/bubblecount/view/GameView.java:195-200 | a state is selected exactly when it is in the list and passes |
| SpriteList.FilterConcat | app/src/main/java/ca/chrisbarrett/bubblecount/view/GameView.java:195-200 | selecting from two lists joined is joining their selections, so list order is kept |
| SpriteList.VisibleMembership | app/src/main/java/ca/chrisbarrett/bubblecount/view/GameView.java:195-200 | a draw paints every visible sprite of the list and only those |
| SpriteList.VisibleAllVisible | app/src/main/java/ca/chrisbarrett/bubblecount/view/GameView.java:195-200 | when every sprite is visible a draw paints the whole list in order |
| SpriteList.Hide | app/src/main/java/ca/chrisbarrett/bubblecount/view/GameView.java:206-213 | a pointer-down keeps the length and order of the list, hiding exactly the sprites whose hit test matches |
| SpriteList.HideAt | app/src/main/java/ca/chrisbarrett/bubblecount/view/GameView.java:209-212 | after a pointer-down a sprite is visible exactly when it was visible and not hit, and nothing else about it changes |
| SpriteList.HideIdempotent | app/src/main/java/ca/chrisbarrett/bubblecount/view/GameView.java:206-213 | the same pointer-down applied twice has the effect of applying it once |
| SpriteList.VisibleAfterHide | app/src/main/java/ca/chrisbarrett/bubblecount/view/GameView.java:206-213 | the draw after a pointer-down paints exactly the sprites that were visible and not hit, in list order |
| SpriteList.Advance | app/src/main/java/ca/chrisbarrett/bubblecount/view/GameView.java:176-183 | each sprite of the list is advanced by its own update, exactly once, and the length is kept |
| SpriteList.AdvanceConcat | app/src/main/java/ca/chrisbarrett/bubblecount/view/GameView.java:176-183 | updating a list in two parts is updating it whole, so no update depends on another sprite |
| GameViews.GameView.constructor | app/src/main/java/ca/chrisbarrett/bubblecount/view/GameView.java:89-97 | a new view is playing, with round count 0 and no sprites |
| GameViews.GameView.OnResume | app/src/main/java/ca/chrisbarrett/bubblecount/view/GameView.java:118-127 | the view takes the zone's size, is playing, and holds its old sprites followed by new sprite objects in the states of the round PlaceRound gives, or nothing new when nextInt would throw |
| GameViews.GameView.OnPause | app/src/main/java/ca/chrisbarrett/bubblecount/view/GameView.java:103-112 | the view stops playing and nothing else changes |
| GameViews.GameView.PrepareRound | app/src/main/java/ca/chrisbarrett/bubblecount/view/GameView.java:150-171 | the list becomes its old sprites followed by SPRITE_COUNT new sprite objects whose states are exactly PlaceRound's; with a bound nextInt rejects, the list is unchanged |
| GameViews.GameView.AddBubble | app/src/main/java/ca/chrisbarrett/bubblecount/view/GameView.java:155-169 | one pass of the for loop appends one new sprite object whose state is Step's, and advances the draw count by its attempts |
| GameViews.GameView.PlaceBubble | app/src/main/java/ca/chrisbarrett/bubblecount/view/GameView.java:155-168 | the do-while ends with the bubble and the attemptCount Settle gives, and changes no sprite in the list |
| GameViews.GameView.NewCandidate | app/src/main/java/ca/chrisbarrett/bubblecount/view/GameView.java:159-162 | an attempt builds a new sprite at the centre drawn by calls 2t and 2t + 1, shifted by the radius |
| GameViews.GameView.CollidesWithAny | app/src/main/java/ca/chrisbarrett/bubblecount/view/GameView.java:158-167 | the scan reports an overlap exactly when the candidate collides with some sprite of the list |
| GameViews.GameView.Update | app/src/main/java/ca/chrisbarrett/bubblecount/view/GameView.java:176-183 | the states of the list become Advance of the old states; the list itself is unchanged |
| GameViews.GameView.Draw | app/src/main/java/ca/chrisbarrett/bubblecount/view/GameView.java:188-203 | with a valid surface the sprites painted are exactly the visible ones, in list order; otherwise nothing is painted |
| GameViews.GameView.OnTouchEvent | app/src/main/java/ca/chrisbarrett/bubblecount/view/GameView.java:205-216 | on ACTION_DOWN the states become Hide of the old states at the event's point; any other event changes nothing |

## Left out

- The worker thread, the `run` loop on `isPlaying` and the `join` in `onPause`: they concern concurrency between the UI thread and the game thread. `OnPause` models only the flag.
- `onResume`'s screen metrics (`heightPixels * 0.8f`, `textHeight`): this is float arithmetic on display data. `OnResume` takes the truncated width and height as integers.
- `java.util.Random` itself is replaced by the injected function `rand`. The fresh generator of each round is a fresh `rand` passed to each call.
- `GameViews.GameView.PrepareRound`: when a bound is not positive, `nextInt` throws on the first attempt's x call (a width too small) or y call (a height too small), before any bubble is added. The model decides this case up front and returns `IllegalArgumentException` with the list unchanged. It does not model the exception unwinding.
- Canvas and surface calls (`lockCanvas`, `drawColor`, `drawLine`, `drawText`, `drawCircle`, `unlockCanvasAndPost`) are rendering I/O. `Draw` returns the list of states it would paint.
- The bubble implementation is not part of this model. So there is no concrete geometry for either `isCollision`, and no concrete motion for `update`. They are parameters, and no symmetry or distance formula is assumed.
- The bubble constructor is not part of this model either. `NewBubble` assumes that a new bubble is at rest (speed 0) and visible.
- `Sprites.Sprite.IsCollision` and `Sprites.Sprite.IsCollisionAt`: the result is whatever the injected test says, since no implementation exists to state more.
- `getWhatToDraw`, `getWhereToDraw`, `getSpriteImage`, `setSpriteImage`, `animate` and `touched` of `Sprite`: they deal in Android `Rect`/`Bitmap` types, or are hooks with no stated behaviour.
- `GameViews.GameView.OnTouchEvent` does not model the value returned by `super.onTouchEvent`, which belongs to the Android view.
- `Sprites.Sprite.Update`: the expired flag is returned and, as in the game view, ignored. Nothing removes expired sprites.
- Float precision: positions and speeds are exact reals, so rounding of `float` is not modelled.
- `AbstractEngine`, `BubbleTextView`, `PaintCache` and `BubbleFontCache` are not part of this model: a question provider without logic, a UI widget, and resource wrappers.
