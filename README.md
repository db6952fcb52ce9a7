# Galactic Math: a verified model of the game state

Galactic Math is a browser game. The player flies a crosshair over a square
field of floating bubbles. Each bubble carries an operator and an operand
(`+3`, `*(-2)`, `/4`). Shooting the bubbles under the crosshair folds them
into the player's number, `current`, in the order they entered the
crosshair. The round is won when `current` reaches `target`. It is lost when
`|current|` passes 500, or when `current` becomes 0 in a level without `+`.
A menu box holds three panes (level list, directions, end screen). A tutorial
slideshow runs on polled timers, and a bonus rocket flies across now and
then. Shooting the rocket grounds every bubble.

This project models the game-state core of `js/main.js` in Dafny:

- the held-key list;
- the arithmetic of operands and targets;
- level generation;
- `shoot`;
- the pane and pause logic;
- the fade queues;
- the timer, particle, rocket and bubble loops of the per-frame `update`.

The pure logic is a set of modules of functions and lemmas. Each module
follows one part of the program:

- `JsMath`, `JsArray`, `Sweep`: JavaScript number and array primitives;
- `Keys`, `Viewport`, `Rocketry`, `Menu`, `Fades`, `Timers`, `Puzzle`, `Pool`, `Shooting`: the game's parts.

The script's globals are the fields of one class, `GameState.Game`. Its
methods update those fields with the source's own loops and splices. The
method of each operation of the script is proved to leave the state that a pure
function of the old state gives, and the properties are proved as lemmas
about those functions. `Game.Frame` and the five methods it is cut into
(`Restyle`, `HoldFire`, `RunClock`, `Launch`, `Drift`) are the exception:
they are proved only to keep `Valid`. The invariant
`Game.Valid` covers these parts:

- pane index and slide counter in range;
- keys well formed;
- all looks defined;
- level in `1..5`;
- the bubble pool consistent;
- the respawn flag in step with the respawn timer.

The constructor and `GameState.Load`, which runs the first `generateLevel()`,
establish `Valid`, and `Game.Frame`, one whole `update`, keeps it. Methods
that work on one part of the state require and keep only the parts of
`Valid` they need.

Modelling choices:

- **Numbers.** JavaScript numbers are `real`s. `Math.round(x)` is `floor(x + 1/2)`. `a % b == 0` is "`b != 0` and `a / b` is whole", because a zero divisor gives NaN, which never equals 0.
- **Randomness and time.** Every `Math.random()` is a draw `u` in `[0, 1)`, passed in as a parameter, and `Date.now()` is the integer `now`. `createCircle`'s draws come from a supply `spawns: nat -> SpawnDraws`, indexed by how many bubbles have been made so far.
- **Bubble identity.** Bubbles are objects shared by `circles`, `simpleCircles` and `collidingCircles`, so they live in a map from identity to bubble, and the arrays hold identities.
- **The camera.** `Camera.update` is an input: the frame takes the camera before and after it.

Some behaviours of the code, as written, are modelled faithfully and proved:

- **The `changePane` guard never blocks.** Its first `indexOf` receives `panes[index] < 0 && …`, which is `false`. The last two look in `panels`, a container, where every index reads `undefined`. So every call switches panes, even while the same panes are still fading (`Menu.ChangePaneGuardHolds`).
- **A forward splice skips the next element.** The fade, timer and particle loops splice out an element and still advance the index, so the element that slides into its place is skipped that frame (`Sweep.AdjacentRemovalSkips`, `Fades.PassSkipsNext`). A replacement bubble appended in the bubble loop is visited in the same frame, unless it ends up in the skipped position.
- **A key-up of an unheld tracked key pushes it**, as a key-down would (`Keys.KeyUpOfUnheldKeyPushes`).
- **`randomRadius("/")` is `undefined` when `current <= 0`.** Its option list is then empty. Such a bubble is never divisible, so it is deactivated on its first visit and can never be shot (`Puzzle.DivisorListSpec`, `Pool.CheckedRules`).
- **The rocket never scales out.** `rocket.scale > 0` compares a point object with a number, which is always false (`Rocketry.ScaleNeverShrinks`).
- **`selectLevel` queues the menu box to fade out twice**: once inside `togglePause` and once itself (`Menu.SelectLevelFromOpenMenu`).
- **Spliced bubbles can stay in `collidingCircles`.** A bubble removed from `circles` keeps its place in `collidingCircles`, but it is inactive, so `shoot` ignores it.
- **The end text never resets.** Once a loss sets `endText` to "You lost!", no code sets it back.
- **The `generateLevel` target loop can run forever.** With `current == 0` in a level without `+`, every target is 0, so the loop never exits (`Puzzle.TargetLoopCannotSettle`). On a finite supply of draws the model reports this as `settled == false`.
- **The rocket test in `shoot`** uses the rocket as it is at the time of the call; `shoot` does not move the rocket.

Methods keep the parts of `Valid` outside their `modifies` clause by
framing: each part reads only its own fields. `CreateCircle` alone does not
promise a valid pool. `Populate`, `Repopulate` and the bubble loop establish
it with `Pool.SpawnKeepsValid` and `Pool.PopulatedValid`.

## Model

| member | source | states |
|---|---|---|
| `JsMath.Round` | js/main.js:446 | `Math.round` lands within one half of its argument |
| `JsMath.Abs` | js/main.js:1426 | `Math.abs` is nonnegative and equals the argument or its negation |
| `JsArray.IndexOf` | js/main.js:1613 | `indexOf` gives the first position holding the value, or -1 exactly when it is absent |
| `JsArray.SpliceMembers` | js/main.js:1634-1635 | `splice(i, 1)` drops only position `i`: the elements before stay put, those after shift down by one, and the multiset loses one copy of the removed element |
| `JsArray.SpliceOfIndexOf` | js/main.js:158 | on a list without repeats, splicing at `indexOf(x)` removes `x` and keeps every other member, still without repeats |
| `JsArray.SpliceKeepsNoDuplicates` | js/main.js:1613 | splicing keeps a list free of repeats |
| `JsArray.CountSplice` | js/main.js:1542 | splicing out an element lowers the count of elements with a property by one exactly when the removed element has it |
| `Sweep.SweepFromIsSurvivors` | js/main.js:1546-1552 | the splice-while-advancing loop keeps the part already passed and turns the rest into the survivors of an independent recursive definition |
| `Sweep.SweepIsSurvivors` | js/main.js:1546-1552 | a whole pass of the loop yields exactly the survivors |
| `Sweep.FilterMembers` | js/main.js:1548-1550 | plain filtering keeps exactly the members that are not dropped |
| `Sweep.SurvivorsShrink` | js/main.js:1546-1552 | the loop only removes elements |
| `Sweep.SurvivorsKeep` | js/main.js:1546-1552 | an element that should stay keeps every one of its occurrences |
| `Sweep.SurvivorsWithoutNeighbours` | js/main.js:1546-1552 | when no two removable elements are adjacent, the loop removes every removable element, as filtering would |
| `Sweep.AdjacentRemovalSkips` | js/main.js:1546-1552 | of two removable elements side by side, the second survives the pass |
| `Keys.ReadKeyKeepsWellFormed` | js/main.js:149-164 | `keysDown` stays free of repeats and holds only tracked key codes |
| `Keys.ReadKeyMembers` | js/main.js:149-164 | after an event only the event's key can change; it is held unless it was held and the event is its key-up |
| `Keys.ReadKeyNoChange` | js/main.js:155-157 | a key-down of a held key, and any event of an untracked key, leave `keysDown` as it was |
| `Keys.KeyUpOfUnheldKeyPushes` | js/main.js:160-162 | a key-up of a tracked key that is not held appends it, exactly as a key-down does |
| `Keys.ReleaseThenPress` | js/main.js:156-162 | a key-up of a held key followed by its key-down restores the set of held keys |
| `Viewport.CentreOnScreenInView` | js/main.js:328-332 | a box of positive width and height whose centre is on screen is in view; at size 0 a centre on the screen's edge is not in view, so a bubble at scale 0 needs its centre strictly inside |
| `Viewport.InViewGrows` | js/main.js:328-332 | enlarging a box never takes it out of view |
| `Viewport.CloserThanBox` | js/main.js:128-130 | two points closer than `r` differ by less than `r` in each coordinate |
| `Viewport.CrosshairRadius` | js/main.js:666 | the crosshair radius is an eighth of the smaller side of the screen at load |
| `Rocketry.Reset` | js/main.js:415-424 | `resetRocket` leaves the rocket active, hidden and of zero width and height, with its texture kept |
| `Rocketry.ScaleNeverShrinks` | js/main.js:1512-1519 | the scale step never shrinks the rocket: an active rocket grows by exactly 0.01 while below 0.5 and stays below 0.51; at 0.5 or more, or inactive, nothing changes |
| `Rocketry.ResetRocketHitRange` | js/main.js:1436 | a freshly reset rocket, of zero width, is hit only when its position is within the crosshair radius |
| `Menu.ChangePaneGuardHolds` | js/main.js:1122 | the guard of `changePane`, evaluated as written, holds for every state and every requested pane |
| `Menu.ChangePane` | js/main.js:1121-1129 | the pane index stays in range |
| `Menu.ChangePaneAlwaysSwitches` | js/main.js:1121-1129 | every call switches to the requested pane, queues the new pane to fade in and the old one to fade out once more, and leaves `pause` and `menuBox.active` alone |
| `Menu.ChangePaneTwiceRepeats` | js/main.js:1121-1129 | asking twice for the same pane queues it twice for fading in |
| `Menu.TogglePause` | js/main.js:1004-1024 | the pane index stays in range |
| `Menu.TogglePauseEffect` | js/main.js:1008-1022 | away from the directions pane, an effective toggle leaves `pause` equal to `menuBox.active`; closing the menu queues the menu box and play button out and the pause button and HUD in, and opening does the reverse |
| `Menu.TogglePauseDebounces` | js/main.js:1008-1022 | until the fades queued by an effective toggle finish, a second toggle does nothing |
| `Menu.TogglePauseFromDirections` | js/main.js:1005-1006 | on the directions pane, toggling is `changePane(0)` and leaves `pause` alone |
| `Menu.SelectLevel` | js/main.js:1100-1104 | the menu steps of `selectLevel` leave the pane index in range and the menu box inactive |
| `Menu.SelectLevelFromOpenMenu` | js/main.js:1099-1104 | choosing a level from the open menu resumes play on the level pane and queues the menu box to fade out twice |
| `Menu.NextSlideCycles` | js/main.js:1299-1302 | the slide counter steps modulo the three slides |
| `Fades.PassTotal` | js/main.js:1456-1474 | a fade pass keeps the look of every element defined |
| `Fades.PassKeepsPrefix` | js/main.js:1456-1474 | positions the pass has gone by are not touched again |
| `Fades.PassShrinks` | js/main.js:1456-1474 | a fade pass only removes queue entries |
| `Fades.PassLeavesOthers` | js/main.js:1456-1474 | an element not waiting in the rest of the queue keeps its alpha and visibility |
| `Fades.PassSettlesLeavers` | js/main.js:1456-1474 | an element that leaves the queue is settled: hidden at alpha 0 by the fade-out pass, shown at alpha 1 by the fade-in pass |
| `Fades.PassSkipsNext` | js/main.js:1462 | after a settled element is spliced out, the element that slid into its place is passed over |
| `Fades.PassIsSurvivors` | js/main.js:1456-1474 | on a queue without repeats, a pass removes exactly what the generic forward-splice sweep removes, each element judged by its look before the pass; a repeated entry, as `selectLevel` can queue `menuBox` twice, is nudged once per occurrence in each pass, and `PassTotal`, `PassKeepsPrefix`, `PassShrinks`, `PassLeavesOthers` and `PassSettlesLeavers` hold for such queues too |
| `Timers.ParticleSweepKeepsLive` | js/main.js:374-384 | a new particle is not expired within its 500 ms lifespan, and the particle loop keeps every live particle and adds none |
| `Timers.FireAppendsNotDue` | js/main.js:1298-1312 | a timer action only appends timers, and none of them is already due |
| `Timers.FiredLeavesFewerDue` | js/main.js:1539-1544 | firing a due timer and splicing it out leaves fewer due timers ahead, so the loop ends |
| `Timers.FireKeepsArmed` | js/main.js:1539-1544 | firing and splicing out a timer keeps `rocketQueued` true exactly when one respawn timer is pending, with never more than one |
| `Timers.SweepKeepsArmed` | js/main.js:1539-1544 | the timer loop keeps at most one respawn timer pending, with `rocketQueued` saying whether one is |
| `Timers.SweepKeepsSlide` | js/main.js:1298-1302 | the slide counter stays a valid slide through the timer loop |
| `Timers.SweepKeepsPending` | js/main.js:347-353 | a timer whose end time has not passed is never lost by the loop |
| `Timers.RespawnFiring` | js/main.js:1564-1569 | the respawn timer clears `rocketQueued`, and resets the rocket exactly when it is out of view |
| `Timers.FlyKeepsArmed` | js/main.js:1554-1572 | the rocket step arms a respawn timer only when none is pending, at least 5 seconds ahead, keeping flag and timer in step |
| `Puzzle.PerformOperation` | js/main.js:571-590 | the result undoes to the first operand: subtracting, adding, dividing or multiplying back by the second yields it |
| `Puzzle.OperationInverse` | js/main.js:571-590 | applying an operator and then its inverse with the same nonzero operand restores the number |
| `Puzzle.AdditiveOperandBounds` | js/main.js:444-446 | a `+` or `-` operand is a whole number in `[0, range + 1/2]` |
| `Puzzle.Scale` | js/main.js:449 | the divisor `current != 0 ? current : 1` is never zero |
| `Puzzle.ScaleOperandBounds` | js/main.js:448-449 | a `*` operand has magnitude at most half of `range / current`, plus one half |
| `Puzzle.OptionsFromSound` | js/main.js:457-461 | every value the divisor loop lists is a whole step from `-current`, within `[-current, current]`, and divides `current` |
| `Puzzle.OptionsFromComplete` | js/main.js:457-461 | every such divisor from the loop's position on is listed |
| `Puzzle.OptionsFromIncreasing` | js/main.js:457-461 | the options come out in strictly increasing order |
| `Puzzle.DivisorListSpec` | js/main.js:451-461 | the `/` options are exactly the divisors the loop visits, increasing, and empty exactly when `current <= 0` |
| `Puzzle.DivisorOptions` | js/main.js:456-461 | the loop from `-current` to `current` builds exactly the option list |
| `Puzzle.NextCandidate` | js/main.js:457 | the loop's unit steps visit every candidate |
| `Puzzle.OppositeDivides` | js/main.js:457-458 | for nonzero `current`, the first value visited, `-current`, is an option |
| `Puzzle.CandidatesOfWholeCurrent` | js/main.js:457 | for a whole `current` the candidates are the whole numbers in `[-current, current]` |
| `Puzzle.PickIndex` | js/main.js:462 | `Math.floor(Math.random() * n)` is a valid position among `n` options |
| `Puzzle.RadiusOfSpec` | js/main.js:442-465 | a `+`, `-` or `*` operand is a whole number; a `/` operand exists exactly when `current > 0` and is then a nonzero divisor of `current` |
| `Puzzle.RandomRadius` | js/main.js:442-465 | the method with the divisor loop returns the operand of the specification |
| `Puzzle.RandomTargetShape` | js/main.js:470-477 | with `+` the target is a whole number within `range / 2 + 1/2` of zero; without it, a whole multiple of `current`, hence 0 when `current` is 0 |
| `Puzzle.TargetIsMultiple` | js/main.js:475 | without `+`, a target divided by a nonzero `current` is whole |
| `Puzzle.Settle` | js/main.js:625-627 | the target loop stops at the first draw whose target differs from `current`, or at the last draw when none does |
| `Puzzle.NewRoundRules` | js/main.js:624-627 | `generateLevel` sets `current` from the `*` rule; the target differs from `current` exactly when the loop settled; every earlier draw repeated `current`; an unsettled loop used every draw |
| `Puzzle.DrawTarget` | js/main.js:625-627 | the do-while loop ends with a target different from `current` unless the draws run out, and stops where `Settle` says |
| `Puzzle.TargetLoopCannotSettle` | js/main.js:475 | with `current == 0` in a level without `+`, every draw gives target 0 |
| `Puzzle.Resolve` | js/main.js:1420-1433 | a won round is exactly `current == target`; a loss is exactly `current != target` together with the loss rule |
| `Pool.NewBubble` | js/main.js:494-564 | `createCircle` makes an active bubble with an operator of the level, at scale 0 |
| `Pool.NewBubbleWellMade` | js/main.js:506 | a new bubble lacks an operand only when it is a `/` bubble, and a `/` bubble has one exactly when `current > 0`; a `/` operand is never 0 |
| `Pool.BounceTurnsInward` | js/main.js:1590-1600 | past a wall the velocity points back in, with unchanged speed; inside the field nothing changes |
| `Pool.CheckedRules` | js/main.js:1601-1627 | a visit keeps the operand, never reactivates, deactivates a `/` bubble whose operand does not divide `current`, leaves the others active, and sets visibility by `inView` |
| `Pool.FreshIdUnused` | js/main.js:562-563 | the next identity is in none of the lists |
| `Pool.CollideKeepsNoDuplicates` | js/main.js:1607-1615 | `collidingCircles` stays free of repeats; a touching bubble is in it afterwards and a non-touching one is not |
| `Pool.SpawnKeepsValid` | js/main.js:562-563 | `createCircle` appends one fresh identity to `circles` and `simpleCircles` alike and keeps every old bubble and the pool valid |
| `Pool.PopulatedNext` | js/main.js:648-650 | each further call of `createCircle` spawns the bubble made from the next draws |
| `Pool.PopulatedValid` | js/main.js:648-650 | the `createCircle` loop keeps the pool valid |
| `Pool.SpawnManyShape` | js/main.js:648-650 | `n` calls append `n` consecutive fresh identities to `circles` and leave `collidingCircles` alone |
| `Pool.SpawnManyCounts` | js/main.js:648-650 | `n` calls use up `n` identities and `n` sets of draws |
| `Pool.SpawnManyKeeps` | js/main.js:648-650 | `n` calls leave every existing bubble as it was |
| `Pool.SpawnManyFresh` | js/main.js:648-650 | the bubbles the calls make are new and active |
| `Pool.ExaminedKeepsValid` | js/main.js:1584-1627 | the checks of a visit keep the pool valid and leave `circles` alone |
| `Pool.RemovalKeepsValid` | js/main.js:1634-1635 | splicing a position out of both arrays keeps them equal and the pool valid |
| `Pool.VisitKeepsValid` | js/main.js:1582-1646 | a visit keeps the pool valid, never lengthens `circles`, and forgets no bubble |
| `Pool.VisitRemoval` | js/main.js:1622-1645 | a bubble is removed exactly when the checks leave it inactive below alpha 0.01; then at most one replacement is appended, and only below the population; a non-dividing `/` bubble ends inactive |
| `Pool.VisitColliding` | js/main.js:1601-1618 | a bubble in view is in `collidingCircles` afterwards exactly when it touches the crosshair; out of view the list is unchanged; no other entry changes |
| `Pool.TickFrom` | js/main.js:1582-1646 | the rest of the bubble loop keeps the pool valid |
| `Pool.Tick` | js/main.js:1582-1646 | the bubble loop keeps the pool valid, `circles` and `simpleCircles` equal |
| `Pool.TickPopulationBound` | js/main.js:1629-1639 | the loop never grows `circles` past the larger of its old length and the population |
| `Pool.TickNeverReactivates` | js/main.js:1582-1646 | no bubble the loop starts with is reactivated |
| `Pool.VisitTouchesOne` | js/main.js:1582-1646 | a visit changes no bubble but the visited one |
| `Pool.TickRemovesOnlySpent` | js/main.js:1629-1635 | every bubble the loop takes out of `circles` is inactive with alpha below 0.01 |
| `Pool.StaysListed` | js/main.js:1629-1635 | a visit removes no bubble but the visited one |
| `Pool.RemovedStaysPut` | js/main.js:1582-1646 | a bubble no longer in `circles` is not touched by the loop and does not come back |
| `Pool.DeactivationKeepsValid` | js/main.js:1438-1440 | deactivating any bubbles keeps the pool valid |
| `Pool.RegenerateRules` | js/main.js:633-650 | after `generateLevel` the old bubbles are inactive, unlisted ones untouched, and exactly `population` new active bubbles are appended |
| `Shooting.ActiveShots` | js/main.js:1410-1412 | the shots are at most the colliding entries, and none divides by zero |
| `Shooting.VolleyFrom` | js/main.js:1410-1418 | the loop keeps the same bubbles, all still shootable when active |
| `Shooting.ActiveShotsFrame` | js/main.js:1410-1412 | the shots depend only on the colliding bubbles |
| `Shooting.VolleyIsApply` | js/main.js:1410-1418 | on a list without repeats the loop folds exactly the active entries into `current` in list order, counting one hit per active entry |
| `Shooting.VolleyDeactivates` | js/main.js:1410-1413 | the loop deactivates every colliding bubble and leaves the rest as they were, even with repeats |
| `Shooting.VolleyKeepsValid` | js/main.js:1410-1418 | the loop keeps the pool valid |
| `Shooting.SparksMore` | js/main.js:1414-1416 | one more applied bubble adds ten more particles |
| `Shooting.ConcludeKeeps` | js/main.js:1419-1433 | the win and loss checks change neither the bubbles, `current` nor the particles |
| `Shooting.ShootWhilePaused` | js/main.js:1408 | while paused `shoot` changes nothing |
| `Shooting.ShootPieces` | js/main.js:1407-1443 | unpaused, `current` and the particles come from the volley alone, and a rocket hit grounds every listed bubble |
| `Shooting.ShootApplies` | js/main.js:1410-1418 | unpaused, `current` becomes the fold of the active colliding bubbles in list order, with ten particles per applied bubble |
| `Shooting.StruckRules` | js/main.js:1410-1441 | colliding bubbles end inactive; without a rocket hit the others are unchanged; with one every listed bubble is inactive |
| `Shooting.ShootDeactivates` | js/main.js:1410-1441 | unpaused, `shoot` deactivates every colliding bubble and leaves the others alone unless the rocket was hit, which deactivates all listed bubbles |
| `Shooting.EndRoundRules` | js/main.js:1420-1423 | ending a round shows the end pane and hides the level and directions panes, leaving the text |
| `Shooting.ShootResolves` | js/main.js:1419-1433 | a win or a loss goes to the end pane with the level and directions panes hidden; "You lost!" is set exactly on a loss; a round that goes on keeps the menu and looks |
| `GameState.Game.constructor` | js/main.js:143-1401 | the globals as the script sets them up around its first `generateLevel()`: no keys, level 1, the directions pane in the open menu, slide 0, the load-time looks and end text, the rocket reset, one `advanceSlide` timer, the crosshair radius from the load-time size, and `Valid`; the round is still the declared one, `current` and `target` 0 with no bubbles, until `GameState.Load` runs `generateLevel()` |
| `GameState.Load` | js/main.js:661 | at load, the first `generateLevel()` of level 1 from `current == 0` sets `current` and `target` as `Puzzle.NewRound` and makes the level's bubbles from an empty pool as `Pool.Regenerate`; a target differing from `current` is drawn whenever any draw gives one; the load-time looks (871, 898, 1040-1041, 1194, 1400-1401) and end text (1331) are set; one `advanceSlide` timer (1313); the crosshair radius fixed (666); and `Valid` |
| `GameState.Game.FirstLevel` | js/main.js:619-660 | `generateLevel` as `GenerateLevel` states it, leaving every other field alone |
| `GameState.Game.ReadKey` | js/main.js:149-164 | updates `keysDown` as `Keys.ReadKey` and keeps it well formed |
| `GameState.Game.ChangePane` | js/main.js:1121-1129 | updates the menu as `Menu.ChangePane` |
| `GameState.Game.TogglePause` | js/main.js:1004-1024 | updates the menu as `Menu.TogglePause` |
| `GameState.Game.AdvanceSlide` | js/main.js:1298-1312 | steps the slide modulo 3, queues the slide area out, schedules the two slide timers, and keeps the respawn bookkeeping |
| `GameState.Game.FadeOutPass` | js/main.js:1456-1464 | the `fadeOut` loop yields `Fades.FadeOutPass` |
| `GameState.Game.FadeInPass` | js/main.js:1466-1474 | the `fadeIn` loop yields `Fades.FadeInPass` |
| `GameState.Game.RunAction` | js/main.js:347-353 | running a timer's action changes the state as `Timers.Fire` and keeps the slide valid |
| `GameState.Game.TimerSweep` | js/main.js:1539-1544 | the timer loop yields `Timers.SweepFrom` and keeps the slide valid and the respawn bookkeeping |
| `GameState.Game.ParticleSweep` | js/main.js:1546-1552 | the particle loop yields `Timers.ParticleSweep` |
| `GameState.Game.Fly` | js/main.js:1554-1572 | the rocket step yields `Timers.Fly` and keeps the respawn bookkeeping |
| `GameState.Game.CreateCircle` | js/main.js:494-564 | spawns the bubble `Pool.NewBubble` makes from the draws |
| `GameState.Game.DeactivateCircles` | js/main.js:633-635 | grounds every listed bubble and keeps the pool valid |
| `GameState.Game.Populate` | js/main.js:641-650 | the `createCircle` loop yields `Pool.Populated` and keeps the pool valid |
| `GameState.Game.NewNumbers` | js/main.js:624-627 | sets `current` and `target` as `Puzzle.NewRound` |
| `GameState.Game.Repopulate` | js/main.js:633-650 | the two bubble loops of `generateLevel` yield `Pool.Regenerate` |
| `GameState.Game.GenerateLevel` | js/main.js:619-660 | `generateLevel`: the numbers as `Puzzle.NewRound`, then the pool as `Pool.Regenerate` |
| `GameState.Game.SelectLevel` | js/main.js:1099-1106 | the menu as `Menu.SelectLevel`, the chosen level, then a new round of that level |
| `GameState.Game.ChooseLevel` | js/main.js:1100-1101 | toggles pause and sets the level |
| `GameState.Game.CloseMenu` | js/main.js:1103-1104 | deactivates the menu box and queues it to fade out |
| `GameState.Game.Shoot` | js/main.js:1407-1443 | `shoot` changes the state as `Shooting.Shoot` and keeps the menu, looks and pool valid |
| `GameState.Game.GroundAll` | js/main.js:1436-1441 | a rocket hit grounds every listed bubble |
| `GameState.Game.Strike` | js/main.js:1410-1433 | the volley followed by the win and loss checks |
| `GameState.Game.ApplyColliding` | js/main.js:1410-1418 | the volley, keeping the pool valid |
| `GameState.Game.Volley` | js/main.js:1410-1418 | the loop over `collidingCircles` yields `Shooting.VolleyFrom` and ten particles per hit |
| `GameState.Game.Burst` | js/main.js:1414-1416 | ten new particles |
| `GameState.Game.Settle` | js/main.js:1419-1433 | the win and loss checks yield `Shooting.Conclude` |
| `GameState.Game.EndRound` | js/main.js:1421-1423 | the end of a round yields `Shooting.EndRound` |
| `GameState.Game.Frame` | js/main.js:1454-1646 | one whole `update`, in its order and with the load-time crosshair radius, keeps `Valid` and leaves keys, level and target alone |
| `GameState.Game.Restyle` | js/main.js:1456-1519 | the fade passes and the rocket scale step keep `Valid` |
| `GameState.Game.HoldFire` | js/main.js:1531-1533 | `shoot` while space is held keeps `Valid` |
| `GameState.Game.RunClock` | js/main.js:1539-1552 | the timer and particle loops keep `Valid` |
| `GameState.Game.Launch` | js/main.js:1554-1572 | the rocket step keeps `Valid` |
| `GameState.Game.Drift` | js/main.js:1582-1646 | the bubble loop keeps `Valid` |
| `GameState.Game.PoolTick` | js/main.js:1582-1646 | the bubble loop yields `Pool.Tick` and keeps the pool valid |
| `GameState.Game.VisitCircle` | js/main.js:1583-1645 | one pass of the bubble loop yields `Pool.Visit` |
| `GameState.Game.Examine` | js/main.js:1584-1627 | the checks of one bubble yield `Pool.Examined` |
| `GameState.Game.Cull` | js/main.js:1602-1618 | the culling and the collision test |
| `GameState.Game.Retire` | js/main.js:1628-1645 | the removal, replacement or fading yields `Pool.Retired` |
| `GameState.Move` | js/main.js:1584-1600 | growth, motion and bouncing of a bubble |
| `GameState.SlideTimersKeepArmed` | js/main.js:1304-1311 | the slide timers leave the respawn bookkeeping intact |

## Left out

- Rendering is not modelled: textures, text, tints, the blur filter, the pulsing decorations, the minimap sprites' positions and alpha, the stars, the crosshair graphics and `updateCurrent`'s label. Only `visible` and `alpha` of the faded elements, and each bubble's alpha, scale and visibility, are kept.
- The rocket's alpha fade-in and fade-out do not influence the game state and are not modelled. Neither are the indicator flash (`indicator.alpha = 1`) and its fade back.
- `resize` is not a method of the model. A frame takes the screen size after any resize as input, and the crosshair keeps the radius `GameState.Load` fixed from the size at load.
- One clock reading, `now`, serves a whole frame. In the source, `Timer.update` and `Particle.update` each read `Date.now()` again, so a timer or particle falling due during the frame's own run can expire one frame earlier there.
- `Camera.update` (joystick, keys, friction, the field bounds) is not part of this model: the cameras before and after it are inputs of `GameState.Game.Frame`.
- The trigonometry of `resetRocket` is not modelled. The position and velocity it picks are an input (`Placement`).
- Floating point is modelled as exact reals. Rounding and overflow of JavaScript doubles are not captured.
- A bubble's texture size, which depends on its drawn text, is an input of `createCircle`'s draws.
- `Math.random()` and `Date.now()` are inputs. Colours, particle velocities and radii, and particle positions are not modelled. A particle is only its end time.
- `panes[k].active` is never read by the game logic and is not modelled.
- `GameState.Game.GenerateLevel`: the target do-while runs on a finite sequence of draws. When every draw repeats `current`, the source would keep drawing forever. The model stops and reports `settled == false`.
- `GameState.Game.GenerateLevel`: the clamping branch for a level outside `1..5` is unreachable, because levels come only from the five level buttons. The method requires a level in range.
- Pointer and touch handlers other than the level buttons are not modelled. `endSelect` and the joystick's `endMove` only restyle sprites.
- `GameState.Game.Frame`: states only that one frame keeps `Valid` and, by its frame, leaves keys, level and target alone. What each step computes is stated by the methods it calls (`FadeOutPass`, `FadeInPass`, `Shoot`, `TimerSweep`, `ParticleSweep`, `Fly`, `PoolTick`), not composed into one function of the old state.
- GameState.Game.Restyle: like `Frame`, states only that `Valid` is kept; the methods it calls carry the functional contracts.
- GameState.Game.HoldFire: like `Frame`, states only that `Valid` is kept; the methods it calls carry the functional contracts.
- GameState.Game.RunClock: like `Frame`, states only that `Valid` is kept; the methods it calls carry the functional contracts.
- GameState.Game.Launch: like `Frame`, states only that `Valid` is kept; the methods it calls carry the functional contracts.
- GameState.Game.Drift: like `Frame`, states only that `Valid` is kept; the methods it calls carry the functional contracts.
- `GameState.Game.Cull`: the tint set on the colliding bubble is not modelled.
