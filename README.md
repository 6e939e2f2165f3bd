# Frog sound game: the game page

A model of the game page of the frog sound game. The page lays out five to
seven frogs of other species plus one frog of the target species on the
board, plays the call of the frog nearest the pointer while the pointer is
close to it, and lets the player click frogs. Clicking the target species
wins. Each other frog clicked costs one of three attempts. The round is lost
when the attempts or the countdown run out.

The model has five modules:

- `Board`: species, placed frogs, the three radii (20 between frogs, 15 for
  hearing a call, 10 for a click) and squared distances. The page compares
  `sqrt(dx² + dy²) < c`. The model compares `dx² + dy² < c²`, which is the
  same test for a non-negative c.
- `Layout`: the layout initialiser, with `Math.random` replaced by a stream
  `rnd` of values in [0, 1) that is read in the page's order. Its loops are
  methods over sequences: the spacing check, the `do … while` placement
  attempts, the per-frog pass and the target's placement. Each is proved
  against ghost predicates that say which draws placed each frog
  (`PlacedAt`, `NonTargetsPlaced`) and against the layout's shape
  (`WellFormed`, `Spaced`).
- `Pointer`: the two `forEach` scans over the frogs. The nearest-frog scan
  keeps the earliest of equally near frogs. The click scan keeps the last
  frog within the hit radius. Each is a method with a loop, proved equal to
  a function over list prefixes.
- `Sound`: the decision `checkFrogProximity` takes for one pointer move, as
  a `SoundAction` (play, volume only, stop, nothing).
- `Game`: the round's state as a value (`RoundState`) and its transitions
  (`TickStep`, `ClickStep`, `EndGame`), with the invariant they keep and
  lemmas over event sequences. There is also a class `Round` whose fields
  are the page's `useState` hooks. Its event methods are proved to change
  those fields exactly as the transitions do.

The countdown starts at 20000 one-second ticks (`useState(20000)` with a
1000 ms timeout per tick). The layout reserves no region of the board, so
the model has none.

The 2000 ms timeout after a wrong click empties the message line, whatever
that line holds by then (`Round.ClearMessage`). If the round ends within
those 2 seconds, the end message is erased as well. The model keeps this
behaviour as written.

## Model

| member | source | states |
|---|---|---|
| Board.Dist2 | src/pages/GamePage.tsx:67-69 | the squared distance is non-negative and zero exactly at the frog's own point |
| Board.PointerDist2 | src/pages/GamePage.tsx:251-254 | the squared pointer-to-frog distance used by both scans is non-negative, and zero when the pointer is exactly on the frog |
| Layout.Scale | src/pages/GamePage.tsx:58 | `floor(random * n)` for a random value in [0, 1) is an index below n |
| Layout.SampleX | src/pages/GamePage.tsx:90 | a drawn x coordinate lies in 10..89 |
| Layout.SampleY | src/pages/GamePage.tsx:91 | a drawn y coordinate lies in 15..84 |
| Layout.WithoutKind | src/pages/GamePage.tsx:53-55 | the filter keeps exactly the species whose name differs from the target's, and never grows the list |
| Layout.RosterSurvivesFilter | src/pages/GamePage.tsx:45-55 | whatever the target name, at least two of the three species survive the filter |
| Layout.NonTargetTypes | src/pages/GamePage.tsx:52-55 | the non-target roster has at least two species, all from the roster and none of the target's species, so drawing from it is always defined |
| Layout.IsTooClose | src/pages/GamePage.tsx:65-75 | the early-return loop answers true exactly when some placed frog is nearer than the minimum distance |
| Layout.DrawPosition | src/pages/GamePage.tsx:84-93 | the attempt loop stops after 1 to 20 attempts, 2 draws each; every attempt but the last was too close; the last one is not too close unless 20 were used; the point is on the board |
| Layout.FallbackPlaced | src/pages/GamePage.tsx:95-101 | after 20 attempts the frog takes one more point drawn without a distance check |
| Layout.PlaceNonTarget | src/pages/GamePage.tsx:78-109 | one pass: the species comes from the draw before the attempts, the position from the attempt loop or the fallback, the id is the index, and a frog placed within its attempts keeps the minimum distance |
| Layout.NonTargetsAppend | src/pages/GamePage.tsx:78-110 | each pass of the `for` loop keeps the record of how every frog so far was placed and the spacing promise |
| Layout.PlaceNonTargets | src/pages/GamePage.tsx:78-110 | the loop places exactly `count` frogs, each by the draws its record names, spaced, with ids in order, on the board and none of the target's species |
| Layout.NonTargetKinds | src/pages/GamePage.tsx:79-82 | frogs drawn from the filtered roster are never of the target's species |
| Layout.TargetCompletes | src/pages/GamePage.tsx:123-132 | the target frog, appended with id `count`, completes a layout of 6 to 8 frogs with ids in order, all on the board, target species only last |
| Layout.TargetAppend | src/pages/GamePage.tsx:113-132 | the target is placed by the attempt loop without a fallback and keeps the spacing promise |
| Layout.GenerateLayout | src/pages/GamePage.tsx:43-136 | the layout has `floor(r0 * 3) + 5 + 1` frogs, is well formed, the target frog carries the target sound, every frog is placed by the draws its record names, and every frog placed within its attempts is at least 20 from all frogs before it |
| Layout.Deal | src/pages/GamePage.tsx:43-136 | the layout kept in state is well formed and its last frog has the target sound |
| Layout.CountKind | src/pages/GamePage.tsx:123-132 | the number of frogs of a species never exceeds the number of frogs |
| Layout.CountKindNone | src/pages/GamePage.tsx:52-55 | a list with no frog of a species counts zero of it |
| Layout.ExactlyOneTarget | src/pages/GamePage.tsx:123-132 | every layout holds exactly one frog of the target species |
| Pointer.Nearest | src/pages/GamePage.tsx:246-260 | none exactly for an empty list; otherwise a frog at minimal distance, with every earlier frog strictly farther |
| Pointer.NearestFrog | src/pages/GamePage.tsx:246-260 | the `forEach` with `minDistance` ends on `Nearest`, with `minDistance` equal to that frog's distance |
| Pointer.Hit | src/pages/GamePage.tsx:338-351 | the clicked frog is within the hit radius and no later frog is; none means no frog is within it |
| Pointer.Within | src/pages/GamePage.tsx:342-348 | the `distance < radius` hit test: nothing is within a zero radius, and a pointer exactly on a frog is within any other radius |
| Pointer.ClickedFrog | src/pages/GamePage.tsx:338-351 | the click `forEach` ends on `Hit` |
| Sound.Volume | src/pages/GamePage.tsx:266-269 | the volume is the curve's value, floored at 0.2 |
| Sound.Gate | src/pages/GamePage.tsx:271-324 | the nearest frog's sound is engaged exactly when it is nearer than 15; a fresh play happens exactly when that sound is not already playing; otherwise the sound stops exactly when one is playing |
| Sound.ProximityAction | src/pages/GamePage.tsx:237-325 | nothing after game over; the nearest frog's call plays or has its volume set exactly when the game is on and that frog is nearer than 15; a playing sound stops exactly when no frog is that near |
| Sound.StaleProximityAction | src/pages/GamePage.tsx:183-215 | the handler registered once never stops a sound and never sets the volume only |
| Sound.StalePlaysAfterGameOver | src/pages/GamePage.tsx:237-238 | a move onto a frog after game over is silent against the live state but starts the call in the registered handler |
| Sound.StaleNeverStopsFarAway | src/pages/GamePage.tsx:314-324 | moving far from the frog whose call plays stops it against the live state but does nothing in the registered handler |
| Game.EndGame | src/pages/GamePage.tsx:142-150 | the game is over, the outcome and message follow `win`, and countdown, attempts and reveal flag are untouched |
| Game.TimerEffect | src/pages/GamePage.tsx:177-179 | at zero with the game on the round ends as a loss; otherwise nothing changes |
| Game.TickStep | src/pages/GamePage.tsx:173-180 | a tick lowers a running countdown by one, ends the round as a loss when it reaches zero, does nothing after game over, and keeps the invariant |
| Game.ClickStep | src/pages/GamePage.tsx:328-372 | ignored after game over, without attempts or without a frog; the target species wins keeping the attempts; another frog costs one attempt, losing when none is left and otherwise setting the wrong-frog message; keeps the invariant |
| Game.HitFrog | src/pages/GamePage.tsx:338-353 | a click resolves to a frog exactly when some frog is within the hit radius, and then to the one `Hit` names |
| Game.ClickWinsOnTargetOnly | src/pages/GamePage.tsx:353-356 | on a laid-out board, a click wins the round exactly when it resolves to the last frog, the target |
| Game.Step | src/pages/GamePage.tsx:173-180 | one tick or click keeps the invariant and changes nothing once the game is over |
| Game.RunFrozen | src/pages/GamePage.tsx:174 | after game over no sequence of ticks and clicks changes the round |
| Game.EndsWithinCountdown | src/pages/GamePage.tsx:173-180 | whatever clicks are interleaved, a round is over, with the invariant kept, once as many ticks as its countdown have fired |
| Game.TicksCountDown | src/pages/GamePage.tsx:173-176 | left alone, fewer ticks than the time left lower the countdown by that many and keep the round on |
| Game.TicksSplit | src/pages/GamePage.tsx:173-180 | m + n ticks are m ticks followed by n ticks |
| Game.TimeRunsOut | src/pages/GamePage.tsx:173-180 | left alone, a round on is lost exactly when its countdown reaches zero |
| Game.TicksFrozen | src/pages/GamePage.tsx:174 | after game over the countdown no longer moves |
| Game.WrongClicksLose | src/pages/GamePage.tsx:358-364 | n wrong clicks take n attempts; the round stays on until the last attempt, and that click loses it |
| Game.Round.constructor | src/pages/GamePage.tsx:28-43 | mounting lays out a well-formed board and starts from 20000 ticks, 3 attempts, no message, nothing shown, no sound playing |
| Game.Round.EndRound | src/pages/GamePage.tsx:142-150 | called from a round still on whose budgets fit the outcome (a win with attempts and time left, a loss with one of them spent), the fields move as `EndGame` says and the invariant holds afterwards |
| Game.Round.Tick | src/pages/GamePage.tsx:173-180 | the fields move as `TickStep` says and the invariant holds |
| Game.Round.Click | src/pages/GamePage.tsx:328-372 | the fields move as `ClickStep` says for the frog the click scan finds, and the invariant holds |
| Game.Round.Move | src/pages/GamePage.tsx:237-325 | the action is `ProximityAction` on the current state; the playing sound is set when a play resolves, cleared on stop, kept otherwise; the invariant holds |
| Game.Round.ClearMessage | src/pages/GamePage.tsx:368 | the message line is emptied and nothing else changes |
| Game.Round.Reveal | src/pages/GamePage.tsx:152-154 | after game over every frog is shown and nothing else changes |
| Game.Round.Leave | src/pages/GamePage.tsx:157-169 | `onWin` is chosen exactly for a won round, `onLose` for a lost one |

## Left out

- Audio element plumbing is not modelled: preloading (src/pages/GamePage.tsx:218-234), setting `src`, `loop` and `currentTime`, and the pause when the round is left. `Round.Move` returns the action it would take instead.
- The click-to-retry fallback after a rejected `play()` is not modelled. `playResolves` only says whether the promise resolves.
- The volume curve `(1 - d / 15) ^ 1.5` is floating point and stays a parameter `curve`. Only its 0.2 floor is modelled.
- Floating-point rounding of `Math.sqrt` and of the distance sums is not modelled. Distances are compared exactly, on squares.
- Translating client coordinates into board percentages is not modelled, and neither are the null checks on the container element. The pointer arrives in board coordinates.
- Real time and timer scheduling are left out. Each timeout is an event method (`Tick`, `ClearMessage`, `Reveal`, `Leave`) that the environment may call. Clearing the pending tick when `gameOver` changes is reflected by `TickStep` doing nothing after game over.
- React's batching of state updates and its effect ordering are collapsed: one `Tick` is the timeout firing plus the effect's re-run.
- The custom cursor's position and visibility (mouse enter and leave), console logging and all rendering are display only and left out.
- `Math.random` is the injected stream `rnd`, and `onWin` / `onLose` are the value `Leave` returns.
- Game.Round.Reveal: requires `gameOver`, because only `endGame` schedules that timeout.

## Findings

| source | as written | input that shows it | evidently intended | confidence | as-written member | corrected member |
|---|---|---|---|---|---|---|
| src/pages/GamePage.tsx:183-215 | the mouse-move listener is registered once with an empty dependency list, so `checkFrogProximity` always sees the first render's `gameOver` (false) and `playingSound` (null) | after the round ends, the pointer moves onto a frog at (50, 50): the call starts. Or the pointer moves from the playing frog at (10, 15) to (89, 84): the call is never stopped | the handler reads the current `gameOver` and `playingSound`: silent after game over, and stop when no frog is near | high, not executed | `Sound.StaleProximityAction` (`Sound.StalePlaysAfterGameOver`, `Sound.StaleNeverStopsFarAway`) | `Sound.ProximityAction` (used by `Game.Round.Move`) |
