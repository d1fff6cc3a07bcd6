# Claw machine game: a verified model of its state machine

The repository is a single-screen browser game. The player moves a claw left and right
along a rail and drops it, hoping to win one prize from a fixed catalog of five.
All of the game's behaviour lives in the `ClawMachineGame` React component. It has eight
state variables: claw position, dropping flag, score, high score, sound flag, game state,
current prize and message flag. They are changed by these handlers:

- `moveClaw`;
- the asynchronous `dropClaw` (start, a pause, the random outcome, a second pause, finish);
- a detached timer that hides the win message;
- the keydown dispatcher;
- the sound button.

This project models that state machine in Dafny, in three files:

- `claw.dfy` (module `Claw`) holds the pure part. It has:
  - the prize catalog;
  - the clamped move `MovedTo`;
  - the key map `KeyAction`;
  - a `Snapshot` value holding the whole component state;
  - one transition function per handler or timer continuation (`AfterMove`, `AfterStartDrop`,
    `AfterResolve`, `AfterHide`, `AfterFinish`, `AfterToggleSound`, `AfterKey`);
  - an `Event` type with `Run`, which replays a sequence of events;
  - the invariant `Inv` of every reachable state.
- `claw_machine_game.dfy` (module `ClawMachineGame`) holds the class `Game`. Its fields are
  the component's state variables, and its methods update them in place. Each method's
  `ensures` ties the new `State()` to the transition function of the old one, and keeps `Valid()`.
- `claw_properties.dfy` (module `ClawProperties`) holds the lemmas. They prove that the
  invariant holds over every event sequence. They also cover score monotonicity, the
  single-flight guard, the whole-drop frame and the scenarios the game should play out.

Two pieces of state are added to the eight React variables:

- `drop` says where the suspended `dropClaw` call stands: `Idle`, `Descending(capturedScore)`
  or `Ascending`. `Descending` holds the value of `score` that the closure captured when the
  drop started.
- `pendingHides` counts the message-hide timers that are scheduled and have not yet fired.

Each `await` pause splits the drop sequence into separate events. `ResolveOutcome` can
happen only while `Descending`, and `FinishDrop` only while `Ascending`. `HideMessage` can
fire whenever a hide timer is pending, in any order with the other events. The two
`Math.random` draws become the parameters `success` and `prizeIndex` (`prizeIndex < 5`).

Two points where the code's behaviour is not the obvious one; the model follows the code:

- The code raises the high score from the closure-captured score (`max(highScore, captured + 1)`),
  not from the freshly stored score. `Inv` keeps the captured score equal to the live score
  for the whole descent, because only the outcome step writes the score.
  `CapturedScoreIsCurrent` then shows the result equals `max(old highScore, new score)`.
  `Reachable` shows that `highScore == score` holds in every state reachable from mount.
  The score never decreases, so that is the highest score reached so far. In this event
  model, the capture never makes the high score fall behind.
- The hide timer is never cancelled. This hazard is reproduced, not fixed: `StaleHideScenario`
  shows a first round's timer hiding the second round's message. That interleaving exists
  only because the model has no clock (see "Real time" under "## Left out"). With the
  source's timings, the first round's timer is due 2000 ms after its win. The second
  round's outcome cannot come earlier than that, so the scenario needs an outcome to run
  before a timer that was due earlier.

## Model

| member | source | states |
|---|---|---|
| Claw.MovedTo | src/components/ClawMachineGame.jsx:25-29 | From a position in [10,90] the result stays in [10,90]. It moves exactly 5 in the move's direction when that lands on the rail, else stops at that direction's rail end. It never moves against the direction. |
| Claw.KeyAction | src/components/ClawMachineGame.jsx:63-69 | 'ArrowLeft' maps to a left move, 'ArrowRight' to a right move and ' ' to a drop, each as an if-and-only-if. Every other key maps to no action. |
| Claw.AfterMove | src/components/ClawMachineGame.jsx:22-31 | Outside Ready the state is unchanged. In Ready only the claw position changes, to the clamped move. |
| Claw.AfterStartDrop | src/components/ClawMachineGame.jsx:33-37 | Outside Ready the state is unchanged. In Ready it sets Dropping and isDropping and suspends holding the current score. Nothing else changes. |
| Claw.AfterResolve | src/components/ClawMachineGame.jsx:39-52 | A win sets the prize to catalog entry `prizeIndex`, shows the message and adds exactly 1 to the score. It sets the high score to max(old high score, captured score + 1) and schedules one hide timer. A loss changes nothing but the phase. Position, sound, game state and isDropping are untouched. |
| Claw.AfterHide | src/components/ClawMachineGame.jsx:49-51 | The message flag becomes false and one pending timer is used up. Nothing else changes. |
| Claw.AfterFinish | src/components/ClawMachineGame.jsx:54-58 | Back to Ready with isDropping false and the prize cleared. Position, scores, sound and message are untouched. |
| Claw.AfterToggleSound | src/components/ClawMachineGame.jsx:97 | The sound flag flips; nothing else changes. |
| Claw.AfterKey | src/components/ClawMachineGame.jsx:62-70 | 'ArrowLeft' acts as a left move, 'ArrowRight' as a right move and ' ' as a drop. Any other key leaves the state unchanged. |
| ClawProperties.InitialInv | src/components/ClawMachineGame.jsx:13-20 | The mount state (position 50, score and high score 15, Ready) satisfies the invariant. |
| ClawProperties.MovePreservesInv | src/components/ClawMachineGame.jsx:25-29 | A move from a good state keeps the claw within [10,90] and on the five-point grid. |
| ClawProperties.MoveIsOneStep | src/components/ClawMachineGame.jsx:23-29 | From a reachable state a move does one of three things. It changes the position by exactly ±5, or leaves it at the rail end it pushes against, or is refused while Dropping. |
| ClawProperties.SecondDropRejected | src/components/ClawMachineGame.jsx:34-37 | A second drop right after an accepted one changes nothing (single flight). |
| ClawProperties.CapturedScoreIsCurrent | src/components/ClawMachineGame.jsx:46-47 | On a reachable state, the high score from the captured score equals max(old high score, new score), and is at least the new score. |
| ClawProperties.ApplyPreservesInv | src/components/ClawMachineGame.jsx:22-70 | Every event that can happen keeps the invariant. |
| ClawProperties.RunPreservesInv | src/components/ClawMachineGame.jsx:22-70 | Every state reached by any event sequence from a good state is good. |
| ClawProperties.ApplyKeepsHighScoreAtScore | src/components/ClawMachineGame.jsx:46-47 | From a good state whose high score equals its score, every event keeps the two equal. |
| ClawProperties.RunKeepsHighScoreAtScore | src/components/ClawMachineGame.jsx:46-47 | From a good state whose high score equals its score, every event sequence keeps the two equal. |
| ClawProperties.Reachable | src/components/ClawMachineGame.jsx:13-58 | Every state reachable from mount has the claw in [10,90] on the grid, 15 <= score, and highScore == score. The score never decreases, so highScore is the highest score reached so far. |
| ClawProperties.ApplyKeepsScores | src/components/ClawMachineGame.jsx:46-47 | No single event lowers the score or the high score. |
| ClawProperties.ScoresNeverDecrease | src/components/ClawMachineGame.jsx:44-47 | Over any event sequence neither the score nor the high score decreases. |
| ClawProperties.DropInFlight | src/components/ClawMachineGame.jsx:23-37 | While a drop is in flight, whatever input arrives leaves the claw where it was. The game stays Dropping, no new sequence starts, and the outcome is resolved at most once (not again once resolved). |
| ClawProperties.WholeDropKeepsPosition | src/components/ClawMachineGame.jsx:33-58 | A whole drop sequence from Ready, with any events in between, ends in Ready. The claw ends where it started, isDropping is false, no prize is set, and old score <= score <= highScore. |
| ClawProperties.LeftPressesReachRail | src/components/ClawMachineGame.jsx:25-29 | Enough left-arrow presses from a reachable Ready state park the claw exactly at 10, with nothing else changed. |
| ClawProperties.MoveLeftScenario | src/components/ClawMachineGame.jsx:13 | From mount, one left press gives position 45, and eleven give 10. |
| ClawProperties.WinScenario | src/components/ClawMachineGame.jsx:39-58 | A drop winning prize 0 gives "Osito", a visible message, and score and high score 16. The hide timer clears the message, and the finish clears the prize and returns to Ready. |
| ClawProperties.LossScenario | src/components/ClawMachineGame.jsx:39-58 | A losing drop sequence ends in exactly the mount state. |
| ClawProperties.StaleHideScenario | src/components/ClawMachineGame.jsx:49-51 | The first round's uncancelled hide timer can clear the second round's message while the second prize is still set. |
| ClawMachineGame.Game.constructor | src/components/ClawMachineGame.jsx:13-20 | The fields start at position 50, score 15, high score 15, sound on, Ready, no prize, no message. |
| ClawMachineGame.Game.MoveClaw | src/components/ClawMachineGame.jsx:22-31 | The new state is `AfterMove` of the old one, and nothing changes outside Ready. Keeps `Valid()`. |
| ClawMachineGame.Game.StartDrop | src/components/ClawMachineGame.jsx:33-37 | The new state is `AfterStartDrop` of the old one. In Ready it is Dropping, with the score captured. Keeps `Valid()`. |
| ClawMachineGame.Game.ResolveOutcome | src/components/ClawMachineGame.jsx:39-52 | The new state is `AfterResolve` of the old one. A win adds 1 to the score, and the high score becomes max(old high score, new score). A loss leaves the score, high score, prize and message unchanged. Keeps `Valid()`. |
| ClawMachineGame.Game.HideMessage | src/components/ClawMachineGame.jsx:49-51 | The new state is `AfterHide` of the old one, with the message hidden. Keeps `Valid()`. |
| ClawMachineGame.Game.FinishDrop | src/components/ClawMachineGame.jsx:54-58 | The new state is `AfterFinish` of the old one: Ready, claw raised, no prize. Position, scores and sound are unchanged. Keeps `Valid()`. |
| ClawMachineGame.Game.ToggleSound | src/components/ClawMachineGame.jsx:97 | The new state is `AfterToggleSound` of the old one, with the sound flag flipped. Keeps `Valid()`. |
| ClawMachineGame.Game.HandleKey | src/components/ClawMachineGame.jsx:62-70 | The new state is `AfterKey` of the old one, and an unrecognised key changes nothing. Keeps `Valid()`. |

## Left out

- Rendering (JSX, Tailwind classes, colours, icons): presentation only; the prize colours are kept as data in the catalog.
- Real time: the 1000 ms and 2000 ms pauses are not modelled. Each pause is only a point where the event sequence splits, so the model allows event orders that the timings rule out in practice. For example, a hide timer fires 2000 ms after its win, by which time that round has already finished.
- `Math.random` and the 0.7 success probability: the draws are the parameters `success` and `prizeIndex`, and no claim about their distribution is made.
- Listener registration and removal (`addEventListener`, the effect's cleanup and re-registration on `gameState`): browser plumbing. Each event is atomic and sees the current state. A keydown that reaches a handler registered for an older `gameState` is not modelled. In the source, such a handler still sees `gameState === 'ready'` (lines 23, 34 and 74). So it can start a second drop sequence, or move the claw mid-drop. `SecondDropRejected`, `DropInFlight` and `WholeDropKeepsPosition` hold only for the model's atomic event order.
- React's batching of state updates: each handler's updates take effect together, as one event.
- Direction as a string: the source's `moveClaw` treats every string other than 'left' as a right move. Both of its callers pass 'left' or 'right', so the model uses a two-valued `Direction`.
- Numbers: score and position are unbounded integers. JavaScript's double-precision limit (beyond 2^53) is not modelled.
- src/App.js only renders the component and has no logic.
