/**
 * The claw-machine game of ClawMachineGame.jsx as pure values: the prize
 * catalog, the clamped claw move, the key map, and every state change of the
 * component as a function from one snapshot of its state to the next.
 * The class in claw_machine_game.dfy is specified by these functions, and
 * claw_properties.dfy proves what holds over whole sequences of events.
 */
module Claw {

  datatype Option<T> = None | Some(value: T)

  /** One entry of the fixed prize catalog. */
  datatype Prize = Prize(id: int, name: string, color: string)

  /** The catalog, in the order the game draws from it. */
  const PRIZES: seq<Prize> := [
    Prize(1, "Osito", "#8B4513"),
    Prize(2, "Pelota", "#FF4444"),
    Prize(3, "Muñeca", "#FF69B4"),
    Prize(4, "Robot", "#4A90E2"),
    Prize(5, "Peluche", "#FFD700")
  ]

  const MIN_POSITION: int := 10
  const MAX_POSITION: int := 90
  const INITIAL_POSITION: int := 50
  const STEP: int := 5
  const INITIAL_SCORE: int := 15

  datatype GameState = Ready | Dropping

  datatype Direction = Left | Right

  /** What a key press asks of the game. */
  datatype Action = MoveLeft | MoveRight | DropClaw | NoAction

  /**
   * Where the asynchronous drop sequence stands: not running, waiting for the
   * claw to reach the bottom (holding the score its closure captured when the
   * drop started), or waiting for the claw to come back up.
   */
  datatype DropPhase = Idle | Descending(capturedScore: int) | Ascending

  /**
   * The component's state: its eight state variables, the phase of the drop
   * sequence and the number of message-hide timers scheduled and not yet fired.
   */
  datatype Snapshot = Snapshot(
    clawPosition: int,
    isDropping: bool,
    score: int,
    highScore: int,
    sound: bool,
    gameState: GameState,
    prize: Option<Prize>,
    showMessage: bool,
    drop: DropPhase,
    pendingHides: nat)

  /** The state at mount. */
  const INITIAL: Snapshot :=
    Snapshot(INITIAL_POSITION, false, INITIAL_SCORE, INITIAL_SCORE, true, Ready, None, false, Idle, 0)

  function Max(a: int, b: int): (m: int)
    ensures m >= a && m >= b
    ensures m == a || m == b
  {
    if a >= b then a else b
  }

  function Min(a: int, b: int): (m: int)
    ensures m <= a && m <= b
    ensures m == a || m == b
  {
    if a <= b then a else b
  }

  predicate InRange(pos: int) {
    MIN_POSITION <= pos <= MAX_POSITION
  }

  /** The signed distance of one unclamped move. */
  function Offset(dir: Direction): (r: int) {
    if dir == Left then -STEP else STEP
  }

  /** The rail end a move in this direction stops at. */
  function Bound(dir: Direction): (r: int) {
    if dir == Left then MIN_POSITION else MAX_POSITION
  }

  /**
   * The claw position after one move: five points in the direction of the
   * move, but never past the rail end.
   */
  function MovedTo(pos: int, dir: Direction): (r: int)
    ensures InRange(pos) ==> InRange(r)
    ensures InRange(pos + Offset(dir)) ==> r == pos + Offset(dir)
    ensures InRange(pos) && !InRange(pos + Offset(dir)) ==> r == Bound(dir)
    ensures dir == Left ==> r <= Max(pos, MIN_POSITION)
    ensures dir == Right ==> r >= Min(pos, MAX_POSITION)
  {
    if dir == Left then Max(MIN_POSITION, pos - STEP) else Min(MAX_POSITION, pos + STEP)
  }

  /** The key map of the keydown handler: three keys act, every other key is ignored. */
  function KeyAction(key: string): (a: Action)
    ensures a == MoveLeft <==> key == "ArrowLeft"
    ensures a == MoveRight <==> key == "ArrowRight"
    ensures a == DropClaw <==> key == " "
  {
    if key == "ArrowLeft" then MoveLeft
    else if key == "ArrowRight" then MoveRight
    else if key == " " then DropClaw
    else NoAction
  }

  /** moveClaw: only in Ready, and then only the claw position changes. */
  function AfterMove(s: Snapshot, dir: Direction): (t: Snapshot)
    ensures s.gameState != Ready ==> t == s
    ensures t == s.(clawPosition := t.clawPosition)
    ensures s.gameState == Ready ==> t.clawPosition == MovedTo(s.clawPosition, dir)
  {
    if s.gameState != Ready then s else s.(clawPosition := MovedTo(s.clawPosition, dir))
  }

  /**
   * The synchronous start of dropClaw: only in Ready; it enters Dropping,
   * raises isDropping and suspends the sequence holding the current score.
   */
  function AfterStartDrop(s: Snapshot): (t: Snapshot)
    ensures s.gameState != Ready ==> t == s
    ensures s.gameState == Ready ==>
      && t.gameState == Dropping && t.isDropping
      && t.drop == Descending(s.score)
      && t.(gameState := s.gameState, isDropping := s.isDropping, drop := s.drop) == s
  {
    if s.gameState != Ready then s
    else s.(gameState := Dropping, isDropping := true, drop := Descending(s.score))
  }

  /**
   * The outcome after the first pause, with the two random draws given as
   * `success` and `prizeIndex`. A win shows the drawn prize and its message,
   * adds one to the score, raises the high score to at least the captured
   * score plus one, and schedules one message-hide timer; a loss changes
   * nothing but the phase.
   */
  function AfterResolve(s: Snapshot, success: bool, prizeIndex: nat): (t: Snapshot)
    requires s.drop.Descending? && prizeIndex < |PRIZES|
    ensures t.drop == Ascending
    ensures success ==>
      && t.prize == Some(PRIZES[prizeIndex])
      && t.showMessage
      && t.score == s.score + 1
      && t.highScore == Max(s.highScore, s.drop.capturedScore + 1)
      && t.pendingHides == s.pendingHides + 1
    ensures !success ==> t == s.(drop := Ascending)
    ensures t.(prize := s.prize, showMessage := s.showMessage, score := s.score,
               highScore := s.highScore, pendingHides := s.pendingHides, drop := s.drop) == s
  {
    if success then
      s.(prize := Some(PRIZES[prizeIndex]), showMessage := true, score := s.score + 1,
         highScore := Max(s.highScore, s.drop.capturedScore + 1),
         pendingHides := s.pendingHides + 1, drop := Ascending)
    else
      s.(drop := Ascending)
  }

  /** The detached timer callback: it hides the message and changes nothing else. */
  function AfterHide(s: Snapshot): (t: Snapshot)
    requires s.pendingHides > 0
    ensures !t.showMessage
    ensures t.pendingHides == s.pendingHides - 1
    ensures t.(showMessage := s.showMessage, pendingHides := s.pendingHides) == s
  {
    s.(showMessage := false, pendingHides := s.pendingHides - 1)
  }

  /**
   * The end of dropClaw after the second pause: back to Ready with the claw
   * raised and the prize cleared; position, scores, sound and message untouched.
   */
  function AfterFinish(s: Snapshot): (t: Snapshot)
    requires s.drop == Ascending
    ensures t.gameState == Ready && !t.isDropping && t.prize == None && t.drop == Idle
    ensures t.(gameState := s.gameState, isDropping := s.isDropping, prize := s.prize, drop := s.drop) == s
  {
    s.(isDropping := false, prize := None, gameState := Ready, drop := Idle)
  }

  /** The sound button: flips the flag and nothing else. */
  function AfterToggleSound(s: Snapshot): (t: Snapshot)
    ensures t.sound != s.sound
    ensures t.(sound := s.sound) == s
  {
    s.(sound := !s.sound)
  }

  /** handleKeyPress: the arrows move, the space bar drops, any other key does nothing. */
  function AfterKey(s: Snapshot, key: string): (t: Snapshot)
    ensures key == "ArrowLeft" ==> t == AfterMove(s, Left)
    ensures key == "ArrowRight" ==> t == AfterMove(s, Right)
    ensures key == " " ==> t == AfterStartDrop(s)
    ensures key != "ArrowLeft" && key != "ArrowRight" && key != " " ==> t == s
  {
    match KeyAction(key)
    case MoveLeft => AfterMove(s, Left)
    case MoveRight => AfterMove(s, Right)
    case DropClaw => AfterStartDrop(s)
    case NoAction => s
  }

  /** Everything that can happen to the component, one event at a time. */
  datatype Event =
    | Key(key: string)                                // a keydown reaching handleKeyPress
    | MoveButton(dir: Direction)                      // a click on an arrow button
    | DropButton                                      // a click on the drop button
    | SoundButton                                     // a click on the sound button
    | DescentDone(success: bool, prizeIndex: nat)     // the first pause ends, with the draws
    | MessageTimer                                    // a message-hide timer fires
    | AscentDone                                      // the second pause ends

  /**
   * Whether the event can happen now: a timer continuation only when the drop
   * sequence is suspended at that pause, a hide only when one is scheduled,
   * and a prize index only within the catalog. Input can always arrive.
   */
  predicate Enabled(s: Snapshot, e: Event) {
    match e
    case DescentDone(_, prizeIndex) => s.drop.Descending? && prizeIndex < |PRIZES|
    case MessageTimer => s.pendingHides > 0
    case AscentDone => s.drop == Ascending
    case _ => true
  }

  function Apply(s: Snapshot, e: Event): (t: Snapshot)
    requires Enabled(s, e)
  {
    match e
    case Key(key) => AfterKey(s, key)
    case MoveButton(dir) => AfterMove(s, dir)
    case DropButton => AfterStartDrop(s)
    case SoundButton => AfterToggleSound(s)
    case DescentDone(success, prizeIndex) => AfterResolve(s, success, prizeIndex)
    case MessageTimer => AfterHide(s)
    case AscentDone => AfterFinish(s)
  }

  /** The state after a sequence of events, or None if one of them cannot happen. */
  function Run(s: Snapshot, events: seq<Event>): (r: Option<Snapshot>)
    decreases |events|
  {
    if events == [] then Some(s)
    else if !Enabled(s, events[0]) then None
    else Run(Apply(s, events[0]), events[1..])
  }

  /**
   * What holds of every state the game can reach: the claw on the five-point
   * grid within the rails, isDropping and the drop phase in step with the game
   * state, a prize only while the claw ascends after a win, the captured
   * score equal to the score while the claw descends, a visible message only
   * with a hide timer pending, and the high score never below the score.
   */
  predicate Inv(s: Snapshot) {
    && InRange(s.clawPosition)
    && s.clawPosition % STEP == 0
    && (s.isDropping <==> s.gameState == Dropping)
    && (s.gameState == Ready <==> s.drop == Idle)
    && (!s.drop.Ascending? ==> s.prize == None)
    && (s.prize.Some? ==> s.prize.value in PRIZES)
    && (s.drop.Descending? ==> s.drop.capturedScore == s.score)
    && (s.showMessage ==> s.pendingHides > 0)
    && INITIAL_SCORE <= s.score <= s.highScore
  }
}
