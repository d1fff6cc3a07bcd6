/**
 * The ClawMachineGame component as an object: its state variables are
 * fields, and every handler and timer continuation is a method that updates
 * them in place. Each method is specified by the transition function of the
 * Claw module it implements, and keeps the invariant Claw.Inv.
 */
module ClawMachineGame {
  import opened Claw
  import opened ClawProperties

  class Game {
    var clawPosition: int
    var isDropping: bool
    var score: int
    var highScore: int
    var sound: bool
    var gameState: GameState
    var prize: Option<Prize>
    var showMessage: bool
    // Where the suspended drop sequence stands, with the score its closure captured.
    var drop: DropPhase
    // Message-hide timers scheduled and not yet fired.
    var pendingHides: nat

    /** The whole state as a value. */
    function State(): (s: Snapshot)
      reads this
    {
      Snapshot(clawPosition, isDropping, score, highScore, sound, gameState, prize, showMessage,
               drop, pendingHides)
    }

    ghost predicate Valid()
      reads this
    {
      Inv(State())
    }

    /** Mounting: claw at 50, score and high score 15, sound on, Ready, no prize or message. */
    constructor ()
      ensures State() == INITIAL && Valid()
      ensures clawPosition == 50 && score == 15 && highScore == 15 && sound && gameState == Ready
    {
      clawPosition := INITIAL_POSITION;
      isDropping := false;
      score := INITIAL_SCORE;
      highScore := INITIAL_SCORE;
      sound := true;
      gameState := Ready;
      prize := None;
      showMessage := false;
      drop := Idle;
      pendingHides := 0;
      InitialInv();
    }

    /** moveClaw: in Ready, one clamped five-point move; otherwise nothing changes. */
    method MoveClaw(dir: Direction)
      requires Valid()
      modifies this
      ensures Valid()
      ensures State() == AfterMove(old(State()), dir)
      ensures old(gameState) != Ready ==> unchanged(this)
    {
      MovePreservesInv(State(), dir);
      if gameState != Ready {
        return;
      }
      clawPosition := MovedTo(clawPosition, dir);
    }

    /**
     * The synchronous part of dropClaw: in Ready, enter Dropping, lower the
     * claw and suspend the sequence holding the current score; otherwise
     * nothing changes.
     */
    method StartDrop()
      requires Valid()
      modifies this
      ensures Valid()
      ensures State() == AfterStartDrop(old(State()))
      ensures old(gameState) != Ready ==> unchanged(this)
      ensures old(gameState) == Ready ==> gameState == Dropping && isDropping && drop == Descending(old(score))
    {
      if gameState != Ready {
        return;
      }
      gameState := Dropping;
      isDropping := true;
      drop := Descending(score);
    }

    /**
     * dropClaw resumed after the first pause, with the random draws as
     * parameters. A win shows the prize, adds one to the score, raises the
     * high score from the captured score and schedules a hide timer.
     */
    method ResolveOutcome(success: bool, prizeIndex: nat)
      requires Valid() && drop.Descending? && prizeIndex < |PRIZES|
      modifies this
      ensures Valid()
      ensures State() == AfterResolve(old(State()), success, prizeIndex)
      ensures success ==> score == old(score) + 1 && highScore == Max(old(highScore), score)
      ensures !success ==> score == old(score) && highScore == old(highScore)
                           && prize == old(prize) && showMessage == old(showMessage)
    {
      ApplyPreservesInv(State(), DescentDone(success, prizeIndex));
      if success {
        var randomPrize := PRIZES[prizeIndex];
        prize := Some(randomPrize);
        showMessage := true;
        score := score + 1;
        highScore := Max(highScore, drop.capturedScore + 1);
        pendingHides := pendingHides + 1;
      }
      drop := Ascending;
    }

    /** A message-hide timer fires: the message disappears, whichever round it belongs to. */
    method HideMessage()
      requires Valid() && pendingHides > 0
      modifies this
      ensures Valid()
      ensures State() == AfterHide(old(State()))
      ensures !showMessage
    {
      showMessage := false;
      pendingHides := pendingHides - 1;
    }

    /** dropClaw resumed after the second pause: raise the claw, clear the prize, back to Ready. */
    method FinishDrop()
      requires Valid() && drop == Ascending
      modifies this
      ensures Valid()
      ensures State() == AfterFinish(old(State()))
      ensures gameState == Ready && !isDropping && prize == None
      ensures clawPosition == old(clawPosition) && score == old(score)
      ensures highScore == old(highScore) && sound == old(sound)
    {
      isDropping := false;
      prize := None;
      gameState := Ready;
      drop := Idle;
    }

    /** The sound button: flip the flag, nothing else. */
    method ToggleSound()
      requires Valid()
      modifies this
      ensures Valid()
      ensures State() == AfterToggleSound(old(State()))
      ensures sound == !old(sound)
    {
      sound := !sound;
    }

    /** handleKeyPress: arrows move the claw, the space bar drops it, other keys are ignored. */
    method HandleKey(key: string)
      requires Valid()
      modifies this
      ensures Valid()
      ensures State() == AfterKey(old(State()), key)
      ensures KeyAction(key) == NoAction ==> unchanged(this)
    {
      var action := KeyAction(key);
      if action == MoveLeft {
        MoveClaw(Left);
      } else if action == MoveRight {
        MoveClaw(Right);
      } else if action == DropClaw {
        StartDrop();
      }
    }
  }
}
