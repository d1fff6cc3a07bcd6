/**
 * Properties of the claw-machine game over single events and over whole
 * sequences of events, and the scenarios the game is expected to play out.
 */
module ClawProperties {
  import opened Claw

  lemma InitialInv()
    ensures Inv(INITIAL)
    ensures INITIAL.score == INITIAL.highScore == INITIAL_SCORE
  {
  }

  /** One move from a reachable state keeps the claw on the grid within the rails. */
  lemma MovePreservesInv(s: Snapshot, dir: Direction)
    requires Inv(s)
    ensures Inv(AfterMove(s, dir))
  {
  }

  /**
   * From a reachable state a move either changes the position by exactly five
   * in its direction, or leaves the claw where it is, at that rail end, or
   * is refused because a drop is in flight.
   */
  lemma MoveIsOneStep(s: Snapshot, dir: Direction)
    requires Inv(s)
    ensures var p := AfterMove(s, dir).clawPosition;
      || (s.gameState == Ready && p == s.clawPosition + Offset(dir))
      || (s.gameState == Ready && p == s.clawPosition == Bound(dir))
      || (s.gameState == Dropping && p == s.clawPosition)
  {
  }

  /** A drop accepted in Ready cannot be followed by a second accepted drop: single flight. */
  lemma SecondDropRejected(s: Snapshot)
    ensures AfterStartDrop(AfterStartDrop(s)) == AfterStartDrop(s)
  {
  }

  /**
   * The closure-captured score yields the same high score as the freshly
   * updated score: on a reachable state the outcome raises the high score to
   * exactly the larger of the old high score and the new score.
   */
  lemma CapturedScoreIsCurrent(s: Snapshot, prizeIndex: nat)
    requires Inv(s) && s.drop.Descending? && prizeIndex < |PRIZES|
    ensures var t := AfterResolve(s, true, prizeIndex);
      t.highScore == Max(s.highScore, t.score) && t.highScore >= t.score
  {
  }

  /** Every event that can happen keeps the invariant. */
  lemma ApplyPreservesInv(s: Snapshot, e: Event)
    requires Inv(s) && Enabled(s, e)
    ensures Inv(Apply(s, e))
  {
  }

  /** Every state reached by a sequence of events from a good state is good. */
  lemma {:induction false} RunPreservesInv(s: Snapshot, events: seq<Event>, t: Snapshot)
    requires Inv(s) && Run(s, events) == Some(t)
    ensures Inv(t)
    decreases |events|
  {
    if events != [] {
      ApplyPreservesInv(s, events[0]);
      RunPreservesInv(Apply(s, events[0]), events[1..], t);
    }
  }

  /** From a good state whose high score is its score, no event separates the two. */
  lemma ApplyKeepsHighScoreAtScore(s: Snapshot, e: Event)
    requires Inv(s) && s.highScore == s.score && Enabled(s, e)
    ensures Apply(s, e).highScore == Apply(s, e).score
  {
  }

  /** From a good state whose high score is its score, no sequence of events separates the two. */
  lemma {:induction false} RunKeepsHighScoreAtScore(s: Snapshot, events: seq<Event>, t: Snapshot)
    requires Inv(s) && s.highScore == s.score && Run(s, events) == Some(t)
    ensures t.highScore == t.score
    decreases |events|
  {
    if events != [] {
      ApplyKeepsHighScoreAtScore(s, events[0]);
      ApplyPreservesInv(s, events[0]);
      RunKeepsHighScoreAtScore(Apply(s, events[0]), events[1..], t);
    }
  }

  /**
   * Every state the game reaches from mount keeps the claw within the rails,
   * and its high score is its score, which is at least fifteen. Since the
   * score never decreases, that is the highest score reached so far.
   */
  lemma Reachable(events: seq<Event>, t: Snapshot)
    requires Run(INITIAL, events) == Some(t)
    ensures InRange(t.clawPosition) && t.clawPosition % STEP == 0
    ensures INITIAL_SCORE <= t.score <= t.highScore
    ensures t.highScore == t.score
  {
    InitialInv();
    RunPreservesInv(INITIAL, events, t);
    RunKeepsHighScoreAtScore(INITIAL, events, t);
  }

  /** No event lowers the score or the high score. */
  lemma ApplyKeepsScores(s: Snapshot, e: Event)
    requires Enabled(s, e)
    ensures Apply(s, e).score >= s.score && Apply(s, e).highScore >= s.highScore
  {
  }

  /** Over any sequence of events the score and the high score never decrease. */
  lemma {:induction false} ScoresNeverDecrease(s: Snapshot, events: seq<Event>, t: Snapshot)
    requires Run(s, events) == Some(t)
    ensures t.score >= s.score && t.highScore >= s.highScore
    decreases |events|
  {
    if events != [] {
      ApplyKeepsScores(s, events[0]);
      ScoresNeverDecrease(Apply(s, events[0]), events[1..], t);
    }
  }

  /** How many outcome resolutions a sequence of events holds. */
  function Resolutions(events: seq<Event>): (n: nat)
    decreases |events|
  {
    if events == [] then 0
    else (if events[0].DescentDone? then 1 else 0) + Resolutions(events[1..])
  }

  /**
   * While a drop is in flight and its sequence has not finished, whatever
   * input arrives: the claw does not move, the game stays Dropping, no new
   * sequence starts, and the outcome is resolved at most once (not at all if
   * it already was).
   */
  lemma {:induction false} DropInFlight(s: Snapshot, events: seq<Event>, t: Snapshot)
    requires Inv(s) && s.gameState == Dropping
    requires forall i :: 0 <= i < |events| ==> !events[i].AscentDone?
    requires Run(s, events) == Some(t)
    ensures t.clawPosition == s.clawPosition
    ensures t.gameState == Dropping && t.isDropping
    ensures t.drop != Idle
    ensures Resolutions(events) <= (if s.drop.Descending? then 1 else 0)
    ensures s.drop == Ascending ==> t.drop == Ascending
    decreases |events|
  {
    if events != [] {
      var e := events[0];
      ApplyPreservesInv(s, e);
      assert forall i :: 0 <= i < |events[1..]| ==> !events[1..][i].AscentDone? by {
        forall i | 0 <= i < |events[1..]| ensures !events[1..][i].AscentDone? {
          assert events[1..][i] == events[i + 1];
        }
      }
      DropInFlight(Apply(s, e), events[1..], t);
    }
  }

  /**
   * A whole drop sequence from Ready, with any input or timer arriving while
   * the claw is down, ends back in Ready with the claw where it started, the
   * claw raised, no prize set, and the high score at or above the score.
   */
  lemma WholeDropKeepsPosition(s: Snapshot, middle: seq<Event>, t: Snapshot)
    requires Inv(s) && s.gameState == Ready
    requires forall i :: 0 <= i < |middle| ==> !middle[i].AscentDone?
    requires Run(s, [DropButton] + middle + [AscentDone]) == Some(t)
    ensures t.clawPosition == s.clawPosition
    ensures t.gameState == Ready && !t.isDropping && t.prize == None
    ensures s.score <= t.score <= t.highScore
  {
    var started := AfterStartDrop(s);
    ApplyPreservesInv(s, DropButton);
    RunConcat(s, [DropButton] + middle, [AscentDone]);
    RunConcat(s, [DropButton], middle);
    assert Run(s, [DropButton]) == Some(started);
    var u :| Run(started, middle) == Some(u) && Run(u, [AscentDone]) == Some(t);
    DropInFlight(started, middle, u);
    RunPreservesInv(started, middle, u);
    ScoresNeverDecrease(started, middle, u);
    assert t == AfterFinish(u);
  }

  /** Holding the left arrow long enough from a reachable Ready state parks the claw at the left rail end. */
  lemma {:induction false} LeftPressesReachRail(s: Snapshot, n: nat)
    requires Inv(s) && s.gameState == Ready
    requires STEP * n >= s.clawPosition - MIN_POSITION
    ensures Run(s, seq(n, _ => Key("ArrowLeft"))) == Some(s.(clawPosition := MIN_POSITION))
    decreases n
  {
    var events := seq(n, _ => Key("ArrowLeft"));
    if n == 0 {
      assert s.clawPosition == MIN_POSITION;
      assert events == [];
    } else {
      var s' := AfterMove(s, Left);
      MovePreservesInv(s, Left);
      assert events[0] == Key("ArrowLeft");
      assert events[1..] == seq(n - 1, _ => Key("ArrowLeft"));
      assert s'.clawPosition == Max(MIN_POSITION, s.clawPosition - STEP);
      LeftPressesReachRail(s', n - 1);
      assert s'.(clawPosition := MIN_POSITION) == s.(clawPosition := MIN_POSITION);
    }
  }

  /** Running two sequences of events one after the other is running their concatenation. */
  lemma {:induction false} RunConcat(s: Snapshot, first: seq<Event>, second: seq<Event>)
    ensures Run(s, first + second) ==
      match Run(s, first)
      case None => None
      case Some(m) => Run(m, second)
    decreases |first|
  {
    if first != [] {
      assert (first + second)[0] == first[0];
      assert (first + second)[1..] == first[1..] + second;
      if Enabled(s, first[0]) {
        RunConcat(Apply(s, first[0]), first[1..], second);
      }
    } else {
      assert first + second == second;
    }
  }

  /** From mount: one left press moves the claw to 45, eleven park it at 10. */
  lemma MoveLeftScenario()
    ensures Run(INITIAL, [Key("ArrowLeft")]) == Some(INITIAL.(clawPosition := 45))
    ensures Run(INITIAL, seq(11, _ => Key("ArrowLeft"))) == Some(INITIAL.(clawPosition := 10))
  {
    InitialInv();
    LeftPressesReachRail(INITIAL, 11);
  }

  /**
   * From mount, a drop that wins prize 0: after the first pause the prize is
   * the teddy bear, the message shows, the score and high score are 16; the
   * hide timer clears the message; the second pause clears the prize and
   * returns to Ready.
   */
  lemma WinScenario()
    ensures var s1 := AfterResolve(AfterKey(INITIAL, " "), true, 0);
      && s1.prize == Some(PRIZES[0]) && s1.prize.value.name == "Osito"
      && s1.showMessage && s1.score == 16 && s1.highScore == 16
      && !AfterHide(s1).showMessage
      && AfterFinish(AfterHide(s1)).prize == None
      && AfterFinish(AfterHide(s1)).gameState == Ready
      && Run(INITIAL, [Key(" "), DescentDone(true, 0), MessageTimer, AscentDone])
         == Some(AfterFinish(AfterHide(s1)))
  {
  }

  /** From mount, a drop that loses: after the whole sequence only the phase went round. */
  lemma LossScenario()
    ensures Run(INITIAL, [Key(" "), DescentDone(false, 3), AscentDone]) == Some(INITIAL)
  {
  }

  /**
   * The detached hide timer is not cancelled: in two winning rounds, the first
   * round's timer may fire after the second win and hide the message while
   * the second prize is still set.
   */
  lemma StaleHideScenario()
    ensures var t := Run(INITIAL, [DropButton, DescentDone(true, 1), AscentDone,
                                   DropButton, DescentDone(true, 2), MessageTimer]);
      && t.Some?
      && t.value.prize == Some(PRIZES[2])
      && !t.value.showMessage
      && t.value.pendingHides == 1
  {
    var first := [DropButton, DescentDone(true, 1), AscentDone];
    var second := [DropButton, DescentDone(true, 2), MessageTimer];
    var s1 := AfterFinish(AfterResolve(AfterStartDrop(INITIAL), true, 1));
    assert Run(INITIAL, first) == Some(s1);
    RunConcat(INITIAL, first, second);
    assert first + second == [DropButton, DescentDone(true, 1), AscentDone,
                              DropButton, DescentDone(true, 2), MessageTimer];
  }
}
