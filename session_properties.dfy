/**
 * What the session state machine promises, stated over the step functions the
 * controller's entry points are proved to compute.
 */
module SessionProperties {
  import opened Wrappers
  import opened Board
  import opened Controller

  /** Positions `createPosition` may draw on this board. */
  predicate OnBoard(s: Session, ps: seq<int>) {
    forall k :: 0 <= k < |ps| ==> 0 <= ps[k] < s.board.boardSize * s.board.boardSize
  }

  /** The session after the interval fires once per element of `ps`, `ps[k]` being the position drawn at firing k. */
  function Ticks(s: Session, ps: seq<int>): Session
    decreases |ps|
  {
    if ps == [] then s else Ticks(TickStep(s, ps[0]), ps[1..])
  }

  /** The session after the player clicks the drawn character once per element of `ps`, until none is drawn. */
  function Claims(s: Session, ps: seq<int>): Session
    decreases |ps|
  {
    if ps == [] || s.goblin.None? || !(0 <= s.goblin.value < |s.board.cells|) then s
    else Claims(ReactOnClickStep(s, s.goblin.value, ps[0]), ps[1..])
  }

  // ---- the interval ----

  /** A tick while the game flag is off only cancels the interval. */
  lemma TickWhileInactive(s: Session, p: int)
    requires TimersSound(s)
    requires !s.isGameActive
    ensures TickStep(s, p) == s.(liveIntervals := {})
  {
  }

  /** A tick while a position is recorded adds exactly one miss; the fifth stops the game without a reset. */
  lemma TickCountsMiss(s: Session, p: int)
    requires Inv(s)
    requires s.isGameActive && s.goblin.Some?
    ensures TickStep(s, p).misses == s.misses + 1 && TickStep(s, p).hits == s.hits
    ensures s.misses + 1 >= LoseMisses ==> TickStep(s, p) == s.(misses := LoseMisses, isGameActive := false, liveIntervals := {})
    ensures s.misses + 1 < LoseMisses ==> TickStep(s, p).isGameActive && TickStep(s, p).goblin == Some(p)
  {
    ModalMessageIsInert(s.board);
  }

  /** A tick that does not end the game records the position and draws the character there and nowhere else. */
  lemma TickSpawns(s: Session, p: int)
    requires Inv(s)
    requires s.isGameActive && !(s.goblin.Some? && s.misses + 1 >= LoseMisses)
    ensures var t := TickStep(s, p);
      && t.goblin == Some(p) && t.hits == s.hits && t.liveIntervals == s.liveIntervals
      && t.pendingTimeouts == s.pendingTimeouts
      && (s.goblin.None? ==> t.misses == s.misses)
      && (s.goblin.Some? ==> t.misses == s.misses + 1)
      && |t.board.cells| == |s.board.cells|
      && forall i :: 0 <= i < |t.board.cells| ==> (t.board.cells[i].hasCharacter <==> i == p)
  {
  }

  /** Unclaimed ticks from a drawn character lose the game at exactly the fifth miss. */
  lemma {:induction false} UnclaimedTicksLose(s: Session, ps: seq<int>)
    requires Inv(s) && s.isGameActive && s.goblin.Some?
    requires |ps| == LoseMisses - s.misses
    requires OnBoard(s, ps)
    decreases |ps|
    ensures var t := Ticks(s, ps);
      !t.isGameActive && t.misses == LoseMisses && t.hits == s.hits && t.liveIntervals == {} && Inv(t)
  {
    var s' := TickStep(s, ps[0]);
    TickPreservesInv(s, ps[0]);
    TickCountsMiss(s, ps[0]);
    if |ps| == 1 {
      assert Ticks(s, ps) == Ticks(s', []);
    } else {
      assert OnBoard(s', ps[1..]);
      UnclaimedTicksLose(s', ps[1..]);
    }
  }

  /** Six ticks after a reset with no click in between: the first draws the character, the next five lose. */
  lemma FreshSessionLostAfterSixTicks(s: Session, ps: seq<int>)
    requires Inv(s)
    requires |ps| == LoseMisses + 1
    requires OnBoard(s, ps)
    ensures var t := Ticks(ResetStep(s), ps);
      !t.isGameActive && t.misses == LoseMisses && t.hits == 0 && t.liveIntervals == {}
  {
    var r := ResetStep(s);
    ResetEstablishesInv(s);
    TickPreservesInv(r, ps[0]);
    var r1 := TickStep(r, ps[0]);
    assert OnBoard(r1, ps[1..]);
    UnclaimedTicksLose(r1, ps[1..]);
  }

  /** After a reset, the next tick draws a new character. */
  lemma TickAfterResetDraws(s: Session, p: int)
    requires Inv(s)
    requires 0 <= p < s.board.boardSize * s.board.boardSize
    ensures var t := TickStep(ResetStep(s), p);
      t.goblin == Some(p) && t.hits == 0 && t.misses == 0 && t.isGameActive
      && forall i :: 0 <= i < |t.board.cells| ==> (t.board.cells[i].hasCharacter <==> i == p)
  {
    ResetEstablishesInv(s);
    TickSpawns(ResetStep(s), p);
  }

  // ---- the timers ----

  /** No interval other than the current one is ever live. */
  lemma AtMostOneLiveInterval(s: Session)
    requires TimersSound(s)
    ensures |s.liveIntervals| <= 1
    ensures forall id :: id in s.liveIntervals ==> id == s.timerId
  {
    if s.liveIntervals != {} {
      assert s.liveIntervals == {s.timerId};
    }
  }

  /** Two `showCharacter` calls in a row leave exactly one live interval and two more pending timeouts. */
  lemma ShowCharacterTwice(s: Session)
    requires TimersSound(s)
    ensures var t := ShowCharacterStep(ShowCharacterStep(s));
      |t.liveIntervals| == 1 && t.pendingTimeouts == s.pendingTimeouts + 2
  {
    ShowCharacterLeavesOneInterval(s);
    ShowCharacterLeavesOneInterval(ShowCharacterStep(s));
  }

  /** A safety timeout clears the current interval, whichever `showCharacter` armed it. */
  lemma SafetyTimeoutClearsCurrent(s: Session)
    requires TimersSound(s)
    requires s.pendingTimeouts > 0
    ensures SafetyTimeoutStep(s) == s.(pendingTimeouts := s.pendingTimeouts - 1, liveIntervals := {})
  {
  }

  /** Safety timeouts are never cancelled: a hit arms one more, a winning hit two more. */
  lemma HitsArmSafetyTimeouts(s: Session, e: int, p: int)
    requires 0 <= e < |s.board.cells|
    requires s.board.cells[e].hasCharacter
    ensures ReactOnClickStep(s, e, p).pendingTimeouts ==
      s.pendingTimeouts + (if s.hits + 1 >= WinHits then 2 else 1)
  {
  }

  // ---- clicks ----

  /** Hit detection reads the rendered board, and in every reachable state that agrees with the recorded position. */
  lemma HitDetectionMatchesPosition(s: Session, e: int)
    requires Inv(s)
    requires 0 <= e < |s.board.cells|
    ensures s.board.cells[e].hasCharacter <==> s.goblin == Some(e)
  {
  }

  /** A click on the drawn character: one more hit, misses kept, a new position drawn, the interval restarted. */
  lemma ClickOnCharacter(s: Session, e: int, p: int)
    requires Inv(s)
    requires 0 <= e < |s.board.cells| && s.board.cells[e].hasCharacter
    requires 0 <= p < s.board.boardSize * s.board.boardSize
    requires s.hits + 1 < WinHits
    ensures var t := ReactOnClickStep(s, e, p);
      && t.hits == s.hits + 1 && t.misses == s.misses && t.goblin == Some(p)
      && t.isGameActive == s.isGameActive
      && t.timerId !in s.liveIntervals && t.liveIntervals == {t.timerId}
      && forall i :: 0 <= i < |t.board.cells| ==> (t.board.cells[i].hasCharacter <==> i == p)
  {
    ClaimStepFacts(s, p);
  }

  /** A click on any other cell: one more miss, hits and position kept. */
  lemma ClickBesideCharacter(s: Session, e: int, p: int)
    requires 0 <= e < |s.board.cells| && !s.board.cells[e].hasCharacter
    requires s.misses + 1 < LoseMisses
    ensures ReactOnClickStep(s, e, p) == s.(misses := s.misses + 1)
  {
  }

  /** The tenth hit and the fifth miss on the click path each start a fresh session. */
  lemma ThresholdClickResets(s: Session, e: int, p: int)
    requires Inv(s)
    requires 0 <= e < |s.board.cells|
    requires 0 <= p < s.board.boardSize * s.board.boardSize
    requires if s.board.cells[e].hasCharacter then s.hits + 1 == WinHits else s.misses + 1 >= LoseMisses
    ensures Restarted(ReactOnClickStep(s, e, p)) && Inv(ReactOnClickStep(s, e, p))
  {
    if s.board.cells[e].hasCharacter {
      ClaimStepFacts(s, p);
      EndStepRestarts(ClaimStep(s, p));
    } else {
      EndStepRestarts(s.(misses := s.misses + 1));
    }
  }

  /** A click starts a fresh session exactly when it is the tenth hit or a miss that reaches five. */
  lemma ClickResetsIff(s: Session, e: int, p: int)
    requires Inv(s)
    requires 0 <= e < |s.board.cells|
    requires 0 <= p < s.board.boardSize * s.board.boardSize
    ensures ReactOnClickStep(s, e, p).hits == 0 && ReactOnClickStep(s, e, p).misses == 0 <==>
      if s.board.cells[e].hasCharacter then s.hits + 1 == WinHits else s.misses + 1 >= LoseMisses
  {
    if (if s.board.cells[e].hasCharacter then s.hits + 1 == WinHits else s.misses + 1 >= LoseMisses) {
      ThresholdClickResets(s, e, p);
    }
  }

  /** Clicks have no game-flag guard: the tally and the position come out the same whether the game is on or off. */
  lemma ClickIgnoresGameFlag(s: Session, e: int, p: int)
    requires 0 <= e < |s.board.cells|
    ensures var on := ReactOnClickStep(s.(isGameActive := true), e, p);
      var off := ReactOnClickStep(s.(isGameActive := false), e, p);
      on.hits == off.hits && on.misses == off.misses && on.goblin == off.goblin && on.board == off.board
      && on.liveIntervals == off.liveIntervals
  {
  }

  /** Between resets the tally never goes down: a tick or click either keeps both counts or starts afresh. */
  lemma TallyMonotoneBetweenResets(s: Session, e: int, p: int)
    requires 0 <= e < |s.board.cells|
    ensures TickStep(s, p).hits == s.hits && TickStep(s, p).misses >= s.misses
    ensures var t := ReactOnClickStep(s, e, p);
      (t.hits >= s.hits && t.misses >= s.misses) || (t.hits == 0 && t.misses == 0 && t.isGameActive)
  {
  }

  /** Clicking the drawn character `WinHits - hits` times wins: the last click starts a fresh session. */
  lemma {:induction false} ClaimsWin(s: Session, ps: seq<int>)
    requires Inv(s) && s.goblin.Some? && |s.board.cells| > 0
    requires |ps| == WinHits - s.hits
    requires OnBoard(s, ps)
    decreases |ps|
    ensures Restarted(Claims(s, ps)) && Inv(Claims(s, ps))
  {
    var g := s.goblin.value;
    assert 0 <= g < |s.board.cells|;
    assert s.board.cells[g].hasCharacter;
    var s' := ReactOnClickStep(s, g, ps[0]);
    ReactOnClickPreservesInv(s, g, ps[0]);
    if |ps| == 1 {
      ThresholdClickResets(s, g, ps[0]);
      assert Claims(s, ps) == Claims(s', []);
    } else {
      ClickOnCharacter(s, g, ps[0]);
      assert OnBoard(s', ps[1..]);
      ClaimsWin(s', ps[1..]);
    }
  }

  /** Fewer claims than that only add to the hits. */
  lemma {:induction false} ClaimsCount(s: Session, ps: seq<int>)
    requires Inv(s) && s.goblin.Some? && |s.board.cells| > 0
    requires s.hits + |ps| < WinHits
    requires OnBoard(s, ps)
    decreases |ps|
    ensures var t := Claims(s, ps);
      t.hits == s.hits + |ps| && t.misses == s.misses && t.goblin.Some? && Inv(t)
  {
    if ps != [] {
      var g := s.goblin.value;
      var s' := ReactOnClickStep(s, g, ps[0]);
      ReactOnClickPreservesInv(s, g, ps[0]);
      ClickOnCharacter(s, g, ps[0]);
      assert OnBoard(s', ps[1..]);
      ClaimsCount(s', ps[1..]);
    }
  }

  /** The end-of-game message is inert in every invariant state: the modal never opens and the board's game flag stays on. */
  lemma ModalNeverOpens(s: Session)
    requires Inv(s)
    ensures AfterModalMessage(s.board) == s.board && s.board.gameActive
  {
  }
}
