/**
 * The session state machine of the game (GameController.js).
 *
 * Each entry point runs to completion: a firing of the repeating interval
 * (`Tick`), a click on a cell (`ReactOnClick`), the mouse entering a cell
 * (`OnCellEnter`), a firing of a 500000 ms safety timeout
 * (`SafetyTimeoutFires`) and a restart. The host's timers are modelled as
 * fields: the handle of the current interval, the set of intervals still
 * firing and the number of safety timeouts still pending.
 *
 * The session's behaviour is given first as functions of a `Session` value;
 * the class `GameController` implements them step by step and each of its
 * entry points is proved to compute the corresponding function.
 */
module Controller {
  import opened Wrappers
  import opened Board
  import opened Counter

  /** Hits that win a session. */
  const WinHits: nat := 10
  /** Misses that lose a session. */
  const LoseMisses: nat := 5
  /** Period of the repeating interval, in milliseconds. */
  const TickInterval: nat := 1000
  /** Delay of the safety timeout each `showCharacter` arms, in milliseconds. */
  const SafetyDelay: nat := 500000

  /** Everything an entry point reads or writes: the controller, its tally, the board and the host's timers. */
  datatype Session = Session(
    board: BoardState,
    isGameActive: bool,
    goblin: Option<int>,        // currentGoblinPosition
    hits: nat,
    misses: nat,
    indexSelect: Option<int>,
    timerId: nat,               // 0 while `this.timerId` is undefined; host handles are positive
    nextTimerId: nat,           // the handle the host gives to the next interval
    liveIntervals: set<nat>,    // intervals armed and not yet cleared
    pendingTimeouts: nat)       // safety timeouts armed and not yet fired

  // ---- the entry points as functions of the session ----

  /** `clearInterval(this.timerId)`; clearing an undefined handle does nothing. */
  function ResetTimerStep(s: Session): Session {
    if s.timerId == 0 then s else s.(liveIntervals := s.liveIntervals - {s.timerId})
  }

  /** `showCharacter`: clear the current interval, arm a new one and one more safety timeout. */
  function ShowCharacterStep(s: Session): Session {
    var c := ResetTimerStep(s);
    c.(timerId := c.nextTimerId,
       nextTimerId := c.nextTimerId + 1,
       liveIntervals := c.liveIntervals + {c.nextTimerId},
       pendingTimeouts := c.pendingTimeouts + 1)
  }

  /** `reset`: game flag on, tally zeroed, no position, board reset, timers re-armed. */
  function ResetStep(s: Session): Session {
    ShowCharacterStep(s.(isGameActive := true, hits := 0, misses := 0, goblin := None,
                         board := AfterReset(s.board)))
  }

  /** One firing of the interval, with `p` the position `createPosition` would draw. */
  function TickStep(s: Session, p: int): Session {
    if !s.isGameActive then
      ResetTimerStep(s)
    else if s.goblin.Some? && s.misses + 1 >= LoseMisses then
      ResetTimerStep(s.(misses := s.misses + 1, board := AfterModalMessage(s.board), isGameActive := false))
    else
      var s1 := if s.goblin.Some? then s.(misses := s.misses + 1) else s;
      s1.(goblin := Some(p), board := AfterRedraw(s1.board, Some(p)))
  }

  /** The hit path of `reactOnClick` up to the win check: count the hit, draw position `p`, restart the interval. */
  function ClaimStep(s: Session, p: int): Session {
    var s1 := ResetTimerStep(s.(hits := s.hits + 1, goblin := None));
    ShowCharacterStep(s1.(goblin := Some(p), board := AfterRedraw(s1.board, Some(p))))
  }

  /** A threshold reached on the click path: the end-of-game message, then `reset`. */
  function EndStep(s: Session): Session {
    ResetStep(s.(board := AfterModalMessage(s.board)))
  }

  /** `reactOnClick(e)`, with `p` the position `createPosition` would draw on a hit. */
  function ReactOnClickStep(s: Session, e: int, p: int): Session
    requires 0 <= e < |s.board.cells|
  {
    if s.board.cells[e].hasCharacter then
      var c := ClaimStep(s, p);
      if c.hits >= WinHits then EndStep(c) else c
    else
      var m := s.(misses := s.misses + 1);
      if m.misses >= LoseMisses then EndStep(m) else m
  }

  /** A safety timeout fires: it clears whatever interval is current. */
  function SafetyTimeoutStep(s: Session): Session
    requires s.pendingTimeouts > 0
  {
    ResetTimerStep(s.(pendingTimeouts := s.pendingTimeouts - 1))
  }

  /** `onCellEnter(index)`; `None` when the source would throw (deselecting a cell that does not exist). */
  function CellEnterStep(s: Session, index: int): Option<Session>
    requires 0 <= index < |s.board.cells|
  {
    var found := HasClassAnywhere(s.board.cells, GenericSelection);
    if found && !(s.indexSelect.Some? && 0 <= s.indexSelect.value < |s.board.cells|) then
      None
    else
      var b := if found then AfterDeselect(s.board, s.indexSelect.value) else s.board;
      Some(s.(board := AfterSelect(b, index, DefaultColor), indexSelect := Some(index)))
  }

  // ---- the invariant every entry point keeps ----

  /** Handles: ids are positive, the current one was issued, and no interval but the current one is live. */
  predicate TimersSound(s: Session) {
    && 0 < s.nextTimerId && s.timerId < s.nextTimerId
    && s.liveIntervals <= {s.timerId} && 0 !in s.liveIntervals
  }

  /** The rendered board agrees with `currentGoblinPosition`: the character is in cell i iff the position is i. */
  predicate RenderedAtGoblin(s: Session) {
    forall i :: 0 <= i < |s.board.cells| ==> (s.board.cells[i].hasCharacter <==> s.goblin == Some(i))
  }

  predicate Inv(s: Session) {
    && Steady(s.board)
    && (s.goblin.Some? ==> 0 <= s.goblin.value < s.board.boardSize * s.board.boardSize)
    && RenderedAtGoblin(s)
    && (s.indexSelect.Some? ==> 0 <= s.indexSelect.value < |s.board.cells|)
    && TimersSound(s)
    && s.hits < WinHits
    && s.misses <= LoseMisses
    && (s.isGameActive ==> s.misses < LoseMisses)
  }

  /** `showCharacter` leaves exactly one live interval, the new current one, and one more pending timeout. */
  lemma ShowCharacterLeavesOneInterval(s: Session)
    requires TimersSound(s)
    ensures TimersSound(ShowCharacterStep(s))
    ensures ShowCharacterStep(s).liveIntervals == {ShowCharacterStep(s).timerId}
    ensures ShowCharacterStep(s).timerId !in s.liveIntervals
    ensures ShowCharacterStep(s).pendingTimeouts == s.pendingTimeouts + 1
  {
  }

  /** After `reset`: tally zeroed, no position, game on, board emptied, one live interval. */
  lemma ResetEstablishesInv(s: Session)
    requires TimersSound(s)
    requires !HasClassAnywhere(s.board.cells, GenericSelection)
    requires |s.board.cells| == 0 || |s.board.cells| == s.board.boardSize * s.board.boardSize
    requires s.indexSelect.Some? ==> 0 <= s.indexSelect.value < |s.board.cells|
    ensures Inv(ResetStep(s))
    ensures var r := ResetStep(s);
      r.hits == 0 && r.misses == 0 && r.goblin == None && r.isGameActive
      && r.liveIntervals == {r.timerId} && r.pendingTimeouts == s.pendingTimeouts + 1
  {
    ResetIsSteady(s.board);
    ShowCharacterLeavesOneInterval(s.(isGameActive := true, hits := 0, misses := 0, goblin := None,
                                      board := AfterReset(s.board)));
  }

  lemma TickPreservesInv(s: Session, p: int)
    requires Inv(s)
    requires 0 <= p < s.board.boardSize * s.board.boardSize
    ensures Inv(TickStep(s, p))
  {
    if s.isGameActive && !(s.goblin.Some? && s.misses + 1 >= LoseMisses) {
      var s1 := if s.goblin.Some? then s.(misses := s.misses + 1) else s;
      if |s.board.cells| > 0 {
        SteadyPreserved(s1.board, Some(p), 0);
      } else {
        assert AfterRedraw(s1.board, Some(p)).cells == [];
      }
    }
  }

  /** Whether a session is the fresh one `reset` starts. */
  predicate Restarted(r: Session) {
    r.hits == 0 && r.misses == 0 && r.goblin == None && r.isGameActive && r.liveIntervals == {r.timerId}
  }

  /** The hit path before the win check: one more hit, the character drawn at `p` alone, one fresh live interval. */
  lemma ClaimStepFacts(s: Session, p: int)
    requires Inv(s)
    requires 0 <= p < s.board.boardSize * s.board.boardSize
    ensures var c := ClaimStep(s, p);
      && c.hits == s.hits + 1 && c.misses == s.misses && c.goblin == Some(p)
      && c.isGameActive == s.isGameActive && c.indexSelect == s.indexSelect
      && c.pendingTimeouts == s.pendingTimeouts + 1
      && c.timerId !in s.liveIntervals && c.liveIntervals == {c.timerId} && TimersSound(c)
      && c.board == AfterRedraw(s.board, Some(p)) && Steady(c.board) && RenderedAtGoblin(c)
  {
    var s1 := ResetTimerStep(s.(hits := s.hits + 1, goblin := None));
    if |s.board.cells| > 0 {
      SteadyPreserved(s1.board, Some(p), 0);
    } else {
      assert AfterRedraw(s1.board, Some(p)).cells == [];
    }
    ShowCharacterLeavesOneInterval(s1.(goblin := Some(p), board := AfterRedraw(s1.board, Some(p))));
  }

  /** A threshold on the click path always starts a fresh session that satisfies the invariant. */
  lemma EndStepRestarts(s: Session)
    requires TimersSound(s) && Steady(s.board)
    requires s.indexSelect.Some? ==> 0 <= s.indexSelect.value < |s.board.cells|
    ensures Restarted(EndStep(s)) && Inv(EndStep(s))
    ensures EndStep(s).pendingTimeouts == s.pendingTimeouts + 1
  {
    ModalMessageIsInert(s.board);
    ResetEstablishesInv(s);
  }

  lemma ReactOnClickPreservesInv(s: Session, e: int, p: int)
    requires Inv(s)
    requires 0 <= e < |s.board.cells|
    requires 0 <= p < s.board.boardSize * s.board.boardSize
    ensures Inv(ReactOnClickStep(s, e, p))
  {
    if s.board.cells[e].hasCharacter {
      ClaimStepFacts(s, p);
      var c := ClaimStep(s, p);
      if c.hits >= WinHits {
        EndStepRestarts(c);
      }
    } else {
      var m := s.(misses := s.misses + 1);
      if m.misses >= LoseMisses {
        EndStepRestarts(m);
      }
    }
  }

  lemma SafetyTimeoutPreservesInv(s: Session)
    requires Inv(s)
    requires s.pendingTimeouts > 0
    ensures Inv(SafetyTimeoutStep(s))
  {
  }

  /** With the invariant, entering a cell never throws and only selects that cell. */
  lemma CellEnterPreservesInv(s: Session, index: int)
    requires Inv(s)
    requires 0 <= index < |s.board.cells|
    ensures CellEnterStep(s, index) == Some(s.(board := AfterSelect(s.board, index, DefaultColor), indexSelect := Some(index)))
    ensures Inv(CellEnterStep(s, index).value)
  {
    SteadyPreserved(s.board, None, index);
  }

  class GameController {
    const gamePlay: GamePlay
    var clickCounter: ClickCounter
    var indexSelect: Option<int>
    var currentGoblinPosition: Option<int>
    var isGameActive: bool
    var timerId: nat
    var nextTimerId: nat
    var liveIntervals: set<nat>
    var pendingTimeouts: nat

    function State(): Session
      reads this, gamePlay, clickCounter
    {
      Session(gamePlay.State(), isGameActive, currentGoblinPosition, clickCounter.hits, clickCounter.misses,
              indexSelect, timerId, nextTimerId, liveIntervals, pendingTimeouts)
    }

    predicate Valid()
      reads this, gamePlay, clickCounter
    {
      Inv(State())
    }

    constructor(gamePlay: GamePlay)
      ensures this.gamePlay == gamePlay && fresh(clickCounter)
      ensures State() == Session(gamePlay.State(), true, None, 0, 0, None, 0, 1, {}, 0)
      ensures Steady(gamePlay.State()) && CharacterCount(gamePlay.cells) == 0 ==> Valid()
    {
      this.gamePlay := gamePlay;
      clickCounter := new ClickCounter();
      indexSelect := None;
      currentGoblinPosition := None;
      isGameActive := true;
      timerId := 0;
      nextTimerId := 1;
      liveIntervals := {};
      pendingTimeouts := 0;
      new;
      if Steady(gamePlay.State()) && CharacterCount(gamePlay.cells) == 0 {
        NoCharacterAnywhere(gamePlay.cells);
      }
    }

    /** Subscribes, draws the board, starts a fresh tally and arms the first interval. */
    method Init() returns (r: Outcome<BoardError>)
      modifies this, gamePlay
      ensures gamePlay.cellEnterListeners == old(gamePlay.cellEnterListeners) + [EnterHandler]
      ensures gamePlay.cellLeaveListeners == old(gamePlay.cellLeaveListeners) + [LeaveHandler]
      ensures gamePlay.cellClickListeners == old(gamePlay.cellClickListeners) + [ClickHandler]
      ensures gamePlay.State() == old(gamePlay.State()).(
        enterListeners := old(gamePlay.cellEnterListeners) + [EnterHandler],
        leaveListeners := old(gamePlay.cellLeaveListeners) + [LeaveHandler],
        clickListeners := old(gamePlay.cellClickListeners) + [ClickHandler],
        cells := if old(gamePlay.bound) then DrawnCells(gamePlay.boardSize) else old(gamePlay.cells))
      ensures !old(gamePlay.bound) ==> r == Fail(NotBound) && clickCounter == old(clickCounter)
      ensures !old(gamePlay.bound) ==> State() == old(State()).(board := gamePlay.State())
      ensures old(gamePlay.bound) ==> r == Pass && fresh(clickCounter)
      ensures old(gamePlay.bound) ==> gamePlay.cells == DrawnCells(gamePlay.boardSize)
      ensures old(gamePlay.bound) ==>
        State() == ShowCharacterStep(old(State()).(board := gamePlay.State(), hits := 0, misses := 0))
      ensures old(Valid()) && old(currentGoblinPosition) == None && r == Pass ==> Valid()
    {
      ghost var s0 := State();
      Events();
      r := gamePlay.DrawUi();
      if r.Fail? {
        return;
      }
      clickCounter := new ClickCounter();
      ShowCharacter();
      if Inv(s0) && s0.goblin == None {
        var b := gamePlay.State();
        assert !HasClassAnywhere(b.cells, GenericSelection);
        ShowCharacterLeavesOneInterval(s0.(board := b, hits := 0, misses := 0));
      }
    }

    /** Registers the three bound handlers with the board. */
    method Events()
      modifies gamePlay
      ensures gamePlay.State() == old(gamePlay.State()).(
        enterListeners := old(gamePlay.cellEnterListeners) + [EnterHandler],
        leaveListeners := old(gamePlay.cellLeaveListeners) + [LeaveHandler],
        clickListeners := old(gamePlay.cellClickListeners) + [ClickHandler])
    {
      gamePlay.AddCellEnterListener(EnterHandler);
      gamePlay.AddCellLeaveListener(LeaveHandler);
      gamePlay.AddCellClickListener(ClickHandler);
    }

    /** The mouse entered cell `index`: select it; `ok` is false where the source would throw. */
    method OnCellEnter(index: int) returns (ok: bool)
      requires EnterHandler in gamePlay.cellEnterListeners
      requires 0 <= index < |gamePlay.cells|
      modifies this, gamePlay
      ensures ok <==> CellEnterStep(old(State()), index).Some?
      ensures ok ==> State() == CellEnterStep(old(State()), index).value
      ensures !ok ==> State() == old(State())
      ensures old(Valid()) ==> ok && Valid()
    {
      ghost var s0 := State();
      if HasClassAnywhere(gamePlay.cells, GenericSelection) {
        if indexSelect.None? || !(0 <= indexSelect.value < |gamePlay.cells|) {
          return false;
        }
        gamePlay.DeselectCell(indexSelect.value);
      }
      gamePlay.SelectCell(index);
      indexSelect := Some(index);
      ok := true;
      if Inv(s0) {
        CellEnterPreservesInv(s0, index);
      }
    }

    /** `clearInterval(this.timerId)`. */
    method ResetTimer()
      modifies this`liveIntervals
      ensures State() == ResetTimerStep(old(State()))
    {
      if timerId != 0 {
        liveIntervals := liveIntervals - {timerId};
      }
    }

    /** Replaces the current interval with a new one and arms one more safety timeout. */
    method ShowCharacter()
      modifies this`liveIntervals, this`timerId, this`nextTimerId, this`pendingTimeouts
      ensures State() == ShowCharacterStep(old(State()))
    {
      ResetTimer();
      timerId := nextTimerId;
      nextTimerId := nextTimerId + 1;
      liveIntervals := liveIntervals + {timerId};
      pendingTimeouts := pendingTimeouts + 1;
    }

    /** The live interval `id` fires; `p` is the position `createPosition` draws. */
    method Tick(id: nat, p: int)
      requires id in liveIntervals
      requires 0 <= p < gamePlay.boardSize * gamePlay.boardSize
      modifies this, gamePlay, clickCounter
      ensures clickCounter == old(clickCounter)
      ensures State() == TickStep(old(State()), p)
      ensures old(Valid()) ==> Valid()
    {
      ghost var s0 := State();
      if !isGameActive {
        ResetTimer();
        return;
      }
      if currentGoblinPosition != None {
        clickCounter.IncrementMiss();
        if clickCounter.GetMissCount() >= LoseMisses {
          gamePlay.ShowModalMessage();
          isGameActive := false;
          ResetTimer();
          return;
        }
      }
      var position := p;
      currentGoblinPosition := Some(position);
      gamePlay.RedrawPositions(Some(position));
      if Inv(s0) {
        TickPreservesInv(s0, p);
      }
    }

    /** A click on cell `e`; `p` is the position `createPosition` draws if the click is a hit. */
    method ReactOnClick(e: int, p: int)
      requires ClickHandler in gamePlay.cellClickListeners
      requires 0 <= e < |gamePlay.cells|
      requires 0 <= p < gamePlay.boardSize * gamePlay.boardSize
      modifies this, gamePlay, clickCounter
      ensures clickCounter == old(clickCounter)
      ensures State() == ReactOnClickStep(old(State()), e, p)
      ensures old(Valid()) ==> Valid()
    {
      ghost var s0 := State();
      var isGoblin := gamePlay.cells[e].hasCharacter;
      if isGoblin {
        clickCounter.IncrementHit();
        currentGoblinPosition := None;
        ResetTimer();
        ghost var s1 := State();
        assert s1 == ResetTimerStep(s0.(hits := s0.hits + 1, goblin := None));
        var position := p;
        currentGoblinPosition := Some(position);
        gamePlay.RedrawPositions(Some(position));
        ShowCharacter();
        ghost var s2 := State();
        assert s2 == ClaimStep(s0, p);
        if clickCounter.GetHitCount() >= WinHits {
          gamePlay.ShowModalMessage();
          Reset();
          assert State() == EndStep(s2);
        }
      } else {
        clickCounter.IncrementMiss();
        ghost var m := State();
        assert m == s0.(misses := s0.misses + 1);
        if clickCounter.GetMissCount() >= LoseMisses {
          gamePlay.ShowModalMessage();
          Reset();
          assert State() == EndStep(m);
        }
      }
      if Inv(s0) {
        ReactOnClickPreservesInv(s0, e, p);
      }
    }

    /** Starts a new session in place. */
    method Reset()
      modifies this, gamePlay, clickCounter
      ensures clickCounter == old(clickCounter)
      ensures State() == ResetStep(old(State()))
    {
      isGameActive := true;
      clickCounter.Reset();
      currentGoblinPosition := None;
      gamePlay.ResetGame();
      ShowCharacter();
    }

    /** A pending safety timeout fires and clears the current interval. */
    method SafetyTimeoutFires()
      requires pendingTimeouts > 0
      modifies this`liveIntervals, this`pendingTimeouts
      ensures State() == SafetyTimeoutStep(old(State()))
      ensures old(Valid()) ==> Valid()
    {
      pendingTimeouts := pendingTimeouts - 1;
      ResetTimer();
    }

    /** The modal's "new game" button: the board's `resetGame`, then `onRestart`, which is `reset`. */
    method ConfirmNewGame()
      modifies this, gamePlay, clickCounter
      ensures clickCounter == old(clickCounter)
      ensures State() == ResetStep(old(State()).(board := AfterReset(old(gamePlay.State()))))
      ensures old(Valid()) ==> Valid()
    {
      ghost var s0 := State();
      gamePlay.ResetGame();
      Reset();
      if Inv(s0) {
        ResetEstablishesInv(s0.(board := AfterReset(s0.board)));
      }
    }
  }

  /** A board with no character counted has the character in no cell. */
  lemma {:induction false} NoCharacterAnywhere(cells: seq<Cell>)
    requires CharacterCount(cells) == 0
    ensures forall i :: 0 <= i < |cells| ==> !cells[i].hasCharacter
  {
    if cells != [] {
      NoCharacterAnywhere(cells[1..]);
      assert forall i :: 1 <= i < |cells| ==> cells[i] == cells[1..][i - 1];
    }
  }
}
