/**
 * The board surface of the game (GamePlay.js): the grid of cells, the three
 * listener registries, and the flags `gameActive`, `isModal` and `missCounter`.
 *
 * The DOM is abstracted to what the game logic reads back: whether a cell holds
 * the character sprite, and the cell's class list.
 */
module Board {
  import opened Wrappers

  /** One grid cell: does it contain the `.character.generic` element, and its class list. */
  datatype Cell = Cell(hasCharacter: bool, classes: set<string>)

  /** A registered callback: one of the controller's three bound handlers, or any other callback. */
  datatype Listener = EnterHandler | LeaveHandler | ClickHandler | OtherListener(id: nat)

  /** One invocation of a listener with a cell index. */
  datatype Call = Call(listener: Listener, index: int)

  /** `checkBinding` throws when the board was never attached to a container. */
  datatype BoardError = NotBound

  /** Everything about the board that the game logic can observe. */
  datatype BoardState = BoardState(
    boardSize: nat,
    bound: bool,                     // container !== null
    cells: seq<Cell>,
    enterListeners: seq<Listener>,
    leaveListeners: seq<Listener>,
    clickListeners: seq<Listener>,
    isModal: bool,
    missCounter: nat,
    gameActive: bool,
    modalOpen: bool)                 // currentModal is set

  /** The classes every drawn cell starts with (the tile-type class is not modelled). */
  const TileClasses: set<string> := {"cell", "map-tile"}

  /** The colour `selectCell` uses when its caller gives none. */
  const DefaultColor: string := "yellow"

  /** The class the controller looks for before deselecting the previous cell. */
  const GenericSelection: string := "selected-generic"

  /** `startsWith('selected')`: the classes `deselectCell` removes. */
  predicate IsSelectionClass(c: string) {
    |c| >= 8 && c[..8] == "selected"
  }

  /** The grid `drawUi` builds for a board of side `n`: `n * n` cells, none holding the character. */
  function DrawnCells(n: nat): (r: seq<Cell>)
    ensures |r| == n * n
    ensures forall i :: 0 <= i < |r| ==> !r[i].hasCharacter && r[i].classes == TileClasses
  {
    seq(n * n, _ => Cell(false, TileClasses))
  }

  /** Every cell with its inner content removed (`cell.innerHTML = ''`); class lists are kept. */
  function Emptied(cells: seq<Cell>): (r: seq<Cell>)
    ensures |r| == |cells|
    ensures forall i :: 0 <= i < |r| ==> !r[i].hasCharacter && r[i].classes == cells[i].classes
  {
    seq(|cells|, i requires 0 <= i < |cells| => cells[i].(hasCharacter := false))
  }

  /** The cells after the character is drawn at `position` on an emptied board. */
  function WithCharacterAt(cells: seq<Cell>, position: Option<int>): (r: seq<Cell>)
    ensures |r| == |cells|
    ensures forall i :: 0 <= i < |r| ==>
      r[i].classes == cells[i].classes && (r[i].hasCharacter <==> position == Some(i))
  {
    var empty := Emptied(cells);
    if position.Some? && 0 <= position.value < |cells| then
      empty[position.value := empty[position.value].(hasCharacter := true)]
    else
      empty
  }

  /** A class list with every `selected…` class removed. */
  function WithoutSelection(classes: set<string>): (r: set<string>)
    ensures r <= classes
    ensures forall c :: c in classes && !IsSelectionClass(c) ==> c in r
    ensures forall c :: c in r ==> !IsSelectionClass(c)
  {
    set c | c in classes && !IsSelectionClass(c)
  }

  /** A class list after `selectCell(_, color)`: old selection classes replaced by `selected`, `selected-<color>`. */
  function WithSelection(classes: set<string>, color: string): (r: set<string>)
    ensures "selected" in r && "selected-" + color in r
    ensures forall c :: !IsSelectionClass(c) ==> (c in r <==> c in classes)
    ensures forall c :: c in r && IsSelectionClass(c) ==> c == "selected" || c == "selected-" + color
  {
    var name := "selected-" + color;
    assert name[..8] == "selected";
    WithoutSelection(classes) + {"selected", name}
  }

  /** Number of cells holding the character. */
  function CharacterCount(cells: seq<Cell>): nat
  {
    if cells == [] then 0
    else (if cells[0].hasCharacter then 1 else 0) + CharacterCount(cells[1..])
  }

  /** Some cell carries class `c` (`document.querySelector('.' + c)` over the board). */
  predicate HasClassAnywhere(cells: seq<Cell>, c: string) {
    exists i :: 0 <= i < |cells| && c in cells[i].classes
  }

  // ---- the board operations as functions of the board state ----

  function AfterRedraw(b: BoardState, position: Option<int>): BoardState {
    if !b.gameActive then b else b.(cells := WithCharacterAt(b.cells, position))
  }

  function AfterDeselect(b: BoardState, index: int): BoardState
    requires 0 <= index < |b.cells|
  {
    b.(cells := b.cells[index := b.cells[index].(classes := WithoutSelection(b.cells[index].classes))])
  }

  function AfterSelect(b: BoardState, index: int, color: string): BoardState
    requires 0 <= index < |b.cells|
  {
    b.(cells := b.cells[index := b.cells[index].(classes := WithSelection(b.cells[index].classes, color))])
  }

  function AfterModalMessage(b: BoardState): BoardState {
    if !b.isModal then b else b.(isModal := true, gameActive := false, modalOpen := true)
  }

  function AfterReset(b: BoardState): BoardState {
    b.(missCounter := 0, gameActive := true, cells := Emptied(b.cells), isModal := false, modalOpen := false)
  }

  /**
   * The board as every reachable state leaves it: no modal open, the game flag on,
   * `missCounter` zero, no `selected-generic` class, and either no cells or a full grid.
   */
  predicate Steady(b: BoardState) {
    && !b.isModal && !b.modalOpen && b.gameActive && b.missCounter == 0
    && !HasClassAnywhere(b.cells, GenericSelection)
    && (|b.cells| == 0 || |b.cells| == b.boardSize * b.boardSize)
  }

  // ---- the loops shared by the class's methods ----

  /** Hands `index` to every listener, in registration order (`listeners.forEach(o => o.call(null, index))`). */
  method Dispatch(listeners: seq<Listener>, index: int) returns (calls: seq<Call>)
    ensures |calls| == |listeners|
    ensures forall k :: 0 <= k < |calls| ==> calls[k] == Call(listeners[k], index)
  {
    calls := [];
    var k := 0;
    while k < |listeners|
      invariant 0 <= k <= |listeners|
      invariant |calls| == k
      invariant forall j :: 0 <= j < k ==> calls[j] == Call(listeners[j], index)
    {
      calls := calls + [Call(listeners[k], index)];
      k := k + 1;
    }
  }

  /** The `for (const cell of this.cells) cell.innerHTML = ''` loop. */
  method EmptyCells(cells: seq<Cell>) returns (r: seq<Cell>)
    ensures r == Emptied(cells)
  {
    r := cells;
    var i := 0;
    while i < |r|
      invariant 0 <= i <= |r| == |cells|
      invariant forall k :: 0 <= k < i ==> r[k] == cells[k].(hasCharacter := false)
      invariant forall k :: i <= k < |r| ==> r[k] == cells[k]
    {
      r := r[i := r[i].(hasCharacter := false)];
      i := i + 1;
    }
  }

  class GamePlay {
    const boardSize: nat
    var bound: bool
    var cells: seq<Cell>
    var cellClickListeners: seq<Listener>
    var cellEnterListeners: seq<Listener>
    var cellLeaveListeners: seq<Listener>
    var isModal: bool
    var missCounter: nat
    var gameActive: bool
    var modalOpen: bool

    function State(): BoardState
      reads this
    {
      BoardState(boardSize, bound, cells, cellEnterListeners, cellLeaveListeners, cellClickListeners,
                 isModal, missCounter, gameActive, modalOpen)
    }

    constructor(boardSize: nat)
      ensures State() == BoardState(boardSize, false, [], [], [], [], false, 0, true, false)
      ensures Steady(State())
    {
      this.boardSize := boardSize;
      bound := false;
      cells := [];
      cellClickListeners := [];
      cellEnterListeners := [];
      cellLeaveListeners := [];
      isModal := false;
      missCounter := 0;
      gameActive := true;
      modalOpen := false;
    }

    /** Attaches the board to a container element. */
    method BindToDom()
      modifies this
      ensures State() == old(State()).(bound := true)
    {
      bound := true;
    }

    /** Builds the grid: fails when unbound, otherwise exactly `boardSize * boardSize` empty tiles. */
    method DrawUi() returns (r: Outcome<BoardError>)
      modifies this
      ensures !old(bound) ==> r == Fail(NotBound) && State() == old(State())
      ensures old(bound) ==> r == Pass && State() == old(State()).(cells := DrawnCells(boardSize))
    {
      if !bound {
        return Fail(NotBound);
      }
      var n := boardSize * boardSize;
      var drawn: seq<Cell> := [];
      var i := 0;
      while i < n
        invariant 0 <= i <= n
        invariant |drawn| == i
        invariant forall k :: 0 <= k < i ==> drawn[k] == Cell(false, TileClasses)
      {
        drawn := drawn + [Cell(false, TileClasses)];
        i := i + 1;
      }
      cells := drawn;
      r := Pass;
      assert cells == DrawnCells(boardSize);
    }

    /** Empties every cell, then draws the character at `position` when it is a cell index. */
    method RedrawPositions(position: Option<int>)
      modifies this
      ensures State() == AfterRedraw(old(State()), position)
    {
      if !gameActive {
        return;
      }
      var drawn := EmptyCells(cells);
      if position.Some? && 0 <= position.value < |drawn| {
        drawn := drawn[position.value := drawn[position.value].(hasCharacter := true)];
      }
      cells := drawn;
    }

    method AddCellEnterListener(callback: Listener)
      modifies this
      ensures State() == old(State()).(enterListeners := old(cellEnterListeners) + [callback])
    {
      cellEnterListeners := cellEnterListeners + [callback];
    }

    method AddCellLeaveListener(callback: Listener)
      modifies this
      ensures State() == old(State()).(leaveListeners := old(cellLeaveListeners) + [callback])
    {
      cellLeaveListeners := cellLeaveListeners + [callback];
    }

    method AddCellClickListener(callback: Listener)
      modifies this
      ensures State() == old(State()).(clickListeners := old(cellClickListeners) + [callback])
    {
      cellClickListeners := cellClickListeners + [callback];
    }

    /** The mouse entered cell `index`: every enter listener is called with it, in order. */
    method CellEnter(index: int) returns (calls: seq<Call>)
      requires 0 <= index < |cells|
      ensures |calls| == |cellEnterListeners|
      ensures forall k :: 0 <= k < |calls| ==> calls[k].listener == cellEnterListeners[k] && calls[k].index == index
    {
      calls := Dispatch(cellEnterListeners, index);
    }

    /** The mouse left cell `index`: every leave listener is called with it, in order. */
    method CellLeave(index: int) returns (calls: seq<Call>)
      requires 0 <= index < |cells|
      ensures |calls| == |cellLeaveListeners|
      ensures forall k :: 0 <= k < |calls| ==> calls[k].listener == cellLeaveListeners[k] && calls[k].index == index
    {
      calls := Dispatch(cellLeaveListeners, index);
    }

    /** Cell `index` was clicked: every click listener is called with it, in order; then `missCounter` is zeroed. */
    method CellClick(index: int) returns (calls: seq<Call>)
      requires 0 <= index < |cells|
      modifies this
      ensures |calls| == |old(cellClickListeners)|
      ensures forall k :: 0 <= k < |calls| ==> calls[k] == Call(old(cellClickListeners)[k], index)
      ensures State() == old(State()).(missCounter := 0)
    {
      calls := Dispatch(cellClickListeners, index);
      missCounter := 0;
    }

    /** Deselects cell `index`, then adds `selected` and `selected-<color>` to it. */
    method SelectCell(index: int, color: string := DefaultColor)
      requires 0 <= index < |cells|
      modifies this
      ensures State() == AfterSelect(old(State()), index, color)
    {
      DeselectCell(index);
      cells := cells[index := cells[index].(classes := cells[index].classes + {"selected", "selected-" + color})];
    }

    /** Removes from cell `index` exactly the classes that begin with `selected`. */
    method DeselectCell(index: int)
      requires 0 <= index < |cells|
      modifies this
      ensures State() == AfterDeselect(old(State()), index)
    {
      var cell := cells[index];
      cells := cells[index := cell.(classes := WithoutSelection(cell.classes))];
    }

    /** Opens the end-of-game modal, but only when `isModal` is already set. */
    method ShowModalMessage()
      modifies this
      ensures State() == AfterModalMessage(old(State()))
    {
      if !isModal {
        return;
      }
      isModal := true;
      gameActive := false;
      modalOpen := true;
    }

    /** Back to a fresh game: counters and flags reset, every cell emptied, any modal dropped. */
    method ResetGame()
      modifies this
      ensures State() == AfterReset(old(State()))
    {
      missCounter := 0;
      gameActive := true;
      cells := EmptyCells(cells);
      isModal := false;
      modalOpen := false;
    }
  }

  // ---- properties of the board operations ----

  /** Marked cells counted: exactly one when the only marked index is a cell, else none. */
  lemma {:induction false} CountOfSingleMark(cells: seq<Cell>, p: int)
    requires forall i :: 0 <= i < |cells| ==> (cells[i].hasCharacter <==> i == p)
    ensures CharacterCount(cells) == if 0 <= p < |cells| then 1 else 0
  {
    if cells != [] {
      CountOfSingleMark(cells[1..], p - 1);
    }
  }

  /** A redraw leaves exactly one character on the board when the position is a cell, none otherwise. */
  lemma RedrawLeavesOneCharacter(cells: seq<Cell>, position: Option<int>)
    ensures CharacterCount(WithCharacterAt(cells, position)) ==
      if position.Some? && 0 <= position.value < |cells| then 1 else 0
  {
    var p := if position.Some? then position.value else -1;
    CountOfSingleMark(WithCharacterAt(cells, position), p);
  }

  /** `selectCell` with the default colour never produces the class the controller looks for. */
  lemma DefaultSelectionIsNotGeneric(classes: set<string>)
    ensures GenericSelection !in WithSelection(classes, DefaultColor)
  {
    assert IsSelectionClass(GenericSelection) by {
      assert GenericSelection[..8] == "selected";
    }
    assert |"selected-" + DefaultColor| != |GenericSelection|;
  }

  /** Selecting or deselecting a cell changes only that cell's selection classes. */
  lemma SelectionTouchesOneCell(b: BoardState, index: int, color: string)
    requires 0 <= index < |b.cells|
    ensures var s := AfterSelect(b, index, color);
      && s.(cells := b.cells) == b && |s.cells| == |b.cells|
      && s.cells[index].hasCharacter == b.cells[index].hasCharacter
      && forall i :: 0 <= i < |b.cells| && i != index ==> s.cells[i] == b.cells[i]
    ensures var d := AfterDeselect(b, index);
      && d.(cells := b.cells) == b && |d.cells| == |b.cells|
      && d.cells[index] == b.cells[index].(classes := WithoutSelection(b.cells[index].classes))
      && forall i :: 0 <= i < |b.cells| && i != index ==> d.cells[i] == b.cells[i]
  {
  }

  /** The modal can never open: with `isModal` false, `showModalMessage` changes nothing. */
  lemma ModalMessageIsInert(b: BoardState)
    requires !b.isModal
    ensures AfterModalMessage(b) == b
  {
  }

  /** `resetGame` yields a steady board whose cells are all empty and keep their classes. */
  lemma ResetIsSteady(b: BoardState)
    requires !HasClassAnywhere(b.cells, GenericSelection)
    requires |b.cells| == 0 || |b.cells| == b.boardSize * b.boardSize
    ensures Steady(AfterReset(b))
    ensures CharacterCount(AfterReset(b).cells) == 0
  {
    CountOfSingleMark(AfterReset(b).cells, -1);
  }

  /** Redrawing and default-colour selection keep a board steady. */
  lemma SteadyPreserved(b: BoardState, position: Option<int>, index: int)
    requires Steady(b)
    requires 0 <= index < |b.cells|
    ensures Steady(AfterRedraw(b, position))
    ensures Steady(AfterDeselect(b, index))
    ensures Steady(AfterSelect(b, index, DefaultColor))
  {
    var s := AfterSelect(b, index, DefaultColor);
    DefaultSelectionIsNotGeneric(b.cells[index].classes);
    assert !HasClassAnywhere(s.cells, GenericSelection) by {
      forall i | 0 <= i < |s.cells| ensures GenericSelection !in s.cells[i].classes {
        if i != index {
          assert s.cells[i] == b.cells[i];
        }
      }
    }
  }
}
