/**
 * The earlier turn resolver, built directly on the move generator: a piece
 * is selected, a highlighted square is clicked to move it, and a jump is
 * followed by another only when the generator offers one from the landing
 * square. Whose turn it is follows the parity of `step`.
 */
module GridResolver {
  import opened Wrappers
  import opened Layout
  import opened MoveGen

  datatype GridState = GridState(
    cellsById: Cells,
    activePieceId: Option<int>,
    nextPositionsById: Option<map<int, Position>>,
    step: nat)

  /** The component's starting state. */
  function InitialGridState(): (s: GridState)
    ensures s.cellsById == InitialCells() && s.activePieceId.None? && s.nextPositionsById.None? && s.step == 0
  {
    GridState(InitialCells(), None, None, 0)
  }

  /** What the state promises between clicks. */
  ghost predicate GridValid(s: GridState)
  {
    && WellFormed(s.cellsById)
    && (s.activePieceId.Some? ==> s.activePieceId.value in s.cellsById)
    && (s.nextPositionsById.Some? ==>
          forall k :: k in s.nextPositionsById.value ==>
            var p := s.nextPositionsById.value[k];
            k in s.cellsById && p.id == k && (p.capturedId.Some? ==> p.capturedId.value in s.cellsById))
  }

  /** The player whose pieces may be picked up: the first on even steps, the second on odd ones. */
  function TurnPlayer(step: nat): Player
  {
    if step % 2 != 0 then Player2 else Player1
  }

  /** A piece can be clicked only when it belongs to the player whose turn the step says it is. */
  predicate Enabled(s: GridState, id: int)
  {
    OccupantAt(s.cellsById, id) == Some(TurnPlayer(s.step))
  }

  /** A square is highlighted when it is a key of the offered destinations. */
  predicate Highlighted(s: GridState, id: int)
  {
    s.nextPositionsById.Some? && id in s.nextPositionsById.value
  }

  /** Picking up a piece offers its destinations and changes nothing else. */
  function Select(s: GridState, id: int): (r: GridState)
    requires id in s.cellsById
    ensures r.cellsById == s.cellsById && r.step == s.step
    ensures r.activePieceId == Some(id)
    ensures r.nextPositionsById == Some(NextPositions(s.cellsById, id, false))
  {
    s.(activePieceId := Some(id), nextPositionsById := Some(NextPositions(s.cellsById, id, false)))
  }

  /** The jumped square recorded for the clicked destination, if any. */
  function CapturedAt(s: GridState, id: int): Option<int>
    requires s.nextPositionsById.Some? ==> id in s.nextPositionsById.value
  {
    if s.nextPositionsById.Some? then s.nextPositionsById.value[id].capturedId else None
  }

  /**
   * The follow-up jumps offered after a move: none after a plain step; after
   * a jump, the jumps from the landing square computed on the board as it
   * was BEFORE the move, where that square is still empty.
   */
  function FollowUp(s: GridState, id: int): (r: map<int, Position>)
    requires id in s.cellsById
    requires s.nextPositionsById.Some? ==> id in s.nextPositionsById.value
    ensures forall k :: k in r ==> r[k].capturedId.Some?
    ensures CapturedAt(s, id).None? ==> r == map[]
  {
    CapturingOnlyYieldsJumps(s.cellsById, id);
    if CapturedAt(s, id).Some? then NextPositions(s.cellsById, id, true) else map[]
  }

  /**
   * Clicking a highlighted square: without an active piece nothing happens;
   * otherwise the piece moves (clearing the jumped square), and the turn
   * passes exactly when no follow-up jump is offered.
   */
  function Move(s: GridState, id: int): (r: GridState)
    requires id in s.cellsById
    requires s.activePieceId.Some? ==> s.activePieceId.value in s.cellsById
    requires s.nextPositionsById.Some? ==> id in s.nextPositionsById.value
    ensures s.activePieceId.None? ==> r == s
    ensures s.activePieceId.Some? ==>
      && r.cellsById == MoveOn(s.cellsById, s.activePieceId.value, id, CapturedAt(s, id))
      && r.nextPositionsById == Some(FollowUp(s, id))
      && (r.step == s.step + 1 <==> |FollowUp(s, id)| == 0)
      && (r.step == s.step <==> |FollowUp(s, id)| != 0)
      && (r.activePieceId.None? <==> |FollowUp(s, id)| == 0)
      && (r.activePieceId.Some? ==> r.activePieceId == Some(id))
  {
    if s.activePieceId.None? then s
    else
      var next := FollowUp(s, id);
      var changeTurn := |next| == 0;
      GridState(MoveOn(s.cellsById, s.activePieceId.value, id, CapturedAt(s, id)),
                if changeTurn then None else Some(id),
                Some(next),
                if changeTurn then s.step + 1 else s.step)
  }

  /** A click on anything that is not highlighted drops the selection and keeps the board and the step. */
  function GridClick(s: GridState, highlighted: bool): (r: GridState)
    ensures r.cellsById == s.cellsById && r.step == s.step
    ensures !highlighted ==> r.activePieceId.None? && r.nextPositionsById.None?
    ensures highlighted ==> r == s
  {
    if !highlighted then s.(activePieceId := None, nextPositionsById := None) else s
  }

  // ---------------------------------------------------------------------
  // Properties

  lemma InitialGridValid()
    ensures GridValid(InitialGridState())
  {
  }

  /** Selecting keeps the state valid: every offered destination and jumped square is a square of the board. */
  lemma SelectKeepsValid(s: GridState, id: int)
    requires GridValid(s) && id in s.cellsById
    ensures GridValid(Select(s, id))
  {
    DestinationsOnBoard(s.cellsById, id, false);
  }

  /** Moving keeps the state valid: the board keeps exactly its playable squares. */
  lemma MoveKeepsValid(s: GridState, id: int)
    requires GridValid(s) && Highlighted(s, id)
    ensures id in s.cellsById
    ensures GridValid(Move(s, id))
  {
    if s.activePieceId.Some? {
      MoveOnKeepsSquares(s.cellsById, s.activePieceId.value, id, CapturedAt(s, id));
      if CapturedAt(s, id).Some? {
        DestinationsOnBoard(s.cellsById, id, true);
      }
    }
  }

  /** The turn alternates: the enabled player flips exactly when the step advances by one. */
  lemma TurnAlternates(step: nat)
    ensures TurnPlayer(step + 1) == Other(TurnPlayer(step))
    ensures TurnPlayer(0) == Player1
  {
  }

  /**
   * Because the follow-up is computed on the board before the move, where
   * the landing square is empty, it probes as if the mover were the second
   * player: every follow-up jump is over a first-player piece.
   */
  lemma FollowUpJumpsOverFirstPlayer(s: GridState, id: int)
    requires id in s.cellsById && s.cellsById[id] == None
    requires s.nextPositionsById.Some? ==> id in s.nextPositionsById.value
    ensures forall k :: k in FollowUp(s, id) ==>
      var c := FollowUp(s, id)[k].capturedId.value;
      c in s.cellsById && s.cellsById[c] == Some(Player1)
  {
    if CapturedAt(s, id).Some? {
      DestinationsOnBoard(s.cellsById, id, true);
      CapturingOnlyYieldsJumps(s.cellsById, id);
    }
  }

  /**
   * A first-player piece on 21 jumps the second-player piece on 30 to 39; a
   * second-player piece on 46 with 53 empty then lies in its path, yet the
   * turn passes, since the follow-up was computed before the move.
   */
  lemma FollowUpMissesChain()
    ensures
      var cells := EmptyCells()[21 := Some(Player1)][30 := Some(Player2)][46 := Some(Player2)];
      var s := GridState(cells, Some(21), Some(NextPositions(cells, 21, false)), 0);
      && Highlighted(s, 39)
      && var r := Move(s, 39);
      && r.step == 1 && r.activePieceId.None?
      && r.cellsById[39] == Some(Player1) && r.cellsById[30] == None
      && CanCapture(r.cellsById, 39, BoardSize - 1, Player2)
  {
    var cells := EmptyCells()[21 := Some(Player1)][30 := Some(Player2)][46 := Some(Player2)];
    var s := GridState(cells, Some(21), Some(NextPositions(cells, 21, false)), 0);
    assert 39 in cells && 30 in cells && 53 in cells && 46 in cells;
    assert CanCapture(cells, 21, 9, Player2);
    CaptureEntry(cells, 21, false, 9);
    assert CapturedAt(s, 39) == Some(30);
    var next := NextPositions(cells, 39, true);
    assert 32 !in cells && 48 !in cells;
    NextPositionsByDirection(cells, 39, true);
    forall d | IsDiagonalOffset(d) ensures Probe(cells, 39, true, d).None? {
    }
    assert forall k :: k !in next;
    assert next == map[];
  }

  // ---------------------------------------------------------------------
  // The component

  /** The component holding the state; its handlers replace the state in place. */
  class Grid {
    var state: GridState

    ghost predicate Valid()
      reads this
    {
      GridValid(state)
    }

    constructor ()
      ensures Valid() && state == InitialGridState()
    {
      state := InitialGridState();
    }

    /**
     * A click on an enabled piece selects it; a click on a highlighted
     * square moves the active piece there.
     */
    method OnCellClick(id: int, isPieceTarget: bool)
      requires Valid()
      requires isPieceTarget ==> Enabled(state, id)
      requires !isPieceTarget ==> Highlighted(state, id)
      modifies this
      ensures Valid()
      ensures isPieceTarget ==> id in old(state).cellsById && state == Select(old(state), id)
      ensures !isPieceTarget ==> id in old(state).cellsById && state == Move(old(state), id)
    {
      if isPieceTarget {
        var next := CalcNextPositions(state.cellsById, id, false);
        SelectKeepsValid(state, id);
        state := state.(activePieceId := Some(id), nextPositionsById := Some(next));
        return;
      }
      MoveKeepsValid(state, id);
      if state.activePieceId.None? {
        return;
      }
      var activeId := state.activePieceId.value;
      var capturedId := if state.nextPositionsById.Some? then state.nextPositionsById.value[id].capturedId else None;
      var next: map<int, Position> := map[];
      if capturedId.Some? {
        next := CalcNextPositions(state.cellsById, id, true);
      }
      var changeTurn := |next| == 0;
      state := GridState(MoveOn(state.cellsById, activeId, id, capturedId),
                         if changeTurn then None else Some(id),
                         Some(next),
                         if changeTurn then state.step + 1 else state.step);
    }

    /** A click that did not land on a highlighted square drops the selection. */
    method OnGridClick(highlighted: bool)
      requires Valid()
      modifies this
      ensures Valid()
      ensures state == GridClick(old(state), highlighted)
    {
      if !highlighted {
        state := state.(activePieceId := None, nextPositionsById := None);
      }
    }
  }
}
