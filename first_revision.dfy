/**
 * The first revision of the game: forward moves only, no captures. A
 * probe along a forward diagonal passes over any run of opponent pieces
 * and offers the first empty square after them; clicking a square moves
 * the picked-up piece there without taking anything, and the turn flag is
 * never changed.
 */
module FirstRevision {
  import opened Wrappers
  import opened Layout

  /** Every key of the board is a square id. */
  predicate KeysOnBoard(cells: Cells)
  {
    forall k :: k in cells ==> 0 <= k < SquareCount
  }

  /** The opponent and the two forward offsets of the piece on a square. */
  function Forward(occupied: Occupant): (Player, int, int)
  {
    if occupied == Some(Player1) then (Player2, BoardSize - 1, BoardSize + 1)
    else (Player1, -(BoardSize - 1), -(BoardSize + 1))
  }

  /**
   * The probe from `cur` along `increment`: nothing at a missing square,
   * the square itself when it is empty, the probe from it when it holds an
   * opponent piece, and nothing at an own piece.
   */
  function Probe(cells: Cells, cur: int, increment: int, opponent: Player): Option<int>
    requires KeysOnBoard(cells) && 0 <= cur < SquareCount && increment != 0
    decreases if increment > 0 then SquareCount - cur else cur
  {
    var next := cur + increment;
    if next !in cells then None
    else if cells[next] == None then Some(next)
    else if cells[next] == Some(opponent) then Probe(cells, next, increment, opponent)
    else None
  }

  function AsList(o: Option<int>): seq<int>
  {
    if o.Some? then [o.value] else []
  }

  /** The highlighted squares for the piece on `id`: the probes along its two forward diagonals. */
  function AvailableCells(cells: Cells, id: int): seq<int>
    requires KeysOnBoard(cells) && id in cells
  {
    var (opponent, incPos1, incPos2) := Forward(cells[id]);
    AsList(Probe(cells, id, incPos1, opponent)) + AsList(Probe(cells, id, incPos2, opponent))
  }

  /**
   * `path` walks from its first square along `increment` over opponent
   * pieces only, and ends on an empty square of the board.
   */
  ghost predicate OpponentRun(cells: Cells, cur: int, path: seq<int>, increment: int, opponent: Player)
  {
    && |path| >= 2
    && path[0] == cur
    && (forall j :: 0 < j < |path| ==> path[j] == path[j - 1] + increment && path[j] in cells)
    && (forall j :: 0 < j < |path| - 1 ==> cells[path[j]] == Some(opponent))
    && cells[path[|path| - 1]] == None
  }

  // ---------------------------------------------------------------------
  // Properties of the probe

  /** A probe that finds a square has walked an opponent run ending on it. */
  lemma {:induction false} ProbeFollowsRun(cells: Cells, cur: int, increment: int, opponent: Player)
    requires KeysOnBoard(cells) && 0 <= cur < SquareCount && increment != 0
    requires Probe(cells, cur, increment, opponent).Some?
    ensures exists path :: (OpponentRun(cells, cur, path, increment, opponent) &&
      path[|path| - 1] == Probe(cells, cur, increment, opponent).value)
    decreases if increment > 0 then SquareCount - cur else cur
  {
    var next := cur + increment;
    if cells[next] == None {
      assert OpponentRun(cells, cur, [cur, next], increment, opponent);
    } else {
      ProbeFollowsRun(cells, next, increment, opponent);
      var path :| OpponentRun(cells, next, path, increment, opponent) &&
        path[|path| - 1] == Probe(cells, next, increment, opponent).value;
      var longer := [cur] + path;
      forall j | 0 < j < |longer| ensures longer[j] == longer[j - 1] + increment && longer[j] in cells {
        assert longer[j] == path[j - 1];
      }
      forall j | 0 < j < |longer| - 1 ensures cells[longer[j]] == Some(opponent) {
        assert longer[j] == path[j - 1];
      }
      assert OpponentRun(cells, cur, longer, increment, opponent);
    }
  }

  /** Every opponent run from `cur` is what the probe finds: the probe misses no run. */
  lemma {:induction false} RunIsProbed(cells: Cells, cur: int, path: seq<int>, increment: int, opponent: Player)
    requires KeysOnBoard(cells) && 0 <= cur < SquareCount && increment != 0
    requires OpponentRun(cells, cur, path, increment, opponent)
    ensures Probe(cells, cur, increment, opponent) == Some(path[|path| - 1])
    decreases |path|
  {
    if |path| > 2 {
      var rest := path[1..];
      assert forall j :: 0 < j < |rest| ==> rest[j] == path[j + 1];
      assert OpponentRun(cells, path[1], rest, increment, opponent);
      RunIsProbed(cells, path[1], rest, increment, opponent);
    }
  }

  /**
   * The probe finds `t` exactly when an opponent run leads from `cur` to
   * `t`; since the path is determined by its start, an own piece or a
   * missing square before the first empty one yields nothing.
   */
  lemma ProbeIffRun(cells: Cells, cur: int, increment: int, opponent: Player, t: int)
    requires KeysOnBoard(cells) && 0 <= cur < SquareCount && increment != 0
    ensures Probe(cells, cur, increment, opponent) == Some(t) <==>
      exists path :: OpponentRun(cells, cur, path, increment, opponent) && path[|path| - 1] == t
  {
    if Probe(cells, cur, increment, opponent) == Some(t) {
      ProbeFollowsRun(cells, cur, increment, opponent);
    }
    if path :| OpponentRun(cells, cur, path, increment, opponent) && path[|path| - 1] == t {
      RunIsProbed(cells, cur, path, increment, opponent);
    }
  }

  /** The square a probe finds is on the board and empty. */
  lemma {:induction false} ProbeLandsOnEmpty(cells: Cells, cur: int, increment: int, opponent: Player)
    requires KeysOnBoard(cells) && 0 <= cur < SquareCount && increment != 0
    ensures var r := Probe(cells, cur, increment, opponent);
      r.Some? ==> r.value in cells && cells[r.value] == None
    decreases if increment > 0 then SquareCount - cur else cur
  {
    var next := cur + increment;
    if next in cells && cells[next] != None && cells[next] == Some(opponent) {
      ProbeLandsOnEmpty(cells, next, increment, opponent);
    }
  }

  /**
   * The highlighted squares are at most two, one per forward diagonal of
   * the piece's player, each on the board and empty.
   */
  lemma AvailableCellsShape(cells: Cells, id: int)
    requires KeysOnBoard(cells) && id in cells
    ensures var r := AvailableCells(cells, id);
      var (opponent, incPos1, incPos2) := Forward(cells[id]);
      && |r| <= 2
      && (forall x :: x in r ==> x in cells && cells[x] == None)
      && (forall x :: x in r ==> Probe(cells, id, incPos1, opponent) == Some(x) || Probe(cells, id, incPos2, opponent) == Some(x))
  {
    var (opponent, incPos1, incPos2) := Forward(cells[id]);
    ProbeLandsOnEmpty(cells, id, incPos1, opponent);
    ProbeLandsOnEmpty(cells, id, incPos2, opponent);
  }

  /** The highlighted squares lie ahead of the piece: higher ids for the first player, lower ones for anyone else. */
  lemma AvailableCellsAhead(cells: Cells, id: int)
    requires KeysOnBoard(cells) && id in cells
    ensures forall x :: x in AvailableCells(cells, id) ==> if cells[id] == Some(Player1) then x > id else x < id
  {
    var (opponent, incPos1, incPos2) := Forward(cells[id]);
    ProbeGoesForward(cells, id, incPos1, opponent);
    ProbeGoesForward(cells, id, incPos2, opponent);
  }

  /** Probes go forward only: towards higher ids for the first player and lower ones for anyone else. */
  lemma {:induction false} ProbeGoesForward(cells: Cells, cur: int, increment: int, opponent: Player)
    requires KeysOnBoard(cells) && 0 <= cur < SquareCount && increment != 0
    ensures var r := Probe(cells, cur, increment, opponent);
      r.Some? ==> (if increment > 0 then r.value > cur else r.value < cur)
    decreases if increment > 0 then SquareCount - cur else cur
  {
    var next := cur + increment;
    if next in cells && cells[next] != None && cells[next] == Some(opponent) {
      ProbeGoesForward(cells, next, increment, opponent);
    }
  }

  // ---------------------------------------------------------------------
  // The probe as the source runs it: a recursive walk pushing into a list

  /** Walks from `cur` and appends the square it finds, if any, to `availableCells`. */
  method CheckNextPos(cells: Cells, cur: int, increment: int, opponent: Player, availableCells: seq<int>)
    returns (r: seq<int>)
    requires KeysOnBoard(cells) && 0 <= cur < SquareCount && increment != 0
    ensures r == availableCells + AsList(Probe(cells, cur, increment, opponent))
    decreases if increment > 0 then SquareCount - cur else cur
  {
    var nextPos := cur + increment;
    if nextPos !in cells {
      return availableCells;
    }
    if cells[nextPos] == None {
      r := availableCells + [nextPos];
    } else if cells[nextPos] == Some(opponent) {
      r := CheckNextPos(cells, nextPos, increment, opponent, availableCells);
    } else {
      r := availableCells;
    }
  }

  method CalcAvailableCells(cells: Cells, id: int) returns (availableCells: seq<int>)
    requires KeysOnBoard(cells) && id in cells
    ensures availableCells == AvailableCells(cells, id)
    ensures |availableCells| <= 2 && forall x :: x in availableCells ==> x in cells && cells[x] == None
  {
    var (opponent, incPos1, incPos2) := Forward(cells[id]);
    availableCells := [];
    availableCells := CheckNextPos(cells, id, incPos1, opponent, availableCells);
    availableCells := CheckNextPos(cells, id, incPos2, opponent, availableCells);
    AvailableCellsShape(cells, id);
  }

  // ---------------------------------------------------------------------
  // The reducer

  datatype AppState = AppState(
    cellsById: Cells,
    activePieceId: Option<int>,
    availableCells: seq<int>,
    player1Turn: bool)

  function InitialAppState(): (s: AppState)
    ensures s.cellsById == InitialCells() && s.activePieceId.None? && s.availableCells == [] && s.player1Turn
  {
    AppState(InitialCells(), None, [], true)
  }

  /** What the state promises between clicks. */
  ghost predicate AppValid(s: AppState)
  {
    WellFormed(s.cellsById) && (s.activePieceId.Some? ==> s.activePieceId.value in s.cellsById)
  }

  lemma WellFormedKeysOnBoard(c: Cells)
    requires WellFormed(c)
    ensures KeysOnBoard(c)
  {
  }

  /**
   * A click on a piece picks it up and highlights its probes. A click on a
   * square: nothing without a picked-up piece; on the picked-up piece's own
   * square, dropping it; elsewhere, moving it there (nothing is taken) and
   * keeping it picked up, with the highlights left as they were.
   */
  function AppClick(s: AppState, id: int, isPieceTarget: bool): (r: AppState)
    requires AppValid(s) && id in s.cellsById
    ensures r.player1Turn == s.player1Turn
    ensures isPieceTarget ==>
      r.cellsById == s.cellsById && r.activePieceId == Some(id) && KeysOnBoard(s.cellsById) &&
      r.availableCells == AvailableCells(s.cellsById, id)
    ensures !isPieceTarget && s.activePieceId.None? ==> r == s
    ensures !isPieceTarget && s.activePieceId == Some(id) ==>
      r.cellsById == s.cellsById && r.activePieceId.None? && r.availableCells == []
    ensures !isPieceTarget && s.activePieceId.Some? && s.activePieceId != Some(id) ==>
      && r.cellsById == MoveOn(s.cellsById, s.activePieceId.value, id, None)
      && r.activePieceId == Some(id) && r.availableCells == s.availableCells
  {
    if isPieceTarget then
      WellFormedKeysOnBoard(s.cellsById);
      s.(activePieceId := Some(id), availableCells := AvailableCells(s.cellsById, id))
    else if s.activePieceId.None? then s
    else if s.activePieceId == Some(id) then s.(activePieceId := None, availableCells := [])
    else
      var a := s.activePieceId.value;
      s.(cellsById := MoveOn(s.cellsById, a, id, None), activePieceId := Some(id))
  }

  lemma AppClickKeepsValid(s: AppState, id: int, isPieceTarget: bool)
    requires AppValid(s) && id in s.cellsById
    ensures AppValid(AppClick(s, id, isPieceTarget))
  {
    if !isPieceTarget && s.activePieceId.Some? && s.activePieceId != Some(id) {
      MoveOnKeepsSquares(s.cellsById, s.activePieceId.value, id, None);
    }
  }

  /** A move without capture keeps every piece: the moved one lands and nothing is removed. */
  lemma MoveKeepsOtherSquares(s: AppState, id: int)
    requires AppValid(s) && id in s.cellsById
    requires s.activePieceId.Some? && s.activePieceId != Some(id)
    ensures var r := AppClick(s, id, false);
      && r.cellsById[id] == s.cellsById[s.activePieceId.value]
      && r.cellsById[s.activePieceId.value] == None
      && forall k :: k in s.cellsById && k != id && k != s.activePieceId.value ==> r.cellsById[k] == s.cellsById[k]
  {
  }

  /** Clicks on squares of the board, as (square, is a piece) pairs. */
  predicate OnBoardClicks(clicks: seq<(int, bool)>)
  {
    forall j :: 0 <= j < |clicks| ==> Playable(clicks[j].0)
  }

  /** The state after a series of clicks. */
  ghost function Replay(s: AppState, clicks: seq<(int, bool)>): (r: AppState)
    requires AppValid(s) && OnBoardClicks(clicks)
    ensures AppValid(r)
    decreases |clicks|
  {
    if clicks == [] then s
    else
      AppClickKeepsValid(s, clicks[0].0, clicks[0].1);
      Replay(AppClick(s, clicks[0].0, clicks[0].1), clicks[1..])
  }

  /** No series of clicks ever passes the turn: the first player stays to move for good. */
  lemma {:induction false} TurnNeverPasses(s: AppState, clicks: seq<(int, bool)>)
    requires AppValid(s) && OnBoardClicks(clicks)
    ensures Replay(s, clicks).player1Turn == s.player1Turn
    decreases |clicks|
  {
    if clicks != [] {
      AppClickKeepsValid(s, clicks[0].0, clicks[0].1);
      TurnNeverPasses(AppClick(s, clicks[0].0, clicks[0].1), clicks[1..]);
    }
  }

  lemma InitialAppValid()
    ensures AppValid(InitialAppState())
  {
    InitialSquares();
  }

  // ---------------------------------------------------------------------
  // The component

  class FirstGrid {
    var state: AppState

    ghost predicate Valid()
      reads this
    {
      AppValid(state)
    }

    constructor ()
      ensures Valid() && state == InitialAppState()
    {
      state := InitialAppState();
      new;
      InitialAppValid();
    }

    /** A click on a square of the board, or on the piece on it. */
    method OnCellClick(id: int, isPieceTarget: bool)
      requires Valid() && id in state.cellsById
      requires isPieceTarget ==> state.cellsById[id].Some?
      modifies this
      ensures Valid()
      ensures state == AppClick(old(state), id, isPieceTarget)
    {
      AppClickKeepsValid(state, id, isPieceTarget);
      if isPieceTarget {
        WellFormedKeysOnBoard(state.cellsById);
        var availableCells := CalcAvailableCells(state.cellsById, id);
        state := state.(activePieceId := Some(id), availableCells := availableCells);
        return;
      }
      if state.activePieceId.None? {
        return;
      }
      if state.activePieceId == Some(id) {
        state := state.(activePieceId := None, availableCells := []);
        return;
      }
      var activeId := state.activePieceId.value;
      state := state.(cellsById := state.cellsById[id := state.cellsById[activeId]][activeId := None],
                      activePieceId := Some(id));
    }
  }
}
