/**
 * The later turn resolver: the board component keeps, beside the squares,
 * the forced captures of the player to move (`nmp`, per piece) and the
 * highlighted destinations (`nrp`). A jump is continued while the landing
 * piece can jump again; when the turn passes, the opponent's forced
 * captures are computed and a single forced piece is picked up for them.
 *
 * The rules for regular steps, forced captures and the player to move come
 * from helpers whose definitions are not part of this model; they are
 * parameters here, and only their shape is assumed (see `Shaped`).
 */
module TurnResolver {
  import opened Wrappers
  import opened Layout

  /** A forced capture: the landing square and the square jumped over. */
  datatype Capture = Capture(id: int, capturedId: int)

  /** Forced captures per piece. */
  type Mandatory = map<int, seq<Capture>>

  datatype BoardState = BoardState(
    cellsById: Cells,
    activePieceId: Option<int>,
    step: nat,
    nmp: Mandatory,
    nrp: seq<int>,
    historic: bool)

  /** The rule helpers the component imports. */
  datatype Helpers = Helpers(
    regularSteps: (Cells, int) -> seq<int>,
    mandatorySteps: (Cells, int) -> seq<Capture>,
    allMandatorySteps: (Cells, Player) -> Mandatory,
    playerByStep: nat -> Player,
    oppositePlayer: Occupant -> Player)

  /** The helpers speak only of squares of the board they are given. */
  ghost predicate Shaped(h: Helpers)
  {
    && (forall c: Cells, id: int, j :: 0 <= j < |h.mandatorySteps(c, id)| ==> h.mandatorySteps(c, id)[j].capturedId in c)
    && (forall c: Cells, p: Player, k :: k in h.allMandatorySteps(c, p) ==> k in c)
    && (forall c: Cells, p: Player, k, j :: k in h.allMandatorySteps(c, p) && 0 <= j < |h.allMandatorySteps(c, p)[k]| ==>
          h.allMandatorySteps(c, p)[k][j].capturedId in c)
  }

  /** What the state promises between clicks. */
  ghost predicate StateValid(s: BoardState)
  {
    && WellFormed(s.cellsById)
    && (s.activePieceId.Some? ==> s.activePieceId.value in s.cellsById)
    && (forall k :: k in s.nmp ==> k in s.cellsById)
    && (forall k, j :: k in s.nmp && 0 <= j < |s.nmp[k]| ==> s.nmp[k][j].capturedId in s.cellsById)
  }

  /** The component's starting state. */
  function InitialBoardState(): (s: BoardState)
    ensures s.cellsById == InitialCells() && s.activePieceId.None? && s.step == 0
    ensures s.nmp == map[] && s.nrp == [] && !s.historic
  {
    BoardState(InitialCells(), None, 0, map[], [], false)
  }

  // ---------------------------------------------------------------------
  // Reading the forced captures

  /** The landing squares of a list of captures, in order. */
  function Ids(steps: seq<Capture>): (r: seq<int>)
    ensures |r| == |steps|
    ensures forall j :: 0 <= j < |r| ==> r[j] == steps[j].id
  {
    seq(|steps|, j requires 0 <= j < |steps| => steps[j].id)
  }

  /** `j` is the first capture of the list that lands on `target`. */
  predicate FirstLanding(steps: seq<Capture>, target: int, j: int)
  {
    0 <= j < |steps| && steps[j].id == target && forall i :: 0 <= i < j ==> steps[i].id != target
  }

  /** The jumped square of the first capture landing on `target`, if any. */
  function CapturedFor(steps: seq<Capture>, target: int): (r: Option<int>)
    ensures r.Some? <==> target in Ids(steps)
    ensures r.Some? ==> exists j :: FirstLanding(steps, target, j) && steps[j].capturedId == r.value
  {
    if steps == [] then None
    else if steps[0].id == target then Some(steps[0].capturedId)
    else
      var r := CapturedFor(steps[1..], target);
      assert Ids(steps) == [steps[0].id] + Ids(steps[1..]);
      if r.Some? then
        var j :| FirstLanding(steps[1..], target, j) && steps[1..][j].capturedId == r.value;
        forall i | 0 <= i < j + 1 ensures steps[i].id != target {
          if i > 0 {
            assert steps[i] == steps[1..][i - 1];
          }
        }
        assert FirstLanding(steps, target, j + 1);
        r
      else r
  }

  /** The least element of a non-empty set. */
  function Min(ks: set<int>): (m: int)
    requires ks != {}
    ensures m in ks && forall k :: k in ks ==> m <= k
  {
    MinExists(ks);
    var m :| m in ks && forall k :: k in ks ==> m <= k;
    m
  }

  lemma {:induction false} MinExists(ks: set<int>)
    requires ks != {}
    ensures exists m :: m in ks && forall k :: k in ks ==> m <= k
    decreases |ks|
  {
    if forall y :: y !in ks {
      assert false;
    }
    var x :| x in ks;
    if ks != {x} {
      var rest := ks - {x};
      MinExists(rest);
      var m :| m in rest && forall k :: k in rest ==> m <= k;
      var least := if x < m then x else m;
      forall k | k in ks ensures least <= k {
        if k != x {
          assert k in rest;
        }
      }
      assert least in ks;
    } else {
      forall k | k in ks ensures x <= k {
      }
    }
  }

  /** The keys of a dictionary as the entries list gives them: integer keys ascending. */
  function SortedKeys(ks: set<int>): (r: seq<int>)
    ensures forall x :: x in r <==> x in ks
    ensures Ascending(r)
    decreases |ks|
  {
    if ks == {} then []
    else
      var m := Min(ks);
      var rest := SortedKeys(ks - {m});
      var r := [m] + rest;
      assert forall k :: 0 < k < |r| ==> r[k] == rest[k - 1];
      assert rest != [] ==> rest[0] in ks - {m};
      r
  }

  /** The landing squares of all forced captures, piece by piece in key order. */
  function FlattenAlong(nmp: Mandatory, keys: seq<int>): seq<int>
    requires forall j :: 0 <= j < |keys| ==> keys[j] in nmp
  {
    if keys == [] then [] else Ids(nmp[keys[0]]) + FlattenAlong(nmp, keys[1..])
  }

  function Flatten(nmp: Mandatory): seq<int>
  {
    FlattenAlong(nmp, SortedKeys(nmp.Keys))
  }

  /** The piece that is picked up automatically: the forced piece, when there is exactly one. */
  function SoleKey(nmp: Mandatory): (r: Option<int>)
    ensures r.Some? <==> |nmp| == 1
    ensures r.Some? ==> nmp.Keys == {r.value}
  {
    if |nmp| == 1 then
      var m := Min(nmp.Keys);
      assert nmp.Keys == {m} by {
        var rest := nmp.Keys - {m};
        assert |rest| == 0;
      }
      Some(m)
    else None
  }

  // ---------------------------------------------------------------------
  // Transitions

  /**
   * A piece is enabled when it has forced captures, if any piece has them;
   * otherwise when it belongs to the player to move.
   */
  predicate Enabled(h: Helpers, s: BoardState, id: int)
  {
    if |s.nmp| > 0 then id in s.nmp else OccupantAt(s.cellsById, id) == Some(h.playerByStep(s.step))
  }

  /** A piece with forced captures offers exactly their landing squares; any other piece its regular steps. */
  function Select(h: Helpers, s: BoardState, id: int): (r: BoardState)
    requires id in s.cellsById
    ensures r.cellsById == s.cellsById && r.step == s.step && r.nmp == s.nmp && r.historic == s.historic
    ensures r.activePieceId == Some(id)
    ensures id in s.nmp && |s.nmp[id]| > 0 ==> r.nrp == Ids(s.nmp[id])
    ensures !(id in s.nmp && |s.nmp[id]| > 0) ==> r.nrp == h.regularSteps(s.cellsById, id)
  {
    if id in s.nmp && |s.nmp[id]| > 0 then s.(activePieceId := Some(id), nrp := Ids(s.nmp[id]))
    else s.(activePieceId := Some(id), nrp := h.regularSteps(s.cellsById, id))
  }

  /** The jumped square recorded for the active piece's capture landing on `id`, if any. */
  function CapturedPiece(s: BoardState, id: int): (r: Option<int>)
    requires s.activePieceId.Some?
    ensures r.Some? <==> s.activePieceId.value in s.nmp && id in Ids(s.nmp[s.activePieceId.value])
  {
    var a := s.activePieceId.value;
    if a in s.nmp then CapturedFor(s.nmp[a], id) else None
  }

  /** The further captures of the piece that has just jumped to `id`: none after a plain step. */
  function ChainFrom(h: Helpers, s: BoardState, id: int, cells: Cells): seq<Capture>
    requires s.activePieceId.Some?
  {
    if CapturedPiece(s, id).Some? then h.mandatorySteps(cells, id) else []
  }

  /**
   * Clicking a highlighted square. With no active piece nothing happens.
   * Otherwise the piece moves and the jumped square, if any, is emptied.
   * If the piece jumped and can jump again, it stays picked up, the step
   * is kept and no history item is due; otherwise the turn passes with the
   * opponent's forced captures, and a sole forced piece is picked up.
   */
  function Move(h: Helpers, s: BoardState, id: int): (r: BoardState)
    requires s.activePieceId.Some? ==> s.activePieceId.value in s.cellsById
    ensures s.activePieceId.None? ==> r == s
    ensures s.activePieceId.Some? ==>
      var cells := MoveOn(s.cellsById, s.activePieceId.value, id, CapturedPiece(s, id));
      var chain := ChainFrom(h, s, id, cells);
      && r.cellsById == cells
      && (|chain| != 0 ==>
            && r.activePieceId == Some(id) && r.step == s.step && r.historic
            && r.nmp == map[id := chain] && r.nrp == Ids(chain))
      && (|chain| == 0 ==>
            && id in cells
            && r.step == s.step + 1 && !r.historic
            && r.nmp == h.allMandatorySteps(cells, h.oppositePlayer(cells[id]))
            && r.nrp == Flatten(r.nmp)
            && (r.activePieceId.Some? <==> |r.nmp| == 1)
            && (r.activePieceId.Some? ==> r.nmp.Keys == {r.activePieceId.value}))
  {
    if s.activePieceId.None? then s
    else
      var cells := MoveOn(s.cellsById, s.activePieceId.value, id, CapturedPiece(s, id));
      var chain := ChainFrom(h, s, id, cells);
      if |chain| != 0 then BoardState(cells, Some(id), s.step, map[id := chain], Ids(chain), true)
      else
        var nmp := h.allMandatorySteps(cells, h.oppositePlayer(cells[id]));
        BoardState(cells, SoleKey(nmp), s.step + 1, nmp, Flatten(nmp), false)
  }

  /**
   * A click on the board whose target is absent or not highlighted drops
   * the selection, except that a sole forced piece stays picked up, and
   * highlights the forced landing squares again; a highlighted target
   * leaves the state alone.
   */
  function BoardClick(s: BoardState, target: Option<int>): (r: BoardState)
    ensures r.cellsById == s.cellsById && r.step == s.step && r.nmp == s.nmp && r.historic == s.historic
    ensures target.Some? && target.value in s.nrp ==> r == s
    ensures !(target.Some? && target.value in s.nrp) ==>
      && r.activePieceId == SoleKey(s.nmp)
      && r.nrp == Flatten(s.nmp)
  {
    if target.None? || target.value !in s.nrp then s.(activePieceId := SoleKey(s.nmp), nrp := Flatten(s.nmp))
    else s
  }

  // ---------------------------------------------------------------------
  // Properties

  /** A square is in the flattened list exactly when some listed piece has a capture landing there. */
  lemma {:induction false} FlattenAlongMembers(nmp: Mandatory, keys: seq<int>, x: int)
    requires forall j :: 0 <= j < |keys| ==> keys[j] in nmp
    ensures x in FlattenAlong(nmp, keys) <==> exists j :: 0 <= j < |keys| && x in Ids(nmp[keys[j]])
  {
    if keys != [] {
      FlattenAlongMembers(nmp, keys[1..], x);
      if x in FlattenAlong(nmp, keys[1..]) {
        var j :| 0 <= j < |keys| - 1 && x in Ids(nmp[keys[1..][j]]);
        assert keys[1..][j] == keys[j + 1];
      }
      if j :| 0 <= j < |keys| && x in Ids(nmp[keys[j]]) {
        if j > 0 {
          assert keys[j] == keys[1..][j - 1];
        }
      }
    }
  }

  /** The forced landing squares highlighted are exactly those of some forced piece. */
  lemma FlattenMembers(nmp: Mandatory, x: int)
    ensures x in Flatten(nmp) <==> exists k :: k in nmp && x in Ids(nmp[k])
  {
    var keys := SortedKeys(nmp.Keys);
    FlattenAlongMembers(nmp, keys, x);
    if k :| k in nmp && x in Ids(nmp[k]) {
      var j :| 0 <= j < |keys| && keys[j] == k;
    }
  }

  /** With no forced captures nothing is highlighted after a deselect. */
  lemma DeselectWithoutForcedCaptures(s: BoardState, target: Option<int>)
    requires s.nmp == map[]
    requires !(target.Some? && target.value in s.nrp)
    ensures BoardClick(s, target).activePieceId.None? && BoardClick(s, target).nrp == []
  {
    assert s.nmp.Keys == {};
  }

  /**
   * While forced captures are pending, only forced pieces can be picked
   * up, and one that is picked up highlights exactly its capture landings.
   */
  lemma ForcedSelection(h: Helpers, s: BoardState, id: int)
    requires |s.nmp| > 0 && Enabled(h, s, id) && id in s.cellsById
    requires |s.nmp[id]| > 0
    ensures id in s.nmp
    ensures forall x :: x in Select(h, s, id).nrp <==> exists j :: 0 <= j < |s.nmp[id]| && s.nmp[id][j].id == x
  {
  }

  /** During a chain of jumps the landed piece is the only one that can be picked up. */
  lemma ChainLocksPiece(h: Helpers, s: BoardState, id: int, k: int)
    requires s.activePieceId.Some? && s.activePieceId.value in s.cellsById
    requires Move(h, s, id).historic
    ensures Enabled(h, Move(h, s, id), k) <==> k == id
  {
  }

  /**
   * A history item is due (the state is not historic) exactly when the
   * move passed the turn, that is advanced the step.
   */
  lemma HistoryDueIffTurnPasses(h: Helpers, s: BoardState, id: int)
    requires s.activePieceId.Some? && s.activePieceId.value in s.cellsById
    ensures var r := Move(h, s, id); !r.historic <==> r.step == s.step + 1
    ensures var r := Move(h, s, id); r.historic <==> r.step == s.step
  {
  }

  /** After a turn pass the highlighted squares are exactly the opponent's forced landings. */
  lemma PassHighlightsForcedLandings(h: Helpers, s: BoardState, id: int, x: int)
    requires s.activePieceId.Some? && s.activePieceId.value in s.cellsById
    requires !Move(h, s, id).historic
    ensures var r := Move(h, s, id);
      x in r.nrp <==> exists k :: k in r.nmp && x in Ids(r.nmp[k])
  {
    FlattenMembers(Move(h, s, id).nmp, x);
  }

  lemma InitialBoardValid()
    ensures StateValid(InitialBoardState())
  {
    InitialSquares();
  }

  lemma SelectKeepsValid(h: Helpers, s: BoardState, id: int)
    requires StateValid(s) && id in s.cellsById
    ensures StateValid(Select(h, s, id))
  {
  }

  /** A move between squares keeps the state valid when the helpers are shaped. */
  lemma MoveKeepsValid(h: Helpers, s: BoardState, id: int)
    requires Shaped(h) && StateValid(s) && id in s.cellsById
    ensures StateValid(Move(h, s, id))
  {
    if s.activePieceId.Some? {
      var a := s.activePieceId.value;
      var captured := CapturedPiece(s, id);
      if captured.Some? {
        var j :| FirstLanding(s.nmp[a], id, j) && s.nmp[a][j].capturedId == captured.value;
        assert captured.value in s.cellsById;
      }
      MoveOnKeepsSquares(s.cellsById, a, id, captured);
    }
  }

  lemma BoardClickKeepsValid(s: BoardState, target: Option<int>)
    requires StateValid(s)
    ensures StateValid(BoardClick(s, target))
  {
  }

  // ---------------------------------------------------------------------
  // The component

  /** The component holding the state; its handlers replace the state in place. */
  class Board {
    const helpers: Helpers
    var state: BoardState

    ghost predicate Valid()
      reads this
    {
      Shaped(helpers) && StateValid(state)
    }

    constructor (helpers: Helpers)
      requires Shaped(helpers)
      ensures Valid()
      ensures this.helpers == helpers && state == InitialBoardState()
    {
      this.helpers := helpers;
      state := InitialBoardState();
      new;
      InitialBoardValid();
    }

    /**
     * A click on an enabled piece picks it up; a click on a highlighted
     * square moves the picked-up piece there.
     */
    method OnCellClick(id: int, isPieceTarget: bool)
      requires Valid()
      requires isPieceTarget ==> OccupantAt(state.cellsById, id).Some? && Enabled(helpers, state, id)
      requires !isPieceTarget ==> id in state.cellsById && id in state.nrp
      modifies this
      ensures Valid()
      ensures isPieceTarget ==> id in old(state).cellsById && state == Select(helpers, old(state), id)
      ensures !isPieceTarget ==> state == Move(helpers, old(state), id)
    {
      if isPieceTarget {
        SelectKeepsValid(helpers, state, id);
        if id in state.nmp && |state.nmp[id]| > 0 {
          state := state.(activePieceId := Some(id), nrp := Ids(state.nmp[id]));
        } else {
          state := state.(activePieceId := Some(id), nrp := helpers.regularSteps(state.cellsById, id));
        }
        return;
      }
      MoveKeepsValid(helpers, state, id);
      if state.activePieceId.None? {
        return;
      }
      var activeId := state.activePieceId.value;
      var capturedPieceId := if activeId in state.nmp then CapturedFor(state.nmp[activeId], id) else None;
      var cellsById := MoveOn(state.cellsById, activeId, id, capturedPieceId);
      var newState := BoardState(cellsById, None, state.step + 1, map[], [], false);
      if capturedPieceId.Some? {
        var chain := helpers.mandatorySteps(cellsById, id);
        if |chain| != 0 {
          newState := newState.(activePieceId := Some(id));
          newState := newState.(step := state.step);
          newState := newState.(historic := true);
          newState := newState.(nmp := map[id := chain]);
          newState := newState.(nrp := Ids(chain));
          state := newState;
          return;
        }
      }
      var nmp := helpers.allMandatorySteps(cellsById, helpers.oppositePlayer(cellsById[id]));
      if |nmp| == 1 {
        var sole :| sole in nmp;
        newState := newState.(activePieceId := Some(sole));
      }
      newState := newState.(nmp := nmp);
      newState := newState.(nrp := Flatten(nmp));
      state := newState;
    }

    /** A click on the board outside the highlighted squares drops the selection. */
    method OnBoardClick(target: Option<int>)
      requires Valid()
      modifies this
      ensures Valid()
      ensures state == BoardClick(old(state), target)
    {
      BoardClickKeepsValid(state, target);
      if target.None? || target.value !in state.nrp {
        state := state.(activePieceId := SoleKey(state.nmp), nrp := Flatten(state.nmp));
      }
    }
  }
}
