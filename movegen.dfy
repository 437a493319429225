/**
 * The move generator of the board engine: a one-direction probe that finds a
 * step or a jump, and the four-direction generation that makes captures
 * compulsory.
 */
module MoveGen {
  import opened Wrappers
  import opened Layout

  /** A reachable square and, for a jump, the square of the piece it captures. */
  datatype Position = Position(id: int, capturedId: Option<int>)

  /** A direction of travel; a `capturingOnly` direction may only be used to jump. */
  datatype Increment = Increment(val: int, capturingOnly: bool)

  /** `oppositePlayer` and the four directions probed for the piece on a square. */
  datatype Config = Config(oppositePlayer: Player, increments: seq<Increment>)

  /** The neighbour at `d` exists and is empty. */
  predicate CanStep(cells: Cells, s: int, d: int)
  {
    s + d in cells && cells[s + d] == None
  }

  /** The neighbour at `d` holds an `opponent` piece and the square beyond it exists and is empty. */
  predicate CanCapture(cells: Cells, s: int, d: int, opponent: Player)
  {
    s + d in cells && cells[s + d] == Some(opponent) && s + 2 * d in cells && cells[s + 2 * d] == None
  }

  /**
   * Probe one direction from `current`. With `capture` false this is the
   * caller's entry: an empty neighbour is a step unless only jumps are asked
   * for, and an opponent neighbour is probed once more with `capture` set,
   * which accepts only an empty square and reports the jumped square.
   */
  function GetNextPos(cells: Cells, current: int, increment: int, oppositePlayer: Player,
                      capturingOnly: bool, capture: bool): (r: Option<Position>)
    ensures capture ==> r == if CanStep(cells, current, increment)
                             then Some(Position(current + increment, Some(current))) else None
    ensures !capture ==> r == if CanCapture(cells, current, increment, oppositePlayer)
                              then Some(Position(current + 2 * increment, Some(current + increment)))
                              else if CanStep(cells, current, increment) && !capturingOnly
                              then Some(Position(current + increment, None))
                              else None
    decreases if capture then 0 else 1
  {
    var nextPos := current + increment;
    if nextPos !in cells then None
    else if cells[nextPos] == None && !capture && !capturingOnly then Some(Position(nextPos, None))
    else if cells[nextPos] == None && capture then Some(Position(nextPos, Some(current)))
    else if cells[nextPos] == Some(oppositePlayer) && !capture then
      GetNextPos(cells, nextPos, increment, oppositePlayer, capturingOnly, true)
    else None
  }

  /** The first player's directions: forward steps down the board, jumps in all four directions. */
  function Increments(): seq<Increment>
  {
    [ Increment(BoardSize - 1, false), Increment(BoardSize + 1, false),
      Increment(-(BoardSize - 1), true), Increment(-(BoardSize + 1), true) ]
  }

  function Negated(increments: seq<Increment>): (r: seq<Increment>)
    ensures |r| == |increments|
    ensures forall k :: 0 <= k < |r| ==>
      r[k] == Increment(-increments[k].val, increments[k].capturingOnly)
  {
    seq(|increments|, k requires 0 <= k < |increments| =>
      increments[k].(val := -increments[k].val))
  }

  /**
   * Any occupant other than the first player's piece (the second player's
   * piece, or an empty square) is treated as the second player.
   */
  function ConfigFor(occupied: Occupant): (r: Config)
    ensures r.oppositePlayer == Player2 <==> occupied == Some(Player1)
    ensures |r.increments| == 4
    ensures forall k :: 0 <= k < 4 ==>
      IsDiagonalOffset(r.increments[k].val) && (r.increments[k].capturingOnly <==> !IsForward(occupied, r.increments[k].val))
    ensures forall j, k :: 0 <= j < k < 4 ==> r.increments[j].val != r.increments[k].val
  {
    if occupied == Some(Player1) then Config(Player2, Increments())
    else Config(Player1, Negated(Increments()))
  }

  /** The two directions in which a piece on a square with this occupant may step. */
  function ForwardOffsets(occupied: Occupant): (r: (int, int))
  {
    if occupied == Some(Player1) then (BoardSize - 1, BoardSize + 1)
    else (-(BoardSize - 1), -(BoardSize + 1))
  }

  /** The `map` pass: one probe per direction, in the configured order. */
  function Probes(cells: Cells, id: int, capturingOnly: bool): (r: seq<Option<Position>>)
    requires id in cells
    ensures |r| == 4
  {
    var config := ConfigFor(cells[id]);
    seq(4, k requires 0 <= k < 4 =>
      GetNextPos(cells, id, config.increments[k].val, config.oppositePlayer,
                 capturingOnly || config.increments[k].capturingOnly, false))
  }

  /** The flag the `map` pass raises: some probe found a jump. */
  predicate AnyCapture(probes: seq<Option<Position>>)
  {
    exists k :: 0 <= k < |probes| && probes[k].Some? && probes[k].value.capturedId.Some?
  }

  lemma AnyCaptureAppend(probes: seq<Option<Position>>, probe: Option<Position>)
    ensures AnyCapture(probes + [probe]) <==>
      AnyCapture(probes) || (probe.Some? && probe.value.capturedId.Some?)
  {
    var ps := probes + [probe];
    assert ps[|probes|] == probe;
    if AnyCapture(ps) && !(probe.Some? && probe.value.capturedId.Some?) {
      var k :| 0 <= k < |ps| && ps[k].Some? && ps[k].value.capturedId.Some?;
      assert ps[k] == probes[k];
    }
    if AnyCapture(probes) {
      var k :| 0 <= k < |probes| && probes[k].Some? && probes[k].value.capturedId.Some?;
      assert ps[k] == probes[k];
    }
  }

  /** One step of the `reduce` pass: keep a probe result, and only a jump once a jump exists. */
  function Keep(acc: map<int, Position>, probe: Option<Position>, capturingPossible: bool): map<int, Position>
  {
    if probe.None? then acc
    else if capturingPossible then
      (if probe.value.capturedId.Some? then acc[probe.value.id := probe.value] else acc)
    else acc[probe.value.id := probe.value]
  }

  /** The `reduce` pass over the probe results, from the first to the last. */
  function Collected(probes: seq<Option<Position>>, capturingPossible: bool): (r: map<int, Position>)
    ensures |r| <= |probes|
    ensures forall k :: k in r ==> r[k].id == k && Kept(Some(r[k]), capturingPossible)
    decreases |probes|
  {
    if probes == [] then map[]
    else Keep(Collected(probes[..|probes| - 1], capturingPossible), probes[|probes| - 1], capturingPossible)
  }

  /** The destinations of the piece on `id`, keyed by destination square. */
  function NextPositions(cells: Cells, id: int, capturingOnly: bool): (r: map<int, Position>)
    requires id in cells
    ensures |r| <= 4
    ensures forall k :: k in r ==> r[k].id == k
    ensures AnyCapture(Probes(cells, id, capturingOnly)) ==> forall k :: k in r ==> r[k].capturedId.Some?
  {
    var probes := Probes(cells, id, capturingOnly);
    Collected(probes, AnyCapture(probes))
  }

  /** `calcNextPositions`: the `map` pass raising the capture flag, then the `reduce` pass. */
  method CalcNextPositions(cells: Cells, id: int, capturingOnly: bool) returns (r: map<int, Position>)
    requires id in cells
    ensures r == NextPositions(cells, id, capturingOnly)
  {
    var config := ConfigFor(cells[id]);
    var capturingPossible := false;
    var probes: seq<Option<Position>> := [];
    for k := 0 to 4
      invariant probes == Probes(cells, id, capturingOnly)[..k]
      invariant capturingPossible == AnyCapture(probes)
    {
      var increment := config.increments[k];
      var nextPos := GetNextPos(cells, id, increment.val, config.oppositePlayer,
                                capturingOnly || increment.capturingOnly, false);
      if nextPos.Some? && nextPos.value.capturedId.Some? {
        capturingPossible := true;
      }
      AnyCaptureAppend(probes, nextPos);
      probes := probes + [nextPos];
    }
    assert probes == Probes(cells, id, capturingOnly);
    r := map[];
    for k := 0 to 4
      invariant r == Collected(probes[..k], capturingPossible)
    {
      assert probes[..k + 1][..k] == probes[..k];
      r := Keep(r, probes[k], capturingPossible);
    }
    assert probes[..4] == probes;
  }

  // ---------------------------------------------------------------------
  // The reduce pass

  /** Some probe result is kept: it exists and, once a jump exists, it is a jump. */
  predicate Kept(probe: Option<Position>, capturingPossible: bool)
  {
    probe.Some? && (capturingPossible ==> probe.value.capturedId.Some?)
  }

  /** No two probe results land on the same square. */
  predicate DistinctIds(probes: seq<Option<Position>>)
  {
    forall i, j :: 0 <= i < j < |probes| && probes[i].Some? && probes[j].Some? ==>
      probes[i].value.id != probes[j].value.id
  }

  /** Every entry of the reduce pass is one of the probe results. */
  lemma {:induction false} CollectedFromProbes(probes: seq<Option<Position>>, capturingPossible: bool)
    ensures forall k :: k in Collected(probes, capturingPossible) ==>
      exists j :: 0 <= j < |probes| && probes[j] == Some(Collected(probes, capturingPossible)[k])
  {
    if probes != [] {
      var n := |probes| - 1;
      var front := probes[..n];
      var acc := Collected(front, capturingPossible);
      CollectedFromProbes(front, capturingPossible);
      var r := Collected(probes, capturingPossible);
      assert r == Keep(acc, probes[n], capturingPossible);
      forall k | k in r ensures exists j :: 0 <= j < |probes| && probes[j] == Some(r[k]) {
        if k in acc && r[k] == acc[k] {
          var j :| 0 <= j < |front| && front[j] == Some(acc[k]);
          assert probes[j] == front[j];
        } else {
          assert probes[n] == Some(r[k]);
        }
      }
    }
  }

  /** Every kept probe result has its square among the keys of the reduce pass. */
  lemma {:induction false} CollectedCovers(probes: seq<Option<Position>>, capturingPossible: bool)
    ensures var r := Collected(probes, capturingPossible);
      forall j :: 0 <= j < |probes| && Kept(probes[j], capturingPossible) ==> probes[j].value.id in r
  {
    if probes != [] {
      var n := |probes| - 1;
      var front := probes[..n];
      CollectedCovers(front, capturingPossible);
      var r := Collected(probes, capturingPossible);
      assert r == Keep(Collected(front, capturingPossible), probes[n], capturingPossible);
      forall j | 0 <= j < |probes| && Kept(probes[j], capturingPossible) ensures probes[j].value.id in r {
        if j < n {
          assert front[j] == probes[j];
        }
      }
    }
  }

  /** With distinct squares, each kept probe result is the entry under its own square. */
  lemma {:induction false} CollectedValues(probes: seq<Option<Position>>, capturingPossible: bool)
    requires DistinctIds(probes)
    ensures var r := Collected(probes, capturingPossible);
      forall j :: 0 <= j < |probes| && Kept(probes[j], capturingPossible) ==>
        probes[j].value.id in r && r[probes[j].value.id] == probes[j].value
  {
    if probes != [] {
      var n := |probes| - 1;
      var front := probes[..n];
      assert DistinctIds(front) by {
        forall i, j | 0 <= i < j < |front| && front[i].Some? && front[j].Some?
          ensures front[i].value.id != front[j].value.id
        {
          assert front[i] == probes[i] && front[j] == probes[j];
        }
      }
      CollectedValues(front, capturingPossible);
      var r := Collected(probes, capturingPossible);
      assert r == Keep(Collected(front, capturingPossible), probes[n], capturingPossible);
      forall j | 0 <= j < |probes| && Kept(probes[j], capturingPossible)
        ensures probes[j].value.id in r && r[probes[j].value.id] == probes[j].value
      {
        if j < n {
          assert front[j] == probes[j];
        }
      }
    }
  }

  /**
   * The reduce pass keys every kept result by its own square and keeps
   * nothing else; it adds at most one key per probe.
   */
  lemma CollectedEntries(probes: seq<Option<Position>>, capturingPossible: bool)
    ensures var r := Collected(probes, capturingPossible);
      && |r| <= |probes|
      && (forall k :: k in r ==> r[k].id == k && Kept(Some(r[k]), capturingPossible))
      && (forall k :: k in r ==> exists j :: 0 <= j < |probes| && probes[j] == Some(r[k]))
      && (forall j :: 0 <= j < |probes| && Kept(probes[j], capturingPossible) ==> probes[j].value.id in r)
      && (DistinctIds(probes) ==> forall j :: 0 <= j < |probes| && Kept(probes[j], capturingPossible) ==>
            r[probes[j].value.id] == probes[j].value)
  {
    CollectedFromProbes(probes, capturingPossible);
    CollectedCovers(probes, capturingPossible);
    if DistinctIds(probes) {
      CollectedValues(probes, capturingPossible);
    }
  }

  // ---------------------------------------------------------------------
  // Per-direction view of the generation

  /** The four directions in the order they are probed. */
  function Directions(occupied: Occupant): seq<int>
  {
    seq(4, k requires 0 <= k < 4 => ConfigFor(occupied).increments[k].val)
  }

  function Opponent(occupied: Occupant): Player
  {
    ConfigFor(occupied).oppositePlayer
  }

  /** A step direction of the piece: down the board for the first player, up for anything else. */
  predicate IsForward(occupied: Occupant, d: int)
  {
    d == ForwardOffsets(occupied).0 || d == ForwardOffsets(occupied).1
  }

  /** What the probe in direction `d` from the piece on `id` finds. */
  function Probe(cells: Cells, id: int, capturingOnly: bool, d: int): Option<Position>
    requires id in cells
  {
    GetNextPos(cells, id, d, Opponent(cells[id]), capturingOnly || !IsForward(cells[id], d), false)
  }

  lemma ProbesAreDirections(cells: Cells, id: int, capturingOnly: bool)
    requires id in cells
    ensures forall j :: 0 <= j < 4 ==> Probes(cells, id, capturingOnly)[j] == Probe(cells, id, capturingOnly, Directions(cells[id])[j])
    ensures forall d :: IsDiagonalOffset(d) <==> d in Directions(cells[id])
  {
    var ds := Directions(cells[id]);
    if cells[id] == Some(Player1) {
      assert ds == [BoardSize - 1, BoardSize + 1, -(BoardSize - 1), -(BoardSize + 1)];
    } else {
      assert ds == [-(BoardSize - 1), -(BoardSize + 1), BoardSize - 1, BoardSize + 1];
    }
  }

  /** Probes in different directions never land on the same square. */
  lemma ProbesDistinct(cells: Cells, id: int, capturingOnly: bool)
    requires id in cells
    ensures DistinctIds(Probes(cells, id, capturingOnly))
  {
    ProbesAreDirections(cells, id, capturingOnly);
  }

  /** A jump is available from `id` in some direction. */
  ghost predicate CaptureAvailable(cells: Cells, id: int)
    requires id in cells
  {
    exists d :: IsDiagonalOffset(d) && CanCapture(cells, id, d, Opponent(cells[id]))
  }

  lemma AnyCaptureIsCaptureAvailable(cells: Cells, id: int, capturingOnly: bool)
    requires id in cells
    ensures AnyCapture(Probes(cells, id, capturingOnly)) <==> CaptureAvailable(cells, id)
  {
    var probes := Probes(cells, id, capturingOnly);
    var ds := Directions(cells[id]);
    ProbesAreDirections(cells, id, capturingOnly);
    if AnyCapture(probes) {
      var j :| 0 <= j < 4 && probes[j].Some? && probes[j].value.capturedId.Some?;
      assert CanCapture(cells, id, ds[j], Opponent(cells[id]));
    }
    if CaptureAvailable(cells, id) {
      var d :| IsDiagonalOffset(d) && CanCapture(cells, id, d, Opponent(cells[id]));
      var j :| 0 <= j < 4 && ds[j] == d;
      assert probes[j].Some? && probes[j].value.capturedId.Some?;
    }
  }

  /**
   * The generation, direction by direction: a destination is the landing
   * square of a probe, and once any jump exists only jumps are kept.
   */
  lemma NextPositionsByDirection(cells: Cells, id: int, capturingOnly: bool)
    requires id in cells
    ensures var r := NextPositions(cells, id, capturingOnly);
      && |r| <= 4
      && (forall k :: k in r ==> r[k].id == k)
      && (forall k :: k in r ==> exists d :: IsDiagonalOffset(d) && Probe(cells, id, capturingOnly, d) == Some(r[k]))
      && (forall k :: k in r && CaptureAvailable(cells, id) ==> r[k].capturedId.Some?)
      && (forall d :: IsDiagonalOffset(d) && Kept(Probe(cells, id, capturingOnly, d), CaptureAvailable(cells, id)) ==>
            var p := Probe(cells, id, capturingOnly, d).value; p.id in r && r[p.id] == p)
  {
    var probes := Probes(cells, id, capturingOnly);
    var ds := Directions(cells[id]);
    var r := NextPositions(cells, id, capturingOnly);
    ProbesAreDirections(cells, id, capturingOnly);
    ProbesDistinct(cells, id, capturingOnly);
    AnyCaptureIsCaptureAvailable(cells, id, capturingOnly);
    CollectedEntries(probes, AnyCapture(probes));
    forall k | k in r ensures exists d :: IsDiagonalOffset(d) && Probe(cells, id, capturingOnly, d) == Some(r[k]) {
      var j :| 0 <= j < 4 && probes[j] == Some(r[k]);
      assert IsDiagonalOffset(ds[j]);
    }
    forall d | IsDiagonalOffset(d) && Kept(Probe(cells, id, capturingOnly, d), CaptureAvailable(cells, id))
      ensures var p := Probe(cells, id, capturingOnly, d).value; p.id in r && r[p.id] == p
    {
      var j :| 0 <= j < 4 && ds[j] == d;
      assert probes[j] == Probe(cells, id, capturingOnly, d);
    }
  }

  // ---------------------------------------------------------------------
  // Properties of the generation

  /**
   * A jump in direction `d` is offered, as the landing square two away
   * with the jumped square one away, exactly when the neighbour holds an
   * opponent piece and the square beyond it exists and is empty.
   */
  lemma CaptureEntry(cells: Cells, id: int, capturingOnly: bool, d: int)
    requires id in cells && IsDiagonalOffset(d)
    ensures var r := NextPositions(cells, id, capturingOnly);
      (id + 2 * d in r && r[id + 2 * d] == Position(id + 2 * d, Some(id + d)))
      <==> CanCapture(cells, id, d, Opponent(cells[id]))
  {
    var r := NextPositions(cells, id, capturingOnly);
    NextPositionsByDirection(cells, id, capturingOnly);
    if CanCapture(cells, id, d, Opponent(cells[id])) {
      assert CaptureAvailable(cells, id);
      assert Probe(cells, id, capturingOnly, d) == Some(Position(id + 2 * d, Some(id + d)));
    }
    if id + 2 * d in r && r[id + 2 * d] == Position(id + 2 * d, Some(id + d)) {
      var d' :| IsDiagonalOffset(d') && Probe(cells, id, capturingOnly, d') == Some(r[id + 2 * d]);
      assert d' == d;
    }
  }

  /** Capture is compulsory: once any jump is available, every destination offered is a jump. */
  lemma CaptureCompulsory(cells: Cells, id: int, capturingOnly: bool)
    requires id in cells
    requires CaptureAvailable(cells, id)
    ensures var r := NextPositions(cells, id, capturingOnly);
      forall k :: k in r ==> r[k].capturedId.Some?
  {
    NextPositionsByDirection(cells, id, capturingOnly);
  }

  /** Asking only for jumps (a chained jump) never yields a plain step. */
  lemma CapturingOnlyYieldsJumps(cells: Cells, id: int)
    requires id in cells
    ensures var r := NextPositions(cells, id, true);
      forall k :: k in r ==> r[k].capturedId.Some?
  {
    var r := NextPositions(cells, id, true);
    NextPositionsByDirection(cells, id, true);
    forall k | k in r ensures r[k].capturedId.Some? {
      var d :| IsDiagonalOffset(d) && Probe(cells, id, true, d) == Some(r[k]);
    }
  }

  lemma NoCaptureEntryIsStep(cells: Cells, id: int, capturingOnly: bool, k: int)
    requires id in cells && !CaptureAvailable(cells, id)
    requires k in NextPositions(cells, id, capturingOnly)
    ensures !capturingOnly && IsForward(cells[id], k - id) && CanStep(cells, id, k - id)
    ensures NextPositions(cells, id, capturingOnly)[k] == Position(k, None)
  {
    var r := NextPositions(cells, id, capturingOnly);
    NextPositionsByDirection(cells, id, capturingOnly);
    var d :| IsDiagonalOffset(d) && Probe(cells, id, capturingOnly, d) == Some(r[k]);
    assert !CanCapture(cells, id, d, Opponent(cells[id]));
  }

  lemma NoCaptureStepIsEntry(cells: Cells, id: int, capturingOnly: bool, k: int)
    requires id in cells && !CaptureAvailable(cells, id)
    requires !capturingOnly && IsForward(cells[id], k - id) && CanStep(cells, id, k - id)
    ensures k in NextPositions(cells, id, capturingOnly)
  {
    var d := k - id;
    NextPositionsByDirection(cells, id, capturingOnly);
    assert !CanCapture(cells, id, d, Opponent(cells[id]));
    assert Probe(cells, id, capturingOnly, d) == Some(Position(k, None));
  }

  /**
   * With no jump anywhere, the destinations are exactly the existing empty
   * forward neighbours (none when only jumps are asked for), each a plain step.
   */
  lemma RegularStepsWhenNoCapture(cells: Cells, id: int, capturingOnly: bool)
    requires id in cells
    requires !CaptureAvailable(cells, id)
    ensures var r := NextPositions(cells, id, capturingOnly);
      && (forall k :: k in r <==> !capturingOnly && IsForward(cells[id], k - id) && CanStep(cells, id, k - id))
      && (forall k :: k in r ==> r[k] == Position(k, None))
  {
    var r := NextPositions(cells, id, capturingOnly);
    forall k | k in r ensures !capturingOnly && IsForward(cells[id], k - id) && CanStep(cells, id, k - id)
      && r[k] == Position(k, None)
    {
      NoCaptureEntryIsStep(cells, id, capturingOnly, k);
    }
    forall k | !capturingOnly && IsForward(cells[id], k - id) && CanStep(cells, id, k - id) ensures k in r {
      NoCaptureStepIsEntry(cells, id, capturingOnly, k);
    }
  }

  /**
   * Every destination is an empty square of the dictionary keyed by itself,
   * every jumped square holds an opponent piece, and there are at most four.
   */
  lemma DestinationsOnBoard(cells: Cells, id: int, capturingOnly: bool)
    requires id in cells
    ensures var r := NextPositions(cells, id, capturingOnly);
      && |r| <= 4
      && (forall k :: k in r ==> r[k].id == k && k in cells && cells[k] == None)
      && (forall k :: k in r && r[k].capturedId.Some? ==>
            r[k].capturedId.value in cells && cells[r[k].capturedId.value] == Some(Opponent(cells[id])))
  {
    var r := NextPositions(cells, id, capturingOnly);
    NextPositionsByDirection(cells, id, capturingOnly);
    forall k | k in r ensures k in cells && cells[k] == None
      && (r[k].capturedId.Some? ==>
            r[k].capturedId.value in cells && cells[r[k].capturedId.value] == Some(Opponent(cells[id])))
    {
      var d :| IsDiagonalOffset(d) && Probe(cells, id, capturingOnly, d) == Some(r[k]);
    }
  }

  /**
   * On a board whose keys are the playable squares, a step lands on a true
   * diagonal neighbour and a jump two squares along one diagonal, over the
   * square between them: the presence test alone rules out edge wrapping.
   */
  lemma DestinationsDiagonal(cells: Cells, id: int, capturingOnly: bool)
    requires WellFormed(cells) && id in cells
    ensures var r := NextPositions(cells, id, capturingOnly);
      && (forall k :: k in r && r[k].capturedId.None? ==> OnDiagonal(id, k, 1))
      && (forall k :: k in r && r[k].capturedId.Some? ==>
            var c := r[k].capturedId.value;
            OnDiagonal(id, k, 2) && OnDiagonal(id, c, 1) && OnDiagonal(c, k, 1) && c - id == k - c)
  {
    var r := NextPositions(cells, id, capturingOnly);
    NextPositionsByDirection(cells, id, capturingOnly);
    forall k | k in r
      ensures r[k].capturedId.None? ==> OnDiagonal(id, k, 1)
      ensures r[k].capturedId.Some? ==>
        var c := r[k].capturedId.value;
        OnDiagonal(id, k, 2) && OnDiagonal(id, c, 1) && OnDiagonal(c, k, 1) && c - id == k - c
    {
      var d :| IsDiagonalOffset(d) && Probe(cells, id, capturingOnly, d) == Some(r[k]);
      ProbeDiagonal(cells, id, capturingOnly, d);
    }
  }

  /** What one diagonal's probe finds lies one square along it, or two over the square between. */
  lemma ProbeDiagonal(cells: Cells, id: int, capturingOnly: bool, d: int)
    requires WellFormed(cells) && id in cells && IsDiagonalOffset(d)
    ensures var p := Probe(cells, id, capturingOnly, d);
      && (p.Some? && p.value.capturedId.None? ==> OnDiagonal(id, p.value.id, 1))
      && (p.Some? && p.value.capturedId.Some? ==>
            var c := p.value.capturedId.value;
            OnDiagonal(id, p.value.id, 2) && OnDiagonal(id, c, 1) && OnDiagonal(c, p.value.id, 1) &&
            c - id == p.value.id - c)
  {
    var p := Probe(cells, id, capturingOnly, d);
    if p.Some? {
      if p.value.capturedId.Some? {
        JumpIsDiagonal(id, d);
      } else {
        StepIsDiagonal(id, d);
      }
    }
  }

  // ---------------------------------------------------------------------
  // A worked position

  /** The starting squares, all empty. */
  function EmptyCells(): (c: Cells)
    ensures WellFormed(c)
  {
    map i | 0 <= i < SquareCount && !IsEmptySquare(i) :: None
  }

  /**
   * A lone first-player piece on 21 facing a second-player piece on 30 with
   * 39 empty: the jump to 39 is the only destination, the step to 28 is
   * suppressed by compulsion.
   */
  lemma LoneJump()
    ensures var cells := EmptyCells()[21 := Some(Player1)][30 := Some(Player2)];
      NextPositions(cells, 21, false) == map[39 := Position(39, Some(30))]
  {
    var cells := EmptyCells()[21 := Some(Player1)][30 := Some(Player2)];
    var r := NextPositions(cells, 21, false);
    assert 39 in cells && 28 in cells && 14 in cells && 12 in cells;
    assert CanCapture(cells, 21, 9, Player2);
    NextPositionsByDirection(cells, 21, false);
    forall k | k in r ensures k == 39 {
      var d :| IsDiagonalOffset(d) && Probe(cells, 21, false, d) == Some(r[k]);
    }
    assert Probe(cells, 21, false, 9) == Some(Position(39, Some(30)));
  }
}
