/**
 * The 8x8 board shared by every revision of the game: square ids, the
 * playable-square rule, the starting position, and the effect of moving a
 * piece on the dictionary of cells.
 */
module Layout {
  import opened Wrappers

  datatype Player = Player1 | Player2

  /** What a square holds: `null` or the owner of the piece on it. */
  type Occupant = Option<Player>

  /** `cellsById`: square id to occupant; only playable squares are keys. */
  type Cells = map<int, Occupant>

  const BoardSize: int := 8
  const SquareCount: int := BoardSize * BoardSize

  function Row(i: int): int { i / BoardSize }
  function Col(i: int): int { i % BoardSize }

  function Other(p: Player): (q: Player)
    ensures q != p
  {
    if p == Player1 then Player2 else Player1
  }

  /** The layout's own test for a square that never holds a piece. */
  predicate IsEmptySquare(i: int)
  {
    (i / BoardSize + i + 1) % 2 > 0
  }

  predicate Playable(i: int)
  {
    0 <= i < SquareCount && !IsEmptySquare(i)
  }

  /** Rows 0-2 start with the first player's pieces, rows 5-7 with the second's. */
  function InitialOccupant(i: int): Occupant
  {
    if i < BoardSize * (BoardSize / 2 - 1) then Some(Player1)
    else if i > BoardSize * (BoardSize / 2 + 1) - 1 then Some(Player2)
    else None
  }

  /** The dictionary of cells every revision starts from. */
  function InitialCells(): (c: Cells)
    ensures forall i :: i in c <==> Playable(i)
    ensures forall i :: i in c ==> c[i] == InitialOccupant(i)
  {
    map i | 0 <= i < SquareCount && !IsEmptySquare(i) :: InitialOccupant(i)
  }

  /** Exactly the playable squares are keys. */
  ghost predicate WellFormed(c: Cells)
  {
    forall i :: i in c <==> Playable(i)
  }

  function Occupants(c: Cells, p: Player): set<int>
  {
    set i | i in c && c[i] == Some(p)
  }

  /** The `k`-th dark square in row-major order: four per row, starting at column 1 on even rows. */
  function DarkSquare(k: int): int
  {
    BoardSize * (k / 4) + 2 * (k % 4) + 1 - (k / 4) % 2
  }

  /** The 32 dark squares, in ascending order. */
  function DarkSquares(): seq<int>
  {
    seq(32, k => DarkSquare(k))
  }

  predicate Ascending(s: seq<int>)
  {
    forall k :: 0 <= k < |s| - 1 ==> s[k] < s[k + 1]
  }

  function Elements(s: seq<int>): set<int>
  {
    set x | x in s
  }

  lemma {:induction false} AscendingBelowTail(s: seq<int>, k: int)
    requires Ascending(s) && 0 < k < |s|
    ensures s[0] < s[k]
  {
    if k > 1 {
      AscendingBelowTail(s[1..], k - 1);
    }
  }

  /** An ascending list has no repeats, so it lists exactly |s| squares. */
  lemma {:induction false} AscendingCount(s: seq<int>)
    requires Ascending(s)
    ensures |Elements(s)| == |s|
  {
    if s != [] {
      AscendingCount(s[1..]);
      forall k | 0 < k < |s| ensures s[0] != s[k] {
        AscendingBelowTail(s, k);
      }
      assert s[0] !in Elements(s[1..]);
      assert Elements(s) == {s[0]} + Elements(s[1..]);
    }
  }

  lemma PlayableIsRowColOdd(i: int)
    ensures Playable(i) <==> 0 <= i < SquareCount && (Row(i) + Col(i)) % 2 == 1
  {
  }

  /** The square in row `r` and column `m`. */
  lemma RowColOf(r: int, m: int)
    requires 0 <= m < BoardSize
    ensures Row(BoardSize * r + m) == r && Col(BoardSize * r + m) == m
  {
  }

  lemma DarkSquareIsPlayable(k: int)
    requires 0 <= k < 32
    ensures Playable(DarkSquare(k))
    ensures Row(DarkSquare(k)) == k / 4
  {
    var r, m := k / 4, 2 * (k % 4) + 1 - (k / 4) % 2;
    assert DarkSquare(k) == BoardSize * r + m;
    RowColOf(r, m);
    PlayableIsRowColOdd(DarkSquare(k));
  }

  lemma PlayableIsDarkSquare(i: int)
    requires Playable(i)
    ensures 0 <= 4 * Row(i) + Col(i) / 2 < 32 && DarkSquare(4 * Row(i) + Col(i) / 2) == i
  {
    PlayableIsRowColOdd(i);
    var r, c := Row(i), Col(i);
    assert i == BoardSize * r + c;
    var k := 4 * r + c / 2;
    assert k / 4 == r && k % 4 == c / 2;
    if r % 2 == 0 {
      assert c == 2 * (c / 2) + 1;
    } else {
      assert c == 2 * (c / 2);
    }
  }

  lemma PlayableSquares(i: int)
    ensures Playable(i) <==> i in DarkSquares()
  {
    if Playable(i) {
      PlayableIsDarkSquare(i);
      assert DarkSquares()[4 * Row(i) + Col(i) / 2] == i;
    }
    if i in DarkSquares() {
      var k :| 0 <= k < 32 && DarkSquares()[k] == i;
      DarkSquareIsPlayable(k);
    }
  }

  lemma DarkSquaresAscending()
    ensures Ascending(DarkSquares())
  {
  }

  /** The four diagonal offsets of a square id: +7/+9 go a row down, -7/-9 a row up. */
  predicate IsDiagonalOffset(d: int)
  {
    d == BoardSize - 1 || d == BoardSize + 1 || d == -(BoardSize - 1) || d == -(BoardSize + 1)
  }

  function RowStep(d: int): int { if d > 0 then 1 else -1 }

  function ColStep(d: int): int { if d == BoardSize + 1 || d == -(BoardSize - 1) then 1 else -1 }

  /** Two squares on one diagonal, `n` rows apart. */
  predicate OnDiagonal(a: int, b: int, n: int)
  {
    var dr := Row(b) - Row(a);
    var dc := Col(b) - Col(a);
    (dr == n || dr == -n) && (dc == n || dc == -n)
  }

  /** A diagonal offset between two playable squares is a true diagonal step. */
  lemma DiagonalNeighbour(s: int, d: int)
    requires Playable(s) && IsDiagonalOffset(d) && Playable(s + d)
    ensures Row(s + d) == Row(s) + RowStep(d) && Col(s + d) == Col(s) + ColStep(d)
  {
    PlayableIsRowColOdd(s);
    PlayableIsRowColOdd(s + d);
  }

  lemma StepIsDiagonal(s: int, d: int)
    requires Playable(s) && IsDiagonalOffset(d) && Playable(s + d)
    ensures OnDiagonal(s, s + d, 1)
  {
    DiagonalNeighbour(s, d);
  }

  /** Two steps in one direction between playable squares cover two rows and two columns. */
  lemma JumpIsDiagonal(s: int, d: int)
    requires Playable(s) && IsDiagonalOffset(d) && Playable(s + d) && Playable(s + 2 * d)
    ensures OnDiagonal(s, s + 2 * d, 2) && OnDiagonal(s, s + d, 1) && OnDiagonal(s + d, s + 2 * d, 1)
  {
    DiagonalNeighbour(s, d);
    DiagonalNeighbour(s + d, d);
    assert s + d + d == s + 2 * d;
  }

  /** An offset that would leave the board across its left or right edge lands on a square that is not playable. */
  lemma EdgeWrapIsUnplayable(s: int, d: int)
    requires Playable(s) && IsDiagonalOffset(d)
    requires Col(s) + ColStep(d) < 0 || Col(s) + ColStep(d) >= BoardSize
    ensures !Playable(s + d)
  {
    if Playable(s + d) {
      DiagonalNeighbour(s, d);
    }
  }

  /** The starting dictionary holds exactly the 32 dark squares. */
  lemma InitialSquares()
    ensures InitialCells().Keys == Elements(DarkSquares()) && |InitialCells().Keys| == 32
  {
    var c := InitialCells();
    forall i ensures i in c <==> i in Elements(DarkSquares()) {
      PlayableSquares(i);
    }
    assert c.Keys == Elements(DarkSquares());
    DarkSquaresAscending();
    AscendingCount(DarkSquares());
  }

  /** Twelve pieces each: the first twelve dark squares (rows 0-2) and the last twelve (rows 5-7). */
  lemma InitialPieces()
    ensures Occupants(InitialCells(), Player1) == Elements(DarkSquares()[..12])
    ensures Occupants(InitialCells(), Player2) == Elements(DarkSquares()[20..])
    ensures |Occupants(InitialCells(), Player1)| == 12 && |Occupants(InitialCells(), Player2)| == 12
  {
    var c := InitialCells();
    var d := DarkSquares();
    forall i ensures i in Occupants(c, Player1) <==> i in Elements(d[..12]) {
      if Playable(i) && i < 24 {
        PlayableIsDarkSquare(i);
        assert d[..12][4 * Row(i) + Col(i) / 2] == i;
      }
      if i in d[..12] {
        var k :| 0 <= k < 12 && d[k] == i;
        DarkSquareIsPlayable(k);
      }
    }
    forall i ensures i in Occupants(c, Player2) <==> i in Elements(d[20..]) {
      if Playable(i) && i >= 40 {
        PlayableIsDarkSquare(i);
        assert d[20..][4 * Row(i) + Col(i) / 2 - 20] == i;
      }
      if i in d[20..] {
        var k :| 20 <= k < 32 && d[k] == i;
        DarkSquareIsPlayable(k);
      }
    }
    assert Occupants(c, Player1) == Elements(d[..12]);
    assert Occupants(c, Player2) == Elements(d[20..]);
    DarkSquaresAscending();
    AscendingCount(d[..12]);
    AscendingCount(d[20..]);
  }

  /** The starting position is symmetric about the centre of the board. */
  lemma InitialSymmetric(i: int)
    requires Playable(i)
    ensures Playable(SquareCount - 1 - i)
    ensures InitialOccupant(i) == Some(Player1) <==> InitialOccupant(SquareCount - 1 - i) == Some(Player2)
  {
    var j := SquareCount - 1 - i;
    PlayableIsRowColOdd(i);
    assert i == BoardSize * Row(i) + Col(i);
    assert j == BoardSize * (7 - Row(i)) + (7 - Col(i));
    assert Row(j) == 7 - Row(i) && Col(j) == 7 - Col(i);
    PlayableIsRowColOdd(j);
  }

  /**
   * The dictionary after the piece on `from` is put on `to` and `from` is
   * cleared, then the `captured` square (if any) is cleared; as in an object
   * spread, a later write to the same key wins.
   */
  function MoveOn(c: Cells, from: int, to: int, captured: Option<int>): (r: Cells)
    requires from in c
    ensures forall k :: k in r <==> k in c || k == to || captured == Some(k)
    ensures forall k :: k in r ==>
      r[k] == (if captured == Some(k) || k == from then None else if k == to then c[from] else c[k])
  {
    var moved := c[to := c[from]][from := None];
    if captured.Some? then moved[captured.value := None] else moved
  }

  /** The occupant a square shows: empty for a square that is not a key. */
  function OccupantAt(cells: Cells, id: int): (o: Occupant)
    ensures o.Some? ==> id in cells && cells[id] == o
    ensures id in cells ==> o == cells[id]
  {
    if id in cells then cells[id] else None
  }

  /** Moving between squares of a well-formed board keeps it well-formed. */
  lemma MoveOnKeepsSquares(c: Cells, from: int, to: int, captured: Option<int>)
    requires WellFormed(c) && from in c && to in c
    requires captured.Some? ==> captured.value in c
    ensures WellFormed(MoveOn(c, from, to, captured))
    ensures MoveOn(c, from, to, captured).Keys == c.Keys
  {
  }
}
