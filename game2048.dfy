/** The tile-merging puzzle engine (`Game2048` in brackixos.py).

    A board is a 4 x 4 grid of integers, 0 meaning an empty cell. A move
    slides every line towards one side: compress (drop the zeros), merge
    (one left-to-right pass doubling equal neighbours), compress again.
    `right` reverses each row around that, `up` and `down` transpose the
    board around the row operation. A new tile is spawned only when the move
    changed the board. */
module TwentyFortyEight {

  const Size := 4

  type Line = seq<int>
  type Board = seq<seq<int>>

  datatype Direction = Left | Right | Up | Down

  predicate IsBoard(b: Board) {
    |b| == Size && forall i :: 0 <= i < Size ==> |b[i]| == Size
  }

  function EmptyBoard(): (b: Board)
    ensures IsBoard(b) && forall i, j :: 0 <= i < Size && 0 <= j < Size ==> b[i][j] == 0
  {
    seq(Size, _ => seq(Size, _ => 0))
  }

  /** Tile values: 0 for an empty cell, otherwise a power of two of at least 2. */
  predicate IsPowerOfTwo(n: int)
    decreases n
  {
    n == 1 || (n >= 2 && n % 2 == 0 && IsPowerOfTwo(n / 2))
  }

  predicate IsTile(n: int) {
    n == 0 || (n >= 2 && IsPowerOfTwo(n))
  }

  predicate AllTiles(s: Line) {
    forall k :: 0 <= k < |s| ==> IsTile(s[k])
  }

  predicate BoardTiles(b: Board)
    requires IsBoard(b)
  {
    forall i, j :: 0 <= i < Size && 0 <= j < Size ==> IsTile(b[i][j])
  }

  function Sum(s: Line): int {
    if s == [] then 0 else s[0] + Sum(s[1..])
  }

  /** The total "mass" of a board: the sum of all its cells. */
  function BoardSum(b: Board): int {
    if b == [] then 0 else Sum(b[0]) + BoardSum(b[1..])
  }

  // ---------------------------------------------------------------------
  // compress

  /** The non-zero values of a line, in their order. */
  function NonZero(s: Line): (r: Line)
    ensures |r| <= |s|
    ensures forall k :: 0 <= k < |r| ==> r[k] != 0
  {
    if s == [] then []
    else if s[0] != 0 then [s[0]] + NonZero(s[1..])
    else NonZero(s[1..])
  }

  function Zeros(n: nat): Line {
    seq(n, _ => 0)
  }

  lemma {:induction false} NonZeroAppend(a: Line, b: Line)
    ensures NonZero(a + b) == NonZero(a) + NonZero(b)
  {
    if a == [] {
      assert a + b == b;
    } else {
      assert (a + b)[0] == a[0];
      assert (a + b)[1..] == a[1..] + b;
      NonZeroAppend(a[1..], b);
    }
  }

  lemma {:induction false} NonZeroOfNonZeros(s: Line)
    requires forall k :: 0 <= k < |s| ==> s[k] != 0
    ensures NonZero(s) == s
  {
    if s != [] {
      NonZeroOfNonZeros(s[1..]);
    }
  }

  lemma {:induction false} NonZeroOfZeros(n: nat)
    ensures NonZero(Zeros(n)) == []
  {
    if n > 0 {
      assert Zeros(n)[1..] == Zeros(n - 1);
      NonZeroOfZeros(n - 1);
    }
  }

  /** `compress`: the non-zero values, then zeros up to the original length.
      It keeps the length and the order of the non-zero values. */
  function Compress(s: Line): (r: Line)
    ensures |r| == |s|
    ensures NonZero(r) == NonZero(s)
  {
    var nz := NonZero(s);
    NonZeroAppend(nz, Zeros(|s| - |nz|));
    NonZeroOfNonZeros(nz);
    NonZeroOfZeros(|s| - |nz|);
    nz + Zeros(|s| - |nz|)
  }

  /** After `compress` every zero comes after every non-zero value. */
  lemma CompressZerosLast(s: Line)
    ensures forall i, j :: 0 <= i < j < |s| && Compress(s)[i] == 0 ==> Compress(s)[j] == 0
  {
  }

  /** `compress` is idempotent. */
  lemma CompressIdempotent(s: Line)
    ensures Compress(Compress(s)) == Compress(s)
  {
  }

  /** A line without zeros is left alone by `compress`. */
  lemma CompressOfFullLine(s: Line)
    requires forall k :: 0 <= k < |s| ==> s[k] != 0
    ensures Compress(s) == s
  {
    NonZeroOfNonZeros(s);
    assert Zeros(0) == [];
  }

  lemma {:induction false} SumAppend(a: Line, b: Line)
    ensures Sum(a + b) == Sum(a) + Sum(b)
  {
    if a == [] {
      assert a + b == b;
    } else {
      assert (a + b)[1..] == a[1..] + b;
      SumAppend(a[1..], b);
    }
  }

  lemma {:induction false} SumNonZero(s: Line)
    ensures Sum(NonZero(s)) == Sum(s)
  {
    if s != [] {
      SumNonZero(s[1..]);
      if s[0] != 0 {
        SumAppend([s[0]], NonZero(s[1..]));
      }
    }
  }

  lemma {:induction false} SumZeros(n: nat)
    ensures Sum(Zeros(n)) == 0
  {
    if n > 0 {
      assert Zeros(n)[1..] == Zeros(n - 1);
      SumZeros(n - 1);
    }
  }

  /** `compress` does not change the sum of a line. */
  lemma CompressKeepsSum(s: Line)
    ensures Sum(Compress(s)) == Sum(s)
  {
    var nz := NonZero(s);
    SumAppend(nz, Zeros(|s| - |nz|));
    SumNonZero(s);
    SumZeros(|s| - |nz|);
  }

  lemma {:induction false} NonZeroTiles(s: Line)
    requires AllTiles(s)
    ensures AllTiles(NonZero(s))
  {
    if s != [] {
      NonZeroTiles(s[1..]);
    }
  }

  lemma CompressTiles(s: Line)
    requires AllTiles(s)
    ensures AllTiles(Compress(s))
  {
    NonZeroTiles(s);
  }

  // ---------------------------------------------------------------------
  // merge

  /** One `merge` pass: scanning left to right, two equal non-zero
      neighbours become the doubled value followed by 0, and the scan
      resumes after the pair. */
  function MergePass(s: Line): (r: Line)
    ensures |r| == |s|
    ensures AllTiles(s) ==> AllTiles(r)
  {
    if |s| < 2 then s
    else if s[0] == s[1] && s[0] != 0 then
      assert AllTiles(s) ==> IsTile(2 * s[0]);
      [2 * s[0], 0] + MergePass(s[2..])
    else [s[0]] + MergePass(s[1..])
  }

  /** What one `merge` pass adds to the score: never negative on tiles. */
  function MergeGain(s: Line): (g: int)
    ensures AllTiles(s) ==> g >= 0
  {
    if |s| < 2 then 0
    else if s[0] == s[1] && s[0] != 0 then 2 * s[0] + MergeGain(s[2..])
    else MergeGain(s[1..])
  }

  /** The cells of a `MergePass` result that hold a freshly doubled value. */
  function Doubled(s: Line): (m: seq<bool>)
    ensures |m| == |s|
  {
    if |s| < 2 then seq(|s|, _ => false)
    else if s[0] == s[1] && s[0] != 0 then [true, false] + Doubled(s[2..])
    else [false] + Doubled(s[1..])
  }

  /** The sum of the cells of `r` that `m` marks. */
  function SumMarked(r: Line, m: seq<bool>): int
    requires |r| == |m|
  {
    if r == [] then 0 else (if m[0] then r[0] else 0) + SumMarked(r[1..], m[1..])
  }

  /** Cell `k` after `merge`: a doubled cell starts an equal non-zero pair,
      holds twice its value, and its right neighbour is zeroed and not
      doubled itself; a cell neither doubled nor right of a doubled cell
      keeps its value; an equal non-zero pair is merged unless its left
      cell was taken by the pair before (no cell is merged twice). */
  predicate MergedAt(s: Line, k: nat)
    requires k < |s|
  {
    var r, m := MergePass(s), Doubled(s);
    (m[k] ==> k + 1 < |s| && s[k] == s[k + 1] && s[k] != 0 &&
              r[k] == 2 * s[k] && r[k + 1] == 0 && !m[k + 1]) &&
    ((k == 0 || !m[k - 1]) && !m[k] ==> r[k] == s[k]) &&
    (k + 1 < |s| && s[k] == s[k + 1] && s[k] != 0 && !m[k] ==> k > 0 && m[k - 1])
  }

  lemma {:induction false} MergeAt(s: Line, k: nat)
    requires k < |s|
    ensures MergedAt(s, k)
  {
    if |s| >= 2 {
      if s[0] == s[1] && s[0] != 0 {
        if k >= 2 {
          MergeAt(s[2..], k - 2);
          if k >= 3 {
            assert Doubled(s)[k - 1] == Doubled(s[2..])[k - 3];
          }
        }
      } else if k >= 1 {
        MergeAt(s[1..], k - 1);
        if k >= 2 {
          assert Doubled(s)[k - 1] == Doubled(s[1..])[k - 2];
        }
      }
    }
  }

  /** The whole `merge` pass, cell by cell (see MergeAt). */
  lemma MergeShape(s: Line)
    ensures forall k :: 0 <= k < |s| ==> MergedAt(s, k)
  {
    forall k | 0 <= k < |s|
      ensures MergedAt(s, k)
    {
      MergeAt(s, k);
    }
  }

  /** `merge` adds to the score exactly the sum of the doubled values. */
  lemma {:induction false} MergeGainIsDoubledSum(s: Line)
    ensures MergeGain(s) == SumMarked(MergePass(s), Doubled(s))
  {
    if |s| < 2 {
      if |s| == 1 {
        assert MergePass(s)[1..] == [];
      }
    } else if s[0] == s[1] && s[0] != 0 {
      MergeGainIsDoubledSum(s[2..]);
      var r, m := MergePass(s), Doubled(s);
      assert r[1..][1..] == MergePass(s[2..]);
      assert m[1..][1..] == Doubled(s[2..]);
    } else {
      MergeGainIsDoubledSum(s[1..]);
      var r, m := MergePass(s), Doubled(s);
      assert r[1..] == MergePass(s[1..]);
      assert m[1..] == Doubled(s[1..]);
    }
  }

  /** `merge` does not change the sum of a line. */
  lemma {:induction false} MergeKeepsSum(s: Line)
    ensures Sum(MergePass(s)) == Sum(s)
  {
    if |s| >= 2 {
      assert s[1..][1..] == s[2..];
      if s[0] == s[1] && s[0] != 0 {
        MergeKeepsSum(s[2..]);
        SumAppend([2 * s[0], 0], MergePass(s[2..]));
      } else {
        MergeKeepsSum(s[1..]);
        SumAppend([s[0]], MergePass(s[1..]));
      }
    }
  }

  /** A line with no two equal neighbours is left alone by `merge`. */
  lemma {:induction false} MergeOfDistinctNeighbours(s: Line)
    requires forall k :: 0 <= k < |s| - 1 ==> s[k] != s[k + 1]
    ensures MergePass(s) == s && MergeGain(s) == 0
  {
    if |s| >= 2 {
      MergeOfDistinctNeighbours(s[1..]);
    }
  }

  /** A 0 at the head of a line never merges. */
  lemma MergeLeadingZero(u: Line)
    ensures MergePass([0] + u) == [0] + MergePass(u)
    ensures MergeGain([0] + u) == MergeGain(u)
  {
    if |u| == 0 {
      assert [0] + u == [0];
    } else {
      assert ([0] + u)[1..] == u;
    }
  }

  /** One step of the loop of `merge` at a mergeable pair `m[i], m[i + 1]`:
      the scanned prefix grows by the doubled cell and the rest starts with
      the zeroed cell. */
  lemma MergeStepPair(m: Line, i: nat)
    requires i + 1 < |m| && m[i] == m[i + 1] && m[i] != 0
    ensures var m' := m[i := m[i] * 2][i + 1 := 0];
      m'[..i + 1] + MergePass(m'[i + 1..]) == m[..i] + MergePass(m[i..]) &&
      MergeGain(m'[i + 1..]) + m'[i] == MergeGain(m[i..])
  {
    var m' := m[i := m[i] * 2][i + 1 := 0];
    var t := m[i..];
    var rest := MergePass(t[2..]);
    assert MergePass(t) == [2 * t[0]] + ([0] + rest);
    assert m'[i + 1..] == [0] + t[2..];
    MergeLeadingZero(t[2..]);
    assert m'[..i + 1] == m[..i] + [2 * t[0]];
  }

  /** One step of the loop of `merge` where `m[i]` is not merged. */
  lemma MergeStepKeep(m: Line, i: nat)
    requires i + 1 < |m| && !(m[i] == m[i + 1] && m[i] != 0)
    ensures m[..i + 1] + MergePass(m[i + 1..]) == m[..i] + MergePass(m[i..])
    ensures MergeGain(m[i + 1..]) == MergeGain(m[i..])
  {
    var t := m[i..];
    assert m[i + 1..] == t[1..];
    assert m[..i + 1] == m[..i] + [t[0]];
  }

  /** The loop of `merge` is done once fewer than two cells are left. */
  lemma MergeStepDone(m: Line, i: nat)
    requires i <= |m| && i + 1 >= |m|
    ensures m[..i] + MergePass(m[i..]) == m && MergeGain(m[i..]) == 0
  {
    assert m[..i] + m[i..] == m;
  }

  // ---------------------------------------------------------------------
  // lines and boards

  /** Python's `line[::-1]`: the cell at `k` moves to `|s| - 1 - k`. */
  function Reverse(s: Line): (r: Line)
    ensures |r| == |s|
    ensures forall k :: 0 <= k < |s| ==> r[k] == s[|s| - 1 - k]
  {
    if s == [] then [] else Reverse(s[1..]) + [s[0]]
  }

  lemma ReverseReverse(s: Line)
    ensures Reverse(Reverse(s)) == s
  {
    var r := Reverse(Reverse(s));
    assert |r| == |s|;
    forall k | 0 <= k < |s|
      ensures r[k] == s[k]
    {
    }
  }

  /** compress, merge, compress: one line moved towards its start. */
  function SlideLine(s: Line): (r: Line)
    ensures |r| == |s|
  {
    Compress(MergePass(Compress(s)))
  }

  /** What moving one line towards its start adds to the score. */
  function LineGain(s: Line): int {
    MergeGain(Compress(s))
  }

  /** One row moved towards its start, or (`towardsEnd`) towards its end. */
  function SlideRow(row: Line, towardsEnd: bool): (r: Line)
    ensures |r| == |row|
  {
    if towardsEnd then Reverse(SlideLine(Reverse(row))) else SlideLine(row)
  }

  function RowGain(row: Line, towardsEnd: bool): int {
    if towardsEnd then LineGain(Reverse(row)) else LineGain(row)
  }

  function SlideRows(b: Board, towardsEnd: bool): (r: Board)
    requires IsBoard(b)
    ensures IsBoard(r)
  {
    seq(Size, i requires 0 <= i < Size => SlideRow(b[i], towardsEnd))
  }

  /** The score gained by sliding the first rows of a board. */
  function RowsGain(rows: seq<Line>, towardsEnd: bool): int {
    if rows == [] then 0
    else RowsGain(rows[..|rows| - 1], towardsEnd) + RowGain(rows[|rows| - 1], towardsEnd)
  }

  /** The board during the row loop of `move`: rows before `i` slid. */
  function SlidPrefix(b: Board, i: nat, towardsEnd: bool): (r: Board)
    requires IsBoard(b)
    ensures IsBoard(r)
  {
    seq(Size, k requires 0 <= k < Size => if k < i then SlideRow(b[k], towardsEnd) else b[k])
  }

  lemma SlidPrefixStep(b: Board, i: nat, towardsEnd: bool)
    requires IsBoard(b) && i < Size
    ensures SlidPrefix(b, i, towardsEnd)[i] == b[i]
    ensures SlidPrefix(b, i, towardsEnd)[i := SlideRow(b[i], towardsEnd)] == SlidPrefix(b, i + 1, towardsEnd)
    ensures RowsGain(b[..i + 1], towardsEnd) == RowsGain(b[..i], towardsEnd) + RowGain(b[i], towardsEnd)
  {
    assert b[..i + 1][..i] == b[..i];
  }

  lemma SlidPrefixDone(b: Board, towardsEnd: bool)
    requires IsBoard(b)
    ensures SlidPrefix(b, Size, towardsEnd) == SlideRows(b, towardsEnd)
    ensures b[..Size] == b
  {
  }

  /** The board read by columns, as `move` reads it for up and down: it is
      again 4 by 4, and tiles stay tiles. */
  function Transpose(b: Board): (t: Board)
    requires IsBoard(b)
    ensures IsBoard(t)
    ensures BoardTiles(b) ==> BoardTiles(t)
  {
    seq(Size, i requires 0 <= i < Size => seq(Size, j requires 0 <= j < Size => b[j][i]))
  }

  lemma TransposeTranspose(b: Board)
    requires IsBoard(b)
    ensures Transpose(Transpose(b)) == b
  {
    var t := Transpose(Transpose(b));
    forall i | 0 <= i < Size
      ensures t[i] == b[i]
    {
      assert |t[i]| == |b[i]|;
      forall j | 0 <= j < Size
        ensures t[i][j] == b[i][j]
      {
      }
    }
  }

  /** The board after `move(direction)`, before a tile is spawned: every
      cell stays 0 or a power of two. */
  function Moved(b: Board, d: Direction): (r: Board)
    requires IsBoard(b)
    ensures IsBoard(r)
    ensures BoardTiles(b) ==> BoardTiles(r)
  {
    match d
    case Left => SlideRowsTiles(b, false); SlideRows(b, false)
    case Right => SlideRowsTiles(b, true); SlideRows(b, true)
    case Up => SlideRowsTiles(Transpose(b), false); Transpose(SlideRows(Transpose(b), false))
    case Down => SlideRowsTiles(Transpose(b), true); Transpose(SlideRows(Transpose(b), true))
  }

  /** What `move(direction)` adds to the score: never negative. */
  function MoveGain(b: Board, d: Direction): (g: int)
    requires IsBoard(b)
    ensures BoardTiles(b) ==> g >= 0
  {
    match d
    case Left => SlideRowsTiles(b, false); RowsGain(b, false)
    case Right => SlideRowsTiles(b, true); RowsGain(b, true)
    case Up => SlideRowsTiles(Transpose(b), false); RowsGain(Transpose(b), false)
    case Down => SlideRowsTiles(Transpose(b), true); RowsGain(Transpose(b), true)
  }

  // ---------------------------------------------------------------------
  // spawn_tile

  /** The empty cells of row `i` from column `j` on. */
  function RowEmptyCells(b: Board, i: nat, j: nat): seq<(int, int)>
    requires IsBoard(b) && i < Size
    decreases Size - j
  {
    if j >= Size then []
    else (if b[i][j] == 0 then [(i, j)] else []) + RowEmptyCells(b, i, j + 1)
  }

  /** The empty cells of rows `i` on, in row-major order. */
  function EmptyCellsFrom(b: Board, i: nat): seq<(int, int)>
    requires IsBoard(b)
    decreases Size - i
  {
    if i >= Size then [] else RowEmptyCells(b, i, 0) + EmptyCellsFrom(b, i + 1)
  }

  lemma {:induction false} RowEmptyCellsExact(b: Board, i: nat, j: nat)
    requires IsBoard(b) && i < Size
    ensures forall c {:trigger c in RowEmptyCells(b, i, j)} :: c in RowEmptyCells(b, i, j) <==>
      c.0 == i && j <= c.1 < Size && b[i][c.1] == 0
    decreases Size - j
  {
    if j < Size {
      RowEmptyCellsExact(b, i, j + 1);
    }
  }

  lemma {:induction false} EmptyCellsFromExact(b: Board, i: nat)
    requires IsBoard(b)
    ensures forall c {:trigger c in EmptyCellsFrom(b, i)} :: c in EmptyCellsFrom(b, i) <==>
      i <= c.0 < Size && 0 <= c.1 < Size && b[c.0][c.1] == 0
    decreases Size - i
  {
    if i < Size {
      RowEmptyCellsExact(b, i, 0);
      EmptyCellsFromExact(b, i + 1);
    }
  }

  /** The empty cells in row-major order, as `spawn_tile` lists them: the
      list holds exactly the cells that hold 0. */
  function EmptyCells(b: Board): (cells: seq<(int, int)>)
    requires IsBoard(b)
    ensures forall c {:trigger c in cells} :: c in cells <==>
      0 <= c.0 < Size && 0 <= c.1 < Size && b[c.0][c.1] == 0
  {
    EmptyCellsFromExact(b, 0);
    EmptyCellsFrom(b, 0)
  }

  /** The `n`-th listed empty cell is on the board and holds 0. */
  lemma EmptyCellAt(b: Board, n: nat)
    requires IsBoard(b) && n < |EmptyCells(b)|
    ensures var c := EmptyCells(b)[n];
      0 <= c.0 < Size && 0 <= c.1 < Size && b[c.0][c.1] == 0
  {
    assert EmptyCells(b)[n] in EmptyCells(b);
  }

  /** `pick` stands for `random.choice(empty_cells)`: an index into the list. */
  predicate ValidPick(b: Board, pick: nat)
    requires IsBoard(b)
  {
    |EmptyCells(b)| == 0 || pick < |EmptyCells(b)|
  }

  /** `b` with cell (i, j) set to `v`. */
  function Place(b: Board, i: int, j: int, v: int): (r: Board)
    requires IsBoard(b) && 0 <= i < Size && 0 <= j < Size
    ensures IsBoard(r)
  {
    b[i := b[i][j := v]]
  }

  /** `r` is `b` with cell (i, j), and only that cell, set to `v`. */
  predicate ChangesOnly(b: Board, r: Board, i: int, j: int, v: int)
    requires IsBoard(b) && IsBoard(r)
  {
    0 <= i < Size && 0 <= j < Size && r[i][j] == v &&
    forall i', j' :: 0 <= i' < Size && 0 <= j' < Size && (i', j') != (i, j) ==> r[i'][j'] == b[i'][j']
  }

  lemma PlaceExact(b: Board, i: int, j: int, v: int)
    requires IsBoard(b) && 0 <= i < Size && 0 <= j < Size
    ensures ChangesOnly(b, Place(b, i, j, v), i, j, v)
    ensures BoardTiles(b) && IsTile(v) ==> BoardTiles(Place(b, i, j, v))
  {
  }

  /** The board after `spawn_tile` with the chosen cell and value. */
  function Spawned(b: Board, pick: nat, value: int): (r: Board)
    requires IsBoard(b) && ValidPick(b, pick)
    ensures IsBoard(r)
    ensures BoardTiles(b) && IsTile(value) ==> BoardTiles(r)
  {
    if |EmptyCells(b)| == 0 then b
    else
      EmptyCellAt(b, pick);
      var c := EmptyCells(b)[pick];
      PlaceExact(b, c.0, c.1, value);
      Place(b, c.0, c.1, value)
  }

  /** A cell that holds 0 is listed. */
  lemma EmptyCellListed(b: Board, i: int, j: int)
    requires IsBoard(b) && 0 <= i < Size && 0 <= j < Size && b[i][j] == 0
    ensures (i, j) in EmptyCells(b)
  {
  }

  /** `spawn_tile` finds no empty cell exactly when no cell holds 0. */
  lemma NoEmptyCellsIffFull(b: Board)
    requires IsBoard(b)
    ensures |EmptyCells(b)| == 0 <==> forall i, j :: 0 <= i < Size && 0 <= j < Size ==> b[i][j] != 0
  {
    if |EmptyCells(b)| == 0 {
      forall i, j | 0 <= i < Size && 0 <= j < Size
        ensures b[i][j] != 0
      {
        if b[i][j] == 0 {
          EmptyCellListed(b, i, j);
        }
      }
    } else {
      EmptyCellAt(b, 0);
    }
  }

  /** `spawn_tile` sets exactly one previously empty cell to `value`, or
      changes nothing when the board is full. */
  lemma SpawnedExact(b: Board, pick: nat, value: int)
    requires IsBoard(b) && ValidPick(b, pick)
    ensures |EmptyCells(b)| == 0 ==> Spawned(b, pick, value) == b
    ensures |EmptyCells(b)| > 0 ==>
      exists i, j :: 0 <= i < Size && 0 <= j < Size && b[i][j] == 0 &&
        ChangesOnly(b, Spawned(b, pick, value), i, j, value)
  {
    if |EmptyCells(b)| > 0 {
      EmptyCellAt(b, pick);
      var c := EmptyCells(b)[pick];
      PlaceExact(b, c.0, c.1, value);
      assert Spawned(b, pick, value) == Place(b, c.0, c.1, value);
      assert b[c.0][c.1] == 0 && ChangesOnly(b, Spawned(b, pick, value), c.0, c.1, value);
    }
  }

  // ---------------------------------------------------------------------
  // check_game_over

  /** The scan of `check_game_over` from row-major position `k` on: false at
      the first empty cell or the first cell equal to its right or lower
      neighbour. */
  function NoMoveFrom(b: Board, k: nat): bool
    requires IsBoard(b)
    decreases Size * Size - k
  {
    if k >= Size * Size then true
    else
      var i, j := k / Size, k % Size;
      if b[i][j] == 0 then false
      else if j < Size - 1 && b[i][j] == b[i][j + 1] then false
      else if i < Size - 1 && b[i][j] == b[i + 1][j] then false
      else NoMoveFrom(b, k + 1)
  }

  /** Cell (i, j) is not empty and differs from its right and its lower
      neighbour. */
  predicate CellStuck(b: Board, i: int, j: int)
    requires IsBoard(b) && 0 <= i < Size && 0 <= j < Size
  {
    b[i][j] != 0 &&
    (j < Size - 1 ==> b[i][j] != b[i][j + 1]) &&
    (i < Size - 1 ==> b[i][j] != b[i + 1][j])
  }

  /** No empty cell and no two equal horizontal or vertical neighbours. */
  predicate Stuck(b: Board)
    requires IsBoard(b)
  {
    forall i, j :: 0 <= i < Size && 0 <= j < Size ==> CellStuck(b, i, j)
  }

  lemma {:induction false} NoMoveFromExact(b: Board, k: nat)
    requires IsBoard(b)
    ensures NoMoveFrom(b, k) <==>
      forall i, j {:trigger CellStuck(b, i, j)} ::
        0 <= i < Size && 0 <= j < Size && i * Size + j >= k ==> CellStuck(b, i, j)
    decreases Size * Size - k
  {
    if k < Size * Size {
      NoMoveFromExact(b, k + 1);
      var i, j := k / Size, k % Size;
      assert 0 <= i < Size && 0 <= j < Size && i * Size + j == k;
      assert NoMoveFrom(b, k) == (CellStuck(b, i, j) && NoMoveFrom(b, k + 1));
    }
  }

  /** `check_game_over`: it holds exactly when the board is full and no two
      horizontal or vertical neighbours are equal. */
  function CheckGameOver(b: Board): (r: bool)
    requires IsBoard(b)
    ensures r <==> Stuck(b)
  {
    NoMoveFromExact(b, 0);
    NoMoveFrom(b, 0)
  }

  /** A full line without equal neighbours, reversed, is still one. */
  lemma ReverseOfStuckLine(row: Line)
    requires forall k :: 0 <= k < |row| ==> row[k] != 0
    requires forall k :: 0 <= k < |row| - 1 ==> row[k] != row[k + 1]
    ensures forall k :: 0 <= k < |row| ==> Reverse(row)[k] != 0
    ensures forall k :: 0 <= k < |row| - 1 ==> Reverse(row)[k] != Reverse(row)[k + 1]
  {
    var s := Reverse(row);
    forall k | 0 <= k < |s| - 1
      ensures s[k] != s[k + 1]
    {
      assert s[k] == row[|row| - 1 - k] && s[k + 1] == row[|row| - 1 - k - 1];
    }
  }

  /** A full line without equal neighbours does not move, in either direction. */
  lemma StuckRow(row: Line, towardsEnd: bool)
    requires forall k :: 0 <= k < |row| ==> row[k] != 0
    requires forall k :: 0 <= k < |row| - 1 ==> row[k] != row[k + 1]
    ensures SlideRow(row, towardsEnd) == row && RowGain(row, towardsEnd) == 0
  {
    if towardsEnd {
      ReverseOfStuckLine(row);
      CompressOfFullLine(Reverse(row));
      MergeOfDistinctNeighbours(Reverse(row));
      ReverseReverse(row);
    } else {
      CompressOfFullLine(row);
      MergeOfDistinctNeighbours(row);
    }
  }

  lemma {:induction false} StuckRowsGain(rows: seq<Line>, towardsEnd: bool)
    requires forall i, k :: 0 <= i < |rows| && 0 <= k < |rows[i]| ==> rows[i][k] != 0
    requires forall i, k :: 0 <= i < |rows| && 0 <= k < |rows[i]| - 1 ==> rows[i][k] != rows[i][k + 1]
    ensures RowsGain(rows, towardsEnd) == 0
  {
    if rows != [] {
      StuckRowsGain(rows[..|rows| - 1], towardsEnd);
      StuckRow(rows[|rows| - 1], towardsEnd);
    }
  }

  /** Sliding rows that are all full and without equal neighbours changes nothing. */
  lemma StuckRows(b: Board, towardsEnd: bool)
    requires IsBoard(b)
    requires forall i, j :: 0 <= i < Size && 0 <= j < Size ==> b[i][j] != 0
    requires forall i, j :: 0 <= i < Size && 0 <= j < Size - 1 ==> b[i][j] != b[i][j + 1]
    ensures SlideRows(b, towardsEnd) == b && RowsGain(b, towardsEnd) == 0
  {
    forall i | 0 <= i < Size
      ensures SlideRow(b[i], towardsEnd) == b[i]
    {
      StuckRow(b[i], towardsEnd);
    }
    StuckRowsGain(b, towardsEnd);
  }

  /** When `check_game_over` holds, no direction changes the board or the score. */
  lemma GameOverBoardCannotMove(b: Board, d: Direction)
    requires IsBoard(b) && CheckGameOver(b)
    ensures Moved(b, d) == b && MoveGain(b, d) == 0
  {
    var t := Transpose(b);
    forall i, j | 0 <= i < Size && 0 <= j < Size
      ensures b[i][j] != 0 && t[i][j] != 0
      ensures j < Size - 1 ==> b[i][j] != b[i][j + 1]
      ensures j < Size - 1 ==> t[i][j] != t[i][j + 1]
    {
      assert CellStuck(b, i, j);
      assert CellStuck(b, j, i);
    }
    match d
    case Left => StuckRows(b, false);
    case Right => StuckRows(b, true);
    case Up =>
      StuckRows(t, false);
      TransposeTranspose(b);
    case Down =>
      StuckRows(t, true);
      TransposeTranspose(b);
  }

  // ---------------------------------------------------------------------
  // invariants of a move: tiles, score, mass

  lemma SlideRowTiles(row: Line, towardsEnd: bool)
    requires AllTiles(row)
    ensures AllTiles(SlideRow(row, towardsEnd)) && RowGain(row, towardsEnd) >= 0
  {
    var s := if towardsEnd then Reverse(row) else row;
    assert AllTiles(s);
    CompressTiles(s);
    CompressTiles(MergePass(Compress(s)));
  }

  lemma {:induction false} RowsGainNonNegative(rows: seq<Line>, towardsEnd: bool)
    requires forall i :: 0 <= i < |rows| ==> AllTiles(rows[i])
    ensures RowsGain(rows, towardsEnd) >= 0
  {
    if rows != [] {
      RowsGainNonNegative(rows[..|rows| - 1], towardsEnd);
      SlideRowTiles(rows[|rows| - 1], towardsEnd);
    }
  }

  lemma SlideRowsTiles(b: Board, towardsEnd: bool)
    requires IsBoard(b)
    ensures BoardTiles(b) ==> BoardTiles(SlideRows(b, towardsEnd)) && RowsGain(b, towardsEnd) >= 0
  {
    if BoardTiles(b) {
      forall i | 0 <= i < Size
        ensures AllTiles(SlideRows(b, towardsEnd)[i])
      {
        assert AllTiles(b[i]);
        SlideRowTiles(b[i], towardsEnd);
      }
      forall i | 0 <= i < Size
        ensures AllTiles(b[i])
      {
      }
      RowsGainNonNegative(b, towardsEnd);
    }
  }

  lemma Sum4(s: Line)
    requires |s| == Size
    ensures Sum(s) == s[0] + s[1] + s[2] + s[3]
  {
    assert s[3..][1..] == [];
    assert Sum(s[3..]) == s[3];
    assert s[2..][1..] == s[3..];
    assert Sum(s[2..]) == s[2] + s[3];
    assert s[1..][1..] == s[2..];
    assert Sum(s[1..]) == s[1] + s[2] + s[3];
  }

  lemma BoardSum4(b: Board)
    requires IsBoard(b)
    ensures BoardSum(b) == Sum(b[0]) + Sum(b[1]) + Sum(b[2]) + Sum(b[3])
  {
    assert b[3..][1..] == [];
    assert BoardSum(b[3..]) == Sum(b[3]);
    assert b[2..][1..] == b[3..];
    assert BoardSum(b[2..]) == Sum(b[2]) + Sum(b[3]);
    assert b[1..][1..] == b[2..];
    assert BoardSum(b[1..]) == Sum(b[1]) + Sum(b[2]) + Sum(b[3]);
  }

  lemma ReverseKeepsSum(s: Line)
    requires |s| == Size
    ensures Sum(Reverse(s)) == Sum(s)
  {
    Sum4(s);
    Sum4(Reverse(s));
  }

  lemma TransposeKeepsSum(b: Board)
    requires IsBoard(b)
    ensures BoardSum(Transpose(b)) == BoardSum(b)
  {
    var t := Transpose(b);
    BoardSum4(b);
    BoardSum4(t);
    Sum4(b[0]); Sum4(b[1]); Sum4(b[2]); Sum4(b[3]);
    Sum4(t[0]); Sum4(t[1]); Sum4(t[2]); Sum4(t[3]);
  }

  lemma SlideRowKeepsSum(row: Line, towardsEnd: bool)
    requires |row| == Size
    ensures Sum(SlideRow(row, towardsEnd)) == Sum(row)
  {
    var s := if towardsEnd then Reverse(row) else row;
    CompressKeepsSum(s);
    MergeKeepsSum(Compress(s));
    CompressKeepsSum(MergePass(Compress(s)));
    if towardsEnd {
      ReverseKeepsSum(row);
      ReverseKeepsSum(SlideLine(s));
    }
  }

  lemma SlideRowsKeepsSum(b: Board, towardsEnd: bool)
    requires IsBoard(b)
    ensures BoardSum(SlideRows(b, towardsEnd)) == BoardSum(b)
  {
    var r := SlideRows(b, towardsEnd);
    BoardSum4(b);
    BoardSum4(r);
    SlideRowKeepsSum(b[0], towardsEnd);
    SlideRowKeepsSum(b[1], towardsEnd);
    SlideRowKeepsSum(b[2], towardsEnd);
    SlideRowKeepsSum(b[3], towardsEnd);
  }

  /** A move conserves the board's mass: merging two tiles into their double
      keeps the sum. */
  lemma MoveKeepsSum(b: Board, d: Direction)
    requires IsBoard(b)
    ensures BoardSum(Moved(b, d)) == BoardSum(b)
  {
    match d
    case Left => SlideRowsKeepsSum(b, false);
    case Right => SlideRowsKeepsSum(b, true);
    case Up =>
      TransposeKeepsSum(b);
      SlideRowsKeepsSum(Transpose(b), false);
      TransposeKeepsSum(SlideRows(Transpose(b), false));
    case Down =>
      TransposeKeepsSum(b);
      SlideRowsKeepsSum(Transpose(b), true);
      TransposeKeepsSum(SlideRows(Transpose(b), true));
  }

  lemma {:induction false} SumUpdate(s: Line, j: nat, v: int)
    requires j < |s|
    ensures Sum(s[j := v]) == Sum(s) - s[j] + v
  {
    if j > 0 {
      assert s[j := v][1..] == s[1..][j - 1 := v];
      SumUpdate(s[1..], j - 1, v);
    }
  }

  /** Setting one cell changes the board's mass by the difference. */
  lemma PlaceSum(b: Board, i: int, j: int, v: int)
    requires IsBoard(b) && 0 <= i < Size && 0 <= j < Size
    ensures BoardSum(Place(b, i, j, v)) == BoardSum(b) - b[i][j] + v
  {
    var r := Place(b, i, j, v);
    BoardSum4(b);
    BoardSum4(r);
    SumUpdate(b[i], j, v);
    assert r[i] == b[i][j := v];
    assert forall k :: 0 <= k < Size && k != i ==> r[k] == b[k];
  }

  /** A spawn adds its value to the board's mass. */
  lemma SpawnAddsValue(b: Board, pick: nat, value: int)
    requires IsBoard(b) && ValidPick(b, pick) && |EmptyCells(b)| > 0
    ensures BoardSum(Spawned(b, pick, value)) == BoardSum(b) + value
  {
    EmptyCellAt(b, pick);
    var c := EmptyCells(b)[pick];
    PlaceSum(b, c.0, c.1, value);
  }

  /** Example: `[2,2,2,0]` moves left to `[4,2,0,0]` for 4 points; the
      third 2 is not merged with the fresh 4. */
  lemma SlideLineExample()
    ensures SlideLine([2, 2, 2, 0]) == [4, 2, 0, 0] && LineGain([2, 2, 2, 0]) == 4
  {
    assert Compress([2, 2, 2, 0]) == [2, 2, 2, 0];
    assert MergePass([2, 2, 2, 0]) == [4, 0, 2, 0];
    assert Compress([4, 0, 2, 0]) == [4, 2, 0, 0];
  }

  /** Compress, merge, compress is not idempotent: `[2,2,4,0]` gives
      `[4,4,0,0]`, which gives `[8,0,0,0]`. */
  lemma SlideLineNotIdempotent()
    ensures SlideLine([2, 2, 4, 0]) == [4, 4, 0, 0]
    ensures SlideLine([4, 4, 0, 0]) == [8, 0, 0, 0]
  {
    assert Compress([2, 2, 4, 0]) == [2, 2, 4, 0];
    assert MergePass([2, 2, 4, 0]) == [4, 0, 4, 0];
    assert Compress([4, 0, 4, 0]) == [4, 4, 0, 0];
    assert Compress([4, 4, 0, 0]) == [4, 4, 0, 0];
    assert MergePass([4, 4, 0, 0]) == [8, 0, 0, 0];
    assert Compress([8, 0, 0, 0]) == [8, 0, 0, 0];
  }

  // ---------------------------------------------------------------------
  // the engine

  class Game2048 {
    var board: Board
    var score: int

    ghost predicate Valid()
      reads this
    {
      IsBoard(board) && BoardTiles(board) && score >= 0
    }

    /** A new game: an empty board with two spawned tiles. `pick1`, `value1`,
        `pick2`, `value2` are the random choices of the two spawns. */
    constructor (pick1: nat, value1: int, pick2: nat, value2: int)
      requires value1 == 2 || value1 == 4
      requires value2 == 2 || value2 == 4
      requires ValidPick(EmptyBoard(), pick1)
      requires ValidPick(Spawned(EmptyBoard(), pick1, value1), pick2)
      ensures Valid() && score == 0
      ensures board == Spawned(Spawned(EmptyBoard(), pick1, value1), pick2, value2)
    {
      board := EmptyBoard();
      score := 0;
      new;
      ResetGame(pick1, value1, pick2, value2);
    }

    /** `reset_game`. */
    method ResetGame(pick1: nat, value1: int, pick2: nat, value2: int)
      requires value1 == 2 || value1 == 4
      requires value2 == 2 || value2 == 4
      requires ValidPick(EmptyBoard(), pick1)
      requires ValidPick(Spawned(EmptyBoard(), pick1, value1), pick2)
      modifies this
      ensures Valid() && score == 0
      ensures board == Spawned(Spawned(EmptyBoard(), pick1, value1), pick2, value2)
    {
      board := EmptyBoard();
      score := 0;
      SpawnTile(pick1, value1);
      SpawnTile(pick2, value2);
    }

    /** `spawn_tile`: the chosen empty cell gets `value` (2 or 4). */
    method SpawnTile(pick: nat, value: int)
      requires IsBoard(board) && BoardTiles(board) && ValidPick(board, pick)
      requires value == 2 || value == 4
      modifies this`board
      ensures IsBoard(board) && BoardTiles(board)
      ensures board == Spawned(old(board), pick, value)
    {
      var cells := EmptyCells(board);
      if |cells| > 0 {
        EmptyCellAt(board, pick);
        var (i, j) := cells[pick];
        assert IsTile(value) by {
          assert IsPowerOfTwo(value / 2);
        }
        PlaceExact(board, i, j, value);
        board := Place(board, i, j, value);
      }
    }

    /** `merge`: one in-place left-to-right pass over a row, adding each
        doubled value to the score. */
    method Merge(row: Line) returns (merged: Line)
      modifies this`score
      ensures merged == MergePass(row)
      ensures score == old(score) + MergeGain(row)
    {
      merged := row;
      var i := 0;
      while i + 1 < |merged|
        invariant |merged| == |row| && 0 <= i <= |row|
        invariant merged[..i] + MergePass(merged[i..]) == MergePass(row)
        invariant score + MergeGain(merged[i..]) == old(score) + MergeGain(row)
      {
        if merged[i] == merged[i + 1] && merged[i] != 0 {
          MergeStepPair(merged, i);
          merged := merged[i := merged[i] * 2][i + 1 := 0];
          score := score + merged[i];
        } else {
          MergeStepKeep(merged, i);
        }
        i := i + 1;
      }
      MergeStepDone(merged, i);
    }

    /** The row loop of `move`: every row slides towards its start, or
        (`towardsEnd`) towards its end by reversing it before and after each
        step. */
    method SlideAll(towardsEnd: bool)
      requires IsBoard(board)
      modifies this`board, this`score
      ensures board == SlideRows(old(board), towardsEnd)
      ensures score == old(score) + RowsGain(old(board), towardsEnd)
    {
      ghost var b0 := board;
      var i := 0;
      while i < Size
        invariant 0 <= i <= Size
        invariant board == SlidPrefix(b0, i, towardsEnd)
        invariant score == old(score) + RowsGain(b0[..i], towardsEnd)
      {
        SlidPrefixStep(b0, i, towardsEnd);
        var row := SlideOne(board[i], towardsEnd);
        board := board[i := row];
        i := i + 1;
      }
      SlidPrefixDone(b0, towardsEnd);
    }

    /** One row of the loop of `move`: compress, merge, compress, with the
        row reversed before and after each step when sliding towards its end. */
    method SlideOne(line: Line, towardsEnd: bool) returns (row: Line)
      modifies this`score
      ensures row == SlideRow(line, towardsEnd)
      ensures score == old(score) + RowGain(line, towardsEnd)
    {
      row := line;
      if towardsEnd {
        row := Reverse(Compress(Reverse(row)));
        var m := Merge(Reverse(row));
        row := Reverse(m);
        row := Reverse(Compress(Reverse(row)));
        ReverseReverse(Compress(Reverse(line)));
        ReverseReverse(m);
      } else {
        row := Compress(row);
        row := Merge(row);
        row := Compress(row);
      }
    }

    /** The four branches of `move(direction)`: rows slide directly, columns
        through the transposed board. */
    method SlideBoard(dir: Direction)
      requires IsBoard(board)
      modifies this`board, this`score
      ensures board == Moved(old(board), dir)
      ensures score == old(score) + MoveGain(old(board), dir)
    {
      match dir {
        case Left =>
          SlideAll(false);
        case Right =>
          SlideAll(true);
        case Up =>
          board := Transpose(board);
          SlideAll(false);
          board := Transpose(board);
        case Down =>
          board := Transpose(board);
          SlideAll(true);
          board := Transpose(board);
      }
    }

    /** `move(direction)`: slide the board; if it changed, spawn a tile
        (`pick`, `value` are the random choices) and report whether the game
        is over. */
    method Move(dir: Direction, pick: nat, value: int) returns (over: bool)
      requires Valid()
      requires value == 2 || value == 4
      requires ValidPick(Moved(board, dir), pick)
      modifies this
      ensures Valid()
      ensures score == old(score) + MoveGain(old(board), dir)
      ensures var moved := Moved(old(board), dir);
        board == (if moved != old(board) then Spawned(moved, pick, value) else moved)
      ensures over == (Moved(old(board), dir) != old(board) && CheckGameOver(board))
    {
      var original := board;
      SlideBoard(dir);
      assert BoardTiles(board) && score >= 0;
      over := SpawnIfChanged(board != original, pick, value);
    }

    /** The end of `move`: only a move that changed the board spawns a tile
        and checks for the end of the game. */
    method SpawnIfChanged(changed: bool, pick: nat, value: int) returns (over: bool)
      requires IsBoard(board) && BoardTiles(board)
      requires value == 2 || value == 4
      requires changed ==> ValidPick(board, pick)
      modifies this`board
      ensures IsBoard(board) && BoardTiles(board)
      ensures board == if changed then Spawned(old(board), pick, value) else old(board)
      ensures over == (changed && CheckGameOver(board))
    {
      over := false;
      if changed {
        SpawnTile(pick, value);
        over := CheckGameOver(board);
      }
    }
  }
}
