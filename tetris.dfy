/** The falling-block engine (`TetrisGame` in brackixos.py).

    The board is 20 rows of 10 cells, row 0 at the top. One active piece, a
    small 0/1 matrix with a colour and an anchor (x, y), falls through it. A
    move is accepted only when the moved piece does not collide; a blocked
    fall stamps the piece into the board, clears the full rows and spawns the
    next piece, and a spawn that collides ends the game. */
module Tetris {

  const Width := 10
  const Height := 20

  /** A board cell: empty (the source's 0) or filled with a piece's colour. */
  datatype Cell = Empty | Filled(colour: string)

  type Row = seq<Cell>
  type Grid = seq<Row>

  /** A shape matrix; a non-zero entry is a filled cell of the piece. */
  type Shape = seq<seq<int>>

  /** The seven pieces I, O, T, S, Z, L, J and their colours. */
  const Shapes: seq<Shape> := [
    [[1, 1, 1, 1]],
    [[1, 1], [1, 1]],
    [[0, 1, 0], [1, 1, 1]],
    [[1, 1, 0], [0, 1, 1]],
    [[0, 1, 1], [1, 1, 0]],
    [[1, 0, 0], [1, 1, 1]],
    [[0, 0, 1], [1, 1, 1]]
  ]

  const Colours: seq<string> :=
    ["#00ffff", "#ffff00", "#ff00ff", "#00ff00", "#ff0000", "#0000ff", "#ffa500"]

  predicate IsGrid(g: Grid) {
    |g| == Height && forall i :: 0 <= i < Height ==> |g[i]| == Width
  }

  function EmptyRow(): Row {
    seq(Width, _ => Empty)
  }

  function EmptyGrid(): (g: Grid)
    ensures IsGrid(g)
    ensures forall i, j :: 0 <= i < Height && 0 <= j < Width ==> g[i][j] == Empty
  {
    seq(Height, _ => EmptyRow())
  }

  /** A rectangular matrix with at least one row and one column. */
  predicate IsShape(s: Shape) {
    |s| > 0 && |s[0]| > 0 && forall r :: 0 <= r < |s| ==> |s[r]| == |s[0]|
  }

  /** Where `spawn_piece` puts a new piece: centred, in row 0. */
  function SpawnX(s: Shape): int
    requires IsShape(s)
  {
    Width / 2 - |s[0]| / 2
  }

  // ---------------------------------------------------------------------
  // check_collision

  /** The test of `check_collision` for one filled cell that lands on board
      column `cx`, row `cy`: the bounds first, and the board is read only for
      a row that is on it (rows above the top are allowed). */
  predicate Blocked(g: Grid, cx: int, cy: int)
    requires IsGrid(g)
  {
    cx < 0 || cx >= Width || cy >= Height || (cy >= 0 && g[cy][cx] != Empty)
  }

  /** The column loop of `check_collision` over one shape row, from column `c`. */
  function RowCollides(g: Grid, row: seq<int>, x: int, cy: int, c: nat): bool
    requires IsGrid(g)
    decreases |row| - c
  {
    if c >= |row| then false
    else (row[c] != 0 && Blocked(g, x + c, cy)) || RowCollides(g, row, x, cy, c + 1)
  }

  /** The row loop of `check_collision`, from shape row `r`. */
  function CollidesFrom(g: Grid, s: Shape, x: int, y: int, r: nat): bool
    requires IsGrid(g)
    decreases |s| - r
  {
    if r >= |s| then false
    else RowCollides(g, s[r], x, y + r, 0) || CollidesFrom(g, s, x, y, r + 1)
  }

  /** The piece at (x, y) is legal: every filled cell is in columns 0..9,
      above row 20, and either above the board or on an empty board cell. */
  predicate Fits(g: Grid, s: Shape, x: int, y: int)
    requires IsGrid(g)
  {
    forall r, c :: 0 <= r < |s| && 0 <= c < |s[r]| && s[r][c] != 0 ==>
      0 <= x + c < Width && y + r < Height && (y + r < 0 || g[y + r][x + c] == Empty)
  }

  lemma {:induction false} RowCollidesExact(g: Grid, row: seq<int>, x: int, cy: int, c: nat)
    requires IsGrid(g)
    ensures RowCollides(g, row, x, cy, c) <==>
      exists c' :: c <= c' < |row| && row[c'] != 0 && Blocked(g, x + c', cy)
    decreases |row| - c
  {
    if c < |row| {
      RowCollidesExact(g, row, x, cy, c + 1);
    }
  }

  lemma {:induction false} CollidesFromExact(g: Grid, s: Shape, x: int, y: int, r: nat)
    requires IsGrid(g)
    ensures CollidesFrom(g, s, x, y, r) <==>
      exists r', c :: r <= r' < |s| && 0 <= c < |s[r']| && s[r'][c] != 0 && Blocked(g, x + c, y + r')
    decreases |s| - r
  {
    if r < |s| {
      CollidesFromExact(g, s, x, y, r + 1);
      RowCollidesExact(g, s[r], x, y + r, 0);
    }
  }

  /** `check_collision(shape, x, y)`: it reports a collision exactly when the
      piece does not fit. */
  function Collides(g: Grid, s: Shape, x: int, y: int): (b: bool)
    requires IsGrid(g)
    ensures b <==> !Fits(g, s, x, y)
  {
    CollidesFromExact(g, s, x, y, 0);
    CollidesFrom(g, s, x, y, 0)
  }

  /** Every piece fits at its spawn position on an empty board. */
  lemma SpawnFitsEmptyGrid(k: nat)
    requires k < |Shapes|
    ensures IsShape(Shapes[k]) && Fits(EmptyGrid(), Shapes[k], SpawnX(Shapes[k]), 0)
  {
    var s := Shapes[k];
    assert IsShape(s) && |s| <= 2 && |s[0]| <= 4;
  }

  // ---------------------------------------------------------------------
  // rotate

  /** The matrix of `rotate`: a clockwise quarter turn,
      `rotated[c][k] == shape[h - 1 - k][c]` for a shape of height h. */
  function Rotated(s: Shape): (t: Shape)
    requires IsShape(s)
    ensures IsShape(t) && |t| == |s[0]| && |t[0]| == |s|
  {
    seq(|s[0]|, c requires 0 <= c < |s[0]| =>
      seq(|s|, k requires 0 <= k < |s| => s[|s| - 1 - k][c]))
  }

  /** Two quarter turns are a half turn. */
  lemma RotatedTwice(s: Shape)
    requires IsShape(s)
    ensures |Rotated(Rotated(s))| == |s| && |Rotated(Rotated(s))[0]| == |s[0]|
    ensures forall i, j :: 0 <= i < |s| && 0 <= j < |s[0]| ==>
      Rotated(Rotated(s))[i][j] == s[|s| - 1 - i][|s[0]| - 1 - j]
  {
  }

  /** Cell (r, c) of a shape lands in row c, column h - 1 - r of the rotated
      shape of height h: the turn is clockwise. */
  lemma RotatedClockwise(s: Shape)
    requires IsShape(s)
    ensures forall r, c :: 0 <= r < |s| && 0 <= c < |s[0]| ==>
      Rotated(s)[c][|s| - 1 - r] == s[r][c]
  {
    forall r, c | 0 <= r < |s| && 0 <= c < |s[0]|
      ensures Rotated(s)[c][|s| - 1 - r] == s[r][c]
    {
      assert |s| - 1 - (|s| - 1 - r) == r;
    }
  }

  /** The L piece turned once: its bottom row becomes the left column and
      its top-left cell the top-right one, where a transpose would put the
      filled column on the right. */
  lemma RotatedL()
    ensures Rotated(Shapes[5]) == [[1, 1], [1, 0], [1, 0]]
  {
    var t := Rotated(Shapes[5]);
    assert t[0] == [1, 1] && t[1] == [1, 0] && t[2] == [1, 0];
  }

  /** Four quarter turns give the shape back. */
  lemma RotatedFourTimes(s: Shape)
    requires IsShape(s)
    ensures Rotated(Rotated(Rotated(Rotated(s)))) == s
  {
    var h := Rotated(Rotated(s));
    RotatedTwice(s);
    RotatedTwice(h);
    var f := Rotated(Rotated(h));
    assert |f| == |s|;
    forall i | 0 <= i < |s|
      ensures f[i] == s[i]
    {
      assert |f[i]| == |s[i]|;
      forall j | 0 <= j < |s[i]|
        ensures f[i][j] == s[i][j]
      {
        assert f[i][j] == h[|s| - 1 - i][|s[0]| - 1 - j];
      }
    }
  }

  // ---------------------------------------------------------------------
  // merge_piece

  /** Shape cell (r, c) exists and is filled. */
  predicate InPiece(s: Shape, r: int, c: int) {
    0 <= r < |s| && 0 <= c < |s[r]| && s[r][c] != 0
  }

  /** The board after `merge_piece`: the piece's colour on its filled cells. */
  function Stamped(g: Grid, s: Shape, x: int, y: int, colour: string): (h: Grid)
    requires IsGrid(g)
    ensures IsGrid(h)
  {
    seq(Height, i requires 0 <= i < Height =>
      seq(Width, j requires 0 <= j < Width =>
        if InPiece(s, i - y, j - x) then Filled(colour) else g[i][j]))
  }

  /** `g` with cell (i, j) set to `cell`. */
  function Paint(g: Grid, i: int, j: int, cell: Cell): (h: Grid)
    requires IsGrid(g) && 0 <= i < Height && 0 <= j < Width
    ensures IsGrid(h)
  {
    g[i := g[i][j := cell]]
  }

  /** Painting changes cell (i, j) to `cell` and no other cell. */
  lemma PaintExact(g: Grid, i: int, j: int, cell: Cell)
    requires IsGrid(g) && 0 <= i < Height && 0 <= j < Width
    ensures Paint(g, i, j, cell)[i][j] == cell
    ensures forall i', j' :: 0 <= i' < Height && 0 <= j' < Width && (i', j') != (i, j) ==>
      Paint(g, i, j, cell)[i'][j'] == g[i'][j']
  {
  }

  /** Shape cell (r, c) comes before (r', c') in the row-major order of the
      loops of `merge_piece`. */
  predicate Before(r: int, c: int, r': int, c': int) {
    r < r' || (r == r' && c < c')
  }

  /** `g` is `g0` with the piece's cells before shape cell (r, c) painted. */
  predicate StampedBefore(g: Grid, g0: Grid, s: Shape, x: int, y: int, colour: string, r: int, c: int)
    requires IsGrid(g) && IsGrid(g0)
  {
    forall i, j :: 0 <= i < Height && 0 <= j < Width ==>
      g[i][j] == if InPiece(s, i - y, j - x) && Before(i - y, j - x, r, c) then Filled(colour) else g0[i][j]
  }

  /** The state of the loops of `merge_piece` at shape cell (r, c). */
  predicate StampState(g: Grid, g0: Grid, s: Shape, x: int, y: int, colour: string, r: int, c: int) {
    IsGrid(g) && IsGrid(g0) && IsShape(s) && y >= 0 && Fits(g0, s, x, y) &&
    0 <= r <= |s| && (r < |s| ==> 0 <= c <= |s[r]|) &&
    StampedBefore(g, g0, s, x, y, colour, r, c)
  }

  /** One step of the column loop of `merge_piece`. */
  lemma StampStep(g: Grid, g0: Grid, s: Shape, x: int, y: int, colour: string, r: nat, c: nat)
    requires StampState(g, g0, s, x, y, colour, r, c) && r < |s| && c < |s[r]|
    ensures s[r][c] != 0 ==>
      (0 <= y + r < Height && 0 <= x + c < Width &&
       StampState(Paint(g, y + r, x + c, Filled(colour)), g0, s, x, y, colour, r, c + 1))
    ensures s[r][c] == 0 ==> StampState(g, g0, s, x, y, colour, r, c + 1)
  {
    if s[r][c] != 0 {
      PaintExact(g, y + r, x + c, Filled(colour));
    }
  }

  /** The end of one shape row is the start of the next. */
  lemma StampRowDone(g: Grid, g0: Grid, s: Shape, x: int, y: int, colour: string, r: nat)
    requires r < |s| && StampState(g, g0, s, x, y, colour, r, |s[r]|)
    ensures StampState(g, g0, s, x, y, colour, r + 1, 0)
  {
  }

  /** After the last shape row the board is the stamped board. */
  lemma StampDone(g: Grid, g0: Grid, s: Shape, x: int, y: int, colour: string)
    requires StampState(g, g0, s, x, y, colour, |s|, 0)
    ensures g == Stamped(g0, s, x, y, colour)
  {
    var want := Stamped(g0, s, x, y, colour);
    forall i | 0 <= i < Height
      ensures g[i] == want[i]
    {
      assert |g[i]| == |want[i]|;
    }
  }

  // ---------------------------------------------------------------------
  // clear_lines

  /** `all(row)`: every cell is filled. */
  predicate Full(row: Row) {
    forall j :: 0 <= j < |row| ==> row[j] != Empty
  }

  function CountFull(rows: Grid): nat {
    if rows == [] then 0 else (if Full(rows[0]) then 1 else 0) + CountFull(rows[1..])
  }

  /** The rows that are not full, in their order. */
  function NonFullRows(rows: Grid): Grid {
    if rows == [] then [] else (if Full(rows[0]) then [] else [rows[0]]) + NonFullRows(rows[1..])
  }

  function EmptyRows(n: nat): Grid {
    seq(n, _ => EmptyRow())
  }


  /** Every row is either kept or counted as full. */
  lemma {:induction false} NonFullRowsLength(rows: Grid)
    ensures |NonFullRows(rows)| + CountFull(rows) == |rows|
  {
    if rows != [] {
      NonFullRowsLength(rows[1..]);
    }
  }

  /** Every kept row is a non-full row of the input. */
  lemma {:induction false} NonFullRowsKept(rows: Grid)
    ensures forall k :: 0 <= k < |NonFullRows(rows)| ==>
      !Full(NonFullRows(rows)[k]) && NonFullRows(rows)[k] in rows
  {
    if rows != [] {
      NonFullRowsKept(rows[1..]);
      var rest := NonFullRows(rows[1..]);
      var head := if Full(rows[0]) then [] else [rows[0]];
      assert NonFullRows(rows) == head + rest;
      forall k | 0 <= k < |NonFullRows(rows)|
        ensures !Full(NonFullRows(rows)[k]) && NonFullRows(rows)[k] in rows
      {
        if k >= |head| {
          assert NonFullRows(rows)[k] == rest[k - |head|];
          assert rest[k - |head|] in rows[1..];
        }
      }
    }
  }

  /** The board after `clear_lines`: the full rows removed, and as many empty
      rows added on top. It has as many rows as before, none of them full,
      and each is an empty row or a row of the old board. */
  function Cleared(g: Grid): (h: Grid)
    ensures |h| == |g|
    ensures forall i :: 0 <= i < |h| ==> !Full(h[i]) && (h[i] == EmptyRow() || h[i] in g)
  {
    NonFullRowsLength(g);
    NonFullRowsKept(g);
    assert !Full(EmptyRow()) by {
      assert EmptyRow()[0] == Empty;
    }
    EmptyRows(CountFull(g)) + NonFullRows(g)
  }

  /** After `clear_lines` the board still has 20 rows of 10 cells, no row is
      full, and the rows added on top are empty. */
  lemma ClearedShape(g: Grid)
    requires IsGrid(g)
    ensures IsGrid(Cleared(g))
    ensures forall i :: 0 <= i < Height ==> !Full(Cleared(g)[i])
    ensures forall i :: 0 <= i < CountFull(g) ==> Cleared(g)[i] == EmptyRow()
    ensures Cleared(g)[CountFull(g)..] == NonFullRows(g)
  {
    NonFullRowsLength(g);
    NonFullRowsKept(g);
    var n := CountFull(g);
    var c := Cleared(g);
    forall i | 0 <= i < Height
      ensures |c[i]| == Width && !Full(c[i])
    {
      if i < n {
        assert c[i] == EmptyRow();
        assert c[i][0] == Empty;
      } else {
        assert c[i] == NonFullRows(g)[i - n];
      }
    }
  }

  lemma ClearedIsGrid(g: Grid)
    requires IsGrid(g)
    ensures IsGrid(Cleared(g))
  {
    ClearedShape(g);
  }

  /** A multiple of 100 plus 100 per cleared row is a multiple of 100. */
  lemma HundredsStep(score: int, lines: nat)
    requires score % 100 == 0
    ensures (score + 100 * lines) % 100 == 0
  {
    assert score + 100 * lines == 100 * (score / 100 + lines);
  }

  /** A board without a full row is left alone by `clear_lines`. */
  lemma ClearedNoFullRow(g: Grid)
    requires CountFull(g) == 0
    ensures Cleared(g) == g
  {
    NonFullRowsIdentity(g);
    assert EmptyRows(0) == [];
  }

  lemma {:induction false} NonFullRowsIdentity(rows: Grid)
    requires CountFull(rows) == 0
    ensures NonFullRows(rows) == rows
  {
    if rows != [] {
      NonFullRowsIdentity(rows[1..]);
    }
  }

  /** One step of the bottom-up scan of `clear_lines` over `rows[t - 1..]`. */
  lemma ScanStep(rows: Grid, t: nat)
    requires 0 < t <= |rows|
    ensures NonFullRows(rows[t - 1..]) ==
      (if Full(rows[t - 1]) then [] else [rows[t - 1]]) + NonFullRows(rows[t..])
    ensures CountFull(rows[t - 1..]) == (if Full(rows[t - 1]) then 1 else 0) + CountFull(rows[t..])
  {
    assert rows[t - 1..][1..] == rows[t..];
  }

  /** The board during the scan of `clear_lines`: `cleared` empty rows on
      top, the unscanned rows `rows[..t]`, then the kept rows of `rows[t..]`. */
  function Scanning(rows: Grid, cleared: nat, t: nat): Grid
    requires t <= |rows|
  {
    EmptyRows(cleared) + rows[..t] + NonFullRows(rows[t..])
  }

  /** The scan meets a full row: deleting it and inserting an empty row on
      top moves the scan one row up the input. */
  lemma ScanFull(rows: Grid, cleared: nat, t: nat)
    requires 0 < t <= |rows| && Full(rows[t - 1])
    ensures |Scanning(rows, cleared, t)| > cleared + t - 1
    ensures Scanning(rows, cleared, t)[cleared + t - 1] == rows[t - 1]
    ensures var g := Scanning(rows, cleared, t);
      [EmptyRow()] + g[..cleared + t - 1] + g[cleared + t..] == Scanning(rows, cleared + 1, t - 1)
    ensures CountFull(rows[t - 1..]) == 1 + CountFull(rows[t..])
  {
    ScanStep(rows, t);
    var g := Scanning(rows, cleared, t);
    var k := cleared + t - 1;
    assert g[..k] == EmptyRows(cleared) + rows[..t - 1];
    assert g[k + 1..] == NonFullRows(rows[t..]);
    assert [EmptyRow()] + EmptyRows(cleared) == EmptyRows(cleared + 1);
  }

  /** The scan meets a row that is not full: the row stays and the scan
      moves one row up. */
  lemma ScanKeep(rows: Grid, cleared: nat, t: nat)
    requires 0 < t <= |rows| && !Full(rows[t - 1])
    ensures |Scanning(rows, cleared, t)| > cleared + t - 1
    ensures Scanning(rows, cleared, t)[cleared + t - 1] == rows[t - 1]
    ensures Scanning(rows, cleared, t) == Scanning(rows, cleared, t - 1)
    ensures CountFull(rows[t - 1..]) == CountFull(rows[t..])
  {
    ScanStep(rows, t);
    assert rows[..t] == rows[..t - 1] + [rows[t - 1]];
  }

  /** Once every input row is scanned, the rows above the kept ones are empty. */
  lemma ScanTop(rows: Grid, cleared: nat, row: nat)
    requires row < cleared
    ensures |Scanning(rows, cleared, 0)| > row
    ensures Scanning(rows, cleared, 0)[row] == EmptyRow() && !Full(EmptyRow())
  {
    assert EmptyRow()[0] == Empty;
  }

  /** The state of the loop of `clear_lines` at board row `row`: `board` is
      the scan of `rows` with `rows[..t]` still to go, `cleared` counts the
      full rows of `rows[t..]`, and the scan position is just above the
      rows already inserted or kept. */
  predicate ScanState(rows: Grid, board: Grid, cleared: nat, row: int, t: nat) {
    t <= |rows| && -1 <= row < |rows| &&
    board == Scanning(rows, cleared, t) && cleared == CountFull(rows[t..]) &&
    (t > 0 ==> row + 1 == cleared + t) && (t == 0 ==> row + 1 <= cleared)
  }

  /** One step of the loop of `clear_lines`: deleting a full row and
      inserting an empty row on top, or moving up a row. */
  lemma ScanLoopStep(rows: Grid, board: Grid, cleared: nat, row: int, t: nat)
    requires ScanState(rows, board, cleared, row, t) && row >= 0
    ensures row < |board|
    ensures Full(board[row]) ==>
      (t > 0 && ScanState(rows, [EmptyRow()] + board[..row] + board[row + 1..], cleared + 1, row, t - 1))
    ensures !Full(board[row]) ==>
      ScanState(rows, board, cleared, row - 1, if t > 0 then t - 1 else 0)
  {
    if t > 0 {
      if Full(rows[t - 1]) {
        ScanFull(rows, cleared, t);
      } else {
        ScanKeep(rows, cleared, t);
      }
    } else {
      ScanTop(rows, cleared, row);
    }
  }

  /** The loop of `clear_lines` ends with the cleared board. */
  lemma ScanLoopDone(rows: Grid, board: Grid, cleared: nat, row: int, t: nat)
    requires ScanState(rows, board, cleared, row, t) && row < 0
    ensures board == Cleared(rows) && cleared == CountFull(rows)
  {
    assert rows[..0] == [] && rows[0..] == rows;
  }

  // ---------------------------------------------------------------------
  // the engine

  class TetrisGame {
    var board: Grid
    var score: int
    var gameOver: bool
    var shape: Shape
    var colour: string
    var x: int
    var y: int

    /** While the game runs, the active piece fits on the board. */
    ghost predicate Valid()
      reads this
    {
      IsGrid(board) && IsShape(shape) && y >= 0 &&
      score >= 0 && score % 100 == 0 &&
      (!gameOver ==> Fits(board, shape, x, y))
    }

    /** A new game; `idx` is the random shape index of the first piece. */
    constructor (idx: nat)
      requires idx < |Shapes|
      ensures Valid() && !gameOver
      ensures board == EmptyGrid() && score == 0
      ensures shape == Shapes[idx] && colour == Colours[idx] && x == SpawnX(Shapes[idx]) && y == 0
    {
      board := EmptyGrid();
      score := 0;
      gameOver := false;
      shape := Shapes[idx];
      colour := Colours[idx];
      x, y := 0, 0;
      new;
      SpawnPiece(idx);
      SpawnFitsEmptyGrid(idx);
    }

    /** `spawn_piece`: the piece with index `idx` at its spawn position; the
        game is over if it collides there. */
    method SpawnPiece(idx: nat)
      requires IsGrid(board) && idx < |Shapes|
      modifies this`shape, this`colour, this`x, this`y, this`gameOver
      ensures shape == Shapes[idx] && colour == Colours[idx]
      ensures x == SpawnX(Shapes[idx]) && y == 0
      ensures gameOver == (old(gameOver) || !Fits(board, shape, x, y))
    {
      SpawnFitsEmptyGrid(idx);
      shape := Shapes[idx];
      colour := Colours[idx];
      x := Width / 2 - |shape[0]| / 2;
      y := 0;
      if Collides(board, shape, x, y) {
        gameOver := true;
      }
    }

    /** `merge_piece`: write the piece's colour into the board cells it covers. */
    method MergePiece()
      requires IsGrid(board) && IsShape(shape) && y >= 0 && Fits(board, shape, x, y)
      modifies this`board
      ensures board == Stamped(old(board), shape, x, y, colour)
    {
      ghost var b0 := board;
      var r := 0;
      while r < |shape|
        invariant StampState(board, b0, shape, x, y, colour, r, 0)
      {
        var c := 0;
        while c < |shape[r]|
          invariant r < |shape| && StampState(board, b0, shape, x, y, colour, r, c)
        {
          StampStep(board, b0, shape, x, y, colour, r, c);
          if shape[r][c] != 0 {
            board := Paint(board, y + r, x + c, Filled(colour));
          }
          c := c + 1;
        }
        StampRowDone(board, b0, shape, x, y, colour, r);
        r := r + 1;
      }
      StampDone(board, b0, shape, x, y, colour);
    }

    /** `clear_lines`: scanning up from the bottom row, a full row is deleted
        and an empty row inserted on top, and the scan stays at the same row;
        the score grows by 100 per cleared row. */
    method ClearLines()
      requires IsGrid(board)
      modifies this`board, this`score
      ensures board == Cleared(old(board))
      ensures score == old(score) + 100 * CountFull(old(board))
    {
      ghost var b0 := board;
      // rows b0[..t] are still to be scanned; b0[t..] are done
      ghost var t: nat := Height;
      var linesCleared := 0;
      var row := Height - 1;
      assert b0[..Height] == b0 && b0[Height..] == [];
      while row >= 0
        invariant ScanState(b0, board, linesCleared, row, t) && score == old(score)
        decreases row + 1 + t
      {
        ScanLoopStep(b0, board, linesCleared, row, t);
        if Full(board[row]) {
          board := [EmptyRow()] + board[..row] + board[row + 1..];
          linesCleared := linesCleared + 1;
          t := t - 1;
        } else {
          row := row - 1;
          if t > 0 {
            t := t - 1;
          }
        }
      }
      ScanLoopDone(b0, board, linesCleared, row, t);
      if linesCleared > 0 {
        score := score + linesCleared * 100;
      }
    }

    /** `move_left`: accepted only while the game runs and the shifted piece fits. */
    method MoveLeft()
      requires Valid()
      modifies this`x
      ensures Valid()
      ensures x == if !gameOver && Fits(board, shape, old(x) - 1, y) then old(x) - 1 else old(x)
    {
      if !gameOver && !Collides(board, shape, x - 1, y) {
        x := x - 1;
      }
    }

    /** `move_right`: accepted only while the game runs and the shifted piece fits. */
    method MoveRight()
      requires Valid()
      modifies this`x
      ensures Valid()
      ensures x == if !gameOver && Fits(board, shape, old(x) + 1, y) then old(x) + 1 else old(x)
    {
      if !gameOver && !Collides(board, shape, x + 1, y) {
        x := x + 1;
      }
    }

    /** `move_down` (also the timer's `game_loop`): fall one row if the piece
        fits there; otherwise lock it into the board, clear lines and spawn
        the piece with index `idx`. */
    method MoveDown(idx: nat)
      requires Valid() && idx < |Shapes|
      modifies this
      ensures Valid()
      ensures old(gameOver) ==> unchanged(this)
      ensures !old(gameOver) && Fits(old(board), old(shape), old(x), old(y) + 1) ==>
        y == old(y) + 1 && board == old(board) && score == old(score) && !gameOver &&
        shape == old(shape) && colour == old(colour) && x == old(x)
      ensures !old(gameOver) && !Fits(old(board), old(shape), old(x), old(y) + 1) ==>
        var stamped := Stamped(old(board), old(shape), old(x), old(y), old(colour));
        board == Cleared(stamped) && score == old(score) + 100 * CountFull(stamped) &&
        shape == Shapes[idx] && colour == Colours[idx] && x == SpawnX(Shapes[idx]) && y == 0 &&
        gameOver == !Fits(board, shape, x, y)
    {
      if !gameOver {
        if !Collides(board, shape, x, y + 1) {
          y := y + 1;
        } else {
          LockPiece(idx);
        }
      }
    }

    /** The blocked branch of `move_down`: `merge_piece`, `clear_lines`,
        `spawn_piece`. */
    method LockPiece(idx: nat)
      requires Valid() && !gameOver && idx < |Shapes|
      modifies this
      ensures Valid()
      ensures var stamped := Stamped(old(board), old(shape), old(x), old(y), old(colour));
        board == Cleared(stamped) && score == old(score) + 100 * CountFull(stamped) &&
        shape == Shapes[idx] && colour == Colours[idx] && x == SpawnX(Shapes[idx]) && y == 0 &&
        gameOver == !Fits(board, shape, x, y)
    {
      MergePiece();
      ghost var lines := CountFull(board);
      ClearedIsGrid(board);
      ClearLines();
      HundredsStep(old(score), lines);
      SpawnPiece(idx);
    }

    /** `rotate`: a clockwise quarter turn in place, rejected (no wall kick)
        when the turned piece does not fit. */
    method Rotate()
      requires Valid()
      modifies this`shape
      ensures Valid()
      ensures shape == if !gameOver && Fits(board, Rotated(old(shape)), x, y)
                       then Rotated(old(shape)) else old(shape)
    {
      if !gameOver {
        var rotated := Rotated(shape);
        if !Collides(board, rotated, x, y) {
          shape := rotated;
        }
      }
    }

    /** `reset_game`: an empty board, score 0, and a new piece `idx`. */
    method ResetGame(idx: nat)
      requires idx < |Shapes|
      modifies this
      ensures Valid() && !gameOver
      ensures board == EmptyGrid() && score == 0
      ensures shape == Shapes[idx] && colour == Colours[idx] && x == SpawnX(Shapes[idx]) && y == 0
    {
      board := EmptyGrid();
      score := 0;
      gameOver := false;
      SpawnPiece(idx);
      SpawnFitsEmptyGrid(idx);
    }
  }
}
