/** The noughts-and-crosses engine (`TicTacToeGame` in brackixos.py).

    Two players, X first, take turns writing their mark into an empty cell
    of a 3 by 3 board. A move that completes a row, a column or a diagonal
    of one mark wins; a move that fills the board without a win is a draw;
    either ends the game. */
module TicTacToe {

  /** A cell: empty (the source's '') or a player's mark. */
  datatype Mark = Empty | X | O

  type Board = seq<seq<Mark>>

  predicate IsBoard(b: Board) {
    |b| == 3 && forall i :: 0 <= i < 3 ==> |b[i]| == 3
  }

  function EmptyBoard(): (b: Board)
    ensures IsBoard(b)
    ensures forall i, j :: 0 <= i < 3 && 0 <= j < 3 ==> b[i][j] == Empty
  {
    seq(3, _ => seq(3, _ => Empty))
  }

  /** `'O' if current_player == 'X' else 'X'`. */
  function Other(p: Mark): Mark {
    if p == X then O else X
  }

  /** `b` with `p` written at (row, col). */
  function Put(b: Board, row: nat, col: nat, p: Mark): (r: Board)
    requires IsBoard(b) && row < 3 && col < 3
    ensures IsBoard(r) && r[row][col] == p
    ensures forall i, j :: 0 <= i < 3 && 0 <= j < 3 && (i, j) != (row, col) ==> r[i][j] == b[i][j]
  {
    b[row := b[row][col := p]]
  }

  // ---------------------------------------------------------------------
  // check_winner

  /** The chained test `a == b == c != ''`. */
  predicate Same3(a: Mark, b: Mark, c: Mark) {
    a == b && b == c && c != Empty
  }

  /** The row loop of `check_winner`, from row `i`. */
  predicate RowWinFrom(b: Board, i: nat)
    requires IsBoard(b)
    decreases 3 - i
  {
    i < 3 && (Same3(b[i][0], b[i][1], b[i][2]) || RowWinFrom(b, i + 1))
  }

  /** The column loop of `check_winner`, from column `j`. */
  predicate ColWinFrom(b: Board, j: nat)
    requires IsBoard(b)
    decreases 3 - j
  {
    j < 3 && (Same3(b[0][j], b[1][j], b[2][j]) || ColWinFrom(b, j + 1))
  }

  /** The three cells of line `k` of the eight: rows 0..2, columns 0..2,
      the main diagonal and the anti-diagonal. */
  function Line(b: Board, k: nat): (Mark, Mark, Mark)
    requires IsBoard(b) && k < 8
  {
    if k < 3 then (b[k][0], b[k][1], b[k][2])
    else if k < 6 then (b[0][k - 3], b[1][k - 3], b[2][k - 3])
    else if k == 6 then (b[0][0], b[1][1], b[2][2])
    else (b[0][2], b[1][1], b[2][0])
  }

  /** Player `p` has three in a line. */
  predicate Wins(b: Board, p: Mark)
    requires IsBoard(b)
  {
    exists k :: 0 <= k < 8 && Line(b, k) == (p, p, p)
  }

  /** The tests of `check_winner` succeed exactly when some player holds a
      line. */
  lemma LinesWin(b: Board)
    requires IsBoard(b)
    ensures RowWinFrom(b, 0) || ColWinFrom(b, 0) ||
            Same3(b[0][0], b[1][1], b[2][2]) || Same3(b[0][2], b[1][1], b[2][0])
            <==> Wins(b, X) || Wins(b, O)
  {
    if RowWinFrom(b, 0) || ColWinFrom(b, 0) ||
       Same3(b[0][0], b[1][1], b[2][2]) || Same3(b[0][2], b[1][1], b[2][0]) {
      var k: nat :=
        if Same3(b[0][0], b[0][1], b[0][2]) then 0
        else if Same3(b[1][0], b[1][1], b[1][2]) then 1
        else if Same3(b[2][0], b[2][1], b[2][2]) then 2
        else if Same3(b[0][0], b[1][0], b[2][0]) then 3
        else if Same3(b[0][1], b[1][1], b[2][1]) then 4
        else if Same3(b[0][2], b[1][2], b[2][2]) then 5
        else if Same3(b[0][0], b[1][1], b[2][2]) then 6
        else 7;
      var p := Line(b, k).0;
      assert Line(b, k) == (p, p, p) && p != Empty;
    }
    if Wins(b, X) || Wins(b, O) {
      var p, k :| (p == X || p == O) && 0 <= k < 8 && Line(b, k) == (p, p, p);
      if k < 3 {
        assert RowWinFrom(b, 2) ==> RowWinFrom(b, 0);
        assert RowWinFrom(b, k);
      } else if k < 6 {
        assert ColWinFrom(b, 2) ==> ColWinFrom(b, 0);
        assert ColWinFrom(b, k - 3);
      }
    }
  }

  /** `check_winner`: rows, then columns, then the two diagonals. It
      reports a win exactly when some player holds a line. */
  function CheckWinner(b: Board): (r: bool)
    requires IsBoard(b)
    ensures r <==> Wins(b, X) || Wins(b, O)
  {
    LinesWin(b);
    RowWinFrom(b, 0) || ColWinFrom(b, 0) ||
    Same3(b[0][0], b[1][1], b[2][2]) || Same3(b[0][2], b[1][1], b[2][0])
  }

  /** A line another player holds after `p` is written was held before. */
  lemma LineKept(b: Board, row: nat, col: nat, p: Mark, q: Mark, k: nat)
    requires IsBoard(b) && row < 3 && col < 3 && k < 8 && q != p
    requires Line(Put(b, row, col, p), k) == (q, q, q)
    ensures Line(b, k) == (q, q, q)
  {
  }

  /** Writing `p` into an empty cell of a board without a winner can make
      only `p` a winner. */
  lemma OnlyMoverCanWin(b: Board, row: nat, col: nat, p: Mark)
    requires IsBoard(b) && row < 3 && col < 3 && b[row][col] == Empty
    requires !CheckWinner(b) && p != Empty
    ensures CheckWinner(Put(b, row, col, p)) ==> Wins(Put(b, row, col, p), p)
  {
    var b' := Put(b, row, col, p);
    if CheckWinner(b') && !Wins(b', p) {
      var q := Other(p);
      assert Wins(b', q);
      var k :| 0 <= k < 8 && Line(b', k) == (q, q, q);
      LineKept(b, row, col, p, q, k);
      assert false;
    }
  }

  // ---------------------------------------------------------------------
  // check_draw

  /** The loop of `check_draw` from row `i`: no row holds ''. */
  predicate NoEmptyFrom(b: Board, i: nat)
    requires IsBoard(b)
    decreases 3 - i
  {
    i >= 3 || (Empty !in b[i] && NoEmptyFrom(b, i + 1))
  }

  /** `check_draw`: it holds exactly when every cell is marked. */
  function CheckDraw(b: Board): (r: bool)
    requires IsBoard(b)
    ensures r <==> forall i, j :: 0 <= i < 3 && 0 <= j < 3 ==> b[i][j] != Empty
  {
    assert NoEmptyFrom(b, 0) == (Empty !in b[0] && Empty !in b[1] && Empty !in b[2]);
    NoEmptyFrom(b, 0)
  }

  // ---------------------------------------------------------------------
  // turn counts

  function CountRow(row: seq<Mark>, p: Mark): nat
    requires |row| == 3
  {
    (if row[0] == p then 1 else 0) + (if row[1] == p then 1 else 0) + (if row[2] == p then 1 else 0)
  }

  /** How many cells hold `p`. */
  function Count(b: Board, p: Mark): nat
    requires IsBoard(b)
  {
    CountRow(b[0], p) + CountRow(b[1], p) + CountRow(b[2], p)
  }

  /** Writing `p` into an empty cell adds one `p` and leaves the other
      marks' counts alone. */
  lemma CountPut(b: Board, row: nat, col: nat, p: Mark, q: Mark)
    requires IsBoard(b) && row < 3 && col < 3 && b[row][col] == Empty && p != Empty
    ensures Count(Put(b, row, col, p), q) == Count(b, q) + (if q == p then 1 else 0) - (if q == Empty then 1 else 0)
  {
    var b' := Put(b, row, col, p);
    assert forall i :: 0 <= i < 3 && i != row ==> b'[i] == b[i];
    assert forall j :: 0 <= j < 3 && j != col ==> b'[row][j] == b[row][j];
  }

  /** A line of `p` takes three of `p`'s marks. */
  lemma WinNeedsThree(b: Board, p: Mark)
    requires IsBoard(b) && p != Empty && Wins(b, p)
    ensures Count(b, p) >= 3
  {
    var k :| 0 <= k < 8 && Line(b, k) == (p, p, p);
  }

  /** With fewer than three marks each, nobody has won yet. */
  lemma FewMarksNoWinner(b: Board)
    requires IsBoard(b) && Count(b, X) < 3 && Count(b, O) < 3
    ensures !CheckWinner(b)
  {
    if Wins(b, X) {
      WinNeedsThree(b, X);
    }
    if Wins(b, O) {
      WinNeedsThree(b, O);
    }
  }

  // ---------------------------------------------------------------------
  // the engine

  class TicTacToeGame {
    var board: Board
    var currentPlayer: Mark
    var gameOver: bool

    /** While the game runs nobody has won, the board is not full, and the
        player to move is X exactly when both have moved equally often. */
    ghost predicate Valid()
      reads this
    {
      IsBoard(board) && (currentPlayer == X || currentPlayer == O) &&
      (!gameOver ==>
        !CheckWinner(board) && !CheckDraw(board) &&
        Count(board, X) == Count(board, O) + (if currentPlayer == O then 1 else 0))
    }

    constructor ()
      ensures Valid() && !gameOver
      ensures board == EmptyBoard() && currentPlayer == X
    {
      board := EmptyBoard();
      currentPlayer := X;
      gameOver := false;
      new;
      assert !CheckDraw(board) by {
        assert board[0][0] == Empty;
      }
    }

    /** `make_move(row, col)`: ignored once the game is over or on a marked
        cell; otherwise the mark is written, and the game ends with a win
        for the mover or a draw, or passes to the other player. */
    method MakeMove(row: nat, col: nat)
      requires Valid() && row < 3 && col < 3
      modifies this
      ensures Valid()
      ensures old(gameOver) || old(board)[row][col] != Empty ==> unchanged(this)
      ensures !old(gameOver) && old(board)[row][col] == Empty ==>
        board == Put(old(board), row, col, old(currentPlayer)) &&
        if CheckWinner(board) then
          gameOver && currentPlayer == old(currentPlayer) && Wins(board, currentPlayer)
        else if CheckDraw(board) then
          gameOver && currentPlayer == old(currentPlayer)
        else
          !gameOver && currentPlayer == Other(old(currentPlayer))
    {
      if gameOver || board[row][col] != Empty {
        return;
      }
      ghost var b0 := board;
      board := Put(board, row, col, currentPlayer);
      OnlyMoverCanWin(b0, row, col, currentPlayer);
      CountPut(b0, row, col, currentPlayer, X);
      CountPut(b0, row, col, currentPlayer, O);
      if CheckWinner(board) {
        gameOver := true;
      } else if CheckDraw(board) {
        gameOver := true;
      } else {
        currentPlayer := if currentPlayer == X then O else X;
      }
    }

    /** `reset_game`: an empty board, X to move, the game running again. */
    method ResetGame()
      modifies this
      ensures Valid() && !gameOver
      ensures board == EmptyBoard() && currentPlayer == X
    {
      board := EmptyBoard();
      currentPlayer := X;
      gameOver := false;
      assert !CheckDraw(board) by {
        assert board[0][0] == Empty;
      }
    }
  }

  /** X wins along the top row: X (0,0), O (1,0), X (0,1), O (1,1), X (0,2). */
  method PlayTopRowWin(g: TicTacToeGame)
    requires g.Valid() && !g.gameOver && g.board == EmptyBoard() && g.currentPlayer == X
    modifies g
    ensures g.Valid() && g.gameOver && Wins(g.board, X)
  {
    g.MakeMove(0, 0);
    FewMarksNoWinner(g.board);
    g.MakeMove(1, 0);
    FewMarksNoWinner(g.board);
    g.MakeMove(0, 1);
    FewMarksNoWinner(g.board);
    g.MakeMove(1, 1);
    FewMarksNoWinner(g.board);
    g.MakeMove(0, 2);
    assert Line(g.board, 0) == (X, X, X);
  }

  /** After a won game and a reset, the next click places X's mark. */
  method ReplayAfterReset() returns (placed: bool)
    ensures placed
  {
    var g := new TicTacToeGame();
    PlayTopRowWin(g);
    g.ResetGame();
    g.MakeMove(0, 0);
    placed := g.board[0][0] == X;
  }
}
