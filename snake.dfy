/** The snake engine (`SnakeGame` in brackixos.py).

    The grid is 20 by 20 cells, addressed (row, column). The snake is a list
    of cells, head first; every tick moves the head one cell in the current
    direction. A head that leaves the grid or lands on any cell of the body
    (the tail included) ends the game; a head on the food grows the snake by
    one cell and scores 10, and new food is spawned. */
module Snake {

  const GridSize := 20

  /** A cell or a direction, as the source's (row, column) tuples. */
  type Cell = (int, int)

  const StartBody: seq<Cell> := [(10, 10), (10, 11), (10, 12)]

  /** The four directions of the arrow buttons. */
  const Up: Cell := (-1, 0)
  const Left: Cell := (0, -1)
  const Right: Cell := (0, 1)
  const Down: Cell := (1, 0)

  const StartDirection: Cell := Up

  predicate IsDirection(d: Cell) {
    d == Up || d == Left || d == Right || d == Down
  }

  predicate InGrid(c: Cell) {
    0 <= c.0 < GridSize && 0 <= c.1 < GridSize
  }

  predicate AllInGrid(s: seq<Cell>) {
    forall i :: 0 <= i < |s| ==> InGrid(s[i])
  }

  /** No cell occurs twice. */
  predicate Distinct(s: seq<Cell>) {
    forall i, j :: 0 <= i < j < |s| ==> s[i] != s[j]
  }

  /** Two cells share a side. */
  predicate Adjacent(a: Cell, b: Cell) {
    (a.0 == b.0 && (a.1 - b.1 == 1 || b.1 - a.1 == 1)) ||
    (a.1 == b.1 && (a.0 - b.0 == 1 || b.0 - a.0 == 1))
  }

  /** Each cell of the body shares a side with the next one. */
  predicate Connected(s: seq<Cell>) {
    forall i :: 0 <= i < |s| - 1 ==> Adjacent(s[i], s[i + 1])
  }

  /** The reverse of a direction, as `change_direction` computes it: the
      reverse of a button direction is another button direction. */
  function Opposite(d: Cell): (r: Cell)
    ensures IsDirection(d) <==> IsDirection(r)
    ensures IsDirection(d) ==> r != d
  {
    (d.0 * -1, d.1 * -1)
  }

  /** Reversing twice gives the direction back. */
  lemma OppositeInvolutive(d: Cell)
    ensures Opposite(Opposite(d)) == d
  {
  }

  /** The buttons pair up as up and down, left and right. */
  lemma ButtonOpposites()
    ensures Opposite(Up) == Down && Opposite(Down) == Up
    ensures Opposite(Left) == Right && Opposite(Right) == Left
  {
  }

  /** The head one tick later: a step in a button direction reaches a
      neighbouring cell. */
  function NextHead(head: Cell, dir: Cell): (r: Cell)
    ensures IsDirection(dir) ==> Adjacent(head, r)
    ensures IsDirection(dir) ==> r != head
  {
    (head.0 + dir.0, head.1 + dir.1)
  }

  // ---------------------------------------------------------------------
  // spawn_food

  /** Some random draw is a cell off the body, so the sampling loop ends. */
  predicate HasFreeDraw(draws: seq<Cell>, body: seq<Cell>) {
    exists k :: 0 <= k < |draws| && draws[k] !in body
  }

  /** The draws of `spawn_food` are `random.randint(0, 19)` pairs. */
  predicate FoodDraws(draws: seq<Cell>, body: seq<Cell>) {
    AllInGrid(draws) && HasFreeDraw(draws, body)
  }

  lemma FreeDrawLater(draws: seq<Cell>, body: seq<Cell>)
    requires HasFreeDraw(draws, body) && draws[0] in body
    ensures HasFreeDraw(draws[1..], body)
  {
    var k :| 0 <= k < |draws| && draws[k] !in body;
    assert draws[1..][k - 1] == draws[k];
  }

  /** The cell `spawn_food` returns: the first draw that is off the body. */
  function FirstFree(draws: seq<Cell>, body: seq<Cell>): (food: Cell)
    requires HasFreeDraw(draws, body)
    ensures food in draws && food !in body
    decreases |draws|
  {
    if draws[0] !in body then draws[0]
    else
      FreeDrawLater(draws, body);
      FirstFree(draws[1..], body)
  }

  // ---------------------------------------------------------------------
  // the engine

  class SnakeGame {
    var snake: seq<Cell>
    var direction: Cell
    var food: Cell
    var score: int
    var gameOver: bool

    /** The body is at least three distinct cells on the grid, each next to
        the one before, the direction is a button direction, the food is on a
        free cell, and the score is 10 per cell grown. */
    ghost predicate Valid()
      reads this
    {
      |snake| >= 3 && AllInGrid(snake) && Distinct(snake) && Connected(snake) &&
      IsDirection(direction) &&
      InGrid(food) && food !in snake &&
      score == 10 * (|snake| - 3)
    }

    /** A new game; `draws` is the stream of random cells for the first food. */
    constructor (draws: seq<Cell>)
      requires FoodDraws(draws, StartBody)
      ensures Valid() && !gameOver
      ensures snake == StartBody && direction == StartDirection && score == 0
      ensures food == FirstFree(draws, StartBody)
    {
      snake := StartBody;
      direction := StartDirection;
      new;
      food := SpawnFood(draws);
      score := 0;
      gameOver := false;
    }

    /** `spawn_food`: draw cells until one is off the snake. */
    method SpawnFood(draws: seq<Cell>) returns (cell: Cell)
      requires FoodDraws(draws, snake)
      ensures cell == FirstFree(draws, snake)
      ensures InGrid(cell) && cell !in snake
    {
      var k := 0;
      while true
        invariant 0 <= k <= |draws|
        invariant HasFreeDraw(draws[k..], snake)
        invariant FirstFree(draws[k..], snake) == FirstFree(draws, snake)
        decreases |draws| - k
      {
        cell := draws[k];
        if cell !in snake {
          return;
        }
        FreeDrawLater(draws[k..], snake);
        assert draws[k..][1..] == draws[k + 1..];
        k := k + 1;
      }
    }

    /** `change_direction`: any direction but the exact reverse of the
        current one is taken at once. Only the four buttons call it. */
    method ChangeDirection(newDir: Cell)
      requires Valid() && IsDirection(newDir)
      modifies this`direction
      ensures Valid()
      ensures direction == if Opposite(newDir) != old(direction) then newDir else old(direction)
      ensures direction != Opposite(old(direction))
    {
      if Opposite(newDir) != direction {
        direction := newDir;
      }
    }

    /** The tick `game_loop` is about to eat the food. */
    ghost predicate Eats()
      reads this
    {
      |snake| > 0 && NextHead(snake[0], direction) == food
    }

    /** `game_loop`: one tick. `draws` feeds `spawn_food` when the food is
        eaten. */
    method GameLoop(draws: seq<Cell>)
      requires Valid()
      requires !gameOver && Eats() ==> FoodDraws(draws, [food] + snake)
      modifies this
      ensures Valid()
      ensures old(gameOver) ==> unchanged(this)
      ensures direction == old(direction)
      ensures !old(gameOver) ==>
        var head := NextHead(old(snake)[0], old(direction));
        if !InGrid(head) || head in old(snake) then
          gameOver && snake == old(snake) && score == old(score) && food == old(food)
        else if head == old(food) then
          !gameOver && snake == [head] + old(snake) && score == old(score) + 10 &&
          food == FirstFree(draws, snake)
        else
          !gameOver && snake == [head] + old(snake)[..|old(snake)| - 1] &&
          score == old(score) && food == old(food)
    {
      if gameOver {
        return;
      }
      var head := snake[0];
      var newHead := NextHead(head, direction);
      if newHead.0 < 0 || newHead.0 >= GridSize || newHead.1 < 0 || newHead.1 >= GridSize {
        gameOver := true;
        return;
      }
      if newHead in snake {
        gameOver := true;
        return;
      }
      ghost var body := snake;
      snake := [newHead] + snake;
      if newHead == food {
        score := score + 10;
        food := SpawnFood(draws);
      } else {
        snake := snake[..|snake| - 1];
        assert snake[1..] == body[..|body| - 1];
      }
    }

    /** `reset_game`: the start position and a new food from `draws`. */
    method ResetGame(draws: seq<Cell>)
      requires FoodDraws(draws, StartBody)
      modifies this
      ensures Valid() && !gameOver
      ensures snake == StartBody && direction == StartDirection && score == 0
      ensures food == FirstFree(draws, StartBody)
    {
      snake := StartBody;
      direction := StartDirection;
      food := SpawnFood(draws);
      score := 0;
      gameOver := false;
    }
  }
}
