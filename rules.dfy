/**
 * The movement rule of one tick, on values: where the head goes, when the
 * game ends, and how the body follows. The engine's `Step` is proved to do
 * exactly what `Advance` says.
 */
module Rules {
  import opened Optional
  import opened Grid

  /** No two segments share a cell. */
  ghost predicate Distinct(s: seq<Cell>) {
    forall i, j :: 0 <= i < j < |s| ==> s[i] != s[j]
  }

  predicate AllInGrid(s: seq<Cell>, width: int, height: int) {
    forall i :: 0 <= i < |s| ==> InGrid(s[i], width, height)
  }

  /** The board invariant: a non-empty body of distinct in-grid cells, and food on a free cell. */
  ghost predicate WellFormed(body: seq<Cell>, food: Cell, width: int, height: int) {
    && |body| > 0
    && Distinct(body)
    && AllInGrid(body, width, height)
    && InGrid(food, width, height)
    && food !in body
  }

  /** The head is one move from the neck along `d`, modulo the grid. */
  ghost predicate Follows(body: seq<Cell>, d: Direction, width: int, height: int)
    requires width > 0 && height > 0
  {
    |body| >= 2 ==> body[0] == Wrap(Move(body[1], d), width, height)
  }

  /** The starting snake: three segments on row 10, head at column 6, facing right. */
  function InitialSnake(): (s: seq<Cell>)
    ensures |s| == 3 && s[0] == Cell(6, 10)
  {
    [Cell(6, 10), Cell(5, 10), Cell(4, 10)]
  }

  /** The starting snake fits a grid of at least 7 columns and 11 rows, and heads right. */
  lemma InitialSnakeWellPlaced(width: int, height: int)
    requires width >= 7 && height >= 11
    ensures Distinct(InitialSnake()) && AllInGrid(InitialSnake(), width, height)
    ensures Follows(InitialSnake(), Right, width, height)
  {
  }

  /** The head would land on a segment other than the last one. */
  predicate HitsBody(body: seq<Cell>, c: Cell) {
    exists i :: 0 <= i < |body| - 1 && body[i] == c
  }

  /**
   * The cell the head moves to, or None when wall collision is on and the
   * move leaves the grid. Without walls the head never leaves the grid.
   */
  function NextHead(head: Cell, d: Direction, walls: bool, width: int, height: int): (r: Option<Cell>)
    requires width > 0 && height > 0
    ensures walls ==> (r.None? <==> !InGrid(Move(head, d), width, height))
    ensures walls && r.Some? ==> r.value == Move(head, d)
    ensures !walls ==> r == Some(Wrap(Move(head, d), width, height))
    ensures InGrid(head, width, height) && r.Some? ==> InGrid(r.value, width, height)
  {
    var next := Move(head, d);
    if walls then
      if InGrid(next, width, height) then Some(next) else None
    else
      Some(Wrap(next, width, height))
  }

  datatype Outcome = Crash | Moved(body: seq<Cell>, ate: bool)

  /**
   * One tick on values: a crash leaves everything to the caller; otherwise
   * the new head is prepended and the tail is kept only when the head lands
   * on the food.
   */
  function Advance(body: seq<Cell>, food: Cell, d: Direction, walls: bool, width: int, height: int): (r: Outcome)
    requires |body| > 0 && width > 0 && height > 0
    ensures r.Crash? <==>
      || NextHead(body[0], d, walls, width, height).None?
      || HitsBody(body, NextHead(body[0], d, walls, width, height).value)
    ensures r.Moved? ==> |r.body| == |body| + (if r.ate then 1 else 0)
    ensures r.Moved? ==> r.body[1..] <= body
    ensures r.Moved? ==> (r.ate <==> r.body[0] == food)
    ensures r.Moved? ==> NextHead(body[0], d, walls, width, height) == Some(r.body[0])
  {
    match NextHead(body[0], d, walls, width, height)
    case None => Crash
    case Some(head) =>
      if HitsBody(body, head) then Crash
      else if head == food then Moved([head] + body, true)
      else Moved([head] + body[..|body| - 1], false)
  }

  /** The outcome of a tick whose head lands on `head` without hitting the body. */
  lemma AdvanceMovesTo(body: seq<Cell>, food: Cell, d: Direction, walls: bool, width: int, height: int, head: Cell)
    requires |body| > 0 && width > 0 && height > 0
    requires NextHead(body[0], d, walls, width, height) == Some(head) && !HitsBody(body, head)
    ensures Advance(body, food, d, walls, width, height) ==
      if head == food then Moved([head] + body, true) else Moved([head] + body[..|body| - 1], false)
  {
  }

  lemma DistinctPrepend(c: Cell, s: seq<Cell>)
    requires Distinct(s) && c !in s
    ensures Distinct([c] + s)
  {
    var t := [c] + s;
    forall i, j | 0 <= i < j < |t| ensures t[i] != t[j] {
      if i > 0 {
        assert t[i] == s[i - 1] && t[j] == s[j - 1];
      } else {
        assert t[j] == s[j - 1];
      }
    }
  }

  /**
   * A tick that does not end the game keeps the body distinct and inside the
   * grid; when nothing is eaten, the food stays off the body.
   */
  lemma AdvanceKeepsBoard(body: seq<Cell>, food: Cell, d: Direction, walls: bool, width: int, height: int)
    requires width > 0 && height > 0
    requires WellFormed(body, food, width, height)
    ensures var r := Advance(body, food, d, walls, width, height);
      r.Moved? ==>
        && Distinct(r.body)
        && AllInGrid(r.body, width, height)
        && Follows(r.body, d, width, height)
        && (!r.ate ==> food !in r.body)
  {
    var r := Advance(body, food, d, walls, width, height);
    if r.Moved? {
      var head := r.body[0];
      var rest := r.body[1..];
      assert r.body == [head] + rest;
      assert InGrid(head, width, height);
      assert !HitsBody(body, head);
      if r.ate {
        assert rest == body;
        assert head !in rest;
      } else {
        assert rest == body[..|body| - 1];
        forall k | 0 <= k < |rest| ensures rest[k] != head {
          assert rest[k] == body[k];
        }
      }
      DistinctPrepend(head, rest);
      if !walls {
        assert head == Wrap(Move(body[0], d), width, height);
      }
    }
  }

  /**
   * The last segment is not an obstacle: a head that moves onto the tail
   * goes ahead, eats nothing, and the tail moves away.
   */
  lemma TailCellIsFree(body: seq<Cell>, food: Cell, d: Direction, walls: bool, width: int, height: int)
    requires width > 0 && height > 0
    requires WellFormed(body, food, width, height)
    requires NextHead(body[0], d, walls, width, height) == Some(body[|body| - 1])
    ensures Advance(body, food, d, walls, width, height) == Moved([body[|body| - 1]] + body[..|body| - 1], false)
  {
    var tail := body[|body| - 1];
    forall i | 0 <= i < |body| - 1 ensures body[i] != tail {
      assert i < |body| - 1;
    }
  }

  /** Both coordinates of the neck are recovered by stepping back from the head. */
  lemma BackToNeck(neck: Cell, d: Direction, width: int, height: int)
    requires width > 0 && height > 0 && InGrid(neck, width, height)
    ensures Wrap(Move(Wrap(Move(neck, d), width, height), Opposite(d)), width, height) == neck
  {
  }

  /** In a grid at least 3 cells wide and high, no other heading leads back to the neck. */
  lemma OnlyReversalReachesNeck(neck: Cell, cur: Direction, next: Direction, width: int, height: int)
    requires width >= 3 && height >= 3 && InGrid(neck, width, height)
    requires next != Opposite(cur)
    ensures var head := Wrap(Move(neck, cur), width, height);
      Move(head, next) != neck && Wrap(Move(head, next), width, height) != neck
  {
  }

  /**
   * Why 180-degree turns are filtered: on a body of three or more, heading
   * back the way the head came always ends the game, while any other heading
   * never moves the head onto the neck.
   */
  lemma ReversalIsFatal(body: seq<Cell>, food: Cell, cur: Direction, next: Direction, walls: bool, width: int, height: int)
    requires width >= 3 && height >= 3
    requires |body| >= 3 && AllInGrid(body, width, height) && Follows(body, cur, width, height)
    ensures next == Opposite(cur) ==> Advance(body, food, next, walls, width, height) == Crash
    ensures next != Opposite(cur) ==> NextHead(body[0], next, walls, width, height) != Some(body[1])
  {
    assert InGrid(body[1], width, height);
    if next == Opposite(cur) {
      BackToNeck(body[1], cur, width, height);
      match NextHead(body[0], next, walls, width, height)
      case None =>
      case Some(head) =>
        assert head == body[1];
        assert HitsBody(body, head);
    } else {
      OnlyReversalReachesNeck(body[1], cur, next, width, height);
    }
  }

  /** Eating on a 10 by 10 grid: the head moves onto the food and the body grows to four. */
  lemma EatingScenario()
    ensures Advance([Cell(3, 3), Cell(2, 3), Cell(1, 3)], Cell(4, 3), Right, false, 10, 10)
         == Moved([Cell(4, 3), Cell(3, 3), Cell(2, 3), Cell(1, 3)], true)
  {
    assert !HitsBody([Cell(3, 3), Cell(2, 3), Cell(1, 3)], Cell(4, 3));
  }

  /** Walls on a grid 4 wide: a head at column 3 moving right ends the game. */
  lemma WallScenario(food: Cell)
    ensures Advance([Cell(3, 3), Cell(2, 3), Cell(1, 3)], food, Right, true, 4, 10) == Crash
  {
  }

  /** Without walls on the same grid the head re-enters at column 0. */
  lemma WrapScenario()
    ensures Advance([Cell(3, 3), Cell(2, 3), Cell(1, 3)], Cell(5, 5), Right, false, 4, 10)
         == Moved([Cell(0, 3), Cell(3, 3), Cell(2, 3)], false)
  {
    assert !HitsBody([Cell(3, 3), Cell(2, 3), Cell(1, 3)], Cell(0, 3));
  }
}
