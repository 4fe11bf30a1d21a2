/** An optional value: the game's `null` direction and its not-yet-placed `{}` food. */
module Optional {
  datatype Option<T> = None | Some(value: T)
}

/**
 * The playing field: cells, the four headings, one-cell moves, and the
 * wrap-around rule that JavaScript's truncating remainder implements.
 */
module Grid {

  /** A grid cell; y grows downwards, as on the canvas. */
  datatype Cell = Cell(x: int, y: int)

  datatype Direction = Up | Down | Left | Right

  function Abs(n: int): nat { if n < 0 then -n else n }

  predicate InGrid(c: Cell, width: int, height: int) {
    0 <= c.x < width && 0 <= c.y < height
  }

  /** The cell one step from `c` along `d`: exactly one coordinate changes, by one. */
  function Move(c: Cell, d: Direction): (r: Cell)
    ensures Abs(r.x - c.x) + Abs(r.y - c.y) == 1
    ensures d == Up || d == Down ==> r.x == c.x
    ensures d == Left || d == Right ==> r.y == c.y
  {
    match d
    case Up => Cell(c.x, c.y - 1)
    case Down => Cell(c.x, c.y + 1)
    case Left => Cell(c.x - 1, c.y)
    case Right => Cell(c.x + 1, c.y)
  }

  function Opposite(d: Direction): (r: Direction)
    ensures r != d
  {
    match d
    case Up => Down
    case Down => Up
    case Left => Right
    case Right => Left
  }

  /** The four-way test that rejects a 180-degree turn. */
  predicate IsReversal(current: Direction, requested: Direction) {
    || (current == Up && requested == Down)
    || (current == Down && requested == Up)
    || (current == Left && requested == Right)
    || (current == Right && requested == Left)
  }

  /** A reversal is exactly a request for the opposite heading, and the relation is symmetric. */
  lemma ReversalIsOpposite(current: Direction, requested: Direction)
    ensures IsReversal(current, requested) <==> requested == Opposite(current)
    ensures IsReversal(current, requested) <==> IsReversal(requested, current)
  {
  }

  /** Moving along `d` and then along its opposite returns to the start. */
  lemma MoveThenBack(c: Cell, d: Direction)
    ensures Move(Move(c, d), Opposite(d)) == c
    ensures Opposite(Opposite(d)) == d
  {
  }

  /**
   * JavaScript's `a % n` for a positive divisor: the remainder truncates
   * towards zero, so it takes the sign of `a`; on a non-negative `a` it
   * agrees with the Euclidean remainder.
   */
  function JsRem(a: int, n: int): (r: int)
    requires n > 0
    ensures Abs(r) < n
    ensures a >= 0 ==> r == a % n
    ensures a <= 0 ==> r <= 0
  {
    if a >= 0 then a % n else -((-a) % n)
  }

  /** Truncation is symmetric about zero, unlike the Euclidean remainder. */
  lemma JsRemIsOdd(a: int, n: int)
    requires n > 0
    ensures JsRem(-a, n) == -JsRem(a, n)
  {
  }

  /** The wrap of one coordinate, `(a + n) % n`, with JavaScript's remainder. */
  function WrapCoord(a: int, n: int): (r: int)
    requires n > 0
    ensures -n <= a ==> 0 <= r < n
    ensures 0 <= a < n ==> r == a
    ensures a == -1 ==> r == n - 1
    ensures a == n ==> r == 0
  {
    JsRem(a + n, n)
  }

  /**
   * The wrap-around rule: a head that left the grid by one cell re-enters at
   * the opposite edge; a head inside the grid stays where it is.
   */
  function Wrap(c: Cell, width: int, height: int): (r: Cell)
    requires width > 0 && height > 0
    ensures -width <= c.x && -height <= c.y ==> InGrid(r, width, height)
    ensures InGrid(c, width, height) ==> r == c
  {
    Cell(WrapCoord(c.x, width), WrapCoord(c.y, height))
  }
}
