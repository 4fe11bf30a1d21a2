/**
 * Food placement on values: which random draw the rejection loop keeps, and
 * when a free cell exists at all. The random source is a sequence of draws,
 * each already scaled into the grid.
 */
module Food {
  import opened Grid
  import opened Rules

  /** The cells of row `y` in columns `0 .. width - 1`. */
  function Row(width: nat, y: int): (r: set<Cell>)
    ensures forall c :: c in r <==> 0 <= c.x < width && c.y == y
    ensures |r| == width
  {
    if width == 0 then {} else Row(width - 1, y) + {Cell(width - 1, y)}
  }

  /** Every cell of the grid. */
  function GridCells(width: nat, height: nat): (r: set<Cell>)
    ensures forall c :: c in r <==> InGrid(c, width, height)
    ensures |r| == width * height
  {
    if height == 0 then {}
    else
      var above := GridCells(width, height - 1);
      var row := Row(width, height - 1);
      assert above !! row;
      assert width * height == width * (height - 1) + width;
      above + row
  }

  /** The cells a body occupies; a body without repeats has as many cells as segments. */
  function Occupied(body: seq<Cell>): (r: set<Cell>)
    ensures forall c :: c in r <==> c in body
    ensures Distinct(body) ==> |r| == |body|
  {
    if body == [] then {}
    else
      assert Distinct(body) ==> Distinct(body[1..]) && body[0] !in body[1..];
      {body[0]} + Occupied(body[1..])
  }

  /** A body shorter than the grid leaves a free cell. */
  lemma FreeCellWhenRoom(body: seq<Cell>, width: nat, height: nat) returns (c: Cell)
    requires Distinct(body) && AllInGrid(body, width, height)
    requires |body| < width * height
    ensures InGrid(c, width, height) && c !in body
  {
    var all := GridCells(width, height);
    var taken := Occupied(body);
    assert |taken| < |all|;
    var free := all - taken;
    assert |free| > 0 by {
      assert all == free + (all * taken) && free !! (all * taken);
      assert |all * taken| <= |taken| by {
        assert all * taken <= taken;
      }
    }
    c :| c in free;
  }

  /** A body as long as the grid covers every cell. */
  lemma NoFreeCellWhenFull(body: seq<Cell>, width: nat, height: nat, c: Cell)
    requires Distinct(body) && AllInGrid(body, width, height)
    requires |body| >= width * height && InGrid(c, width, height)
    ensures c in body
  {
    var all := GridCells(width, height);
    var taken := Occupied(body);
    assert taken <= all;
    SubsetOfSameSize(taken, all);
  }

  lemma SubsetOfSameSize(a: set<Cell>, b: set<Cell>)
    requires a <= b && |a| >= |b|
    ensures a == b
  {
    assert |b - a| == |b| - |a|;
  }

  /**
   * A free cell exists exactly when the body is shorter than the grid has
   * cells. With the grid full, the rejection loop could never stop.
   */
  lemma FreeCellIffRoom(body: seq<Cell>, width: nat, height: nat)
    requires Distinct(body) && AllInGrid(body, width, height)
    ensures (exists c :: InGrid(c, width, height) && c !in body) <==> |body| < width * height
  {
    if |body| < width * height {
      var c := FreeCellWhenRoom(body, width, height);
    } else {
      forall c | InGrid(c, width, height) ensures c in body {
        NoFreeCellWhenFull(body, width, height, c);
      }
    }
  }

  /**
   * What a random source can deliver: draws inside the grid, at least one of
   * them off the body (with probability 1 when a free cell exists).
   */
  predicate FairDraws(draws: seq<Cell>, body: seq<Cell>, width: int, height: int) {
    && (forall k :: 0 <= k < |draws| ==> InGrid(draws[k], width, height))
    && (exists k :: 0 <= k < |draws| && draws[k] !in body)
  }

  /** The index of the draw the rejection loop keeps: the first one off the body. */
  function FirstFree(draws: seq<Cell>, body: seq<Cell>): (k: nat)
    requires exists k :: 0 <= k < |draws| && draws[k] !in body
    ensures k < |draws| && draws[k] !in body
    ensures forall j :: 0 <= j < k ==> draws[j] in body
    decreases |draws|
  {
    if draws[0] !in body then 0
    else
      var w :| 0 <= w < |draws| && draws[w] !in body;
      assert draws[1..][w - 1] == draws[w];
      1 + FirstFree(draws[1..], body)
  }
}
