/**
 * The fuel locator: when the chosen ignition cell holds no fuel, the driver
 * looks for fuel around it. Squares of growing radius r = 1, 2, ..., radius
 * centred on (cx, cy) are scanned row by row, each square in full, and the
 * first fuel cell met is returned. The grid is only read.
 */
module FuelLocator {
  import opened Grid

  /** A grid position given as (column, row), the order the locator returns. */
  datatype Point = Point(x: int, y: int)

  function Abs(n: int): nat
  {
    if n < 0 then -n else n
  }

  /** Chebyshev distance between two positions. */
  function Distance(p: Point, q: Point): nat
  {
    if Abs(p.x - q.x) < Abs(p.y - q.y) then Abs(p.y - q.y) else Abs(p.x - q.x)
  }

  /**
   * The radius of the first square of the scan that contains `q`: its
   * Chebyshev distance from `c`, except that the centre itself is first
   * visited in the square of radius 1.
   */
  function Ring(c: Point, q: Point): nat
  {
    if Distance(c, q) == 0 then 1 else Distance(c, q)
  }

  /** Inside one square, `p` is visited before `q` (row-major order). */
  predicate ScanBefore(p: Point, q: Point)
  {
    p.y < q.y || (p.y == q.y && p.x < q.x)
  }

  /** `q` is a position of `g` that holds fuel. */
  predicate IsFuel(g: seq<seq<Cell>>, q: Point)
  {
    InBounds(g, q.y, q.x) && g[q.y][q.x] == Fuel
  }

  /** No fuel cell lies in the square of the given radius around `c`. */
  ghost predicate NoFuelWithin(g: seq<seq<Cell>>, c: Point, radius: int)
  {
    forall q :: IsFuel(g, q) ==> Ring(c, q) > radius
  }

  /**
   * `p` is the cell the scan returns: a fuel cell within the search radius
   * whose square comes first, and within that square the first in row-major
   * order.
   */
  ghost predicate FirstFuel(g: seq<seq<Cell>>, c: Point, radius: int, p: Point)
  {
    IsFuel(g, p) && Ring(c, p) <= radius
    && forall q :: IsFuel(g, q) ==>
         Ring(c, p) < Ring(c, q) || (Ring(c, p) == Ring(c, q) && !ScanBefore(q, p))
  }

  /** At most one cell satisfies FirstFuel, so the locator's answer is determined. */
  lemma FirstFuelUnique(g: seq<seq<Cell>>, c: Point, radius: int, p: Point, p': Point)
    requires FirstFuel(g, c, radius, p) && FirstFuel(g, c, radius, p')
    ensures p == p'
  {
  }

  /**
   * Searches the squares of radius 1 to `radius` around (cx, cy) for fuel.
   * Returns the first fuel cell in scan order, or None when there is none
   * (always None for a radius below 1).
   */
  method FindFuel(grid: array2<Cell>, cx: int, cy: int, radius: int := 3) returns (r: Option<Point>)
    ensures r.None? <==> NoFuelWithin(Snapshot(grid), Point(cx, cy), radius)
    ensures r.Some? ==> FirstFuel(Snapshot(grid), Point(cx, cy), radius, r.value)
  {
    ghost var g := Snapshot(grid);
    ghost var c := Point(cx, cy);
    var rad := 1;
    while rad <= radius
      invariant radius < 1 || rad <= radius + 1
      invariant forall q :: IsFuel(g, q) ==> Ring(c, q) >= rad
    {
      var dy := -rad;
      while dy <= rad
        invariant -rad <= dy <= rad + 1
        invariant forall q :: IsFuel(g, q) && Ring(c, q) <= rad ==> q.y >= cy + dy
      {
        var dx := -rad;
        while dx <= rad
          invariant -rad <= dx <= rad + 1
          invariant forall q :: IsFuel(g, q) && Ring(c, q) <= rad ==>
                      q.y > cy + dy || (q.y == cy + dy && q.x >= cx + dx)
        {
          var nx, ny := cx + dx, cy + dy;
          if 0 <= nx < grid.Length1 && 0 <= ny < grid.Length0 {
            if grid[ny, nx] == Fuel {
              assert IsFuel(g, Point(nx, ny));
              return Some(Point(nx, ny));
            }
          }
          assert !IsFuel(g, Point(nx, ny));
          dx := dx + 1;
        }
        dy := dy + 1;
      }
      rad := rad + 1;
    }
    return None;
  }

  /**
   * The scan does not prefer the centre: when the centre and its upper-left
   * neighbour both hold fuel, the neighbour (met first in the 3x3 square) is
   * the answer, although it is farther away.
   */
  lemma CentreNotPreferred(g: seq<seq<Cell>>, cx: int, cy: int)
    requires IsFuel(g, Point(cx, cy)) && IsFuel(g, Point(cx - 1, cy - 1))
    ensures FirstFuel(g, Point(cx, cy), 3, Point(cx - 1, cy - 1))
    ensures !FirstFuel(g, Point(cx, cy), 3, Point(cx, cy))
  {
  }

  /**
   * On a 7x7 grid that is empty except for fuel two rows down and two columns
   * right of the centre, radius 3 finds that cell and radius 1 finds nothing.
   */
  lemma DiagonalExample()
    ensures var g := seq(7, y => seq(7, x => if y == 5 && x == 5 then Fuel else Empty));
      FirstFuel(g, Point(3, 3), 3, Point(5, 5)) && NoFuelWithin(g, Point(3, 3), 1)
  {
  }
}
