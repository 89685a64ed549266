/**
 * Cell states of the simulation grid and the value view of a grid.
 *
 * The engine keeps its grid in a two-dimensional integer array whose entries
 * are the four state codes 0 to 3. Here a grid is an `array2<Cell>`; the
 * specifications work on its snapshot, a rectangular `seq<seq<Cell>>`.
 */
module Grid {

  datatype Option<T> = None | Some(value: T)

  /** The four mutually exclusive states of a cell. */
  datatype Cell = Empty | Fuel | Burning | Burned

  /** The integer code the engine stores for each state. */
  function Code(c: Cell): (n: int)
    ensures 0 <= n <= 3
    ensures c == Empty ==> n == 0
    ensures c == Fuel ==> n == 1
    ensures c == Burning ==> n == 2
    ensures c == Burned ==> n == 3
  {
    match c
    case Empty => 0
    case Fuel => 1
    case Burning => 2
    case Burned => 3
  }

  /** Reads a stored code back; codes outside 0..3 name no state. */
  function FromCode(n: int): (r: Option<Cell>)
    ensures r.Some? <==> 0 <= n <= 3
    ensures r.Some? ==> Code(r.value) == n
  {
    if n == 0 then Some(Empty)
    else if n == 1 then Some(Fuel)
    else if n == 2 then Some(Burning)
    else if n == 3 then Some(Burned)
    else None
  }

  /** Distinct states have distinct codes, and every code reads back as its state. */
  lemma CodeRoundTrip(c: Cell, d: Cell)
    ensures FromCode(Code(c)) == Some(c)
    ensures Code(c) == Code(d) ==> c == d
  {
  }

  /**
   * The only changes a cell may undergo in one step: fuel catches fire,
   * a burning cell burns out; empty and burned cells never change.
   */
  predicate Transition(before: Cell, after: Cell)
  {
    before == after
    || (before == Fuel && after == Burning)
    || (before == Burning && after == Burned)
  }

  /** `(y, x)` is a position of `g` (row `y`, column `x`). */
  predicate InBounds<T>(g: seq<seq<T>>, y: int, x: int)
  {
    0 <= y < |g| && 0 <= x < |g[y]|
  }

  /** Every row of `g` has `width` columns. */
  predicate Rectangular<T>(g: seq<seq<T>>, width: int)
  {
    forall y :: 0 <= y < |g| ==> |g[y]| == width
  }

  /** `g` and `s` have the same rows of the same lengths (grid and slope field). */
  predicate SameShape<T, U>(g: seq<seq<T>>, s: seq<seq<U>>)
  {
    |g| == |s| && forall y :: 0 <= y < |g| ==> |g[y]| == |s[y]|
  }

  /** The contents of a two-dimensional array, row by row. */
  ghost function Snapshot<T>(a: array2<T>): (g: seq<seq<T>>)
    reads a
    ensures |g| == a.Length0 && Rectangular(g, a.Length1)
    ensures forall y, x :: 0 <= y < a.Length0 && 0 <= x < a.Length1 ==> g[y][x] == a[y, x]
  {
    seq(a.Length0, y requires 0 <= y < a.Length0 reads a =>
      seq(a.Length1, x requires 0 <= x < a.Length1 reads a => a[y, x]))
  }
}
