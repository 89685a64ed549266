/**
 * The propagation step: one simulated hour of a synchronous cellular
 * automaton. Every burning cell burns out, and each of its fuel neighbours
 * gets one Bernoulli trial whose success probability depends on the slope at
 * the neighbour, the wind speed, and whether the neighbour lies downwind.
 * All trials read the grid as it was at the start of the hour; successes are
 * written into a copy.
 */
module Propagation {
  import opened Grid
  import opened Wind

  /**
   * The random source. `draw(y, x, dy, dx)` is the uniform value drawn for
   * the trial of the burning cell at row `y`, column `x` against its
   * neighbour at offset (dx, dy). Each trial of a step has its own index, so
   * any sequence of draws the generator may produce is one such function.
   */
  type Draw = (int, int, int, int) -> real

  /** The inputs that change every hour: the wind vector, the wind speed and the random draws. */
  datatype Hour = Hour(wind: Offset, speed: real, draw: Draw)

  /** Ignition probability before clamping, for a downwind (`aligned`) neighbour or any other one. */
  function Probability(aligned: bool, slope: real, speed: real): (p: real)
    ensures p == (if aligned then 2.0 else 1.0) * (0.3 + 0.1 * slope + 0.01 * speed)
    ensures slope >= 0.0 && speed >= 0.0 ==> p >= (if aligned then 0.6 else 0.3)
  {
    if aligned then 0.6 + 0.2 * slope + 0.02 * speed
    else 0.3 + 0.1 * slope + 0.01 * speed
  }

  /** The smaller of `p` and 1. */
  function Clamp(p: real): (q: real)
    ensures q <= 1.0 && q <= p
    ensures q == p || q == 1.0
  {
    if 1.0 < p then 1.0 else p
  }

  /**
   * A downwind neighbour is exactly twice as likely to ignite as any other
   * one (before clamping), and with non-negative inputs the clamped
   * probability saturates at 1 once the wind reaches 20 km/h downwind or
   * 70 km/h otherwise; below that it is at least 0.6 downwind and 0.3 otherwise.
   */
  lemma ProbabilityBounds(slope: real, speed: real)
    requires slope >= 0.0 && speed >= 0.0
    ensures Probability(true, slope, speed) == 2.0 * Probability(false, slope, speed)
    ensures 0.6 <= Clamp(Probability(true, slope, speed)) && 0.3 <= Clamp(Probability(false, slope, speed))
    ensures speed >= 20.0 ==> Clamp(Probability(true, slope, speed)) == 1.0
    ensures speed >= 70.0 ==> Clamp(Probability(false, slope, speed)) == 1.0
  {
  }

  /**
   * The trial of the burning cell at (ty - dy, tx - dx) against its fuel
   * neighbour (ty, tx), at offset (dx, dy), succeeds.
   */
  predicate Ignition(g: seq<seq<Cell>>, slope: seq<seq<real>>, hr: Hour, ty: int, tx: int, dy: int, dx: int)
    requires SameShape(g, slope)
  {
    InBounds(g, ty - dy, tx - dx) && g[ty - dy][tx - dx] == Burning
    && InBounds(g, ty, tx) && g[ty][tx] == Fuel
    && hr.draw(ty - dy, tx - dx, dy, dx) < Clamp(Probability(Offset(dx, dy) == hr.wind, slope[ty][tx], hr.speed))
  }

  /** Some trial against (ty, tx) succeeds, whichever burning neighbour made it. */
  predicate Ignited(g: seq<seq<Cell>>, slope: seq<seq<real>>, hr: Hour, ty: int, tx: int)
    requires SameShape(g, slope)
  {
    exists dy, dx :: -1 <= dy <= 1 && -1 <= dx <= 1 && Ignition(g, slope, hr, ty, tx, dy, dx)
  }

  /** The state of cell (ty, tx) after the step, as an order-free function of the old grid. */
  function NextCell(g: seq<seq<Cell>>, slope: seq<seq<real>>, hr: Hour, ty: int, tx: int): Cell
    requires SameShape(g, slope) && InBounds(g, ty, tx)
  {
    match g[ty][tx]
    case Burning => Burned
    case Fuel => if Ignited(g, slope, hr, ty, tx) then Burning else Fuel
    case Empty => Empty
    case Burned => Burned
  }

  /** The grid after the step. */
  function Next(g: seq<seq<Cell>>, slope: seq<seq<real>>, hr: Hour): (n: seq<seq<Cell>>)
    requires SameShape(g, slope)
    ensures SameShape(n, g)
    ensures forall y, x :: InBounds(g, y, x) ==> n[y][x] == NextCell(g, slope, hr, y, x)
  {
    seq(|g|, y requires 0 <= y < |g| =>
      seq(|g[y]|, x requires 0 <= x < |g[y]| => NextCell(g, slope, hr, y, x)))
  }

  /** The grid after several hours, each with its own wind and draws. */
  function Run(g: seq<seq<Cell>>, slope: seq<seq<real>>, hours: seq<Hour>): (r: seq<seq<Cell>>)
    requires SameShape(g, slope)
    ensures SameShape(r, g)
    decreases |hours|
  {
    if hours == [] then g else Run(Next(g, slope, hours[0]), slope, hours[1..])
  }

  // ---------------------------------------------------------------------
  // Properties of one step

  /** (ty, tx) has a burning cell among its eight neighbours. */
  predicate HasBurningNeighbour(g: seq<seq<Cell>>, ty: int, tx: int)
  {
    exists ny, nx :: ty - 1 <= ny <= ty + 1 && tx - 1 <= nx <= tx + 1 && InBounds(g, ny, nx) && g[ny][nx] == Burning
  }

  /**
   * Each cell follows the state machine: burning cells always burn out,
   * empty and burned cells never change, and fuel either stays or catches fire.
   */
  lemma StepTransitions(g: seq<seq<Cell>>, slope: seq<seq<real>>, hr: Hour, y: int, x: int)
    requires SameShape(g, slope) && InBounds(g, y, x)
    ensures Transition(g[y][x], Next(g, slope, hr)[y][x])
    ensures g[y][x] == Burning ==> Next(g, slope, hr)[y][x] == Burned
    ensures g[y][x] == Empty || g[y][x] == Burned ==> Next(g, slope, hr)[y][x] == g[y][x]
  {
  }

  /** A fuel cell with no burning neighbour stays fuel, whatever the draws. */
  lemma IsolatedFuelStays(g: seq<seq<Cell>>, slope: seq<seq<real>>, hr: Hour, y: int, x: int)
    requires SameShape(g, slope) && InBounds(g, y, x) && g[y][x] == Fuel
    requires !HasBurningNeighbour(g, y, x)
    ensures Next(g, slope, hr)[y][x] == Fuel
  {
  }

  /**
   * Stated from the burning cells' side: a fuel cell catches fire exactly
   * when some burning neighbour (sy, sx) drew a value below the clamped
   * probability of its trial at offset (x - sx, y - sy), computed with the
   * slope of the fuel cell. Which neighbour succeeds, and in what order the
   * trials happen, does not matter.
   */
  lemma IgnitionIffSomeTrialSucceeds(g: seq<seq<Cell>>, slope: seq<seq<real>>, hr: Hour, y: int, x: int)
    requires SameShape(g, slope) && InBounds(g, y, x) && g[y][x] == Fuel
    ensures Next(g, slope, hr)[y][x] == Burning <==>
      exists sy, sx :: y - 1 <= sy <= y + 1 && x - 1 <= sx <= x + 1 && InBounds(g, sy, sx) && g[sy][sx] == Burning
        && hr.draw(sy, sx, y - sy, x - sx) < Clamp(Probability(Offset(x - sx, y - sy) == hr.wind, slope[y][x], hr.speed))
    ensures Next(g, slope, hr)[y][x] == Fuel || Next(g, slope, hr)[y][x] == Burning
  {
    if Ignited(g, slope, hr, y, x) {
      var dy, dx :| -1 <= dy <= 1 && -1 <= dx <= 1 && Ignition(g, slope, hr, y, x, dy, dx);
      assert g[y - dy][x - dx] == Burning;
    }
    forall sy, sx | y - 1 <= sy <= y + 1 && x - 1 <= sx <= x + 1 && InBounds(g, sy, sx) && g[sy][sx] == Burning
        && hr.draw(sy, sx, y - sy, x - sx) < Clamp(Probability(Offset(x - sx, y - sy) == hr.wind, slope[y][x], hr.speed))
      ensures Ignited(g, slope, hr, y, x)
    {
      assert Ignition(g, slope, hr, y, x, y - sy, x - sx);
    }
  }

  /**
   * Once the probability of a trial reaches 1, its clamped value is 1 and
   * every draw in [0, 1) ignites the neighbour.
   */
  lemma CertainIgnition(g: seq<seq<Cell>>, slope: seq<seq<real>>, hr: Hour, y: int, x: int, dy: int, dx: int)
    requires SameShape(g, slope) && -1 <= dy <= 1 && -1 <= dx <= 1
    requires InBounds(g, y, x) && g[y][x] == Burning
    requires InBounds(g, y + dy, x + dx) && g[y + dy][x + dx] == Fuel
    requires Probability(Offset(dx, dy) == hr.wind, slope[y + dy][x + dx], hr.speed) >= 1.0
    requires 0.0 <= hr.draw(y, x, dy, dx) < 1.0
    ensures Next(g, slope, hr)[y + dy][x + dx] == Burning
  {
    assert Ignition(g, slope, hr, y + dy, x + dx, dy, dx);
  }

  /**
   * The downwind neighbour is tried with the aligned formula and every other
   * neighbour with the plain one: a wind of (1, 0) favours the fuel cell to
   * the right of a burning cell and not the one to its left.
   */
  lemma WindAlignedFormula(g: seq<seq<Cell>>, slope: seq<seq<real>>, hr: Hour, y: int, x: int)
    requires SameShape(g, slope) && hr.wind == Offset(1, 0)
    requires InBounds(g, y, x) && g[y][x] == Burning
    requires InBounds(g, y, x + 1) && g[y][x + 1] == Fuel
    requires InBounds(g, y, x - 1) && g[y][x - 1] == Fuel
    ensures Ignition(g, slope, hr, y, x + 1, 0, 1) <==>
              hr.draw(y, x, 0, 1) < Clamp(0.6 + 0.2 * slope[y][x + 1] + 0.02 * hr.speed)
    ensures Ignition(g, slope, hr, y, x - 1, 0, -1) <==>
              hr.draw(y, x, 0, -1) < Clamp(0.3 + 0.1 * slope[y][x - 1] + 0.01 * hr.speed)
  {
  }

  /** Burning cells burned out, everything else as it was. */
  function BurnOut(g: seq<seq<Cell>>): (r: seq<seq<Cell>>)
    ensures SameShape(r, g)
    ensures forall y, x :: InBounds(g, y, x) ==>
              r[y][x] == if g[y][x] == Burning then Burned else g[y][x]
  {
    seq(|g|, y requires 0 <= y < |g| =>
      seq(|g[y]|, x requires 0 <= x < |g[y]| => if g[y][x] == Burning then Burned else g[y][x]))
  }

  /**
   * When no trial draws a value below its clamped probability, no fuel cell
   * catches fire: the step only burns out the burning cells.
   */
  lemma AlwaysFailingDraws(g: seq<seq<Cell>>, slope: seq<seq<real>>, hr: Hour)
    requires SameShape(g, slope)
    requires forall y, x, dy, dx ::
               -1 <= dy <= 1 && -1 <= dx <= 1 && InBounds(g, y, x) && g[y][x] == Burning
               && InBounds(g, y + dy, x + dx) && g[y + dy][x + dx] == Fuel ==>
               hr.draw(y, x, dy, dx) >= Clamp(Probability(Offset(dx, dy) == hr.wind, slope[y + dy][x + dx], hr.speed))
    ensures Next(g, slope, hr) == BurnOut(g)
  {
    var n, b := Next(g, slope, hr), BurnOut(g);
    forall y | 0 <= y < |g| ensures n[y] == b[y] {
      forall x | 0 <= x < |g[y]| ensures n[y][x] == b[y][x] {
        forall dy, dx | -1 <= dy <= 1 && -1 <= dx <= 1 ensures !Ignition(g, slope, hr, y, x, dy, dx) {
          assert (y - dy) + dy == y && (x - dx) + dx == x;
        }
      }
    }
  }

  /**
   * In particular, a source whose every draw is at least 1 never ignites
   * anything, since no clamped probability exceeds 1.
   */
  lemma DrawsAtLeastOne(g: seq<seq<Cell>>, slope: seq<seq<real>>, hr: Hour)
    requires SameShape(g, slope)
    requires forall y, x, dy, dx :: hr.draw(y, x, dy, dx) >= 1.0
    ensures Next(g, slope, hr) == BurnOut(g)
  {
    AlwaysFailingDraws(g, slope, hr);
  }

  /**
   * When every draw is 0 (a source that always succeeds), the slope and
   * speed are non-negative, a fuel cell catches fire exactly when it has a
   * burning neighbour.
   */
  lemma AlwaysSucceedingDraws(g: seq<seq<Cell>>, slope: seq<seq<real>>, hr: Hour, y: int, x: int)
    requires SameShape(g, slope) && InBounds(g, y, x) && g[y][x] == Fuel
    requires forall sy, sx, dy, dx :: hr.draw(sy, sx, dy, dx) == 0.0
    requires slope[y][x] >= 0.0 && hr.speed >= 0.0
    ensures Next(g, slope, hr)[y][x] == Burning <==> HasBurningNeighbour(g, y, x)
  {
    if HasBurningNeighbour(g, y, x) {
      var ny, nx :| y - 1 <= ny <= y + 1 && x - 1 <= nx <= x + 1 && InBounds(g, ny, nx) && g[ny][nx] == Burning;
      ProbabilityBounds(slope[y][x], hr.speed);
      assert Ignition(g, slope, hr, y, x, y - ny, x - nx);
    } else {
      IsolatedFuelStays(g, slope, hr, y, x);
    }
  }

  /**
   * A grid with no burning cell is a fixed point of the step: in particular
   * a grid of only empty and burned cells never changes again.
   */
  lemma QuiescentFixedPoint(g: seq<seq<Cell>>, slope: seq<seq<real>>, hr: Hour)
    requires SameShape(g, slope)
    requires forall y, x :: InBounds(g, y, x) ==> g[y][x] != Burning
    ensures Next(g, slope, hr) == g
  {
    var n := Next(g, slope, hr);
    forall y | 0 <= y < |g| ensures n[y] == g[y] {
      forall x | 0 <= x < |g[y]| ensures n[y][x] == g[y][x] {
      }
    }
  }

  // ---------------------------------------------------------------------
  // Properties of several steps

  /** `after` can follow `before` after any number of steps. */
  predicate Reachable(before: Cell, after: Cell)
  {
    before == after
    || (before == Fuel && (after == Burning || after == Burned))
    || (before == Burning && after == Burned)
  }

  /**
   * Over any number of hours a cell only moves forward along
   * fuel, burning, burned; empty and burned cells never change, nothing
   * returns to fuel, and a burning cell lasts exactly one hour.
   */
  lemma {:induction false} RunStateMachine(g: seq<seq<Cell>>, slope: seq<seq<real>>, hours: seq<Hour>, y: int, x: int)
    requires SameShape(g, slope) && InBounds(g, y, x)
    ensures Reachable(g[y][x], Run(g, slope, hours)[y][x])
    ensures g[y][x] == Burning && hours != [] ==> Run(g, slope, hours)[y][x] == Burned
    decreases |hours|
  {
    if hours != [] {
      var n := Next(g, slope, hours[0]);
      RunStateMachine(n, slope, hours[1..], y, x);
    }
  }

  // ---------------------------------------------------------------------
  // The imperative step and the invariant of its loops

  /**
   * The scan visits source cells in row-major order; for each, step 0 burns
   * it out and steps 1 to 9 are its trials against the nine offsets
   * (dy, dx) in row-major order. Step `s` of source (sy, sx) is done when
   * it precedes the current position (y, x, k).
   */
  predicate Done(sy: int, sx: int, s: int, y: int, x: int, k: int)
  {
    sy < y || (sy == y && (sx < x || (sx == x && s < k)))
  }

  /** The step number of the trial at offset (dy, dx). */
  function TrialStep(dy: int, dx: int): int
  {
    1 + 3 * (dy + 1) + (dx + 1)
  }

  /** The contents of cell (ty, tx) of the copy once the steps before (y, x, k) are done. */
  ghost function PartialCell(g: seq<seq<Cell>>, slope: seq<seq<real>>, hr: Hour, ty: int, tx: int, y: int, x: int, k: int): Cell
    requires SameShape(g, slope) && InBounds(g, ty, tx)
  {
    match g[ty][tx]
    case Burning => if Done(ty, tx, 0, y, x, k) then Burned else Burning
    case Fuel =>
      if exists dy, dx :: -1 <= dy <= 1 && -1 <= dx <= 1 && Ignition(g, slope, hr, ty, tx, dy, dx)
                          && Done(ty - dy, tx - dx, TrialStep(dy, dx), y, x, k)
      then Burning else Fuel
    case Empty => Empty
    case Burned => Burned
  }

  /** Two scan positions that agree on every step that matters to (ty, tx) give the same contents. */
  lemma PartialCongruence(g: seq<seq<Cell>>, slope: seq<seq<real>>, hr: Hour, ty: int, tx: int,
                          y1: int, x1: int, k1: int, y2: int, x2: int, k2: int)
    requires SameShape(g, slope) && InBounds(g, ty, tx)
    requires g[ty][tx] == Burning ==> (Done(ty, tx, 0, y1, x1, k1) <==> Done(ty, tx, 0, y2, x2, k2))
    requires forall sy, sx, s :: InBounds(g, sy, sx) && g[sy][sx] == Burning && 1 <= s <= 9 ==>
               (Done(sy, sx, s, y1, x1, k1) <==> Done(sy, sx, s, y2, x2, k2))
    ensures PartialCell(g, slope, hr, ty, tx, y1, x1, k1) == PartialCell(g, slope, hr, ty, tx, y2, x2, k2)
  {
  }

  /** Before the scan starts, the copy equals the old grid. */
  lemma PartialStart(g: seq<seq<Cell>>, slope: seq<seq<real>>, hr: Hour, ty: int, tx: int)
    requires SameShape(g, slope) && InBounds(g, ty, tx)
    ensures PartialCell(g, slope, hr, ty, tx, 0, 0, 0) == g[ty][tx]
  {
  }

  /** After the whole scan, the copy is the next grid. */
  lemma PartialEnd(g: seq<seq<Cell>>, slope: seq<seq<real>>, hr: Hour, ty: int, tx: int)
    requires SameShape(g, slope) && InBounds(g, ty, tx)
    ensures PartialCell(g, slope, hr, ty, tx, |g|, 0, 0) == NextCell(g, slope, hr, ty, tx)
  {
  }

  /** One trial of source (y, x) changes at most its target, and only when it succeeds. */
  lemma PartialTrial(g: seq<seq<Cell>>, slope: seq<seq<real>>, hr: Hour, ty: int, tx: int, y: int, x: int, dy: int, dx: int)
    requires SameShape(g, slope) && InBounds(g, ty, tx)
    requires -1 <= dy <= 1 && -1 <= dx <= 1
    ensures PartialCell(g, slope, hr, ty, tx, y, x, TrialStep(dy, dx) + 1) ==
              if ty == y + dy && tx == x + dx && Ignition(g, slope, hr, ty, tx, dy, dx) then Burning
              else PartialCell(g, slope, hr, ty, tx, y, x, TrialStep(dy, dx))
  {
  }

  /**
   * One hour of propagation. The result is a fresh grid: a copy of `grid`
   * in which every burning cell has burned out and every fuel neighbour
   * whose trial succeeded is burning. `grid` itself is not modified.
   */
  method Step(grid: array2<Cell>, wind: Offset, speed: real, slope: array2<real>, draw: Draw)
    returns (next: array2<Cell>)
    requires slope.Length0 == grid.Length0 && slope.Length1 == grid.Length1
    ensures fresh(next)
    ensures next.Length0 == grid.Length0 && next.Length1 == grid.Length1
    ensures Snapshot(next) == Next(Snapshot(grid), Snapshot(slope), Hour(wind, speed, draw))
  {
    var h, w := grid.Length0, grid.Length1;
    ghost var g, sl, hr := Snapshot(grid), Snapshot(slope), Hour(wind, speed, draw);
    next := new Cell[h, w]((y, x) requires 0 <= y < h && 0 <= x < w reads grid => grid[y, x]);
    forall ty, tx | 0 <= ty < h && 0 <= tx < w ensures next[ty, tx] == PartialCell(g, sl, hr, ty, tx, 0, 0, 0) {
      PartialStart(g, sl, hr, ty, tx);
    }
    for y := 0 to h
      invariant forall ty, tx :: 0 <= ty < h && 0 <= tx < w ==> next[ty, tx] == PartialCell(g, sl, hr, ty, tx, y, 0, 0)
    {
      for x := 0 to w
        invariant forall ty, tx :: 0 <= ty < h && 0 <= tx < w ==> next[ty, tx] == PartialCell(g, sl, hr, ty, tx, y, x, 0)
      {
        if grid[y, x] == Burning {
          SpreadFrom(grid, wind, speed, slope, draw, next, y, x);
        } else {
          forall ty, tx | 0 <= ty < h && 0 <= tx < w ensures next[ty, tx] == PartialCell(g, sl, hr, ty, tx, y, x, 10) {
            PartialCongruence(g, sl, hr, ty, tx, y, x, 0, y, x, 10);
          }
        }
        forall ty, tx | 0 <= ty < h && 0 <= tx < w ensures next[ty, tx] == PartialCell(g, sl, hr, ty, tx, y, x + 1, 0) {
          PartialCongruence(g, sl, hr, ty, tx, y, x, 10, y, x + 1, 0);
        }
      }
      forall ty, tx | 0 <= ty < h && 0 <= tx < w ensures next[ty, tx] == PartialCell(g, sl, hr, ty, tx, y + 1, 0, 0) {
        PartialCongruence(g, sl, hr, ty, tx, y, w, 0, y + 1, 0, 0);
      }
    }
    forall ty, tx | 0 <= ty < h && 0 <= tx < w ensures next[ty, tx] == NextCell(g, sl, hr, ty, tx) {
      PartialEnd(g, sl, hr, ty, tx);
    }
    ghost var n := Next(g, sl, hr);
    forall ty | 0 <= ty < h ensures Snapshot(next)[ty] == n[ty] {
    }
  }

  /**
   * The body of the scan for one burning cell (y, x): it burns out in the
   * copy, then each of the nine offsets in row-major order gets its trial,
   * and a successful trial sets the fuel neighbour burning in the copy.
   */
  method SpreadFrom(grid: array2<Cell>, wind: Offset, speed: real, slope: array2<real>, draw: Draw,
                    next: array2<Cell>, y: int, x: int)
    requires slope.Length0 == grid.Length0 && slope.Length1 == grid.Length1
    requires next != grid && next.Length0 == grid.Length0 && next.Length1 == grid.Length1
    requires 0 <= y < grid.Length0 && 0 <= x < grid.Length1 && grid[y, x] == Burning
    requires forall ty, tx :: 0 <= ty < grid.Length0 && 0 <= tx < grid.Length1 ==>
               next[ty, tx] == PartialCell(Snapshot(grid), Snapshot(slope), Hour(wind, speed, draw), ty, tx, y, x, 0)
    modifies next
    ensures forall ty, tx :: 0 <= ty < grid.Length0 && 0 <= tx < grid.Length1 ==>
              next[ty, tx] == PartialCell(Snapshot(grid), Snapshot(slope), Hour(wind, speed, draw), ty, tx, y, x, 10)
  {
    var h, w := grid.Length0, grid.Length1;
    ghost var g, sl, hr := Snapshot(grid), Snapshot(slope), Hour(wind, speed, draw);
    next[y, x] := Burned;
    forall ty, tx | 0 <= ty < h && 0 <= tx < w ensures next[ty, tx] == PartialCell(g, sl, hr, ty, tx, y, x, 1) {
      if ty != y || tx != x {
        PartialCongruence(g, sl, hr, ty, tx, y, x, 0, y, x, 1);
      }
    }
    for dy := -1 to 2
      invariant forall ty, tx :: 0 <= ty < h && 0 <= tx < w ==> next[ty, tx] == PartialCell(g, sl, hr, ty, tx, y, x, TrialStep(dy, -1))
    {
      for dx := -1 to 2
        invariant forall ty, tx :: 0 <= ty < h && 0 <= tx < w ==> next[ty, tx] == PartialCell(g, sl, hr, ty, tx, y, x, TrialStep(dy, dx))
      {
        Trial(grid, wind, speed, slope, draw, next, y, x, dy, dx);
      }
    }
  }

  /**
   * The trial of burning cell (y, x) against its neighbour at offset
   * (dx, dy): only an in-bounds fuel neighbour is tried, with the downwind
   * formula when the offset is the wind vector, and a draw below the clamped
   * probability sets it burning in the copy.
   */
  method Trial(grid: array2<Cell>, wind: Offset, speed: real, slope: array2<real>, draw: Draw,
               next: array2<Cell>, y: int, x: int, dy: int, dx: int)
    requires slope.Length0 == grid.Length0 && slope.Length1 == grid.Length1
    requires next != grid && next.Length0 == grid.Length0 && next.Length1 == grid.Length1
    requires 0 <= y < grid.Length0 && 0 <= x < grid.Length1 && grid[y, x] == Burning
    requires -1 <= dy <= 1 && -1 <= dx <= 1
    requires forall ty, tx :: 0 <= ty < grid.Length0 && 0 <= tx < grid.Length1 ==>
               next[ty, tx] == PartialCell(Snapshot(grid), Snapshot(slope), Hour(wind, speed, draw), ty, tx, y, x, TrialStep(dy, dx))
    modifies next
    ensures forall ty, tx :: 0 <= ty < grid.Length0 && 0 <= tx < grid.Length1 ==>
              next[ty, tx] == PartialCell(Snapshot(grid), Snapshot(slope), Hour(wind, speed, draw), ty, tx, y, x, TrialStep(dy, dx) + 1)
  {
    var h, w := grid.Length0, grid.Length1;
    ghost var g, sl, hr := Snapshot(grid), Snapshot(slope), Hour(wind, speed, draw);
    var nx, ny := x + dx, y + dy;
    ghost var fires := InBounds(g, ny, nx) && Ignition(g, sl, hr, ny, nx, dy, dx);
    label before:
    if 0 <= nx < w && 0 <= ny < h && grid[ny, nx] == Fuel {
      var aligned := dx == wind.dx && dy == wind.dy;
      var prob := Probability(aligned, slope[ny, nx], speed);
      assert aligned <==> Offset(dx, dy) == wind;
      if draw(y, x, dy, dx) < Clamp(prob) {
        next[ny, nx] := Burning;
      }
      assert fires <==> draw(y, x, dy, dx) < Clamp(prob);
    }
    assert forall ty, tx :: 0 <= ty < h && 0 <= tx < w ==>
      next[ty, tx] == if ty == ny && tx == nx && fires then Burning else old@before(next[ty, tx]);
    forall ty, tx | 0 <= ty < h && 0 <= tx < w ensures next[ty, tx] == PartialCell(g, sl, hr, ty, tx, y, x, TrialStep(dy, dx) + 1) {
      PartialTrial(g, sl, hr, ty, tx, y, x, dy, dx);
    }
  }
}
