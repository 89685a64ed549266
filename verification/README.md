# Wildfire propagation engine, modelled in Dafny

This project models the engine of a forest-fire simulator. The engine works on a grid of cells. Each cell is empty, vegetation (fuel), burning or burned, and the grid advances one simulated hour per step. The model covers the three parts of the engine in `fuego.py`:

- **Wind vector** (`direccion_vector`). The cosine and sine of the hour's wind angle are rounded to an integer offset `(dx, dy)`. That offset marks the downwind neighbour. Module `Wind`, file `wind.dfy`.
- **Fuel locator** (`buscar_vecino`). When the chosen ignition cell has no fuel, squares of radius 1, 2, ..., `radio` around it are scanned row by row. The first fuel cell found is returned, or nothing. Module `FuelLocator`, file `fuel_locator.dfy`.
- **Propagation step** (`actualizar`). This is a synchronous cellular automaton. The grid is copied. Every burning cell becomes burned in the copy. Each in-bounds fuel neighbour of a burning cell gets one Bernoulli trial. Its probability depends on the slope at the neighbour, on the wind speed, and on whether the offset equals the wind vector. The probability is clamped at 1, and a success sets the neighbour burning in the copy. Module `Propagation`, file `propagation.dfy`.

The cell states and their integer codes 0 to 3 are in module `Grid` (`grid.dfy`), together with the value view of a grid. A grid is an `array2<Cell>`. `Snapshot` turns it into a rectangular `seq<seq<Cell>>`, and the specifications are written over that value.

The step is the method `Propagation.Step`. It reads `grid` and `slope`, which have no `modifies` clause and so are never changed. It allocates a fresh copy and updates it in place with the source's four nested loops, over `y`, `x`, `dy` and `dx`. The burn-out of one cell and its nine trials are the helpers `SpreadFrom` and `Trial`. Their loop invariant says that every cell of the copy equals `PartialCell`: the old state with the burn-outs and the successful trials made so far applied, in row-major order. The postcondition says the copy equals `Next`, the order-free specification, where:

- A burning cell becomes burned.
- A fuel cell becomes burning exactly when the trial of some burning neighbour succeeds.
- Every other cell keeps its state.

The random generator is injected. `draw(y, x, dy, dx)` is the value drawn for the trial of burning cell `(y, x)` against its neighbour at offset `(dx, dy)`. Every trial in one step has its own index, so any sequence of values the generator can produce corresponds to one such function.

## Model

| member | source | states |
|---|---|---|
| `Grid.Code` | fuego.py:9-12 | empty is stored as 0, vegetation as 1, burning as 2 and burned as 3 |
| `Grid.FromCode` | fuego.py:9-12 | a stored integer names a state exactly when it is in 0..3, and that state's code is the integer |
| `Grid.CodeRoundTrip` | fuego.py:9-12 | decoding a state's code gives the state back, and distinct states have distinct codes |
| `Wind.Round` | fuego.py:19 | the rounded value is within 1/2 of the input, and an exact tie goes to the even integer (round half to even) |
| `Wind.RoundUnique` | fuego.py:19 | any integer with those two properties is the rounded value, so the contract of `Round` determines it |
| `Wind.RoundUnitInterval` | fuego.py:18-19 | on [-1, 1], rounding gives 1 exactly above 0.5, -1 exactly below -0.5, and 0 on [-0.5, 0.5], so ±0.5 give 0 |
| `Wind.WindVector` | fuego.py:14-19 | for cosine and sine in [-1, 1], each component is in {-1, 0, 1}: 1 exactly above 0.5, -1 exactly below -0.5, and 0 on [-0.5, 0.5] |
| `Wind.WindVectorIsMooreOffset` | fuego.py:14-19 | for a real angle (cos² + sin² = 1), the vector is one of the eight neighbour offsets and never the degenerate (0, 0) |
| `Wind.CardinalDirections` | fuego.py:14-19 | 0°, 90°, 180° and 270° give (1, 0), (0, 1), (-1, 0) and (0, -1), even when the zero component carries a rounding error below 0.5 |
| `FuelLocator.FindFuel` | fuego.py:21-32 | result is None exactly when no in-bounds fuel cell lies in the square of radius `radius`, always None for a radius below 1; otherwise result is in bounds, holds fuel, has the smallest scan square among fuel cells, and is first in row-major order within that square; grid is not modified |
| `FuelLocator.FirstFuelUnique` | fuego.py:25-31 | at most one cell meets that description, so the answer is determined by the grid, the centre and the radius |
| `FuelLocator.CentreNotPreferred` | fuego.py:25-31 | the centre is scanned inside the radius-1 square, so fuel at the upper-left neighbour is returned even when the centre itself holds fuel |
| `FuelLocator.DiagonalExample` | fuego.py:21-32 | on an empty 7×7 grid with fuel at offset (2, 2) from the centre, radius 3 finds that cell and radius 1 finds nothing |
| `Propagation.Probability` | fuego.py:49-54 | 0.6 + 0.2·slope + 0.02·speed when the offset is the wind vector, 0.3 + 0.1·slope + 0.01·speed otherwise, so the downwind value is exactly twice the other; with non-negative slope and speed it is at least 0.6 downwind and 0.3 otherwise |
| `Propagation.Clamp` | fuego.py:55 | the clamped probability is at most 1 and at most the computed one, and equals one of the two |
| `Propagation.ProbabilityBounds` | fuego.py:48-55 | the downwind formula is exactly twice the other one; with non-negative slope and speed, the clamped values are at least 0.6 and 0.3, and are exactly 1 from 20 km/h downwind and from 70 km/h otherwise |
| `Propagation.Next` | fuego.py:34-57 | the next grid has the shape of the old one, and each cell is the order-free successor `NextCell` of the old grid |
| `Propagation.Run` | main.py:242-273 | repeated steps, one per hour with its own wind, speed and draws, keep the grid's shape |
| `Propagation.StepTransitions` | fuego.py:38-56 | every cell obeys the state machine: burning always becomes burned, empty and burned never change, fuel stays fuel or starts burning |
| `Propagation.IsolatedFuelStays` | fuego.py:43-47 | a fuel cell with no burning neighbour stays fuel, whatever the draws |
| `Propagation.IgnitionIffSomeTrialSucceeds` | fuego.py:43-56 | a fuel cell becomes burning exactly when some burning neighbour's draw is below that trial's clamped probability, which uses the fuel cell's slope and the aligned formula exactly when the offset is the wind vector; otherwise it stays fuel |
| `Propagation.CertainIgnition` | fuego.py:55-56 | once a trial's probability reaches 1, any draw in [0, 1) ignites the neighbour |
| `Propagation.WindAlignedFormula` | fuego.py:49-54 | with wind (1, 0), the fuel cell to the right of a burning cell is tried with 0.6 + 0.2·slope + 0.02·speed and the one to its left with 0.3 + 0.1·slope + 0.01·speed |
| `Propagation.AlwaysFailingDraws` | fuego.py:38-56 | when no trial of a burning cell against an in-bounds fuel neighbour draws below its clamped probability, the step only turns burning cells into burned cells and changes nothing else |
| `Propagation.DrawsAtLeastOne` | fuego.py:38-56 | in particular, when every draw is at least 1, the step only burns out the burning cells |
| `Propagation.AlwaysSucceedingDraws` | fuego.py:43-56 | when every draw is 0 and slope and speed are non-negative, a fuel cell catches fire exactly when it has a burning neighbour |
| `Propagation.QuiescentFixedPoint` | fuego.py:38-57 | a grid with no burning cell, in particular one of only empty and burned cells, is returned unchanged |
| `Propagation.RunStateMachine` | main.py:242-273 | over any number of hours, cells only move forward along fuel, burning, burned; nothing returns to fuel, empty and burned cells never change, and a burning cell is burned after one hour |
| `Propagation.Step` | fuego.py:34-57 | result is a fresh array of the input's dimensions whose contents equal `Next` of the input grid, slope, wind, speed and draws; input grid is not modified |
| `Propagation.SpreadFrom` | fuego.py:41-56 | for one burning cell, the copy goes from the scan state before that cell to the state after its burn-out and its nine trials |
| `Propagation.Trial` | fuego.py:45-56 | one trial changes only its target, and only when the target is an in-bounds fuel cell whose draw is below the clamped probability |

## Left out

- The trigonometry in `direccion_vector` (conversion to radians, `cos`, `sin`) is not modelled. `Wind.WindVector` takes the cosine and sine as given reals.
- Floating-point arithmetic is not modelled. Slopes, speeds, probabilities and draws are exact reals, so a comparison that float rounding would decide the other way is not represented.
- The pseudo-random generator is not modelled; it is replaced by the injected draw function. The model does not say which value the generator would produce for which trial, nor that draws are consumed only by in-bounds fuel neighbours. Results are stated for every choice of draws.
- Grid cells are the four-valued `Cell` type. An integer grid entry outside 0..3, which the source would never match against any state, is not representable.
- The driver loop in main.py is not modelled beyond `Propagation.Run`: the hourly wind fetch over HTTP, user input, manual ignition of the start cell, drawing, and export to shapefile, GIF or video. `Run` only says what repeated steps do to the grid.
- raster_utils.py (reading and resampling the slope and vegetation rasters) is not part of this model.

## Notes on the source

- The propagation loop also visits the offset (0, 0). That trial never happens, because the cell at offset (0, 0) is the burning cell itself and is not fuel. The model follows this: `Ignition` requires a fuel target.
- At radius 1 the fuel locator scans the full 3×3 square, centre included. So it returns the first fuel cell of that square in row-major order, not necessarily the nearest one (`FuelLocator.CentreNotPreferred`). For radii from 2 up, each square is rescanned in full, but the inner cells are known to hold no fuel by then. The answer therefore has the smallest scan square, and ties within it go to row-major order.
- The wind angle is used as a mathematical angle (0° points along +x, counter-clockwise). A meteorological bearing is measured from north and clockwise, so the two conventions differ. The model keeps the source's convention.
