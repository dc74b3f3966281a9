# perlin-shadows terrain core in Dafny

This project models the terrain height-field engine of perlin-shadows and proves its properties. The engine is a grid of heights filled with octaves of Perlin gradient noise, plus the mesh buffers built from that grid. The repository holds two revisions of it, and both are modelled:

- **The current revision** (`src/`). It is a fixed 512 x 512 `Grid` whose array is reached through `index(x, y) = x + y * kGeographyShort`. Around it are:
  - cell-wise operators;
  - `min`/`max` by a full scan;
  - the edge-clamped surface normal;
  - `PerlinNoise(detail)`;
  - the element buffer `indices()`;
  - `Geography::Randomize`, which sums octaves at halving weight while the lattice spacing stays above `kMinDetail`.
- **The first revision** (root `grid.h`, `grid.cpp`, `geography.h`, `geography.cpp`). It is a `width x length` grid whose `set` also keeps a running `minimum`/`maximum` high-water mark. Its operators are loops over `get`/`set`. It has `perlin_noise(seed, detail)`, the five-octave `Geography` constructor and the `simulate_drop` placeholder.

## Modules

| Module | File | What it holds |
|---|---|---|
| `Constants` | `constants.dfy` | `kGeographyShort`, `kGeographyLong`, `kTotalVertices`, `kVerticesPerCell`, `kTotalCells` and `kTotalIndices`. |
| `NoiseMath` | `noise_math.dfy` | `SmootherStep` and `Interpolate`. |
| `Vectors` | `vectors.dfy` | `Vec3` as a value. `MutableVec3` is the object whose compound assignments update its `data` array. |
| `PerlinLattice` | `perlin_lattice.dfy` | The lattice arithmetic shared by both noise generators: node count, corner index, offsets and the value of one cell (`CellNoise`). It also holds the octave sum `OctaveSum` with its amplitude bound. |
| `TerrainGrid` | `terrain_grid.dfy` | The `src/` grid class, `PerlinNoise` and the index buffer. |
| `TerrainGeography` | `terrain_geography.dfy` | The octave schedule of `src/geography.cpp` and `Geography::Randomize`. |
| `LegacyGrid` | `legacy_grid.dfy` | The root grid class with its high-water-mark `set`, and `perlin_noise`. |
| `LegacyGeography` | `legacy_geography.dfy` | The root `Geography` constructor and `simulate_drop`. |

## How the source is represented

- Heights are `real`.
- A lattice gradient is the pair (cos, sin) of its random angle. The random draws are an input:
  - `src/` `PerlinNoise` receives exactly `grid_nodes` gradients.
  - Root `perlin_noise` receives the stream its seeded engine would produce, and copies the first `grid_nodes` of them into `major_angles` in a loop, as the source does.
- The class fields the source updates in place are Dafny class fields or arrays:
  - `data_` / `data`;
  - `minimum` / `maximum`;
  - `height_` / `height`.
- The loops are `for` loops with invariants. The operators, `PerlinNoise` and `indices` all work this way.
- Octave i of the current revision uses lattice spacing `kDetail >> i` and weight `1 / (1 << i)`. `Pow2`, `ShiftRight` and `Weight` state these. The sum of the first n octaves is `PerlinLattice.OctaveSum`.

## Modelling choices

- **The normal of a flat neighbourhood.** `normal_at` builds its tangents from the clamped neighbour spans (src/grid.cpp:53-63). Each span is 1 or 2, so the vector it normalises has a z component of at least 1 and is never zero: a flat neighbourhood gives the straight-up normal. See `TerrainGrid.Grid.NormalAt`.
- **Min/max tracking.** The two revisions differ:
  - the root `grid.h` keeps a high-water mark in `set` (grid.h:13-17). `minimum` and `maximum` only widen, so they can report a value no cell holds any more (`LegacyGrid.StaleMaximum`);
  - `src/grid.h` scans the array on every call (src/grid.h:46-51).
  Both are modelled as written. For the root operators the model states the exact new marks: each is its old value or the value of some cell, whichever is further out (`LegacyGrid.Grid.Widened`). A grid built from scratch starts from marks 0, so its marks are exactly min(0, every cell) and max(0, every cell). The proofs carry, for each mark, the cell that last set it (`LegacyGrid.Grid.Tracks`).

## Model

| member | source | states |
|---|---|---|
| NoiseMath.SmootherStep | src/noise_math.h:6-15 | 0 for every t <= 0, 1 for every t >= 1, and always within [0, 1] |
| NoiseMath.QuinticSymmetric | src/noise_math.h:14 | the polynomial x^3(x(6x-15)+10) satisfies q(1-t) = 1 - q(t) |
| NoiseMath.QuinticInUnit | src/noise_math.h:3-5 | on [0, 1] the polynomial stays within [0, 1], as the comment promises |
| NoiseMath.QuinticNonNegative | src/noise_math.h:14 | the polynomial is non-negative for t >= 0 |
| NoiseMath.SmootherStepSymmetric | src/noise_math.h:6-15 | SmootherStep(1 - t) = 1 - SmootherStep(t) for every t, clamped branches included |
| NoiseMath.SmootherStepMidpoint | src/noise_math.h:13-14 | SmootherStep(0.5) = 0.5 |
| NoiseMath.QuinticDifference | src/noise_math.h:14 | q(t) - q(s) factors as (t - s) times a quartic divided difference |
| NoiseMath.DividedDifferenceNonNegative | src/noise_math.h:14 | on [0, 1]^2 that divided difference is never negative (all its Bernstein coefficients are non-negative) |
| NoiseMath.QuinticMonotone | src/noise_math.h:14 | the polynomial is non-decreasing on [0, 1] |
| NoiseMath.SmootherStepMonotone | src/noise_math.h:6-15 | SmootherStep is non-decreasing on all reals, clamped branches included |
| NoiseMath.MulFraction | src/noise_math.h:22 | s * d with s in [0, 1] lies between 0 and d: 0 at s = 0, d at s = 1 |
| NoiseMath.Interpolate | src/noise_math.h:17-23 | bound_0 when x <= 0, bound_1 when x >= 1, and always between min and max of the two bounds |
| NoiseMath.InterpolateMonotone | src/noise_math.h:17-23 | with bound_0 <= bound_1, moving x right never lowers the blend |
| Vectors.Dot | src/vec.cpp:7-9 | a vector dotted with itself is never negative |
| Vectors.DotSymmetric | src/vec.cpp:7-9 | dot is symmetric |
| Vectors.Cross | src/vec.cpp:11-17 | the cross product is orthogonal to both operands |
| Vectors.CrossAnticommutative | src/vec.cpp:11-17 | b x a = -(a x b) |
| Vectors.LengthSquared | src/vec.cpp:19-21 | length_squared is dot(self) and is never negative |
| Vectors.Scale | src/vec.cpp:31-33 | operator*(s) scales the squared length by s^2 |
| Vectors.Divide | src/vec.cpp:41-43 | operator/(s) is operator*(1/s): scaling the result by s gives the vector back |
| Vectors.Negate | src/vec.cpp:59-61 | unary minus is the additive inverse: a + (-a) = 0 |
| Vectors.Subtract | src/vec.cpp:63-65 | a - b is a + (-b): adding b to the result gives a back |
| Vectors.Add | src/vec.cpp:49-51 | componentwise sum; what it promises is stated by AddCommutative, AddSquaredLength and SubtractUndoesAdd |
| Vectors.AddCommutative | src/vec.cpp:49-51 | operator+ is commutative |
| Vectors.AddSquaredLength | src/vec.cpp:49-51 | dot distributes over operator+: (a + b).(a + b) = a.a + 2 a.b + b.b |
| Vectors.SubtractUndoesAdd | src/vec.cpp:49-65 | (a + b) - b = a |
| Vectors.NegateInvolutive | src/vec.cpp:59-61 | -(-a) = a |
| Vectors.SubAssignAsWrittenDisagrees | src/vec.cpp:63-69 | the as-written -= (v + w) agrees with operator- (v - w) exactly when w is the zero vector |
| Vectors.MutableVec3.constructor | src/vec.cpp:5 | the data array holds the three given components |
| Vectors.MutableVec3.MulAssign | src/vec.cpp:35-39 | *= leaves the vector operator* would build |
| Vectors.MutableVec3.DivAssign | src/vec.cpp:45-47 | /= leaves the vector operator/ would build |
| Vectors.MutableVec3.AddAssign | src/vec.cpp:53-57 | += leaves the vector operator+ would build |
| Vectors.MutableVec3.SubAssign | src/vec.cpp:67-69 | -= as written leaves v + w |
| Vectors.MutableVec3.SubAssignCorrected | src/vec.cpp:63-65 | -= as intended leaves the vector operator- would build |
| PerlinLattice.Pow2 | src/geography.cpp:30 | 1 << i is at least 1, so every octave weight is defined |
| PerlinLattice.ShiftRight | src/geography.cpp:27-30 | v >> i is v divided by 2^i rounded down: the largest r with r * 2^i <= v |
| PerlinLattice.Smaller | src/geography.cpp:13 | min(a, b) is at most both and equal to one of them |
| PerlinLattice.NodeCount | src/grid.cpp:74-76 | grid_nodes = (w / detail + 1) * (l / detail + 1); CornerInRange states that every corner index is below it |
| PerlinLattice.CornerIndex | src/grid.cpp:109-112 | major_y * major_width + major_x of the selected corner; CornerInRange and CornerOverrun bound it |
| PerlinLattice.CornerInRange | src/grid.cpp:74-76 | when detail divides both dimensions, every corner index major_y * major_width + major_x is below grid_nodes |
| PerlinLattice.CellWithinNodes | src/grid.cpp:109-112 | a corner with major_x <= w/detail and major_y <= l/detail is a node of the lattice |
| PerlinLattice.CornerOverrun | grid.cpp:95-97 | when detail fails to divide a dimension, the far corner of the last cell is at or past grid_nodes |
| PerlinLattice.LastCellPastNodes | grid.cpp:121-123 | a corner one step past the lattice in either direction indexes at or past grid_nodes |
| PerlinLattice.Offset | src/grid.cpp:94-95 | (0.5 + x % detail) / detail lies strictly inside (0, 1) |
| PerlinLattice.CornerValue | src/grid.cpp:107-119 | the dot_major contribution of a corner; with gradients from an angle it lies in (-2, 2) |
| PerlinLattice.CornerDot | src/grid.cpp:115-118 | cos * (x_offset - highX) + sin * (y_offset - highY); CornerDotBound bounds it |
| PerlinLattice.CornerDotBound | src/grid.cpp:115-118 | with offsets inside the cell, cos * dx + sin * dy of a unit gradient lies in (-2, 2) |
| PerlinLattice.CellNoise | src/grid.cpp:123-127 | the value of cell (x, y); with gradients from an angle it lies in (-2, 2) |
| PerlinLattice.CellNoiseBetweenCorners | src/grid.cpp:123-127 | the blended value lies between the least and the greatest of the four corner contributions |
| PerlinLattice.NoiseDependsOnLatticePrefix | grid.cpp:98-103 | the noise depends only on the first grid_nodes draws of the stream |
| PerlinLattice.Weight | src/geography.cpp:30 | the weight 1 / (1 << n) lies in (0, 1] |
| PerlinLattice.WeightedCell | src/geography.cpp:30 | a cell of octave n's noise divided by 1 << n is that octave's weighted term |
| PerlinLattice.WeightIsReciprocal | src/grid.cpp:47 | dividing by 1 << n is multiplying by Weight(n) |
| PerlinLattice.DivisionIsScaled | src/grid.cpp:47 | v * (1 / (1 << n)) is v at octave n's weight |
| PerlinLattice.OctaveSum | src/geography.cpp:27-31 | the sum of the first n weighted octaves; with unit gradients it stays within 4 - 4 / 2^n |
| PerlinLattice.OctaveSumStep | src/geography.cpp:30 | the sum of n + 1 octaves is the sum of n octaves plus octave n's weighted term |
| PerlinLattice.CellAccumulates | src/geography.cpp:30 | adding octave i's term to the sum of i octaves gives the sum of i + 1 |
| PerlinLattice.OctaveStep | src/geography.cpp:27-31 | an octave below 2 in magnitude, at weight 1 / 2^(n-1), keeps the running bound 4 - 4 / 2^n |
| PerlinLattice.AmplitudeIsWeighted | src/geography.cpp:30 | the bound after n octaves is 4 - 4 * Weight(n) |
| PerlinLattice.WeightHalves | src/geography.cpp:30 | each octave weighs half the one before |
| TerrainGrid.Index | src/grid.h:15-17 | index(x, y) is below kTotalVertices, and x and y are recovered from it |
| TerrainGrid.IndexOnto | src/grid.cpp:140-142 | every slot of the array is index(x, y) of some cell, so the pass over all cells covers it |
| TerrainGrid.IndexInjective | src/grid.h:15-17 | distinct cells have distinct indices |
| TerrainGrid.ClampLow | src/grid.cpp:53 | low_x <= x |
| TerrainGrid.ClampHigh | src/grid.cpp:54 | x <= high_x < kGeographyWidth |
| TerrainGrid.NeighbourSpan | src/grid.cpp:53-56 | on an axis of at least two cells, high - low is 1 or 2 |
| TerrainGrid.Grid.constructor | src/grid.h:54-55 | a fresh grid's array is all zeros |
| TerrainGrid.Grid.Get | src/grid.h:21-23 | get(x, y) reads data_[index(x, y)]; Set states that it reads back what was stored |
| TerrainGrid.Grid.Set | src/grid.h:24-26 | get then yields the value, and no other cell changes |
| TerrainGrid.Grid.Plus | src/grid.cpp:13-19 | a fresh grid holding the cell-wise sum |
| TerrainGrid.Grid.AddAssign | src/grid.cpp:21-25 | every cell gains the matching old cell of other; other's array is untouched unless it is this one |
| TerrainGrid.Grid.Times | src/grid.cpp:33-39 | a fresh grid with every cell multiplied by val |
| TerrainGrid.Grid.MultiplyAssign | src/grid.cpp:41-45 | every cell multiplied by val in place |
| TerrainGrid.Grid.Negated | src/grid.cpp:27 | operator*(-1): every cell negated |
| TerrainGrid.Grid.Minus | src/grid.cpp:29 | operator+(-other): the cell-wise difference |
| TerrainGrid.Grid.SubtractAssign | src/grid.cpp:31 | operator+=(-other): every cell loses the matching old cell of other |
| TerrainGrid.Grid.DividedBy | src/grid.cpp:47 | operator*(1 / val): every cell times 1 / val |
| TerrainGrid.Grid.DivideAssign | src/grid.cpp:49 | operator*=(1 / val) in place |
| TerrainGrid.Grid.Min | src/grid.h:46-48 | at most every cell, and equal to some cell |
| TerrainGrid.Grid.Max | src/grid.h:49-51 | at least every cell, and equal to some cell |
| TerrainGrid.Grid.XTangent | src/grid.cpp:58-60 | x_diff has x component high_x - low_x in [1, 2] and y component 0 |
| TerrainGrid.Grid.YTangent | src/grid.cpp:61-63 | y_diff has x component 0 and y component high_y - low_y in [1, 2] |
| TerrainGrid.Grid.NormalAt | src/grid.cpp:51-64 | the un-normalised normal is orthogonal to both tangents and has z >= 1, so it is never zero and points up |
| TerrainGrid.NormalClosedForm | src/grid.cpp:58-64 | the normal is (-a dhx dy, -a dhy dx, dx dy) for the clamped spans dx and dy |
| TerrainGrid.PerlinNoise | src/grid.cpp:70-133 | a fresh grid in which every cell holds CellNoise of its coordinates |
| TerrainGrid.Slot | src/grid.cpp:161 | slot indexInd + c is inside the buffer and maps back to its quad and corner |
| TerrainGrid.SlotsCover | src/grid.cpp:159-161 | every slot of the buffer is the slot of some quad and corner |
| TerrainGrid.SlotsDisjoint | src/grid.cpp:161 | slots of distinct quads or corners never coincide |
| TerrainGrid.CornerVertex | src/grid.cpp:162-167 | each of the six corners names a vertex below kTotalVertices |
| TerrainGrid.SlotRange | src/grid.cpp:161 | the slots of quad (x, y) are exactly the six from indexInd |
| TerrainGrid.WriteQuad | src/grid.cpp:161-167 | the six writes of one quad give its corner vertices, and no other slot changes |
| TerrainGrid.QuadStep | src/grid.cpp:159-168 | writing quad (x, y) after all earlier quads leaves every quad up to (x, y) written |
| TerrainGrid.Indices | src/grid.cpp:157-171 | every slot holds the corner vertex its quad and corner call for, and every value is below kTotalVertices |
| TerrainGeography.OctaveDetail | src/geography.cpp:27-30 | kDetail >> i; Schedule pins its values for every octave |
| TerrainGeography.Schedule | src/geography.cpp:13-14 | the spacings are 128, 64, 32 and 16, all above kMinDetail and dividing 512; the fifth equals kMinDetail |
| TerrainGeography.ScheduleFits | src/geography.cpp:27 | gradient tables shaped for the schedule meet every octave's lattice precondition |
| TerrainGeography.TerrainHeight | src/geography.cpp:27-31 | the four-octave height; with unit gradients it stays within 3.75 |
| TerrainGeography.WeightedOctave | src/geography.cpp:30 | PerlinNoise(kDetail >> i) / (1 << i) holds octave i's weighted term in every cell |
| TerrainGeography.HeightAccumulates | src/geography.cpp:30 | adding octave i to a cell holding i octaves leaves i + 1 octaves |
| TerrainGeography.OctaveAccumulates | src/geography.cpp:30 | the same, for every cell at once |
| TerrainGeography.NoOctaves | src/geography.cpp:25 | a zero grid is the sum of no octaves |
| TerrainGeography.AllOctaves | src/geography.cpp:27-31 | after all octaves of the schedule, each cell holds its terrain height |
| TerrainGeography.AddOctave | src/geography.cpp:30 | one pass of the loop turns i octaves into i + 1 in every cell |
| TerrainGeography.Geography.Randomize | src/geography.cpp:21-35 | height_ is a fresh grid in which every cell holds the four-octave sum |
| TerrainGeography.Geography.constructor | src/geography.cpp:16-19 | the new terrain's cells hold the four-octave sum |
| LegacyGrid.Flat | grid.h:10-12 | x + y * width; FlatInRange and FlatInjective state that it is a one-to-one map of the cells into data |
| LegacyGrid.FlatInRange | grid.h:10-14 | x + y * width is inside data for every cell |
| LegacyGrid.FlatInjective | grid.h:13-14 | distinct cells have distinct places |
| LegacyGrid.Grid.constructor | grid.h:36-39 | every cell 0, minimum and maximum 0 |
| LegacyGrid.Grid.Get | grid.h:10-12 | get(x, y) reads data[x + y * width]; Set states that it reads back what was stored |
| LegacyGrid.Grid.Set | grid.h:13-17 | stores v at (x, y) only; minimum and maximum widen to take v in, and still bracket every cell |
| LegacyGrid.Grid.Min | grid.h:29 | min() is at most every cell and at most 0 |
| LegacyGrid.Grid.Max | grid.h:30 | max() is at least every cell and at least 0 |
| LegacyGrid.Grid.Plus | grid.cpp:6-15 | a fresh grid filled through set with the cell-wise sum; its marks are exactly min(0, every cell) and max(0, every cell) |
| LegacyGrid.Grid.AddAssign | grid.cpp:17-24 | every cell gains the matching old cell of other; other is unchanged unless it is this grid; the marks are widened exactly: each is its old value or some cell's new value, and still brackets every cell |
| LegacyGrid.Grid.AddColumn | grid.cpp:20-22 | one pass of the outer loop adds other's column x, even when other is this grid, and extends the marks over that column |
| LegacyGrid.Grid.SetInPass | grid.h:13-17 | set at (x, y) in a pass stores the value there only and widens the marks to take it in; marks that were the start value or a visited cell's value stay so, now counting (x, y) as visited |
| LegacyGrid.Grid.Negated | grid.cpp:26-35 | a fresh grid holding every cell negated; its marks are exactly min(0, every cell) and max(0, every cell) |
| LegacyGrid.Grid.Minus | grid.cpp:37-40 | operator+(-other): a fresh grid holding the cell-wise difference; its marks are exactly min(0, every cell) and max(0, every cell) |
| LegacyGrid.Grid.SubtractAssign | grid.cpp:42-45 | operator+=(-other): every cell loses the matching old cell of other, and the marks are widened exactly as by AddAssign |
| LegacyGrid.Grid.Times | grid.cpp:47-56 | a fresh grid filled through set with every cell times val; its marks are exactly min(0, every cell) and max(0, every cell) |
| LegacyGrid.Grid.MultiplyAssign | grid.cpp:58-65 | every cell times val in place, through set; the marks are widened exactly: each is its old value or some cell's new value |
| LegacyGrid.Grid.DividedBy | grid.cpp:67-70 | operator*(1 / val): a fresh grid holding every cell times 1 / val; its marks are exactly min(0, every cell) and max(0, every cell) |
| LegacyGrid.Grid.DivideAssign | grid.cpp:72-75 | operator*=(1 / val), with the marks widened as by MultiplyAssign |
| LegacyGrid.CellsBracketed | grid.h:15-16 | under the high-water-mark invariant every cell lies between minimum and maximum |
| LegacyGrid.StaleMaximum | grid.h:29-30 | after set(0, 0, 5) then set(0, 0, 1), max() still reports 5, which no cell holds |
| LegacyGrid.PerlinNoise | grid.cpp:84-149 | every cell holds CellNoise over the first grid_nodes draws, and so over the whole stream; its marks are exactly min(0, every cell) and max(0, every cell) |
| LegacyGrid.FillNoiseColumn | grid.cpp:107-145 | one pass of the x loop sets every cell of column x to its noise value, leaves the other columns alone, and extends the marks over the column |
| LegacyGrid.SetNoiseCell | grid.cpp:106-144 | one pass of the cell loop sets (x, y) to its noise value and nothing else; minimum and maximum take in the new value |
| LegacyGrid.DotMajor | grid.cpp:120-127 | the dot_major lambda reads major_angles in range and yields the corner's contribution |
| LegacyGeography.WeightedOctave | geography.cpp:8 | perlin_noise(detail >> i) / (1 << i) holds octave i's weighted term in every cell |
| LegacyGeography.ScaledOctave | geography.cpp:8 | dividing octave i's cells by 1 << i gives that octave's terms |
| LegacyGeography.Geography.HeightAt | geography.h:9 | height_at lies within the grid's min() and max() |
| LegacyGeography.Geography.constructor | geography.cpp:5-10 | every cell holds the sum of five octaves of detail (min(w, l) >> 2) >> i at weight 1 / 2^i |
| LegacyGeography.Geography.AddOctave | geography.cpp:8 | one pass of the constructor's loop turns i octaves into i + 1 in every cell; the height's marks are widened exactly, never narrowed |
| LegacyGeography.BaseDetail | geography.cpp:6 | min(width, length) >> 2 is at most a quarter of either dimension |
| LegacyGeography.Geography.SimulateDrop | geography.cpp:12-14 | the cell loses exactly 1, no other cell changes, minimum takes in the new value and maximum stays |
| LegacyGeography.Geography.SimulateRandomDrop | geography.cpp:16-18 | always the centre cell (width / 2, length / 2) loses 1 and no other cell changes; minimum takes in the new value and maximum stays |
| LegacyGeography.HeaderDimensionsOverrun | geography.h:19-24 | with 950 x 950 the first detail is 237, which does not divide 950; the far corner of cell (949, 949) is node 30 of 25, so no draws satisfy the constructor |
| LegacyGeography.PowerOfTwoDimensionsFit | grid.cpp:83 | with 512 x 512, all five details 128 .. 8 divide both sides, so the constructor can be called |

## Left out

- Trigonometry and randomness:
  - `sin`/`cos` of the gradient angles, `UniformFloat`, the seeded engines, `Seed()` and `RandomizeBase` are not modelled.
  - The gradients are an input: one table per octave, or the draw stream of a seeded engine.
- `glm::normalize`, `Vec3::length` and `Vec3::norm`: these are square roots. The normal is the un-normalised cross product.
- Floating point: heights, offsets and weights are exact reals. Rounding, NaN and infinity are not modelled.
- `operator/` and `operator/=` by zero: the model requires a non-zero divisor, because the source's IEEE infinities are not modelled.
- `Grid::vertices()`: the float position scaling (which uses an undefined `kMinGeographyMagnitude`), the colour and the normal amplification are left out. Its slot coverage is `TerrainGrid.IndexOnto` and `TerrainGrid.IndexInjective`.
- The timing and `cout` output in `Randomize`.
- `Grid::perlin_noise(detail)` in the root `grid.cpp` has no return statement, which is undefined behaviour. The root constructor's call to it is modelled as `perlin_noise(seed, detail)` with a draw stream per octave.
  - That overload seeds with `time(0)` (grid.cpp:79, 89), so octaves drawn within the same second replay the same draws. The model gives each octave its own stream, and the streams are unconstrained inputs: equal streams are one case of them, so every property proved holds for the replayed draws too, but the model does not require them to be equal.
- The sediment droplets: `src/geography.h:17-18` declares `simulate_drop` and `simulate_random_drop` but `src/geography.cpp` never defines them, so they are not modelled. (The root revision's definitions are `LegacyGeography.Geography.SimulateDrop` and `SimulateRandomDrop`.)
- Type signatures:
  - The `PerlinNoise` declaration in `src/grid.h` disagrees with its definition; the definition `PerlinNoise(detail)` is modelled.
  - The root `perlin_noise` is declared `void` but returns a grid; it is modelled as returning one. Both declarations (grid.h:32-33) also take a trailing `const double` that the definitions (grid.cpp:78, 85) lack; the model follows the definitions and has no such parameter.
  - `src/grid.cpp:70` `Grid::PerlinNoise` returns a `Grid *`, and `src/geography.cpp:30` divides that pointer by `1 << i` and never frees the grid. The model reads the line as `*PerlinNoise(kDetail >> i) / (1 << i)`: the octave's grid, divided. The leak of each octave is not modelled.
- `kGeographyWidth`/`kGeographyLength` are used in `src/grid.cpp` but never defined. They are taken to be `kGeographyShort`/`kGeographyLong`.
- The root `math.h` `interpolate` is not part of this model. It is taken to be `Interpolate` from `src/noise_math.h`.
- Integer widths: `size_t` arithmetic is modelled unbounded. The dimensions the source uses (512 x 512 in `src/`, 950 x 950 in the root `geography.h`) keep every index far below 2^32, so nothing wraps there. `LegacyGrid` and `LegacyGeography` take any width and length, and for dimensions large enough to wrap a 64-bit `size_t` the model does not follow the source.
- Rendering, shaders, camera and lights: these are foreign calls into GL and glm, and are not modelled.
- Concurrency: the source has none.
- TerrainGeography.Geography.Randomize: the fresh grid is built in a local variable and assigned to `height_` once the loop ends. The source assigns first and accumulates into the field. This is the same final state, but the intermediate states of the field are not captured.

## Findings

| source | as written | input that shows it | evidently intended | confidence | as-written member | corrected member |
|---|---|---|---|---|---|---|
| src/vec.cpp:67-69 | `operator-=` calls `operator+=(other)`, so `v -= w` adds w | v = (0, 0, 0), w = (1, 0, 0): v becomes (1, 0, 0), not (-1, 0, 0) | `operator+=(-other)`, matching `operator-` | high, not executed | Vectors.MutableVec3.SubAssign | Vectors.MutableVec3.SubAssignCorrected |
| geography.h:19-24 | width = length = 19 * 50 = 950, so the first octave's detail is 950 >> 2 = 237, which does not divide 950 | cell (949, 949), high corner: index 30 into a lattice of 25 nodes | power-of-two dimensions, as grid.cpp:83 assumes (for example 512, as the later revision uses) | high, not executed | LegacyGeography.HeaderDimensionsOverrun | LegacyGeography.PowerOfTwoDimensionsFit |
