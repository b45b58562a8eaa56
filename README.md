# svg-sketches: a verified model of the noise engine and the sketch geometry

This project models the computational core of the svg-sketches repository, a set
of generative pen-plotter sketches built on paper.js. It covers five parts:

- **`NoiseLib`** (`noise.dfy`) models the seeded gradient-noise engine of
  `lib/noise.js`. A `Noise` object owns a 512-entry permutation table. The
  constructor builds it imperatively: it fills the identity 0..255 into an
  array, shuffles it in place with a Fisher-Yates pass driven by the
  Park-Miller MINSTD generator (`s = s * 16807 % 2147483647`), and duplicates
  it. The constructor is proved equal to a recursive reference definition,
  `PermTableOf`, of which permutation and duplication are proved.
  `fade`, `lerp`, `grad2D`, `grad3D`, `noise2D` and `noise3D` are functions over
  exact reals. Every table lookup is proved in bounds. The noise is proved to
  be 0 at lattice points and to repeat every 256 units. `grad2D` and `grad3D`
  are proved to be dot products with a fixed gradient table. One consequence
  shows up: in 2D, hashes 1 and 2 select the same gradient `(-1, 1)`, so
  `grad2D` uses three distinct directions, not four.
- **`Utils`** (`utils.dfy`) models `clamp`, `map`, `lerp`, `random`,
  `randomInt` and `randomChoice` of `lib/utils.js`. The value of
  `Math.random()` is an explicit parameter `r` in [0, 1).
- **`Spirograph`** (`spirograph.dfy`) models Euclid's `gcd` of
  `013-spirograph/sketch.js` as a `while` loop. It also models the count of
  rolling-circle turns after which the curve closes, and the step count
  derived from it.
- **`ScanLines`** (`scanlines.dfy`) models the run-length scan that
  `006-grid-cluster` and `007-nested-organic` both run. A yes/no region
  predicate is sampled at `50, 58, ..., 746` along each of 88 rows and 88
  columns. Each run of true samples becomes one line segment. The scan is an
  imperative method with the source's `inLine`/`lineStart` flags. It is
  proved equal to a recursive reference segmentation, whose properties are
  then proved: order, coverage and segment count.
- **`GridCluster`** (`grid_cluster.dfy`) and **`NestedOrganic`**
  (`nested_organic.dfy`) model what each of the two sketches feeds the scan:
  - 006: the layered-noise threshold `shouldDraw` and the symbol guard;
  - 007: even-odd ray casting, the distance to the nearest polygon edge,
    `isGridRegion`, and the bucketed symbol count.

The three `Math.random()` calls of the sketches become parameters. Distances in
007 are kept squared, and the two non-finite values the source can produce
are explicit:
- `Infinity` is the start value of the running minimum;
- `NaN` comes from the `0 / 0` of a zero-length edge.

A trailing run in the scan is closed at the fixed coordinate 750, not at the
last sample 746. The model keeps this, as the code does.

## Model

| member | source | states |
|---|---|---|
| NoiseLib.NextState | lib/noise.js:18 | one generator step from a non-negative state gives a state in [0, 2147483647) |
| NoiseLib.ExactStep | lib/noise.js:18 | for an integer state in [0, 2147483647) the product `s * 16807` is below 2^53, so the generator step is exact in a JavaScript number |
| NoiseLib.SwapIndex | lib/noise.js:19 | the swap partner `s % (i + 1)` of position `i` lies in [0, i] for a non-negative state |
| NoiseLib.Swap | lib/noise.js:20 | the destructuring swap exchanges entries `i` and `j`, leaves every other entry alone and keeps the multiset |
| NoiseLib.Shuffle | lib/noise.js:16-21 | the shuffle steps `i` down to 1 keep the table's length and multiset |
| NoiseLib.ShuffledIsPermutation | lib/noise.js:12-21 | after the seeded shuffle the 256 entries are a permutation of 0..255: every entry is a byte and every byte occurs |
| NoiseLib.PermTableDuplicated | lib/noise.js:23-25 | the finished table has 512 entries, its first half is the shuffled permutation, `perm[k] == perm[k % 256]` and `perm[k + 256] == perm[k]` |
| NoiseLib.Noise.IdentityArray | lib/noise.js:12-13 | the fill loop leaves a fresh 256-entry array holding `p[i] == i` |
| NoiseLib.Noise.ShuffleInPlace | lib/noise.js:16-21 | the in-place shuffle loop leaves exactly the reference shuffle of the array's old contents |
| NoiseLib.Noise.Duplicate | lib/noise.js:23-25 | the duplication loop gives a fresh 512-entry array with `perm[m] == p[m & 255]` |
| NoiseLib.Noise.constructor | lib/noise.js:7-26 | the table built by the three loops is the reference table `PermTableOf(seed)` |
| NoiseLib.SameSeedTwice | lib/noise.js:16-25 | two noise objects made from the same seed hold the same table and give the same `noise2D` values |
| NoiseLib.Mask255 | lib/noise.js:30-31 | `n & 255` is a byte congruent to `n` modulo 256 |
| NoiseLib.Mask255Periodic | lib/noise.js:51-53 | `n & 255` does not change when `n` moves by a multiple of 256 |
| NoiseLib.Frac | lib/noise.js:33-34 | `x - floor(x)` lies in [0, 1) and is 0 at whole numbers |
| NoiseLib.FloorShift | lib/noise.js:55-57 | shifting by a whole number moves the floor by it and keeps the fractional part |
| NoiseLib.Fade | lib/noise.js:85-87 | `fade(0) == 0` and `fade(1) == 1` |
| NoiseLib.Lerp | lib/noise.js:89-91 | `lerp(a, b, 0) == a` and `lerp(a, b, 1) == b` |
| NoiseLib.Grad2D | lib/noise.js:93-98 | `grad2D(h, 0, 0) == 0` for every hash |
| NoiseLib.Grad2DIsDotProduct | lib/noise.js:93-98 | `grad2D` is the dot product with the gradient `h & 3` selects, depends only on `h & 3`, and hashes 1 and 2 give the same value |
| NoiseLib.Grad3D | lib/noise.js:100-105 | `grad3D(h, 0, 0, 0) == 0` for every hash |
| NoiseLib.Grad3DLowBits | lib/noise.js:101 | `grad3D` depends only on `h & 15` |
| NoiseLib.Grad3DIsDotProduct | lib/noise.js:100-105 | for `h` in [0, 16), `grad3D` is the dot product with the `h`-th improved-noise gradient, including the cases 12 and 14 that use `x` |
| NoiseLib.Gradients3DAreCubeEdges | lib/noise.js:100-105 | every 3D gradient points to a cube-edge midpoint and the first twelve are distinct |
| NoiseLib.Noise.Hash | lib/noise.js:39-40 | a compound index `perm[i] + offset` and its successor are inside the 512-entry table |
| NoiseLib.Noise.Noise2D | lib/noise.js:29-47 | `noise2D` is 0 at every integer lattice point |
| NoiseLib.Noise.Cell2D | lib/noise.js:36-46 | the interpolated corner gradients vanish at the cell's origin |
| NoiseLib.Noise.Noise2DPeriodic | lib/noise.js:29-47 | `noise2D(x + 256 i, y + 256 j) == noise2D(x, y)` |
| NoiseLib.Noise.Noise3D | lib/noise.js:50-83 | `noise3D` is 0 at every integer lattice point |
| NoiseLib.Noise.Cell3D | lib/noise.js:59-82 | the interpolated corner gradients vanish at the cell's origin, with every compound lookup `AA + 1` to `BB + 1` in bounds |
| NoiseLib.Noise.Noise3DPeriodic | lib/noise.js:50-83 | `noise3D` repeats every 256 units along each axis |
| Utils.Clamp | lib/utils.js:91-93 | for `min <= max` the result lies in [min, max], equals `value` inside it and the nearer bound outside; for `min > max` it is `max` |
| Utils.ClampIdempotent | lib/utils.js:91-93 | clamping twice equals clamping once |
| Utils.Map | lib/utils.js:84-86 | `map(inMin, ...) == outMin` and `map(inMax, ...) == outMax` |
| Utils.MapRoundTrip | lib/utils.js:84-86 | mapping into the output range and back recovers the input |
| Utils.MapMonotonic | lib/utils.js:84-86 | with both ranges increasing, `map` keeps order |
| Utils.Lerp | lib/utils.js:98-100 | `lerp(a, b, 0) == a`, `lerp(a, b, 1) == b`, and for `t` in [0, 1] the result lies between `a` and `b` |
| Utils.Random | lib/utils.js:63-65 | `random(min, max)` lies in [min, max) when `min < max`, is `min` when they are equal, and lies in (max, min] when `max < min` |
| Utils.RandomInt | lib/utils.js:70-72 | `randomInt(min, max)` is an integer in [min, max] when `min <= max` |
| Utils.ChoiceIndex | lib/utils.js:78 | the index `floor(r * length)` lies in [0, length) for a non-empty array |
| Utils.RandomChoice | lib/utils.js:77-79 | an element of the array is returned exactly when the array is non-empty |
| Spirograph.Abs | 013-spirograph/sketch.js:9-10 | `Math.abs` returns `n` or `-n` and is non-negative |
| Spirograph.Round | 013-spirograph/sketch.js:9-10 | `Math.round(x)` is the integer within half a unit of `x`, halves rounding up |
| Spirograph.EuclidStep | 013-spirograph/sketch.js:12-14 | one loop step keeps the set of common divisors |
| Spirograph.Gcd | 013-spirograph/sketch.js:8-17 | the result is non-negative, divides both rounded absolute inputs, is divisible by every common divisor, equals `abs(a)` when `b` rounds to 0, and bounds every positive common divisor when an input is non-zero |
| Spirograph.Radii | 013-spirograph/sketch.js:24-25 | the radii satisfy `120 <= R < 280` and `15 <= r < 0.85 R` |
| Spirograph.QuotientOfDivisor | 013-spirograph/sketch.js:31 | `r / g` is an exact positive integer at most `r` |
| Spirograph.ClosesAfterRotations | 013-spirograph/sketch.js:29-31 | when `g` divides `R` and `q * g == r`, `r` divides `q * R`: after `q` turns around the fixed circle the rolling circle has turned a whole number `q * R / r` of times, so the curve closes |
| Spirograph.PatternLength | 013-spirograph/sketch.js:30-32 | `g` is the gcd of `R` and `r`, `rotations = r / g` is a positive integer after which the curve closes, and `steps = max(800, 120 rotations)` |
| ScanLines.LineSamples | 006-grid-cluster/sketch.js:31-32 | the 88 samples of a line are the predicate at `x = 50 + 8k` |
| ScanLines.ScanLine | 006-grid-cluster/sketch.js:28-54 | the imperative scan of one line emits exactly the reference segments of its samples |
| ScanLines.ScanStep | 006-grid-cluster/sketch.js:34-45 | each sample opens a run, extends it, closes it at `x - gridSize`, or skips a false sample, keeping the scan's invariant |
| ScanLines.ScanDone | 006-grid-cluster/sketch.js:47-54 | after the last sample an open run is closed at 750 and the segments are complete |
| ScanLines.RunEndAt | 006-grid-cluster/sketch.js:31-45 | a run of true samples that stops at a false sample or the end of the line ends exactly there |
| ScanLines.SegmentAt | 006-grid-cluster/sketch.js:31-54 | every segment opens at a rising edge, covers only true samples and closes mid-line, or at 750 when it is the last |
| ScanLines.SegmentsApart | 006-grid-cluster/sketch.js:37-45 | consecutive segments are separated by a gap |
| ScanLines.TrueSampleCovered | 006-grid-cluster/sketch.js:31-46 | every true sample lies in some segment |
| ScanLines.SegmentsOrdered | 006-grid-cluster/sketch.js:31-46 | segments lie in [50, 750], have `start <= end`, come in increasing order and do not overlap |
| ScanLines.SegmentsOpenAtRisingEdge | 006-grid-cluster/sketch.js:34-36 | a segment opens only at a true sample whose predecessor, if any, is false |
| ScanLines.SegmentsClose | 006-grid-cluster/sketch.js:37-54 | a segment closes one step before a false sample; only the last can close at 750, and then the last sample is true |
| ScanLines.SegmentsCoverTrueSamples | 006-grid-cluster/sketch.js:31-55 | a sample lies in a segment exactly when it is true, and in at most one |
| ScanLines.SegmentCountIsRisingEdges | 006-grid-cluster/sketch.js:34-54 | the number of segments equals the number of false-to-true transitions, a true first sample counting as one |
| ScanLines.UniformLines | 006-grid-cluster/sketch.js:31-54 | an all-true line gives the single segment [50, 750] and an all-false line gives none |
| ScanLines.HorizontalLines | 006-grid-cluster/sketch.js:27-55 | the row loop emits the lines of the 88 rows `y = 50 .. 746` in order, each row's segments drawn at its `y` |
| ScanLines.VerticalLines | 006-grid-cluster/sketch.js:58-86 | the column loop emits the lines of the 88 columns `x = 50 .. 746` in order |
| ScanLines.HorizontalLinesInArea | 006-grid-cluster/sketch.js:27-55 | every horizontal line lies on a row, runs left to right and stays inside [50, 750] |
| ScanLines.VerticalLinesInArea | 006-grid-cluster/sketch.js:58-86 | every vertical line lies on a column, runs top to bottom and stays inside [50, 750] |
| GridCluster.ShouldDraw | 006-grid-cluster/sketch.js:13-22 | three octaves at frequencies 0.012, 0.025 and 0.05 with weights 1, 0.5 and 0.25, against the threshold 0.15: since the weights sum to 1.75, a cell is drawn only where some octave exceeds 3/35, and always where all three do |
| GridCluster.NotDrawnOnCoarseLattice | 006-grid-cluster/sketch.js:13-22 | at points whose coordinates are multiples of 1000 all three octaves are 0, so `shouldDraw` is false there; no such point lies among the sampled coordinates 50..746, so this is a sanity fact about the layered noise, not about what is drawn |
| GridCluster.OctaveOnLattice | 006-grid-cluster/sketch.js:16-18 | an octave whose frequency times 1000 is whole samples a lattice point at such a point |
| GridCluster.ShouldDrawPeriodic | 006-grid-cluster/sketch.js:13-22 | `shouldDraw` repeats every 256000 units along each axis; the period is far larger than the sampled range 50..746, so no two sampled cells are related by it; a sanity fact about the layered noise, not about what is drawn |
| GridCluster.OctavePeriodic | 006-grid-cluster/sketch.js:16-18 | an octave repeats when the frequency times the shift is a multiple of 256 |
| GridCluster.PlacesSymbol | 006-grid-cluster/sketch.js:91 | a symbol is placed exactly at a drawn cell whose random draw is below 0.08, so only at drawn cells |
| GridCluster.SymbolType | 006-grid-cluster/sketch.js:93 | the symbol kind is one of 0, 1, 2 and 3 |
| GridCluster.HorizontalLines | 006-grid-cluster/sketch.js:27-55 | the horizontal scan with `shouldDraw` as the predicate |
| GridCluster.VerticalLines | 006-grid-cluster/sketch.js:58-86 | the vertical scan with `shouldDraw` as the predicate |
| GridCluster.RowCoversDrawnCells | 006-grid-cluster/sketch.js:31-55 | in each row, a sample lies in a drawn segment exactly when `shouldDraw` holds there |
| GridCluster.ColumnCoversDrawnCells | 006-grid-cluster/sketch.js:58-86 | in each column, a sample lies in a drawn segment exactly when `shouldDraw` holds there |
| NestedOrganic.CrossingX | 007-nested-organic/sketch.js:40 | the crossing abscissa is computed only for a straddling edge, so the division is by a non-zero amount, and it lies between the edge's ends |
| NestedOrganic.PointInPolygon | 007-nested-organic/sketch.js:35-45 | the loop returns the parity of the number of edges passing the crossing test, and false for an empty polygon |
| NestedOrganic.OutsideBoundingBox | 007-nested-organic/sketch.js:35-45 | a point above or level with, below, or right of every vertex is outside |
| NestedOrganic.MinDistance | 007-nested-organic/sketch.js:57 | `Math.min` of two distances: `NaN` wins, `Infinity` loses, otherwise the smaller |
| NestedOrganic.Clamp01 | 007-nested-organic/sketch.js:54 | `Math.max(0, Math.min(1, u))` lies in [0, 1] |
| NestedOrganic.ClampedParameter | 007-nested-organic/sketch.js:54 | the projection parameter of an edge of non-zero length lies in [0, 1] |
| NestedOrganic.SegmentDistance | 007-nested-organic/sketch.js:53-56 | one edge's distance is NaN exactly when the edge has zero length, and otherwise finite and non-negative |
| NestedOrganic.ProjectionIsNearest | 007-nested-organic/sketch.js:54-56 | the clamped projection point is no farther from the point than either end of the edge |
| NestedOrganic.ClampedStep | 007-nested-organic/sketch.js:54 | clamping the projection parameter into [0, 1] never makes the distance larger than at either end |
| NestedOrganic.NearestPointBound | 007-nested-organic/sketch.js:51-56 | a finite edge distance is at most the distance to either end vertex |
| NestedOrganic.DistToPolygonEdge | 007-nested-organic/sketch.js:47-60 | the loop returns the running `Math.min` over all edges `(i, (i + 1) % n)`, starting from `Infinity` |
| NestedOrganic.EdgeDistancesIsMinimum | 007-nested-organic/sketch.js:48-58 | without zero-length edges, the running minimum is finite, attained by an edge and no larger than any edge's distance |
| NestedOrganic.ZeroLengthEdgeGivesNaN | 007-nested-organic/sketch.js:54-57 | once an edge of zero length is met, the minimum stays NaN |
| NestedOrganic.DistanceToEdgeProperties | 007-nested-organic/sketch.js:47-60 | the result is Infinity for an empty polygon, NaN when an edge has zero length, and otherwise non-negative, attained by an edge and at most the distance to any vertex |
| NestedOrganic.ExceedsIsRootComparison | 007-nested-organic/sketch.js:97-99 | comparing the squared distance with the threshold agrees with comparing the root |
| NestedOrganic.IsGridRegion | 007-nested-organic/sketch.js:95-100 | a point in the grid region is inside the blob; the threshold it is compared with is `EdgeNoise`, `noise2D(0.02 x, 0.02 y) * 12` |
| NestedOrganic.EdgeNoiseOnLattice | 007-nested-organic/sketch.js:98 | where both coordinates are multiples of 50 (among the sampled ones 50, 250, 450 and 650) the noise threshold is 0 |
| NestedOrganic.GridRegionCases | 007-nested-organic/sketch.js:95-100 | no point outside the blob's bounding box or over a blob with two consecutive equal vertices (a zero-length edge) is in the region, and a point inside a proper blob where the threshold is negative is |
| NestedOrganic.HorizontalLines | 007-nested-organic/sketch.js:120-148 | the horizontal scan with `isGridRegion` as the predicate, with the same open, close and trailing-750 rules as in 006 |
| NestedOrganic.VerticalLines | 007-nested-organic/sketch.js:151-179 | the vertical scan with `isGridRegion` as the predicate |
| NestedOrganic.RowCoversGridCells | 007-nested-organic/sketch.js:120-148 | in each row, a sample lies in a segment exactly when it is in the grid region, and then it is inside the blob |
| NestedOrganic.ColumnCoversGridCells | 007-nested-organic/sketch.js:151-179 | in each column, a sample lies in a segment exactly when it is in the grid region, and then it is inside the blob |
| NestedOrganic.NumSymbols | 007-nested-organic/sketch.js:228-231 | the count lies in [4, 11] when `density > 0.3`, in [2, 5] when `0 < density <= 0.3`, and in [1, 2] otherwise |

## Left out

- All paper.js drawing is left out: `Path`, `Point`, `Path.Line`, `Path.Rectangle`, `Path.Circle` and `paper.view.draw`. These are foreign library calls. The scans return the lines they would draw as `Line` values.
- The browser plumbing of `lib/utils.js` is left out: `setupPaper`, `saveSVG`, `clear`, `setupKeys` and the `window` assignments. It is DOM I/O.
- `Math.random()` is not modelled. Each use is an explicit parameter in [0, 1).
- Floating point is not modelled. All arithmetic is over exact reals; the two non-finite values of `distToPolygonEdge` are modelled explicitly.
- `Math.sqrt` in `distToPolygonEdge` is not modelled. Distances are kept squared, and `isGridRegion`'s `edgeDist > noiseVal` is restated on the square (`ExceedsIsRootComparison`).
- NoiseLib.Noise.constructor: only integer seeds in [0, 2147483647) are modelled. The default seed `Math.random() * 65536`, and the fractional seeds the sketches pass (`random(0, 10000)`), make the swap index fractional. Then `p[j]` reads `undefined`, the store `p[i] = undefined` writes 0 into the `Uint8Array`, and the store at the fractional index `j` is ignored. So as long as the swap indices stay fractional, the shuffle sets `p[255]` down to `p[1]` to 0, and `p[0]` is already 0: the whole table is 0, so every corner hash is 0 and every lattice corner uses the same gradient `(1, 1)` (or `(1, 1, 0)` in 3D). This model does not represent non-integer indices and does not state this consequence.
- The unused `this.p` array of the constructor is not modelled.
- No bound or continuity of the noise output is claimed, only the lattice-zero, in-bounds, dot-product and periodicity facts.
- Utils.Map: requires `inMin != inMax`. The source then divides by zero and yields NaN or an infinity, which the real-valued model does not represent.
- Spirograph.PatternLength: takes integer radii with `r > 0`, the values `Radii` produces. It does not model `maxT`, the trigonometric curve or the saved path.
- NestedOrganic.DistanceToEdgeProperties: two consecutive equal vertices (a zero-length edge) are proved to give NaN, but the converse (every zero squared length comes from two consecutive equal vertices) is not stated. A vertex repeated non-consecutively gives no zero-length edge and so no NaN. In floating point a tiny edge can also square to 0.
- `createOrganicBlob`, the symbol threads, `isSymbolRegion` and `drawSymbol` of `007-nested-organic/sketch.js` are not modelled. They are trigonometric wandering and drawing.
- The `continue` filters of the symbol loop in 007 are not modelled. The symbol loops' consumption of `Math.random()` is not modelled either; each symbol decision takes its own parameter.
- The other sketches (001-005 and 008-015 apart from the spirograph `gcd`) and `vite.config.js` are not part of this model. They are trigonometric drawing and build configuration.
