# Pair histograms of the radial distribution function (atooms `gr.py`)

This project is a Dafny model of the pair-counting core of the atooms radial
distribution function g(r). It covers four parts:

- **Self-correlation histogram.** `pairs_newton_hist` applies a distance kernel to every pair i < j of one configuration. It works in batches of `bl` rows and adds each batch's histogram into the result.
- **Cross-correlation histogram.** `pairs_hist` applies the kernel to every ordered pair of two configurations.
- **Minimum-image kernel.** `gr_kernel_square` folds each coordinate difference into the periodic cell. It subtracts `numpy.rint(r / L) * L` and sums the squares.
- **Distance grid.** The constructor rebuilds bin edges from user-given bin centres. `_compute` later takes edge midpoints to get the centres back.

The model uses exact `real` arithmetic. Points and the cell side are
`seq<real>`, with one entry per axis. The side is a vector because
`cell.side` is one.

`numpy.histogram` is an abstract binning function `bin: real -> Option<nat>` plus a
bin count. Values that map to `None`, or to an index past the last bin, are
dropped. A histogram is a `seq<nat>`. The source passes a whole slice of points
to a vectorised kernel, `f(x[i+1:], y[i], L)`, and iterates over what it returns.
The model takes the kernel one point at a time, as a parameter
`f: (P, P, B) -> real`, and `Pairs.Apply` maps it over the slice, so the routines
see the values `f(x[j], y[i], L)`. Python exceptions are `Failure` values of a `Result`.

Modules:

- `Wrappers` (wrappers.dfy): `Option`, `Result` and the Python errors raised.
- `Histogram` (histogram.dfy): filling a histogram value by value. It is proved equal to a per-bin count (`HistCount`). Also: additivity over concatenation (this is what `hist += hist_tmp` relies on), order independence, and totals.
- `MinimumImage` (kernel.dfy): `rint` (round half to even), minimum-image reduction and the squared distance.
- `Pairs` (pairs.dfy): the pair enumerations, the batch size, the batch schedule, and the two histogram routines written as loops shaped like the source.
- `Coverage` (coverage.dfy): which pairs are counted, that each is counted once, and how many values there are.
- `Grid` (grid.dfy): edges from centres and midpoints of edges.
- `NewtonThird` (newton.dfy): for a symmetric kernel on one configuration, the all-pairs histogram equals twice the i < j histogram plus the self-pairs. This is why the self-correlation may count only the pairs i < j and halve its normalisation.

## Model

| member | source | states |
|---|---|---|
| `Pairs.BatchSize` | atooms/postprocessing/gr.py:35 | For a non-empty `y`, the batch size is at least 1. It is the largest row count whose work `bl * len(y)` stays within 100000, or 1 when even one row exceeds that. An empty `y` raises ZeroDivisionError. |
| `Pairs.BatchedRowsCover` | atooms/postprocessing/gr.py:36-39 | For every batch size ≥ 1, the two nested `range` loops together visit rows 0, 1, …, len(y)−2 once each, in increasing order. No row reaches len(y)−1. |
| `Pairs.BatchedRowsStep` | atooms/postprocessing/gr.py:36-39 | One pass of the outer loop visits rows ib … min(ib+bl, len(y)−1)−1; the rows still to come are the schedule started at ib+bl. |
| `Pairs.UpperPairs` | atooms/postprocessing/gr.py:36-41 | Every pair in the self-correlation enumeration has its row inside the visited row range and a column strictly greater than the row and inside `x`. |
| `Pairs.CrossPairs` | atooms/postprocessing/gr.py:51-52 | Every pair in the cross enumeration has a row inside `y` and a column inside `x`. |
| `Pairs.Apply` | atooms/postprocessing/gr.py:40 | The vectorised kernel call (here and at line 52) returns one value per point of the slice, in slice order, the j-th being the kernel applied to the j-th point and `y[i]`. |
| `Pairs.NewtonRowValues` | atooms/postprocessing/gr.py:40 | The vectorised call `f(x[i+1:], y[i], L)` yields exactly the values of row i of the strict upper triangle, in column order. |
| `Pairs.CrossRowValues` | atooms/postprocessing/gr.py:52 | The vectorised call `f(x[:], y[i], L)` yields exactly the values of row i of the full rectangle. |
| `Pairs.AppendAll` | atooms/postprocessing/gr.py:40-41 | Appending the values one at a time extends `fxy` by exactly those values, in order. |
| `Pairs.CollectStep` | atooms/postprocessing/gr.py:39-41 | Adding row i to a batch appends the values of `f(x[i+1:], y[i], L)` after the rows already collected. |
| `Pairs.CollectBatch` | atooms/postprocessing/gr.py:37-41 | The `fxy` list built for one batch holds the values of rows ib … stop−1 of the upper triangle, in row-major order. |
| `Pairs.NewtonBatchStep` | atooms/postprocessing/gr.py:42-43 | Adding the histogram of the next batch to the running histogram gives the histogram of all rows done so far. |
| `Pairs.NewtonBatches` | atooms/postprocessing/gr.py:33-44 | For any batch size ≥ 1, the sum of per-batch histograms equals the single histogram of every i < j value. Batching changes nothing. The rows the passes visit, in visiting order, are exactly 0, 1, …, len(y)−2, each once. |
| `Pairs.PairsNewtonHist` | atooms/postprocessing/gr.py:29-44 | For a non-empty `y`, the result is the histogram of `f(x[j], y[i], L)` over all i < j. With one point it is all zeros. An empty `y` fails with ZeroDivisionError. |
| `Pairs.PairsHist` | atooms/postprocessing/gr.py:46-55 | The result is the histogram of `f(x[j], y[i], L)` over every ordered pair (i in `y`, j in `x`). An empty `y` gives all zeros. |
| `Coverage.NewtonPairsExactly` | atooms/postprocessing/gr.py:36-41 | The self-correlation loop meets pair (i, j) if and only if i < j < len(x) and i < len(y)−1. So it never meets a self-pair (i, i). |
| `Coverage.UpperPairsIncreasing` | atooms/postprocessing/gr.py:36-41 | The self-correlation pairs come in strictly increasing row-major order, so no pair is counted twice. |
| `Coverage.CrossPairsExactly` | atooms/postprocessing/gr.py:51-52 | The cross loop meets pair (i, j) if and only if i < len(y) and j < len(x). |
| `Coverage.CrossPairsIncreasing` | atooms/postprocessing/gr.py:51-52 | The cross pairs come in strictly increasing row-major order, so each ordered pair is counted once. |
| `Coverage.UpperPairsSize` | atooms/postprocessing/gr.py:39-41 | The first h rows of the strict upper triangle over n columns hold h(2n−h−1)/2 pairs. |
| `Coverage.CrossPairsSize` | atooms/postprocessing/gr.py:51-52 | The cross loop produces len(x)·len(y) values. |
| `Coverage.NewtonHistTotal` | atooms/postprocessing/gr.py:33-44 | For one configuration of n points, the Newton histogram holds at most n(n−1)/2 values. It holds exactly that many when every one of its pair values falls into a bin. |
| `Coverage.CrossHistTotal` | atooms/postprocessing/gr.py:46-55 | The cross histogram holds at most len(x)·len(y) values. It holds exactly that many when every one of its pair values falls into a bin. |
| `Histogram.Zeros` | atooms/postprocessing/gr.py:33 | `numpy.histogram([], bins)`, the starting value of both routines (also line 50): one count per bin, every count 0. |
| `Histogram.Add` | atooms/postprocessing/gr.py:43 | `hist += hist_tmp` (also line 54): same bins, each count the sum of the two counts of that bin. |
| `Histogram.Hist` | atooms/postprocessing/gr.py:42 | `numpy.histogram(fxy, bins)` (also line 53), filled one value at a time: the result has one count per bin. What each count is, is stated by `Histogram.HistCount`. |
| `Histogram.HistCount` | atooms/postprocessing/gr.py:42 | Each bin of a histogram counts exactly the values the binning sends to it. |
| `Histogram.HistAppend` | atooms/postprocessing/gr.py:42-43 | The histogram of a concatenation is the bin-wise sum of the two histograms. |
| `Histogram.HistPermutation` | atooms/postprocessing/gr.py:42 | Reordering the values does not change the histogram. |
| `Histogram.HistTotal` | atooms/postprocessing/gr.py:42 | A histogram never holds more values than it was given. It holds all of them when every value falls into a bin. |
| `MinimumImage.Rint` | atooms/postprocessing/gr.py:19 | `numpy.rint` returns an integer within 1/2 of its argument. On a tie it returns the even integer. |
| `MinimumImage.RintUnique` | atooms/postprocessing/gr.py:19 | No other integer has both properties of `rint`. |
| `MinimumImage.RintOdd` | atooms/postprocessing/gr.py:26 | Rounding halves to even is odd-symmetric: rint(−t) = −rint(t). |
| `MinimumImage.ReducedWithinHalfSide` | atooms/postprocessing/gr.py:26 | For a positive side L and ANY integer k within 1/2 of r/L, r − k·L lies in [−L/2, L/2]. The bound therefore does not depend on the tie rule. |
| `MinimumImage.Reduce` | atooms/postprocessing/gr.py:19 | A minimum-image component `r - rint(r/L)*L` lies in [−L/2, L/2]. |
| `MinimumImage.ReduceOdd` | atooms/postprocessing/gr.py:26 | Reducing −r gives the negation of reducing r. |
| `MinimumImage.Displacement` | atooms/postprocessing/gr.py:25-26 | Each axis of the minimum-image displacement lies within half that axis' side. |
| `MinimumImage.SquaredDistance` | atooms/postprocessing/gr.py:22-27 | The squared minimum-image distance is non-negative. It never exceeds the squared half-diagonal of the cell. |
| `MinimumImage.SquaredDistanceSymmetric` | atooms/postprocessing/gr.py:22-27 | The squared minimum-image distance is the same with x and y swapped. |
| `MinimumImage.SquaredDistanceSelf` | atooms/postprocessing/gr.py:22-27 | A point is at squared distance 0 from itself. |
| `NewtonThird.CountIdentity` | atooms/postprocessing/gr.py:116-117 | For a symmetric kernel on one configuration, each bin of the all-pairs count equals twice the i < j count plus the self-pair count. |
| `NewtonThird.CrossIsTwiceNewtonPlusSelf` | atooms/postprocessing/gr.py:105-117 | For a symmetric kernel, `pairs_hist(f, x, x)` equals 2·`pairs_newton_hist(f, x, x)` plus the histogram of the n self-pair values. This is what the halved normalisation assumes. |
| `NewtonThird.MinimumImageCrossIsTwiceNewton` | atooms/postprocessing/gr.py:105-117 | With the squared minimum-image kernel, the all-pairs histogram is twice the Newton histogram plus n values at distance 0. |
| `Grid.EdgesFromCentres` | atooms/postprocessing/gr.py:84-87 | Rebuilding edges from two or more centres gives len(rgrid)+1 edges. The first edge lies half the first spacing below the first centre. The gaps between edges repeat the gaps of the centres, and the extra last gap equals the first spacing. Fewer than two centres raise IndexError. |
| `Grid.Midpoints` | atooms/postprocessing/gr.py:121 | `(r[:-1] + r[1:]) / 2` has one point per gap, equidistant from the gap's two edges. |
| `Grid.UniformRoundTrip` | atooms/postprocessing/gr.py:84-87 | For two or more uniformly spaced centres, the midpoints of the rebuilt edges (line 121) are exactly the centres. |
| `Grid.RoundTripNeedsUniform` | atooms/postprocessing/gr.py:84-87 | If the midpoints of the rebuilt edges give the centres back, the centres are uniformly spaced. A non-uniform `rgrid` comes back changed. |
| `Grid.CentresInsideBins` | atooms/postprocessing/gr.py:83-87 | For increasing, uniformly spaced centres, each centre lies strictly inside its own rebuilt bin. |

## Left out

- `gr_kernel` (lines 16-20) differs from `gr_kernel_square` only by `numpy.sqrt`, and real square roots are not modelled. The pair routines are generic in the kernel, so `gr_kernel` is covered as a kernel parameter. For non-negative edges, binning by distance is the same as binning the squared distance with squared edges; that equivalence is not proved here. It fails when an edge is negative, as the first rebuilt edge is for centres such as [0, 0.1, 0.2] (edge −0.05).
- The edge-inclusion rules inside `numpy.histogram` are not modelled (which bin an edge value falls into, and dropping values outside the edges). Binning is an abstract function. `numpy.histogram` also raises a `ValueError` for edges that decrease anywhere (repeated edges are accepted); a rebuilt grid decreases when its centres are not increasing. That error is not modelled.
- Floating point is not modelled. Arithmetic is exact. `int(100 * 1000.0 / len(y))` is modelled as the integer quotient. For len(y) ≥ 1 the float quotient is never close enough to an integer from below to round up to it, so the two agree.
- Histogram.Hist: its own contract fixes only the number of bins. The content of each bin is stated by `Histogram.HistCount`, and the total by `Histogram.HistTotal`. This keeps per-bin facts out of every proof that mentions a histogram.
- Pairs.Apply: the kernel is assumed to compute each returned value from one point of the slice and `y[i]` alone, one value per point. This holds for `gr_kernel` and `gr_kernel_square`: `x - y` broadcasts `y[i]` over the rows of the slice, the reduction is element-wise, and `numpy.sum(..., axis=1)` sums within each row. A kernel that mixes rows is not modelled.
- MinimumImage.Reduce: requires a strictly positive side. With a zero side numpy yields NaN, and the model has no NaN.
- MinimumImage.SquaredDistance: requires both points and the side vector to have the same length. numpy broadcasting also accepts a scalar or length-1 side (or point) and repeats it across the axes; the model expresses that case by passing the repeated vector. Other length mismatches raise a broadcasting error, which is not modelled.
- `RadialDistributionFunction._compute` (lines 91-111) is driver code: reading frames, averaging particle counts in the grand-canonical case, skipping empty frames, and choosing between the two routines.
- The normalisation (lines 113-120 and 122) uses shell volumes with π, the density and averaging over frames. The midpoints of line 121 are `Grid.Midpoints`. Only its structural premise is modelled: the Newton count is half the all-pairs count off the diagonal (`NewtonThird`).
- The default grid `linear_grid(0, L/2, dr)` (line 89) is not modelled. `linear_grid`, `adjust_skip` and the `Correlation` base class are not part of this model.
- `atooms/postprocessing/alpha2.py` (the non-Gaussian parameter) is a floating-point ratio of moments. It is not part of this model.
