/**
 * Pair enumeration and the two pair-histogram routines `pairs_newton_hist`
 * and `pairs_hist`.
 *
 * A pair (i, j) means row i of `y` and column j of `x`; its value is the
 * kernel applied as the source applies it, `f(x[j], y[i], L)`.  The kernel
 * `f` is a parameter, as in the source, and so is the cell `L`.
 */
module Pairs {
  import opened Wrappers
  import opened Histogram

  /** Row index into `y`, column index into `x`. */
  type Pair = (nat, nat)

  function Min(a: int, b: int): (m: int)
  {
    if a <= b then a else b
  }

  /** Python's `range(lo, hi)` with step 1. */
  function Range(lo: nat, hi: nat): (s: seq<nat>)
    ensures |s| == if lo <= hi then hi - lo else 0
    ensures forall k :: 0 <= k < |s| ==> s[k] == lo + k
  {
    if lo >= hi then [] else seq(hi - lo, k requires 0 <= k < hi - lo => lo + k)
  }

  /** Python's slice `x[k:]`, empty when `k` is past the end. */
  function Suffix<P>(x: seq<P>, k: nat): (s: seq<P>)
  {
    if k <= |x| then x[k..] else []
  }

  /**
   * The vectorised kernel call `f(xs, yi, L)`: one value per point of `xs`,
   * the j-th computed from `xs[j]` and `yi` alone.
   */
  function Apply<P, B>(f: (P, P, B) -> real, xs: seq<P>, yi: P, L: B): (vs: seq<real>)
    ensures |vs| == |xs|
    ensures forall j :: 0 <= j < |xs| ==> vs[j] == f(xs[j], yi, L)
  {
    seq(|xs|, j requires 0 <= j < |xs| => f(xs[j], yi, L))
  }

  /** Row `i` from column `from` to column `nx - 1`, left to right. */
  function RowPairs(i: nat, from: nat, nx: nat): (ps: seq<Pair>)
    ensures |ps| == if from <= nx then nx - from else 0
    ensures forall k :: 0 <= k < |ps| ==> ps[k] == (i, from + k)
  {
    if from >= nx then [] else seq(nx - from, k requires 0 <= k < nx - from => (i, from + k))
  }

  /**
   * Rows `lo .. hi-1` of the strict upper triangle, row after row: row i holds
   * the columns i+1 .. nx-1.  This is the order in which `pairs_newton_hist`
   * meets the pairs.
   */
  function UpperPairs(nx: nat, lo: nat, hi: nat): (ps: seq<Pair>)
    requires lo <= hi
    ensures forall k :: 0 <= k < |ps| ==> lo <= ps[k].0 < hi && ps[k].0 < ps[k].1 < nx
    decreases hi - lo
  {
    if lo == hi then [] else UpperPairs(nx, lo, hi - 1) + RowPairs(hi - 1, hi, nx)
  }

  /** Rows `lo .. hi-1` of the full rectangle: row i holds every column 0 .. nx-1. */
  function CrossPairs(nx: nat, lo: nat, hi: nat): (ps: seq<Pair>)
    requires lo <= hi
    ensures forall k :: 0 <= k < |ps| ==> lo <= ps[k].0 < hi && ps[k].1 < nx
    decreases hi - lo
  {
    if lo == hi then [] else CrossPairs(nx, lo, hi - 1) + RowPairs(hi - 1, 0, nx)
  }

  /** The number of rows the self-pair loop visits: `len(y) - 1`, or none for an empty `y`. */
  function NewtonRows(ny: nat): (rows: nat)
  {
    if ny == 0 then 0 else ny - 1
  }

  predicate InRange(ps: seq<Pair>, nx: nat, ny: nat)
  {
    forall k :: 0 <= k < |ps| ==> ps[k].0 < ny && ps[k].1 < nx
  }

  /** The kernel value of every pair of `ps`, in the order of `ps`. */
  function Values<P, B>(f: (P, P, B) -> real, x: seq<P>, y: seq<P>, L: B, ps: seq<Pair>): (vs: seq<real>)
    requires InRange(ps, |x|, |y|)
    ensures |vs| == |ps|
  {
    seq(|ps|, k requires 0 <= k < |ps| => f(x[ps[k].1], y[ps[k].0], L))
  }

  /** Every value `pairs_newton_hist` histograms: the strict upper triangle, row by row. */
  function NewtonValues<P, B>(f: (P, P, B) -> real, x: seq<P>, y: seq<P>, L: B): (vs: seq<real>)
  {
    Values(f, x, y, L, UpperPairs(|x|, 0, NewtonRows(|y|)))
  }

  /** Every value `pairs_hist` histograms: all ordered pairs, row by row. */
  function CrossValues<P, B>(f: (P, P, B) -> real, x: seq<P>, y: seq<P>, L: B): (vs: seq<real>)
  {
    Values(f, x, y, L, CrossPairs(|x|, 0, |y|))
  }

  // ---------------------------------------------------------------------------
  // Batching (lines 35-39)
  // ---------------------------------------------------------------------------

  /** The work per batch the source aims at: `100 * 1000.0` pair evaluations. */
  const BatchWork: nat := 100000

  /**
   * `bl = max(1, int(100 * 1000.0 / len(y)))`.  For `len(y) >= 1` the float
   * quotient truncates to the integer quotient; an empty `y` divides by zero.
   * The batch size is the largest number of rows whose work stays within
   * `BatchWork`, and never less than one row.
   */
  function BatchSize(ny: nat): (r: Result<nat, PyError>)
    ensures r.Failure? <==> ny == 0
    ensures r.Failure? ==> r.error == ZeroDivisionError
    ensures r.Success? ==> r.value >= 1
    ensures r.Success? ==> r.value == 1 || r.value * ny <= BatchWork
    ensures r.Success? ==> (r.value + 1) * ny > BatchWork
  {
    if ny == 0 then Failure(ZeroDivisionError)
    else
      var q := BatchWork / ny;
      Success(if q < 1 then 1 else q)
  }

  /**
   * The row indices the two nested loops visit, in visiting order:
   * `for ib in range(start, last, bl): for i in range(ib, min(ib + bl, last))`.
   */
  function BatchedRows(start: nat, last: nat, bl: nat): (rows: seq<nat>)
    requires bl >= 1
    decreases if start <= last then last - start else 0
  {
    if start >= last then [] else Range(start, Min(start + bl, last)) + BatchedRows(start + bl, last, bl)
  }

  lemma RangeSplit(lo: nat, mid: nat, hi: nat)
    requires lo <= mid <= hi
    ensures Range(lo, mid) + Range(mid, hi) == Range(lo, hi)
  {
  }

  /** Recording one batch's rows moves them from the schedule still ahead to the rows done. */
  lemma BatchedRowsStep(done: seq<nat>, start: nat, last: nat, bl: nat)
    requires bl >= 1 && start < last
    ensures (done + Range(start, Min(start + bl, last))) + BatchedRows(start + bl, last, bl)
         == done + BatchedRows(start, last, bl)
  {
    var batch := Range(start, Min(start + bl, last));
    assert BatchedRows(start, last, bl) == batch + BatchedRows(start + bl, last, bl);
    assert (done + batch) + BatchedRows(start + bl, last, bl) == done + (batch + BatchedRows(start + bl, last, bl));
  }

  /**
   * Batching changes nothing about which rows are visited: for every batch
   * size, the batches together visit `start, start+1, ..., last-1` once each,
   * in increasing order, and never reach `last` (which is `len(y) - 1`).
   */
  lemma {:induction false} BatchedRowsCover(start: nat, last: nat, bl: nat)
    requires bl >= 1
    ensures BatchedRows(start, last, bl) == Range(start, last)
    decreases if start <= last then last - start else 0
  {
    if start < last {
      BatchedRowsCover(start + bl, last, bl);
      var stop := Min(start + bl, last);
      RangeSplit(start, stop, last);
    }
  }

  // ---------------------------------------------------------------------------
  // Facts about the pair sequences
  // ---------------------------------------------------------------------------

  lemma ValuesAppend<P, B>(f: (P, P, B) -> real, x: seq<P>, y: seq<P>, L: B, ps: seq<Pair>, qs: seq<Pair>)
    requires InRange(ps, |x|, |y|) && InRange(qs, |x|, |y|)
    ensures InRange(ps + qs, |x|, |y|)
    ensures Values(f, x, y, L, ps + qs) == Values(f, x, y, L, ps) + Values(f, x, y, L, qs)
  {
  }

  /** Splitting the row range splits the upper-triangle pair sequence. */
  lemma {:induction false} UpperPairsSplit(nx: nat, lo: nat, mid: nat, hi: nat)
    requires lo <= mid <= hi
    ensures UpperPairs(nx, lo, hi) == UpperPairs(nx, lo, mid) + UpperPairs(nx, mid, hi)
    decreases hi - mid
  {
    if mid < hi {
      UpperPairsSplit(nx, lo, mid, hi - 1);
    }
  }

  /** The vectorised call `f(x[i+1:], y[i], L)` yields exactly the values of row i of the triangle. */
  lemma NewtonRowValues<P, B>(f: (P, P, B) -> real, x: seq<P>, y: seq<P>, L: B, i: nat)
    requires i < |y|
    ensures InRange(RowPairs(i, i + 1, |x|), |x|, |y|)
    ensures Apply(f, Suffix(x, i + 1), y[i], L) == Values(f, x, y, L, RowPairs(i, i + 1, |x|))
  {
  }

  /** The vectorised call `f(x[:], y[i], L)` yields exactly the values of row i of the rectangle. */
  lemma CrossRowValues<P, B>(f: (P, P, B) -> real, x: seq<P>, y: seq<P>, L: B, i: nat)
    requires i < |y|
    ensures InRange(RowPairs(i, 0, |x|), |x|, |y|)
    ensures Apply(f, x, y[i], L) == Values(f, x, y, L, RowPairs(i, 0, |x|))
  {
  }

  // ---------------------------------------------------------------------------
  // The two histogram routines
  // ---------------------------------------------------------------------------

  /** `for value in row: fxy.append(value)` (lines 40-41): `row` added after `fxy`, in order. */
  method AppendAll(fxy: seq<real>, row: seq<real>) returns (out: seq<real>)
    ensures out == fxy + row
  {
    out := fxy;
    var k := 0;
    while k < |row|
      invariant 0 <= k <= |row|
      invariant out == fxy + row[..k]
    {
      out := out + [row[k]];
      k := k + 1;
    }
    assert row[..|row|] == row;
  }

  /** Appending the vectorised row i extends the values of rows `ib .. i-1` to rows `ib .. i`. */
  lemma CollectStep<P, B>(f: (P, P, B) -> real, x: seq<P>, y: seq<P>, L: B, ib: nat, i: nat)
    requires ib <= i < |y|
    ensures Values(f, x, y, L, UpperPairs(|x|, ib, i + 1))
         == Values(f, x, y, L, UpperPairs(|x|, ib, i)) + Apply(f, Suffix(x, i + 1), y[i], L)
  {
    var before, row := UpperPairs(|x|, ib, i), RowPairs(i, i + 1, |x|);
    assert UpperPairs(|x|, ib, i + 1) == before + row;
    NewtonRowValues(f, x, y, L, i);
    ValuesAppend(f, x, y, L, before, row);
  }

  /**
   * One batch of `pairs_newton_hist` (lines 37-41): the values of rows
   * `ib .. stop-1` of the strict upper triangle, appended one by one.
   */
  method CollectBatch<P, B>(f: (P, P, B) -> real, x: seq<P>, y: seq<P>, L: B, ib: nat, stop: nat)
    returns (fxy: seq<real>)
    requires ib <= stop < |y|
    ensures fxy == Values(f, x, y, L, UpperPairs(|x|, ib, stop))
  {
    fxy := [];
    var i := ib;
    while i < stop
      invariant ib <= i <= stop
      invariant fxy == Values(f, x, y, L, UpperPairs(|x|, ib, i))
    {
      var row := Apply(f, Suffix(x, i + 1), y[i], L);
      fxy := AppendAll(fxy, row);
      CollectStep(f, x, y, L, ib, i);
      i := i + 1;
    }
  }

  /** Adding the histogram of the next batch extends the histogram of the rows done so far. */
  lemma NewtonBatchStep<P, B>(f: (P, P, B) -> real, x: seq<P>, y: seq<P>, L: B,
                              bin: real -> Option<nat>, nbins: nat, ib: nat, stop: nat)
    requires ib <= stop <= |y|
    ensures Hist(Values(f, x, y, L, UpperPairs(|x|, 0, stop)), bin, nbins)
         == Add(Hist(Values(f, x, y, L, UpperPairs(|x|, 0, ib)), bin, nbins),
                Hist(Values(f, x, y, L, UpperPairs(|x|, ib, stop)), bin, nbins))
  {
    UpperPairsSplit(|x|, 0, ib, stop);
    ValuesAppend(f, x, y, L, UpperPairs(|x|, 0, ib), UpperPairs(|x|, ib, stop));
    HistAppend(Values(f, x, y, L, UpperPairs(|x|, 0, ib)), Values(f, x, y, L, UpperPairs(|x|, ib, stop)), bin, nbins);
  }

  /**
   * The batched loop of `pairs_newton_hist` (lines 33-44) for a given batch
   * size: whatever the batch size, the sum of the per-batch histograms is the
   * histogram of every strict-upper-triangle value.
   */
  method NewtonBatches<P, B>(f: (P, P, B) -> real, x: seq<P>, y: seq<P>, L: B,
                             bin: real -> Option<nat>, nbins: nat, bl: nat)
    returns (hist: seq<nat>, ghost visited: seq<nat>)
    requires bl >= 1
    ensures hist == Hist(NewtonValues(f, x, y, L), bin, nbins)
    ensures visited == Range(0, NewtonRows(|y|))
  {
    hist := Zeros(nbins);
    var last := NewtonRows(|y|);
    var ib := 0;
    // the rows the batches have covered so far, in visiting order
    visited := [];
    assert UpperPairs(|x|, 0, 0) == [];
    assert Values(f, x, y, L, []) == [];
    while ib < last
      invariant visited + BatchedRows(ib, last, bl) == BatchedRows(0, last, bl)
      invariant hist == Hist(Values(f, x, y, L, UpperPairs(|x|, 0, Min(ib, last))), bin, nbins)
      decreases last - ib
    {
      var stop := Min(ib + bl, last);
      var fxy := CollectBatch(f, x, y, L, ib, stop);
      BatchedRowsStep(visited, ib, last, bl);
      visited := visited + Range(ib, stop);
      NewtonBatchStep(f, x, y, L, bin, nbins, ib, stop);
      hist := Add(hist, Hist(fxy, bin, nbins));
      ib := ib + bl;
      assert Min(ib, last) == stop;
    }
    assert Min(ib, last) == last;
    BatchedRowsCover(0, last, bl);
  }

  /**
   * `pairs_newton_hist(f, x, y, L, bins)` (lines 29-44): the histogram of
   * `f(x[j], y[i], L)` over every pair i < j, or the division by zero an
   * empty `y` raises when the batch size is computed.
   */
  method PairsNewtonHist<P, B>(f: (P, P, B) -> real, x: seq<P>, y: seq<P>, L: B,
                               bin: real -> Option<nat>, nbins: nat)
    returns (r: Result<seq<nat>, PyError>)
    ensures |y| == 0 <==> r.Failure?
    ensures |y| == 0 ==> r == Failure(ZeroDivisionError)
    ensures |y| > 0 ==> r == Success(Hist(NewtonValues(f, x, y, L), bin, nbins))
    ensures |y| == 1 ==> r == Success(Zeros(nbins))
  {
    var size := BatchSize(|y|);
    if size.Failure? {
      return Failure(size.error);
    }
    var hist, rows := NewtonBatches(f, x, y, L, bin, nbins, size.value);
    return Success(hist);
  }

  /**
   * `pairs_hist(f, x, y, L, bins)` (lines 46-55): the histogram of
   * `f(x[j], y[i], L)` over every ordered pair of a point of `y` and a point of `x`.
   */
  method PairsHist<P, B>(f: (P, P, B) -> real, x: seq<P>, y: seq<P>, L: B,
                         bin: real -> Option<nat>, nbins: nat)
    returns (hist: seq<nat>)
    ensures hist == Hist(CrossValues(f, x, y, L), bin, nbins)
  {
    hist := Zeros(nbins);
    var i := 0;
    while i < |y|
      invariant i <= |y|
      invariant hist == Hist(Values(f, x, y, L, CrossPairs(|x|, 0, i)), bin, nbins)
    {
      var fxy := Apply(f, x, y[i], L);
      CrossRowValues(f, x, y, L, i);
      ValuesAppend(f, x, y, L, CrossPairs(|x|, 0, i), RowPairs(i, 0, |x|));
      HistAppend(Values(f, x, y, L, CrossPairs(|x|, 0, i)), fxy, bin, nbins);
      hist := Add(hist, Hist(fxy, bin, nbins));
      i := i + 1;
    }
  }
}
