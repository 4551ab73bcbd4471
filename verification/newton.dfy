/**
 * Why the self-correlation may count only the pairs i < j and halve its
 * normalisation (lines 105-117): for a symmetric kernel, histogramming all
 * ordered pairs of one point set gives twice the strict-upper-triangle
 * histogram plus the histogram of the n self-pairs.
 */
module NewtonThird {
  import opened Wrappers
  import opened Histogram
  import opened Pairs
  import opened MinimumImage

  /** Does the value of pair (i, j) of the point set `x` fall into bin `k`? */
  function Hit<P, B>(f: (P, P, B) -> real, x: seq<P>, L: B, bin: real -> Option<nat>, k: nat, i: nat, j: nat): (h: nat)
    requires i < |x| && j < |x|
  {
    if bin(f(x[j], x[i], L)) == Some(k) then 1 else 0
  }

  /** Hits in row i, columns lo .. hi-1. */
  function RowHits<P, B>(f: (P, P, B) -> real, x: seq<P>, L: B, bin: real -> Option<nat>, k: nat,
                         i: nat, lo: nat, hi: nat): (c: nat)
    requires i < |x| && hi <= |x|
    decreases hi
  {
    if hi <= lo then 0 else RowHits(f, x, L, bin, k, i, lo, hi - 1) + Hit(f, x, L, bin, k, i, hi - 1)
  }

  /** Hits in column j, rows 0 .. m-1. */
  function ColumnHits<P, B>(f: (P, P, B) -> real, x: seq<P>, L: B, bin: real -> Option<nat>, k: nat,
                            j: nat, m: nat): (c: nat)
    requires j < |x| && m <= |x|
  {
    if m == 0 then 0 else ColumnHits(f, x, L, bin, k, j, m - 1) + Hit(f, x, L, bin, k, m - 1, j)
  }

  /** Hits in rows 0 .. m-1, every column 0 .. n-1. */
  function SquareHits<P, B>(f: (P, P, B) -> real, x: seq<P>, L: B, bin: real -> Option<nat>, k: nat,
                            n: nat, m: nat): (c: nat)
    requires n <= |x| && m <= |x|
  {
    if m == 0 then 0 else SquareHits(f, x, L, bin, k, n, m - 1) + RowHits(f, x, L, bin, k, m - 1, 0, n)
  }

  /** Hits in rows 0 .. m-1, columns strictly right of the diagonal and below n. */
  function TriangleHits<P, B>(f: (P, P, B) -> real, x: seq<P>, L: B, bin: real -> Option<nat>, k: nat,
                              n: nat, m: nat): (c: nat)
    requires n <= |x| && m <= |x|
  {
    if m == 0 then 0 else TriangleHits(f, x, L, bin, k, n, m - 1) + RowHits(f, x, L, bin, k, m - 1, m, n)
  }

  /** Hits on the diagonal, rows 0 .. m-1. */
  function DiagonalHits<P, B>(f: (P, P, B) -> real, x: seq<P>, L: B, bin: real -> Option<nat>, k: nat, m: nat): (c: nat)
    requires m <= |x|
  {
    if m == 0 then 0 else DiagonalHits(f, x, L, bin, k, m - 1) + Hit(f, x, L, bin, k, m - 1, m - 1)
  }

  /** The kernel gives the same value whichever point of a pair comes first. */
  predicate Symmetric<P, B>(f: (P, P, B) -> real, x: seq<P>, L: B)
  {
    forall i, j {:trigger f(x[i], x[j], L)} :: 0 <= i < |x| && 0 <= j < |x| ==> f(x[i], x[j], L) == f(x[j], x[i], L)
  }

  /** The self-pair values `f(x[i], x[i], L)`, one per point. */
  function DiagonalValues<P, B>(f: (P, P, B) -> real, x: seq<P>, L: B): (vs: seq<real>)
    ensures |vs| == |x|
  {
    seq(|x|, i requires 0 <= i < |x| => f(x[i], x[i], L))
  }

  // ---------------------------------------------------------------------------
  // Counting identities
  // ---------------------------------------------------------------------------

  lemma {:induction false} RowIsColumn<P, B>(f: (P, P, B) -> real, x: seq<P>, L: B, bin: real -> Option<nat>, k: nat,
                                             i: nat, m: nat)
    requires Symmetric(f, x, L) && i < |x| && m <= |x|
    ensures RowHits(f, x, L, bin, k, i, 0, m) == ColumnHits(f, x, L, bin, k, i, m)
  {
    if m > 0 {
      RowIsColumn(f, x, L, bin, k, i, m - 1);
      assert f(x[m - 1], x[i], L) == f(x[i], x[m - 1], L);
    }
  }

  /** Widening every row of the square by one column adds that column. */
  lemma {:induction false} SquareWiden<P, B>(f: (P, P, B) -> real, x: seq<P>, L: B, bin: real -> Option<nat>, k: nat,
                                             n: nat, m: nat)
    requires n < |x| && m <= |x|
    ensures SquareHits(f, x, L, bin, k, n + 1, m) == SquareHits(f, x, L, bin, k, n, m) + ColumnHits(f, x, L, bin, k, n, m)
  {
    if m > 0 {
      SquareWiden(f, x, L, bin, k, n, m - 1);
    }
  }

  /** Widening every row of the triangle by one column adds that column (rows below the new column). */
  lemma {:induction false} TriangleWiden<P, B>(f: (P, P, B) -> real, x: seq<P>, L: B, bin: real -> Option<nat>, k: nat,
                                               n: nat, m: nat)
    requires n < |x| && m <= n
    ensures TriangleHits(f, x, L, bin, k, n + 1, m) == TriangleHits(f, x, L, bin, k, n, m) + ColumnHits(f, x, L, bin, k, n, m)
  {
    if m > 0 {
      TriangleWiden(f, x, L, bin, k, n, m - 1);
    }
  }

  /** The square is twice the triangle plus the diagonal, for a symmetric kernel. */
  lemma {:induction false} SquareIsTwoTrianglesAndDiagonal<P, B>(f: (P, P, B) -> real, x: seq<P>, L: B,
                                                                 bin: real -> Option<nat>, k: nat, n: nat)
    requires Symmetric(f, x, L) && n <= |x|
    ensures SquareHits(f, x, L, bin, k, n, n)
         == 2 * TriangleHits(f, x, L, bin, k, n, n) + DiagonalHits(f, x, L, bin, k, n)
  {
    if n > 0 {
      var p := n - 1;
      SquareIsTwoTrianglesAndDiagonal(f, x, L, bin, k, p);
      SquareWiden(f, x, L, bin, k, p, p);
      TriangleWiden(f, x, L, bin, k, p, p);
      RowIsColumn(f, x, L, bin, k, p, p);
      assert RowHits(f, x, L, bin, k, p, n, n) == 0;
    }
  }

  // ---------------------------------------------------------------------------
  // From the pair sequences to the counting functions
  // ---------------------------------------------------------------------------

  lemma {:induction false} RowCount<P, B>(f: (P, P, B) -> real, x: seq<P>, L: B, bin: real -> Option<nat>, k: nat,
                                          i: nat, lo: nat, hi: nat)
    requires i < |x| && hi <= |x|
    ensures InRange(RowPairs(i, lo, hi), |x|, |x|)
    ensures Count(Values(f, x, x, L, RowPairs(i, lo, hi)), bin, k) == RowHits(f, x, L, bin, k, i, lo, hi)
    decreases hi
  {
    if lo < hi {
      RowCount(f, x, L, bin, k, i, lo, hi - 1);
      assert RowPairs(i, lo, hi) == RowPairs(i, lo, hi - 1) + [(i, hi - 1)];
      ValuesAppend(f, x, x, L, RowPairs(i, lo, hi - 1), [(i, hi - 1)]);
      CountAppend(Values(f, x, x, L, RowPairs(i, lo, hi - 1)), Values(f, x, x, L, [(i, hi - 1)]), bin, k);
      assert Values(f, x, x, L, [(i, hi - 1)])[1..] == [];
    } else {
      assert RowPairs(i, lo, hi) == [];
    }
  }

  /** Counting the values of two pair sequences one after the other adds the counts. */
  lemma CountValuesAppend<P, B>(f: (P, P, B) -> real, x: seq<P>, L: B, bin: real -> Option<nat>, k: nat,
                                ps: seq<Pair>, qs: seq<Pair>)
    requires InRange(ps, |x|, |x|) && InRange(qs, |x|, |x|)
    ensures InRange(ps + qs, |x|, |x|)
    ensures Count(Values(f, x, x, L, ps + qs), bin, k)
         == Count(Values(f, x, x, L, ps), bin, k) + Count(Values(f, x, x, L, qs), bin, k)
  {
    ValuesAppend(f, x, x, L, ps, qs);
    CountAppend(Values(f, x, x, L, ps), Values(f, x, x, L, qs), bin, k);
  }

  /** The first m rows of the square are its first m-1 rows followed by row m-1, also when counted. */
  lemma CrossValuesSplit<P, B>(f: (P, P, B) -> real, x: seq<P>, L: B, bin: real -> Option<nat>, k: nat, m: nat)
    requires 0 < m <= |x|
    ensures Count(Values(f, x, x, L, CrossPairs(|x|, 0, m)), bin, k)
         == Count(Values(f, x, x, L, CrossPairs(|x|, 0, m - 1)), bin, k)
          + Count(Values(f, x, x, L, RowPairs(m - 1, 0, |x|)), bin, k)
  {
    var before, row := CrossPairs(|x|, 0, m - 1), RowPairs(m - 1, 0, |x|);
    assert CrossPairs(|x|, 0, m) == before + row;
    CountValuesAppend(f, x, L, bin, k, before, row);
  }

  lemma {:induction false} CrossCount<P, B>(f: (P, P, B) -> real, x: seq<P>, L: B, bin: real -> Option<nat>, k: nat, m: nat)
    requires m <= |x|
    ensures Count(Values(f, x, x, L, CrossPairs(|x|, 0, m)), bin, k) == SquareHits(f, x, L, bin, k, |x|, m)
  {
    if m > 0 {
      CrossValuesSplit(f, x, L, bin, k, m);
      CrossCount(f, x, L, bin, k, m - 1);
      RowCount(f, x, L, bin, k, m - 1, 0, |x|);
    }
  }

  /** The first m rows of the triangle are its first m-1 rows followed by row m-1, also when counted. */
  lemma UpperValuesSplit<P, B>(f: (P, P, B) -> real, x: seq<P>, L: B, bin: real -> Option<nat>, k: nat, m: nat)
    requires 0 < m <= |x|
    ensures Count(Values(f, x, x, L, UpperPairs(|x|, 0, m)), bin, k)
         == Count(Values(f, x, x, L, UpperPairs(|x|, 0, m - 1)), bin, k)
          + Count(Values(f, x, x, L, RowPairs(m - 1, m, |x|)), bin, k)
  {
    var before, row := UpperPairs(|x|, 0, m - 1), RowPairs(m - 1, m, |x|);
    assert UpperPairs(|x|, 0, m) == before + row;
    CountValuesAppend(f, x, L, bin, k, before, row);
  }

  lemma {:induction false} UpperCount<P, B>(f: (P, P, B) -> real, x: seq<P>, L: B, bin: real -> Option<nat>, k: nat, m: nat)
    requires m <= |x|
    ensures Count(Values(f, x, x, L, UpperPairs(|x|, 0, m)), bin, k) == TriangleHits(f, x, L, bin, k, |x|, m)
  {
    if m > 0 {
      UpperValuesSplit(f, x, L, bin, k, m);
      UpperCount(f, x, L, bin, k, m - 1);
      RowCount(f, x, L, bin, k, m - 1, m, |x|);
    }
  }

  lemma {:induction false} DiagonalCount<P, B>(f: (P, P, B) -> real, x: seq<P>, L: B, bin: real -> Option<nat>, k: nat, m: nat)
    requires m <= |x|
    ensures Count(DiagonalValues(f, x, L)[..m], bin, k) == DiagonalHits(f, x, L, bin, k, m)
  {
    if m > 0 {
      var d := DiagonalValues(f, x, L);
      DiagonalCount(f, x, L, bin, k, m - 1);
      assert d[..m] == d[..m - 1] + [d[m - 1]];
      CountAppend(d[..m - 1], [d[m - 1]], bin, k);
      assert [d[m - 1]][1..] == [];
    }
  }

  /** Row n-1 of an n-column triangle is empty, so the Newton rows already cover it. */
  lemma TriangleLastRow<P, B>(f: (P, P, B) -> real, x: seq<P>, L: B, bin: real -> Option<nat>, k: nat, n: nat)
    requires n <= |x|
    ensures TriangleHits(f, x, L, bin, k, n, NewtonRows(n)) == TriangleHits(f, x, L, bin, k, n, n)
  {
    if n > 0 {
      assert RowHits(f, x, L, bin, k, n - 1, n, n) == 0;
    }
  }

  /** One bin of the identity below. */
  lemma CountIdentity<P, B>(f: (P, P, B) -> real, x: seq<P>, L: B, bin: real -> Option<nat>, k: nat)
    requires Symmetric(f, x, L)
    ensures Count(CrossValues(f, x, x, L), bin, k)
         == 2 * Count(NewtonValues(f, x, x, L), bin, k) + Count(DiagonalValues(f, x, L), bin, k)
  {
    var n := |x|;
    var diag := DiagonalValues(f, x, L);
    CrossCount(f, x, L, bin, k, n);
    UpperCount(f, x, L, bin, k, NewtonRows(n));
    DiagonalCount(f, x, L, bin, k, n);
    assert diag[..n] == diag;
    SquareIsTwoTrianglesAndDiagonal(f, x, L, bin, k, n);
    TriangleLastRow(f, x, L, bin, k, n);
  }

  /**
   * Newton's third law for the histograms: over one point set and a
   * symmetric kernel, `pairs_hist(f, x, x, L, bins)` equals twice
   * `pairs_newton_hist(f, x, x, L, bins)` plus the histogram of the self-pairs.
   */
  lemma CrossIsTwiceNewtonPlusSelf<P, B>(f: (P, P, B) -> real, x: seq<P>, L: B, bin: real -> Option<nat>, nbins: nat)
    requires Symmetric(f, x, L)
    ensures Hist(CrossValues(f, x, x, L), bin, nbins)
         == Add(Add(Hist(NewtonValues(f, x, x, L), bin, nbins), Hist(NewtonValues(f, x, x, L), bin, nbins)),
                Hist(DiagonalValues(f, x, L), bin, nbins))
  {
    var cross := CrossValues(f, x, x, L);
    var upper := NewtonValues(f, x, x, L);
    var diag := DiagonalValues(f, x, L);
    var hc, hu, hd := Hist(cross, bin, nbins), Hist(upper, bin, nbins), Hist(diag, bin, nbins);
    HistCount(cross, bin, nbins);
    HistCount(upper, bin, nbins);
    HistCount(diag, bin, nbins);
    forall k | 0 <= k < nbins
      ensures hc[k] == Add(Add(hu, hu), hd)[k]
    {
      CountIdentity(f, x, L, bin, k);
    }
  }

  /**
   * The same identity for the squared minimum-image kernel: all ordered pairs
   * of one configuration give twice the Newton histogram plus n values at
   * squared distance zero.
   */
  lemma MinimumImageCrossIsTwiceNewton(f: (seq<real>, seq<real>, seq<real>) -> real, x: seq<seq<real>>, L: seq<real>,
                                       bin: real -> Option<nat>, nbins: nat)
    requires ValidCell(L, |L|)
    requires forall i :: 0 <= i < |x| ==> |x[i]| == |L|
    requires forall i, j {:trigger f(x[i], x[j], L)} :: 0 <= i < |x| && 0 <= j < |x| ==> f(x[i], x[j], L) == SquaredDistance(x[i], x[j], L)
    ensures Hist(CrossValues(f, x, x, L), bin, nbins)
         == Add(Add(Hist(NewtonValues(f, x, x, L), bin, nbins), Hist(NewtonValues(f, x, x, L), bin, nbins)),
                Hist(seq(|x|, _ => 0.0), bin, nbins))
  {
    forall i, j | 0 <= i < |x| && 0 <= j < |x|
      ensures f(x[i], x[j], L) == f(x[j], x[i], L)
    {
      SquaredDistanceSymmetric(x[i], x[j], L);
    }
    forall i | 0 <= i < |x|
      ensures DiagonalValues(f, x, L)[i] == 0.0
    {
      SquaredDistanceSelf(x[i], L);
    }
    assert DiagonalValues(f, x, L) == seq(|x|, _ => 0.0);
    CrossIsTwiceNewtonPlusSelf(f, x, L, bin, nbins);
  }
}
