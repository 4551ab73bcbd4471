/**
 * Which pairs the two histogram routines count, how often, and how many
 * values they histogram in all.
 */
module Coverage {
  import opened Wrappers
  import opened Histogram
  import opened Pairs

  /** Row-major order: earlier row first, then earlier column. */
  predicate Before(p: Pair, q: Pair)
  {
    p.0 < q.0 || (p.0 == q.0 && p.1 < q.1)
  }

  /** Strictly increasing in row-major order, hence no pair occurs twice. */
  predicate Increasing(ps: seq<Pair>)
  {
    forall a, b :: 0 <= a < b < |ps| ==> Before(ps[a], ps[b])
  }

  lemma IncreasingAppend(ps: seq<Pair>, qs: seq<Pair>)
    requires Increasing(ps) && Increasing(qs)
    requires forall a, b :: 0 <= a < |ps| && 0 <= b < |qs| ==> Before(ps[a], qs[b])
    ensures Increasing(ps + qs)
  {
    var s := ps + qs;
    forall a, b | 0 <= a < b < |s|
      ensures Before(s[a], s[b])
    {
      if b < |ps| {
        assert s[a] == ps[a] && s[b] == ps[b];
      } else if a >= |ps| {
        assert s[a] == qs[a - |ps|] && s[b] == qs[b - |ps|];
      } else {
        assert s[a] == ps[a] && s[b] == qs[b - |ps|];
      }
    }
  }

  /**
   * The strict upper triangle is enumerated in strictly increasing row-major
   * order. The second ensures is the corollary spelled out: no pair repeats.
   */
  lemma {:induction false} UpperPairsIncreasing(nx: nat, lo: nat, hi: nat)
    requires lo <= hi
    ensures Increasing(UpperPairs(nx, lo, hi))
    ensures forall a, b :: 0 <= a < b < |UpperPairs(nx, lo, hi)| ==> UpperPairs(nx, lo, hi)[a] != UpperPairs(nx, lo, hi)[b]
    decreases hi - lo
  {
    if lo < hi {
      UpperPairsIncreasing(nx, lo, hi - 1);
      IncreasingAppend(UpperPairs(nx, lo, hi - 1), RowPairs(hi - 1, hi, nx));
    }
  }

  /**
   * The rectangle of all ordered pairs is enumerated in strictly increasing
   * row-major order. The second ensures is the corollary spelled out: no pair repeats.
   */
  lemma {:induction false} CrossPairsIncreasing(nx: nat, lo: nat, hi: nat)
    requires lo <= hi
    ensures Increasing(CrossPairs(nx, lo, hi))
    ensures forall a, b :: 0 <= a < b < |CrossPairs(nx, lo, hi)| ==> CrossPairs(nx, lo, hi)[a] != CrossPairs(nx, lo, hi)[b]
    decreases hi - lo
  {
    if lo < hi {
      CrossPairsIncreasing(nx, lo, hi - 1);
      IncreasingAppend(CrossPairs(nx, lo, hi - 1), RowPairs(hi - 1, 0, nx));
    }
  }

  lemma {:induction false} UpperPairsComplete(nx: nat, lo: nat, hi: nat, i: nat, j: nat)
    requires lo <= i < hi && i < j < nx
    ensures (i, j) in UpperPairs(nx, lo, hi)
    decreases hi - lo
  {
    if i == hi - 1 {
      assert RowPairs(i, hi, nx)[j - hi] == (i, j);
    } else {
      UpperPairsComplete(nx, lo, hi - 1, i, j);
    }
  }

  lemma {:induction false} CrossPairsComplete(nx: nat, lo: nat, hi: nat, i: nat, j: nat)
    requires lo <= i < hi && j < nx
    ensures (i, j) in CrossPairs(nx, lo, hi)
    decreases hi - lo
  {
    if i == hi - 1 {
      assert RowPairs(i, 0, nx)[j] == (i, j);
    } else {
      CrossPairsComplete(nx, lo, hi - 1, i, j);
    }
  }

  /**
   * `pairs_newton_hist` meets the pair (i, j) exactly when i < j, j indexes
   * `x` and i is a row below `len(y) - 1`; in particular never a pair (i, i)
   * and never the row `len(y) - 1`.
   */
  lemma NewtonPairsExactly(nx: nat, ny: nat, i: nat, j: nat)
    ensures (i, j) in UpperPairs(nx, 0, NewtonRows(ny)) <==> i < j < nx && i + 1 < ny
  {
    if i < j < nx && i + 1 < ny {
      UpperPairsComplete(nx, 0, NewtonRows(ny), i, j);
    }
  }

  /** `pairs_hist` meets the pair (i, j) exactly when i indexes `y` and j indexes `x`. */
  lemma CrossPairsExactly(nx: nat, ny: nat, i: nat, j: nat)
    ensures (i, j) in CrossPairs(nx, 0, ny) <==> i < ny && j < nx
  {
    if i < ny && j < nx {
      CrossPairsComplete(nx, 0, ny, i, j);
    }
  }

  /** Rows 0 .. hi-1 of the strict upper triangle over `nx` columns hold hi*(2nx-hi-1)/2 pairs. */
  lemma {:induction false} UpperPairsSize(nx: nat, hi: nat)
    requires hi <= nx
    ensures 2 * |UpperPairs(nx, 0, hi)| == hi * (2 * nx - hi - 1)
  {
    if hi > 0 {
      UpperPairsSize(nx, hi - 1);
      assert |RowPairs(hi - 1, hi, nx)| == nx - hi;
      assert hi * (2 * nx - hi - 1) == (hi - 1) * (2 * nx - (hi - 1) - 1) + 2 * (nx - hi);
    }
  }

  lemma {:induction false} CrossPairsSize(nx: nat, hi: nat)
    ensures |CrossPairs(nx, 0, hi)| == nx * hi
  {
    if hi > 0 {
      CrossPairsSize(nx, hi - 1);
      assert nx * hi == nx * (hi - 1) + nx;
    }
  }

  /**
   * For a self-correlation (`x` and `y` the same points, n of them) the
   * Newton histogram holds at most n(n-1)/2 values, and exactly that many
   * when every pair value falls into a bin.
   */
  lemma NewtonHistTotal<P, B>(f: (P, P, B) -> real, x: seq<P>, y: seq<P>, L: B,
                              bin: real -> Option<nat>, nbins: nat)
    requires |x| == |y|
    ensures 2 * Total(Hist(NewtonValues(f, x, y, L), bin, nbins)) <= |y| * (|y| - 1)
    ensures AllInBins(NewtonValues(f, x, y, L), bin, nbins)
            ==> 2 * Total(Hist(NewtonValues(f, x, y, L), bin, nbins)) == |y| * (|y| - 1)
  {
    var n := |y|;
    var vs := NewtonValues(f, x, y, L);
    var rows := NewtonRows(n);
    UpperPairsSize(n, rows);
    assert 2 * |vs| == rows * (2 * n - rows - 1);
    assert rows * (2 * n - rows - 1) == n * (n - 1) by {
      if n > 0 {
        assert rows == n - 1;
      }
    }
    HistTotal(vs, bin, nbins);
  }

  /**
   * `pairs_hist` histograms len(x) * len(y) values: it counts at most that
   * many, and exactly that many when every pair value falls into a bin.
   */
  lemma CrossHistTotal<P, B>(f: (P, P, B) -> real, x: seq<P>, y: seq<P>, L: B,
                             bin: real -> Option<nat>, nbins: nat)
    ensures Total(Hist(CrossValues(f, x, y, L), bin, nbins)) <= |x| * |y|
    ensures AllInBins(CrossValues(f, x, y, L), bin, nbins)
            ==> Total(Hist(CrossValues(f, x, y, L), bin, nbins)) == |x| * |y|
  {
    var vs := CrossValues(f, x, y, L);
    CrossPairsSize(|x|, |y|);
    HistTotal(vs, bin, nbins);
  }
}
