/**
 * Histograms as sequences of counts.
 *
 * `numpy.histogram(values, bins)` is modelled by an abstract binning function
 * `bin: real -> Option<nat>` together with the number of bins `nbins`: a value
 * lands in bin `k` when `bin(v) == Some(k)` and `k < nbins`, and is dropped
 * otherwise (numpy drops values outside the outermost edges).
 */
module Histogram {
  import opened Wrappers

  /** `nbins` empty bins: what `numpy.histogram([], bins)` returns. */
  function Zeros(nbins: nat): (h: seq<nat>)
    ensures |h| == nbins
    ensures forall k :: 0 <= k < nbins ==> h[k] == 0
  {
    seq(nbins, _ => 0)
  }

  /** Bin-wise sum of two histograms over the same bins (`hist += hist_tmp`). */
  function Add(a: seq<nat>, b: seq<nat>): (h: seq<nat>)
    requires |a| == |b|
    ensures |h| == |a|
    ensures forall k :: 0 <= k < |a| ==> h[k] == a[k] + b[k]
  {
    seq(|a|, k requires 0 <= k < |a| => a[k] + b[k])
  }

  /** Records one value whose bin is `b`; a value outside the bins changes nothing. */
  function Record(h: seq<nat>, b: Option<nat>): (h': seq<nat>)
    ensures |h'| == |h|
    ensures forall k :: 0 <= k < |h| ==> h'[k] == h[k] + (if b == Some(k) then 1 else 0)
  {
    if b.Some? && b.value < |h| then h[b.value := h[b.value] + 1] else h
  }

  /** The histogram of `vs`, filled one value at a time, last value last. */
  function Hist(vs: seq<real>, bin: real -> Option<nat>, nbins: nat): (h: seq<nat>)
    ensures |h| == nbins
  {
    if |vs| == 0 then Zeros(nbins)
    else Record(Hist(vs[..|vs| - 1], bin, nbins), bin(vs[|vs| - 1]))
  }

  /** Reference definition of one bin: how many of `vs` the binning sends to bin `k`. */
  function Count(vs: seq<real>, bin: real -> Option<nat>, k: nat): (c: nat)
  {
    if |vs| == 0 then 0
    else (if bin(vs[0]) == Some(k) then 1 else 0) + Count(vs[1..], bin, k)
  }

  /** Total number of recorded values. */
  function Total(h: seq<nat>): (t: nat)
  {
    if |h| == 0 then 0 else h[0] + Total(h[1..])
  }

  lemma {:induction false} CountAppend(a: seq<real>, b: seq<real>, bin: real -> Option<nat>, k: nat)
    ensures Count(a + b, bin, k) == Count(a, bin, k) + Count(b, bin, k)
    decreases |a|
  {
    if |a| == 0 {
      assert a + b == b;
    } else {
      assert (a + b)[1..] == a[1..] + b;
      CountAppend(a[1..], b, bin, k);
    }
  }

  /** Each bin of the histogram holds exactly the number of values the binning sends there. */
  lemma {:induction false} HistCount(vs: seq<real>, bin: real -> Option<nat>, nbins: nat)
    ensures forall k :: 0 <= k < nbins ==> Hist(vs, bin, nbins)[k] == Count(vs, bin, k)
    decreases |vs|
  {
    if |vs| > 0 {
      var front := vs[..|vs| - 1];
      var last := vs[|vs| - 1];
      HistCount(front, bin, nbins);
      assert vs == front + [last];
      forall k | 0 <= k < nbins
        ensures Hist(vs, bin, nbins)[k] == Count(vs, bin, k)
      {
        CountAppend(front, [last], bin, k);
        assert [last][1..] == [];
      }
    }
  }

  /**
   * Histogramming a concatenation is adding the two histograms: this is what
   * makes `hist += numpy.histogram(batch, bins)` over batches equal to one
   * histogram of all values.
   */
  lemma HistAppend(a: seq<real>, b: seq<real>, bin: real -> Option<nat>, nbins: nat)
    ensures Hist(a + b, bin, nbins) == Add(Hist(a, bin, nbins), Hist(b, bin, nbins))
  {
    HistCount(a + b, bin, nbins);
    HistCount(a, bin, nbins);
    HistCount(b, bin, nbins);
    forall k | 0 <= k < nbins
      ensures Hist(a + b, bin, nbins)[k] == Add(Hist(a, bin, nbins), Hist(b, bin, nbins))[k]
    {
      CountAppend(a, b, bin, k);
    }
  }

  /** Removing the element at `i` takes exactly that element out of the multiset. */
  lemma RemoveAt(b: seq<real>, i: nat)
    requires i < |b|
    ensures multiset(b) == multiset(b[..i] + b[i + 1..]) + multiset{b[i]}
  {
    assert b == b[..i] + [b[i]] + b[i + 1..];
  }

  lemma MultisetCancel(x: multiset<real>, y: multiset<real>, v: real)
    requires x + multiset{v} == y + multiset{v}
    ensures x == y
  {
    forall u ensures x[u] == y[u] {
      assert (x + multiset{v})[u] == (y + multiset{v})[u];
    }
  }

  /** Taking the first value of `a` out of `a`, and a copy of it out of a permutation `b`, leaves permutations. */
  lemma RemoveMatching(a: seq<real>, b: seq<real>, i: nat)
    requires multiset(a) == multiset(b) && 0 < |a| && i < |b| && b[i] == a[0]
    ensures multiset(a[1..]) == multiset(b[..i] + b[i + 1..])
  {
    RemoveAt(b, i);
    RemoveAt(a, 0);
    assert a[..0] + a[1..] == a[1..];
    MultisetCancel(multiset(a[1..]), multiset(b[..i] + b[i + 1..]), a[0]);
  }

  /** Taking out the value at `i` lowers its bin's count by one and leaves the others. */
  lemma CountRemoveAt(b: seq<real>, i: nat, bin: real -> Option<nat>, k: nat)
    requires i < |b|
    ensures Count(b, bin, k) == Count(b[..i] + b[i + 1..], bin, k) + (if bin(b[i]) == Some(k) then 1 else 0)
  {
    assert b == b[..i] + [b[i]] + b[i + 1..];
    CountAppend(b[..i] + [b[i]], b[i + 1..], bin, k);
    CountAppend(b[..i], [b[i]], bin, k);
    CountAppend(b[..i], b[i + 1..], bin, k);
    assert [b[i]][1..] == [];
  }

  /** Counting the values of one bin does not depend on their order. */
  lemma {:induction false} CountPermutation(a: seq<real>, b: seq<real>, bin: real -> Option<nat>, k: nat)
    requires multiset(a) == multiset(b)
    ensures Count(a, bin, k) == Count(b, bin, k)
    decreases |a|
  {
    if |a| == 0 {
      assert |b| == |multiset(b)| == 0;
    } else {
      assert a[0] in multiset(b);
      var i :| 0 <= i < |b| && b[i] == a[0];
      var rest := b[..i] + b[i + 1..];
      RemoveMatching(a, b, i);
      CountPermutation(a[1..], rest, bin, k);
      CountRemoveAt(b, i, bin, k);
    }
  }

  /** Two sequences of values that are permutations of each other have the same histogram. */
  lemma HistPermutation(a: seq<real>, b: seq<real>, bin: real -> Option<nat>, nbins: nat)
    requires multiset(a) == multiset(b)
    ensures Hist(a, bin, nbins) == Hist(b, bin, nbins)
  {
    HistCount(a, bin, nbins);
    HistCount(b, bin, nbins);
    forall k | 0 <= k < nbins
      ensures Hist(a, bin, nbins)[k] == Hist(b, bin, nbins)[k]
    {
      CountPermutation(a, b, bin, k);
    }
  }

  lemma {:induction false} TotalAdd(a: seq<nat>, b: seq<nat>)
    requires |a| == |b|
    ensures Total(Add(a, b)) == Total(a) + Total(b)
    decreases |a|
  {
    if |a| > 0 {
      assert Add(a, b)[1..] == Add(a[1..], b[1..]);
      TotalAdd(a[1..], b[1..]);
    }
  }

  lemma {:induction false} TotalRecord(h: seq<nat>, b: Option<nat>)
    ensures Total(Record(h, b)) == Total(h) + (if b.Some? && b.value < |h| then 1 else 0)
    decreases |h|
  {
    if |h| > 0 {
      var b' := if b.Some? && b.value > 0 then Some(b.value - 1) else None;
      assert Record(h, b)[1..] == Record(h[1..], b');
      TotalRecord(h[1..], b');
    }
  }

  lemma {:induction false} TotalZeros(n: nat)
    ensures Total(Zeros(n)) == 0
  {
    if n > 0 {
      assert Zeros(n)[1..] == Zeros(n - 1);
      TotalZeros(n - 1);
    }
  }

  /** Every one of `vs` falls into one of the `nbins` bins. */
  predicate AllInBins(vs: seq<real>, bin: real -> Option<nat>, nbins: nat)
  {
    forall i :: 0 <= i < |vs| ==> bin(vs[i]).Some? && bin(vs[i]).value < nbins
  }

  /**
   * A histogram never holds more values than it was given, and holds all of
   * them when every value falls into one of its bins.
   */
  lemma {:induction false} HistTotal(vs: seq<real>, bin: real -> Option<nat>, nbins: nat)
    ensures Total(Hist(vs, bin, nbins)) <= |vs|
    ensures AllInBins(vs, bin, nbins) ==> Total(Hist(vs, bin, nbins)) == |vs|
    decreases |vs|
  {
    if |vs| == 0 {
      TotalZeros(nbins);
    } else {
      var front := vs[..|vs| - 1];
      HistTotal(front, bin, nbins);
      TotalRecord(Hist(front, bin, nbins), bin(vs[|vs| - 1]));
    }
  }
}
