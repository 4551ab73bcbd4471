/**
 * The distance grid of `RadialDistributionFunction`: bin edges rebuilt from
 * user-given bin centres `rgrid` (lines 84-87), and the centres recovered
 * as edge midpoints once the histogram is done (line 121).
 */
module Grid {
  import opened Wrappers

  /**
   * Edges from centres: every centre moved down by half the first spacing
   * `rgrid[1] - rgrid[0]`, then one more edge half a spacing above the last
   * centre.  Fewer than two centres make `rgrid[1]` (or `rgrid[-1]`) fail.
   * The first edge lies half the first spacing below the first centre, the
   * edges keep the spacings of the centres, and the extra last gap is the
   * first spacing; together these fix every edge.
   */
  function EdgesFromCentres(rgrid: seq<real>): (r: Result<seq<real>, PyError>)
    ensures r.Failure? <==> |rgrid| < 2
    ensures r.Failure? ==> r.error == IndexError
    ensures r.Success? ==> |r.value| == |rgrid| + 1
    ensures r.Success? ==> r.value[0] == rgrid[0] - (rgrid[1] - rgrid[0]) / 2.0
    ensures r.Success? ==> forall k :: 0 <= k < |rgrid| - 1 ==>
              r.value[k + 1] - r.value[k] == rgrid[k + 1] - rgrid[k]
    ensures r.Success? ==> r.value[|rgrid|] - r.value[|rgrid| - 1] == rgrid[1] - rgrid[0]
  {
    if |rgrid| < 2 then Failure(IndexError)
    else
      var half := (rgrid[1] - rgrid[0]) / 2.0;
      Success(seq(|rgrid|, i requires 0 <= i < |rgrid| => rgrid[i] - half) + [rgrid[|rgrid| - 1] + half])
  }

  /** `(r[:-1] + r[1:]) / 2.0`: one point per gap, equidistant from its two edges. */
  function Midpoints(r: seq<real>): (m: seq<real>)
    ensures |m| == if |r| == 0 then 0 else |r| - 1
    ensures forall k :: 0 <= k < |m| ==> m[k] - r[k] == r[k + 1] - m[k]
  {
    if |r| == 0 then [] else seq(|r| - 1, k requires 0 <= k < |r| - 1 => (r[k] + r[k + 1]) / 2.0)
  }

  /** Every spacing equals the first one. */
  predicate Uniform(s: seq<real>)
    requires |s| >= 2
  {
    forall k :: 0 <= k < |s| - 1 ==> s[k + 1] - s[k] == s[1] - s[0]
  }

  /** The recovered centre k is centre k exactly when gap k equals the first spacing. */
  lemma MidpointAt(rgrid: seq<real>, k: nat)
    requires 2 <= |rgrid| && k < |rgrid|
    ensures EdgesFromCentres(rgrid).Success?
    ensures |Midpoints(EdgesFromCentres(rgrid).value)| == |rgrid|
    ensures Midpoints(EdgesFromCentres(rgrid).value)[k] == rgrid[k]
            <==> k == |rgrid| - 1 || rgrid[k + 1] - rgrid[k] == rgrid[1] - rgrid[0]
  {
    var e := EdgesFromCentres(rgrid).value;
    var h := rgrid[1] - rgrid[0];
    assert e[k] == rgrid[k] - h / 2.0;
    if k < |rgrid| - 1 {
      assert e[k + 1] == rgrid[k + 1] - h / 2.0;
    } else {
      assert e[k + 1] == rgrid[k] + h / 2.0;
    }
  }

  /** Uniformly spaced centres survive the round trip through edges and midpoints unchanged. */
  lemma UniformRoundTrip(rgrid: seq<real>)
    requires |rgrid| >= 2 && Uniform(rgrid)
    ensures EdgesFromCentres(rgrid).Success?
    ensures Midpoints(EdgesFromCentres(rgrid).value) == rgrid
  {
    var m := Midpoints(EdgesFromCentres(rgrid).value);
    forall k | 0 <= k < |rgrid|
      ensures m[k] == rgrid[k]
    {
      MidpointAt(rgrid, k);
    }
  }

  /** Only uniformly spaced centres survive the round trip: for any other grid some centre moves. */
  lemma RoundTripNeedsUniform(rgrid: seq<real>)
    requires |rgrid| >= 2
    requires EdgesFromCentres(rgrid).Success? && Midpoints(EdgesFromCentres(rgrid).value) == rgrid
    ensures Uniform(rgrid)
  {
    forall k | 0 <= k < |rgrid| - 1
      ensures rgrid[k + 1] - rgrid[k] == rgrid[1] - rgrid[0]
    {
      MidpointAt(rgrid, k);
    }
  }

  /**
   * For increasing, uniformly spaced centres every centre lies strictly
   * inside its own bin, so the histogram bins are the intended ones.
   */
  lemma CentresInsideBins(rgrid: seq<real>)
    requires |rgrid| >= 2 && Uniform(rgrid) && rgrid[1] > rgrid[0]
    ensures EdgesFromCentres(rgrid).Success?
    ensures forall k :: 0 <= k < |rgrid| ==>
              EdgesFromCentres(rgrid).value[k] < rgrid[k] < EdgesFromCentres(rgrid).value[k + 1]
  {
    var e := EdgesFromCentres(rgrid).value;
    var h := rgrid[1] - rgrid[0];
    forall k | 0 <= k < |rgrid|
      ensures e[k] < rgrid[k] < e[k + 1]
    {
      assert e[k] == rgrid[k] - h / 2.0;
      if k < |rgrid| - 1 {
        assert e[k + 1] == rgrid[k + 1] - h / 2.0;
        assert rgrid[k + 1] - rgrid[k] == h;
      }
    }
  }
}
