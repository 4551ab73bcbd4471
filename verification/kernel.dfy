/**
 * The minimum-image kernels `gr_kernel_square` (and, through it, `gr_kernel`).
 *
 * Points and the cell side are vectors of exact reals, one entry per axis.
 * Each coordinate difference r is folded back into the cell by subtracting
 * the nearest multiple of that axis' side, `r - rint(r / L) * L`, with
 * `numpy.rint` rounding halves to the even integer.
 */
module MinimumImage {

  /** `numpy.rint`: the integer nearest to `t`, halves going to the even neighbour. */
  function Rint(t: real): (k: int)
    ensures -0.5 <= t - k as real <= 0.5
    ensures t - k as real == 0.5 || t - k as real == -0.5 ==> k % 2 == 0
  {
    var fl := t.Floor;
    var frac := t - fl as real;
    if frac < 0.5 then fl
    else if frac > 0.5 then fl + 1
    else if fl % 2 == 0 then fl
    else fl + 1
  }

  /** The two properties of `Rint` pin its value down: no other integer has both. */
  lemma RintUnique(t: real, k: int)
    requires -0.5 <= t - k as real <= 0.5
    requires t - k as real == 0.5 || t - k as real == -0.5 ==> k % 2 == 0
    ensures k == Rint(t)
  {
    var m := Rint(t);
    assert -1 <= k - m <= 1 by {
      assert -1.0 <= (k - m) as real <= 1.0;
    }
  }

  /** Rounding halves to even is odd-symmetric: `rint(-t) == -rint(t)`. */
  lemma RintOdd(t: real)
    ensures Rint(-t) == -Rint(t)
  {
    var k := Rint(t);
    assert -t - (-k) as real == -(t - k as real);
    assert (-k) % 2 == 0 <==> k % 2 == 0;
    RintUnique(-t, -k);
  }

  /**
   * Whatever integer a rounding rule picks, as long as it is within half a
   * unit of `r / side`, the reduced component lies in the closed interval
   * [-side/2, side/2].  This is why the tie rule does not matter for the bound.
   */
  lemma ReducedWithinHalfSide(r: real, side: real, k: int)
    requires side > 0.0
    requires -0.5 <= r / side - k as real <= 0.5
    ensures -side / 2.0 <= r - k as real * side <= side / 2.0
  {
    var q := r / side - k as real;
    assert r == (r / side) * side;
    assert r - k as real * side == q * side;
    assert -0.5 * side <= q * side <= 0.5 * side;
  }

  /** One minimum-image component, `r - numpy.rint(r / L) * L`. */
  function Reduce(r: real, side: real): (m: real)
    requires side > 0.0
    ensures -side / 2.0 <= m <= side / 2.0
  {
    ReducedWithinHalfSide(r, side, Rint(r / side));
    r - Rint(r / side) as real * side
  }

  /** Reducing the opposite difference gives the opposite component. */
  lemma ReduceOdd(r: real, side: real)
    requires side > 0.0
    ensures Reduce(-r, side) == -Reduce(r, side)
  {
    assert -r / side == -(r / side);
    RintOdd(r / side);
  }

  /** A cell side vector for points of dimension `dim`: every side strictly positive. */
  predicate ValidCell(side: seq<real>, dim: nat)
  {
    |side| == dim && forall a :: 0 <= a < |side| ==> side[a] > 0.0
  }

  /** The minimum-image displacement `x - y`, axis by axis (lines 25-26). */
  function Displacement(x: seq<real>, y: seq<real>, side: seq<real>): (d: seq<real>)
    requires |x| == |y| && ValidCell(side, |x|)
    ensures |d| == |x|
    ensures forall a :: 0 <= a < |d| ==> -side[a] / 2.0 <= d[a] <= side[a] / 2.0
  {
    seq(|x|, a requires 0 <= a < |x| => Reduce(x[a] - y[a], side[a]))
  }

  function SumSquares(v: seq<real>): (s: real)
  {
    if |v| == 0 then 0.0 else v[0] * v[0] + SumSquares(v[1..])
  }

  /** Half of every side: the largest reduced component along each axis. */
  function HalfCell(side: seq<real>): (h: seq<real>)
    ensures |h| == |side|
  {
    seq(|side|, a requires 0 <= a < |side| => side[a] / 2.0)
  }

  lemma {:induction false} SumSquaresBounded(d: seq<real>, h: seq<real>)
    requires |d| == |h|
    requires forall a :: 0 <= a < |d| ==> -h[a] <= d[a] <= h[a]
    ensures 0.0 <= SumSquares(d) <= SumSquares(h)
    decreases |d|
  {
    if |d| > 0 {
      SumSquaresBounded(d[1..], h[1..]);
      var u, w := d[0], h[0];
      assert 0.0 <= w;
      if u >= 0.0 {
        assert u * u <= w * u <= w * w;
      } else {
        assert u * u <= (-w) * u <= w * w;
      }
    }
  }

  lemma {:induction false} SumSquaresNegate(d: seq<real>, e: seq<real>)
    requires |d| == |e|
    requires forall a :: 0 <= a < |d| ==> e[a] == -d[a]
    ensures SumSquares(e) == SumSquares(d)
    decreases |d|
  {
    if |d| > 0 {
      SumSquaresNegate(d[1..], e[1..]);
    }
  }

  /**
   * `gr_kernel_square` for one pair of points: the squared minimum-image
   * distance.  It is never negative and never exceeds the squared
   * half-diagonal of the cell.
   */
  function SquaredDistance(x: seq<real>, y: seq<real>, side: seq<real>): (s: real)
    requires |x| == |y| && ValidCell(side, |x|)
    ensures 0.0 <= s <= SumSquares(HalfCell(side))
  {
    var d := Displacement(x, y, side);
    SumSquaresBounded(d, HalfCell(side));
    SumSquares(d)
  }

  /**
   * The squared minimum-image distance is symmetric.  This is what lets the
   * self-correlation count only the pairs i < j and halve the normalisation.
   */
  lemma SquaredDistanceSymmetric(x: seq<real>, y: seq<real>, side: seq<real>)
    requires |x| == |y| && ValidCell(side, |x|)
    ensures SquaredDistance(x, y, side) == SquaredDistance(y, x, side)
  {
    var d := Displacement(x, y, side);
    var e := Displacement(y, x, side);
    forall a | 0 <= a < |d|
      ensures e[a] == -d[a]
    {
      assert y[a] - x[a] == -(x[a] - y[a]);
      ReduceOdd(x[a] - y[a], side[a]);
    }
    SumSquaresNegate(d, e);
  }

  lemma {:induction false} SumSquaresZero(d: seq<real>)
    requires forall a :: 0 <= a < |d| ==> d[a] == 0.0
    ensures SumSquares(d) == 0.0
    decreases |d|
  {
    if |d| > 0 {
      SumSquaresZero(d[1..]);
    }
  }

  /** A point is at distance zero from itself, whatever the cell. */
  lemma SquaredDistanceSelf(x: seq<real>, side: seq<real>)
    requires ValidCell(side, |x|)
    ensures SquaredDistance(x, x, side) == 0.0
  {
    var d := Displacement(x, x, side);
    forall a | 0 <= a < |d|
      ensures d[a] == 0.0
    {
      assert Rint(0.0 / side[a]) == 0 by {
        RintUnique(0.0 / side[a], 0);
      }
    }
    SumSquaresZero(d);
  }
}
