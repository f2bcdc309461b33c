/** Integer helpers for the fixed-point arithmetic of the demodulators: the C++
    operators `>>` on signed values and `/` (truncating), and the piecewise-linear
    arctangent `_fast_atan2` of the FM demodulator. */
module FixedPoint {

  function Pow2(k: nat): (r: nat)
    ensures r >= 1
  {
    if k == 0 then 1 else 2 * Pow2(k - 1)
  }

  /** `v >> k` on a signed (two's complement) value: floor division by 2^k. */
  function ShiftRight(v: int, k: nat): int
  {
    v / Pow2(k)
  }

  /** The shifted value is the largest r with r * 2^k <= v; in particular it keeps the
      sign of v and maps 0 to 0. */
  lemma ShiftRightBounds(v: int, k: nat)
    ensures Pow2(k) * ShiftRight(v, k) <= v < Pow2(k) * ShiftRight(v, k) + Pow2(k)
    ensures ShiftRight(v, k) < 0 <==> v < 0
  {
    var q := ShiftRight(v, k);
    assert v == Pow2(k) * q + v % Pow2(k);
    if q < 0 {
      MulLe(Pow2(k), q, -1);
    }
    if v < 0 && q >= 0 {
      MulLe(Pow2(k), 0, q);
    }
  }

  /** C++ integer division by a positive divisor: the quotient is truncated toward zero. */
  function TruncDiv(x: int, d: int): int
    requires d > 0
  {
    if x >= 0 then x / d else -((-x) / d)
  }

  /** The truncated quotient q satisfies |d * q| <= |x| < |d * q| + d, with d * q of the
      sign of x. */
  lemma TruncDivBounds(x: int, d: int)
    requires d > 0
    ensures 0 <= x ==> 0 <= d * TruncDiv(x, d) <= x < d * TruncDiv(x, d) + d
    ensures x < 0 ==> d * TruncDiv(x, d) - d < x <= d * TruncDiv(x, d) <= 0
  {
    if x >= 0 {
      EuclideanDivBounds(x, d);
    } else {
      EuclideanDivBounds(-x, d);
      assert d * -((-x) / d) == -(d * ((-x) / d));
    }
  }

  lemma EuclideanDivBounds(x: int, d: int)
    requires x >= 0 && d > 0
    ensures 0 <= d * (x / d) <= x < d * (x / d) + d
  {
    assert x == d * (x / d) + x % d;
  }

  lemma MulLe(d: int, x: int, y: int)
    requires d >= 0 && x <= y
    ensures d * x <= d * y
  {
    assert d * y - d * x == d * (y - x);
  }

  lemma SquareNonNegative(v: int)
    ensures v * v >= 0
  {
    if v < 0 {
      MulLe(-v, 0, -v);
    } else {
      MulLe(v, 0, v);
    }
  }

  /** The quotient p*num/den used by `_fast_atan2`: for |num| <= den it lies in [-p, p],
      it reaches p only at num == den and -p only at num == -den. */
  lemma ScaledRatioBounds(p: int, num: int, den: int)
    requires p > 0 && den > 0 && -den <= num <= den
    ensures -p <= TruncDiv(p * num, den) <= p
    ensures num < den ==> TruncDiv(p * num, den) < p
    ensures -den < num ==> -p < TruncDiv(p * num, den)
    ensures num == den ==> TruncDiv(p * num, den) == p
    ensures num == -den ==> TruncDiv(p * num, den) == -p
    ensures num == 0 ==> TruncDiv(p * num, den) == 0
  {
    if num >= 0 {
      NonNegativeRatio(p, num, den);
    } else {
      NegativeRatio(p, num, den);
    }
  }

  lemma NonNegativeRatio(p: int, num: int, den: int)
    requires p > 0 && den > 0 && 0 <= num <= den
    ensures 0 <= TruncDiv(p * num, den) <= p
    ensures num < den ==> TruncDiv(p * num, den) < p
    ensures num == den ==> TruncDiv(p * num, den) == p
    ensures num == 0 ==> TruncDiv(p * num, den) == 0
  {
    var x := p * num;
    var q := TruncDiv(x, den);
    MulLe(p, 0, num);
    TruncDivBounds(x, den);
    MulLe(p, num, den);
    assert 0 <= den * q <= x <= p * den;
    if q > p {
      MulLe(den, p + 1, q);
      assert false;
    }
    if q < 0 {
      MulLe(den, q, -1);
      assert false;
    }
    if num < den {
      MulLe(p, num, den - 1);
      if q >= p {
        MulLe(den, p, q);
        assert false;
      }
    }
    if num == den && q < p {
      MulLe(den, q + 1, p);
      assert false;
    }
  }

  lemma NegativeRatio(p: int, num: int, den: int)
    requires p > 0 && den > 0 && -den <= num < 0
    ensures -p <= TruncDiv(p * num, den) <= 0
    ensures -den < num ==> -p < TruncDiv(p * num, den)
    ensures num == -den ==> TruncDiv(p * num, den) == -p
  {
    var x := p * num;
    assert x == -(p * -num);
    NonNegativeRatio(p, -num, den);
    assert TruncDiv(x, den) == -TruncDiv(p * -num, den);
  }

  /** `>>` is monotone. */
  lemma ShiftRightMonotone(v1: int, v2: int, k: nat)
    requires v1 <= v2
    ensures ShiftRight(v1, k) <= ShiftRight(v2, k)
  {
    var p, q1, q2 := Pow2(k), ShiftRight(v1, k), ShiftRight(v2, k);
    ShiftRightBounds(v1, k);
    ShiftRightBounds(v2, k);
    if q1 > q2 {
      assert p * (q2 + 1) == p * q2 + p;
      MulLe(p, q2 + 1, q1);
      assert false;
    }
  }

  /** Truncating division is monotone in the exact quotient: x1/d1 <= x2/d2 (stated
      without division as x1*d2 <= x2*d1) implies TruncDiv(x1, d1) <= TruncDiv(x2, d2). */
  lemma TruncDivMonotone(x1: int, d1: int, x2: int, d2: int)
    requires d1 > 0 && d2 > 0 && x1 * d2 <= x2 * d1
    ensures TruncDiv(x1, d1) <= TruncDiv(x2, d2)
  {
    if x1 >= 0 {
      NonNegativeQuotientMonotone(x1, d1, x2, d2);
    } else if x2 >= 0 {
      TruncDivBounds(x1, d1);
      TruncDivBounds(x2, d2);
      if TruncDiv(x1, d1) > 0 {
        MulLe(d1, 1, TruncDiv(x1, d1));
        assert false;
      }
    } else {
      assert (-x2) * d1 <= (-x1) * d2;
      NonNegativeQuotientMonotone(-x2, d2, -x1, d1);
      assert TruncDiv(x1, d1) == -TruncDiv(-x1, d1);
      assert TruncDiv(x2, d2) == -TruncDiv(-x2, d2);
    }
  }

  lemma NonNegativeQuotientMonotone(x1: int, d1: int, x2: int, d2: int)
    requires d1 > 0 && d2 > 0 && 0 <= x1 && x1 * d2 <= x2 * d1
    ensures TruncDiv(x1, d1) <= TruncDiv(x2, d2)
  {
    MulLe(d2, 0, x1);
    if x2 < 0 {
      MulLe(d1, x2, -1);
      assert false;
    }
    var q1, q2 := TruncDiv(x1, d1), TruncDiv(x2, d2);
    TruncDivBounds(x1, d1);
    TruncDivBounds(x2, d2);
    if q1 > q2 {
      // then d2 * q1 > x2, while d1 * q1 <= x1; scaling each by the other divisor clashes
      MulLe(d2, q2 + 1, q1);
      CrossScaled(d1, d2, q1, x1, x2);
      assert false;
    }
  }

  lemma CrossScaled(d1: int, d2: int, q: int, x1: int, x2: int)
    requires d1 > 0 && d2 > 0 && d1 * q <= x1 && x2 < d2 * q
    ensures x2 * d1 < x1 * d2
  {
    MulLe(d2, d1 * q, x1);
    MulLe(d1, x2 + 1, d2 * q);
    assert d2 * (d1 * q) == d1 * (d2 * q);
  }

  /** The fixed-point angle scale of the FM demodulator: `rescale` is `_shift`, the
      output rescaling 8*(sizeof(oScalar) - sizeof(iScalar)); `unitShift` is
      `Traits<oScalar>::shift`, from which the angular unit pi/4 is derived (Pi4). */
  datatype ScaleParams = ScaleParams(rescale: int, unitShift: nat)

  /** The shift `9 - _shift` must not be negative and `unitShift - 4` must not be
      negative: both are shift counts in the source. */
  type Scaling = s: ScaleParams | s.rescale <= 9 && s.unitShift >= 4
    witness ScaleParams(0, 4)

  /** pi/4 in fixed-point angular units: 1 << (shift - 4). */
  function Pi4(s: Scaling): (r: int)
    ensures r >= 1
  {
    Pow2(s.unitShift - 4)
  }

  /** The amount both products are shifted right by before the approximation. */
  function PreShift(s: Scaling): nat
  {
    9 - s.rescale
  }

  /** `_fast_atan2(a, b)`: after shifting both arguments right by 9 - rescale, a
      piecewise-linear approximation of atan2(a, b) (a in the first argument position)
      in units where pi/4 is Pi4(s). */
  function FastAtan2(a: int, b: int, s: Scaling): int
  {
    var pi4 := Pi4(s);
    var pi34 := 3 * Pi4(s);
    var a := ShiftRight(a, PreShift(s));
    var b := ShiftRight(b, PreShift(s));
    if a == 0 && b == 0 then 0
    else
      var aabs := if a >= 0 then a else -a;
      var angle :=
        if b >= 0 then pi4 - TruncDiv(pi4 * (b - aabs), b + aabs)
        else pi34 - TruncDiv(pi4 * (b + aabs), aabs - b);
      if a >= 0 then angle else -angle
  }

  /** The range of `_fast_atan2`: within half a turn either way, negative exactly when a
      is, within a quarter turn when the shifted b is not negative and beyond it when it
      is, and exact at the four axis directions (0 for two zero arguments). */
  lemma FastAtan2Bounds(a: int, b: int, s: Scaling)
    ensures var r, a', b' := FastAtan2(a, b, s), ShiftRight(a, PreShift(s)), ShiftRight(b, PreShift(s));
      && -4 * Pi4(s) <= r <= 4 * Pi4(s)
      && (r < 0 <==> a < 0)
      && (b' >= 0 ==> -2 * Pi4(s) <= r <= 2 * Pi4(s))
      && (b' < 0 ==> r <= -2 * Pi4(s) || 2 * Pi4(s) <= r)
      && (a' == 0 && b' == 0 ==> r == 0)
      && (a' == 0 && b' > 0 ==> r == 0)
      && (a' == 0 && b' < 0 ==> r == 4 * Pi4(s))
      && (a' > 0 && b' == 0 ==> r == 2 * Pi4(s))
      && (a' < 0 && b' == 0 ==> r == -2 * Pi4(s))
  {
    var pi4 := Pi4(s);
    var a', b' := ShiftRight(a, PreShift(s)), ShiftRight(b, PreShift(s));
    ShiftRightBounds(a, PreShift(s));
    if !(a' == 0 && b' == 0) {
      var aabs := if a' >= 0 then a' else -a';
      if b' >= 0 {
        ScaledRatioBounds(pi4, b' - aabs, b' + aabs);
      } else {
        ScaledRatioBounds(pi4, b' + aabs, aabs - b');
      }
    }
  }

  /** Monotonicity, as for the true atan2(a, b): with a >= 0 fixed the angle does not
      grow as b grows (it turns from a half turn towards 0), and with a < 0 fixed it does
      not shrink. */
  lemma FastAtan2Monotone(a: int, b1: int, b2: int, s: Scaling)
    requires b1 <= b2
    ensures a >= 0 ==> FastAtan2(a, b1, s) >= FastAtan2(a, b2, s)
    ensures a < 0 ==> FastAtan2(a, b1, s) <= FastAtan2(a, b2, s)
  {
    var k, pi4 := PreShift(s), Pi4(s);
    var a', c1, c2 := ShiftRight(a, k), ShiftRight(b1, k), ShiftRight(b2, k);
    ShiftRightBounds(a, k);
    ShiftRightMonotone(b1, b2, k);
    FastAtan2Bounds(a, b1, s);
    FastAtan2Bounds(a, b2, s);
    if a' != 0 && !(c1 < 0 <= c2) {
      var aabs := if a' >= 0 then a' else -a';
      if c1 >= 0 {
        RightHalfMonotone(pi4, aabs, c1, c2);
      } else {
        LeftHalfMonotone(pi4, aabs, c1, c2);
      }
    }
  }

  /** In the right half-plane (b >= 0), (b - |a|)/(b + |a|) grows with b. */
  lemma RightHalfMonotone(pi4: int, aabs: int, c1: int, c2: int)
    requires pi4 >= 1 && aabs > 0 && 0 <= c1 <= c2
    ensures TruncDiv(pi4 * (c1 - aabs), c1 + aabs) <= TruncDiv(pi4 * (c2 - aabs), c2 + aabs)
  {
    assert (c1 - aabs) * (c2 + aabs) <= (c2 - aabs) * (c1 + aabs) by {
      MulLe(2 * aabs, c1, c2);
    }
    MulLe(pi4, (c1 - aabs) * (c2 + aabs), (c2 - aabs) * (c1 + aabs));
    assert (pi4 * (c1 - aabs)) * (c2 + aabs) <= (pi4 * (c2 - aabs)) * (c1 + aabs);
    TruncDivMonotone(pi4 * (c1 - aabs), c1 + aabs, pi4 * (c2 - aabs), c2 + aabs);
  }

  /** In the left half-plane (b < 0), (b + |a|)/(|a| - b) grows with b. */
  lemma LeftHalfMonotone(pi4: int, aabs: int, c1: int, c2: int)
    requires pi4 >= 1 && aabs > 0 && c1 <= c2 < 0
    ensures TruncDiv(pi4 * (c1 + aabs), aabs - c1) <= TruncDiv(pi4 * (c2 + aabs), aabs - c2)
  {
    assert (c1 + aabs) * (aabs - c2) <= (c2 + aabs) * (aabs - c1) by {
      MulLe(2 * aabs, c1, c2);
    }
    MulLe(pi4, (c1 + aabs) * (aabs - c2), (c2 + aabs) * (aabs - c1));
    assert (pi4 * (c1 + aabs)) * (aabs - c2) <= (pi4 * (c2 + aabs)) * (aabs - c1);
    TruncDivMonotone(pi4 * (c1 + aabs), aabs - c1, pi4 * (c2 + aabs), aabs - c2);
  }
}
