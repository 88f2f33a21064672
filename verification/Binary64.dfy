/** The f64 values the program compares, and the one place where rounding of a difference decides a comparison. */
module Binary64 {

  /** `Finite` ranges over all reals; where rounding matters `IsF64` narrows it to the representable ones. */
  datatype F64 = NaN | NegInf | PosInf | Finite(r: real)

  /** `<` on f64: false when either side is NaN. */
  predicate Less(a: F64, b: F64) {
    match (a, b)
    case (NegInf, Finite(_)) => true
    case (NegInf, PosInf) => true
    case (Finite(x), Finite(y)) => x < y
    case (Finite(_), PosInf) => true
    case _ => false
  }

  /** `<=` on f64. */
  predicate AtMost(a: F64, b: F64) {
    Less(a, b) || (a == b && !a.NaN?)
  }

  /** `f64::max`: a NaN gives way to the other side. */
  function Max(a: F64, b: F64): F64 {
    if a.NaN? then b else if Less(a, b) then b else a
  }

  /** Two to the power `e`. */
  function Exp2(e: int): (p: real)
    ensures p > 0.0
    decreases if e < 0 then -e else e
  {
    if e == 0 then 1.0 else if e > 0 then 2.0 * Exp2(e - 1) else Exp2(e + 1) / 2.0
  }

  predicate IsScaled(x: real, m: int, e: int) {
    -0x20_0000_0000_0000 < m < 0x20_0000_0000_0000 && -1074 <= e <= 971 && x == m as real * Exp2(e)
  }

  /** The reals binary64 represents: 53-bit multiples of a power of two. */
  ghost predicate IsDouble(x: real) {
    exists m: int, e: int :: IsScaled(x, m, e)
  }

  ghost predicate IsF64(a: F64) {
    a.Finite? ==> IsDouble(a.r)
  }

  function Distance(x: real, y: real): real {
    if x <= y then y - x else x - y
  }

  /** `d` is a representable number closest to `y`, whichever way ties go. */
  ghost predicate Nearest(y: real, d: real) {
    IsDouble(d) && forall z: real :: IsDouble(z) ==> Distance(y, d) <= Distance(y, z)
  }

  /** What `a - c` evaluates to. */
  ghost predicate IsDifference(a: F64, c: real, d: F64) {
    match a
    case Finite(x) => d.Finite? && Nearest(x - c, d.r)
    case _ => d == a
  }

  /** 2 to the 56: from here on neighbouring doubles are 16 apart. */
  const TWO56: real := 72057594037927936.0

  lemma {:induction false} LargePower(e: int) returns (k: int)
    requires e >= 4
    ensures Exp2(e) == 16.0 * k as real
  {
    if e == 4 {
      assert Exp2(4) == 16.0;
      k := 1;
    } else {
      var h := LargePower(e - 1);
      k := 2 * h;
    }
  }

  lemma {:induction false} SmallPower(e: int)
    requires e <= 3
    ensures Exp2(e) <= 8.0
    decreases 3 - e
  {
    if e == 3 {
      assert Exp2(3) == 8.0;
    } else {
      SmallPower(e + 1);
      PowerStep(e);
    }
  }

  lemma PowerStep(e: int)
    ensures Exp2(e + 1) == 2.0 * Exp2(e)
  {
  }

  /** Every double from 2^56 on is a multiple of 16. */
  lemma LargeDoublesAreCoarse(x: real) returns (q: int)
    requires IsDouble(x) && x >= TWO56
    ensures x == 16.0 * q as real
  {
    var m: int, e: int :| IsScaled(x, m, e);
    if e <= 3 {
      SmallPower(e);
      ProductBelow(m, Exp2(e));
      q := 0;
    } else {
      var k := LargePower(e);
      q := m * k;
      assert m as real * (16.0 * k as real) == 16.0 * (m as real * k as real);
      assert (m * k) as real == m as real * k as real;
    }
  }

  lemma ProductBelow(m: int, p: real)
    requires m < 0x20_0000_0000_0000 && 0.0 < p <= 8.0
    ensures m as real * p < TWO56
  {
    if m <= 0 {
      assert m as real * p <= 0.0;
    } else {
      assert m as real * p <= m as real * 8.0;
    }
  }

  lemma SmallMultiplesAreDoubles(k: int)
    requires 0 <= k < 0x20_0000_0000_0000
    ensures IsDouble(8.0 * k as real)
  {
    assert Exp2(3) == 8.0;
    assert IsScaled(8.0 * k as real, k, 3);
  }

  /** Some double lies less than 10 below a double up to 2^56. */
  lemma CloseDouble(l: real) returns (z: real)
    requires 0.0 < l <= TWO56
    ensures IsDouble(z) && l - 10.0 < z < l
  {
    hide IsDouble;
    var f := (l / 8.0).Floor;
    var k := if 8.0 * f as real == l then f - 1 else f;
    SmallMultiplesAreDoubles(k);
    z := 8.0 * k as real;
  }

  /** No double lies less than 16 below one beyond 2^56. */
  lemma NoCloseDouble(l: real, d: real)
    requires IsDouble(l) && l > TWO56 && IsDouble(d) && d < l
    ensures d <= l - 16.0
  {
    hide IsDouble;
    var p := LargeDoublesAreCoarse(l);
    assert TWO56 == 16.0 * 4503599627370496.0;
    if d >= TWO56 {
      var q := LargeDoublesAreCoarse(d);
      assert q < p;
    } else {
      assert p > 4503599627370496;
    }
  }

  /** Subtracting 5 from a positive double lowers it exactly up to 2^56; beyond, the difference rounds back. */
  lemma FiveIsSubtractedIff(l: real, d: real)
    requires IsDouble(l) && l > 0.0 && Nearest(l - 5.0, d)
    ensures d <= l && (d < l <==> l <= TWO56)
  {
    assert Distance(l - 5.0, d) <= Distance(l - 5.0, l);
    if l <= TWO56 {
      var z := CloseDouble(l);
      assert Distance(l - 5.0, d) <= Distance(l - 5.0, z);
    } else if d < l {
      NoCloseDouble(l, d);
    }
  }
}
