/** Share targets: the byte-wise long division of pdiff-1 by the difficulty, and the byte-wise comparison. */
module Targets {
  import opened Words
  import opened Arithmetic
  import opened Binary64

  /** The number spelled by big-endian bytes. */
  function Value(b: Bytes): nat {
    if b == [] then 0 else 0x100 * Value(b[..|b| - 1]) + b[|b| - 1]
  }

  function Pow256(n: nat): (p: nat)
    ensures p > 0
  {
    if n == 0 then 1 else 0x100 * Pow256(n - 1)
  }

  /** The `n` low big-endian digits of `v`. */
  function BytesOf(v: nat, n: nat): (b: Bytes)
    ensures |b| == n
    decreases v, n
  {
    if n == 0 then [] else BytesOf(v / 0x100, n - 1) + [v % 0x100]
  }

  lemma {:induction false} ValueOfBytesOf(v: nat, n: nat)
    requires v < Pow256(n)
    ensures Value(BytesOf(v, n)) == v
  {
    if n > 0 {
      ValueOfBytesOf(v / 0x100, n - 1);
      assert BytesOf(v, n)[..n - 1] == BytesOf(v / 0x100, n - 1);
    }
  }

  lemma {:induction false} BytesOfValue(b: Bytes)
    ensures Value(b) < Pow256(|b|) && BytesOf(Value(b), |b|) == b
  {
    if b != [] {
      var n := |b| - 1;
      BytesOfValue(b[..n]);
      assert Value(b) / 0x100 == Value(b[..n]) && Value(b) % 0x100 == b[n];
      assert b == b[..n] + [b[n]];
    }
  }

  /** Byte strings of one length are determined by their value. */
  lemma ValueInjective(a: Bytes, b: Bytes)
    requires |a| == |b| && Value(a) == Value(b)
    ensures a == b
  {
    BytesOfValue(a);
    BytesOfValue(b);
  }

  lemma {:induction false} ValueSplit(b: Bytes, i: nat)
    requires i <= |b|
    ensures Value(b) == Value(b[..i]) * Pow256(|b| - i) + Value(b[i..])
  {
    if i == |b| {
      assert b[..i] == b;
    } else {
      var n := |b| - 1;
      var c, tail := b[..n], b[i..];
      ValueSplit(c, i);
      assert c[..i] == b[..i] && tail[..n - i] == c[i..] && tail[n - i] == b[n];
      ShiftSum(Value(b[..i]), Pow256(n - i), Value(c[i..]));
    }
  }

  lemma ShiftSum(x: nat, p: nat, y: nat)
    ensures 0x100 * (x * p + y) == x * (0x100 * p) + 0x100 * y
  {
  }

  lemma ValueSnoc(b: Bytes, x: Byte)
    ensures Value(b + [x]) == 0x100 * Value(b) + x
  {
    assert (b + [x])[..|b|] == b;
  }

  /** The first differing byte decides the numeric comparison. */
  lemma FirstDifferenceDecides(a: Bytes, b: Bytes, i: nat)
    requires |a| == |b| && i < |a| && a[..i] == b[..i] && a[i] < b[i]
    ensures Value(a) < Value(b)
  {
    hide Value, Pow256;
    ValueSplit(a, i + 1);
    ValueSplit(b, i + 1);
    BytesOfValue(a[i + 1..]);
    NextDigit(a, i);
    NextDigit(b, i);
    LeadingDigitsDecide(Value(a[..i + 1]), Value(b[..i + 1]), Pow256(|a| - i - 1),
                        Value(a[i + 1..]), Value(b[i + 1..]));
  }

  lemma NextDigit(b: Bytes, i: nat)
    requires i < |b|
    ensures Value(b[..i + 1]) == 0x100 * Value(b[..i]) + b[i]
  {
    assert b[..i + 1] == b[..i] + [b[i]];
    ValueSnoc(b[..i], b[i]);
  }

  lemma LeadingDigitsDecide(x: nat, y: nat, p: nat, r: nat, s: nat)
    requires x < y && r < p
    ensures x * p + r < y * p + s
  {
    MulMono(x + 1, y, p);
    assert (x + 1) * p == x * p + p;
  }

  /** `hash_leq_target`: the lexicographic walk is numeric comparison. */
  method HashLeqTarget(hash: Hash, target: Hash) returns (r: bool)
    ensures r <==> Value(hash) <= Value(target)
  {
    for i := 0 to 32
      invariant hash[..i] == target[..i]
    {
      if hash[i] < target[i] {
        FirstDifferenceDecides(hash, target, i);
        return true;
      }
      if hash[i] > target[i] {
        FirstDifferenceDecides(target, hash, i);
        return false;
      }
      assert hash[..i + 1] == hash[..i] + [hash[i]] && target[..i + 1] == target[..i] + [target[i]];
    }
    assert hash == hash[..32] && target == target[..32];
    return true;
  }

  /** The pdiff-1 target: bytes 4 and 5 are 0xFF. */
  function Pdiff1(): Hash {
    [0, 0, 0, 0, 0xff, 0xff] + seq(26, _ => 0)
  }

  /**
   `u256_div_u64_be`. The cast to one byte is written as `% 0x100`; `DigitFits` shows that neither it nor the
   128-bit accumulator ever drops a digit.
   */
  method U256DivU64Be(dividend: Hash, divisor: U64) returns (quotient: Hash)
    requires divisor >= 1
    ensures Value(quotient) == Value(dividend) / divisor
  {
    var q := new Byte[32](_ => 0);
    var rem: nat := 0;
    assert Value([]) == 0;
    hide Value;
    for i := 0 to 32
      invariant rem < divisor
      invariant Value(dividend[..i]) == Value(q[..i]) * divisor + rem
    {
      ghost var before := q[..i];
      var digit, next := DivideByte(rem, dividend[i], divisor);
      DivisionStep(dividend[..i], before, divisor, rem, dividend[i], digit, next);
      q[i] := digit;
      assert q[..i + 1] == before + [digit];
      assert dividend[..i + 1] == dividend[..i] + [dividend[i]];
      rem := next;
    }
    assert dividend[..32] == dividend && q[..32] == q[..];
    QuotientIs(Value(dividend), divisor, Value(q[..]));
    return q[..];
  }

  /** The accumulator stays far below 128 bits. */
  lemma AccumulatorFits(rem: nat, byte: Byte, divisor: U64)
    requires rem < divisor
    ensures rem * 0x100 + byte < 0x100 * divisor < 0x100_0000_0000_0000_0000
  {
  }

  /** Its quotient is one byte. */
  lemma DigitFits(acc: nat, divisor: nat)
    requires acc < 0x100 * divisor
    ensures acc / divisor < 0x100 && acc % divisor < divisor && acc == acc / divisor * divisor + acc % divisor
  {
    QuotientBounds(acc, divisor);
    MulLess(acc / divisor, 0x100, divisor);
    assert acc == divisor * (acc / divisor) + acc % divisor;
  }

  /** One digit of the division: the accumulator, its quotient cast to a byte, and its remainder. */
  method DivideByte(rem: nat, byte: Byte, divisor: U64) returns (digit: Byte, next: nat)
    requires rem < divisor
    ensures rem * 0x100 + byte == digit * divisor + next && next < divisor
  {
    var acc := rem * 0x100 + byte;
    AccumulatorFits(rem, byte, divisor);
    DigitFits(acc, divisor);
    var whole, left := acc / divisor, acc % divisor;
    assert whole < 0x100 && acc == whole * divisor + left;
    digit, next := whole % 0x100, left;
    assert digit == whole;
  }

  /** Bringing down one more byte keeps dividend = quotient * divisor + remainder. */
  lemma DivisionStep(head: Bytes, quotient: Bytes, d: nat, rem: nat, byte: Byte, digit: Byte, next: nat)
    requires Value(head) == Value(quotient) * d + rem && rem * 0x100 + byte == digit * d + next
    ensures Value(head + [byte]) == Value(quotient + [digit]) * d + next
  {
    hide Value;
    ValueSnoc(head, byte);
    ValueSnoc(quotient, digit);
    Redistribute(Value(quotient), d, digit);
  }

  lemma Redistribute(q: nat, d: nat, digit: nat)
    ensures (0x100 * q + digit) * d == 0x100 * (q * d) + digit * d
  {
  }

  /** `d <= 0.0 ? 1 : d.round().max(1.0) as u64`: NaN clamps up to 1, the cast saturates. */
  function RoundedDifficulty(d: F64): (k: U64)
    ensures k >= 1
  {
    match d
    case NaN => 1
    case NegInf => 1
    case PosInf => TWO64 - 1
    case Finite(r) =>
      if r <= 0.0 then 1
      else
        var n := (r + 0.5).Floor;
        if n < 1 then 1 else if n >= TWO64 then TWO64 - 1 else n
  }

  /** The share target of a difficulty: floor(pdiff-1 / rounded difficulty) in 32 bytes. */
  function TargetOf(d: F64): Hash {
    BytesOf(Value(Pdiff1()) / RoundedDifficulty(d), 32)
  }

  lemma TargetValue(d: F64)
    ensures Value(TargetOf(d)) == Value(Pdiff1()) / RoundedDifficulty(d)
  {
    hide Value, Pdiff1, BytesOf, Pow256, RoundedDifficulty;
    BytesOfValue(Pdiff1());
    var k := RoundedDifficulty(d);
    QuotientAtMost(Value(Pdiff1()), k);
    ValueOfBytesOf(Value(Pdiff1()) / k, 32);
  }

  lemma QuotientAtMost(a: nat, d: nat)
    requires d > 0
    ensures a / d <= a
  {
    assert a == a / d * d + a % d;
    MulMono(1, d, a / d);
  }

  lemma QuotientAdjoint(v: nat, a: nat, d: nat)
    requires d > 0
    ensures v <= a / d <==> v * d <= a
  {
    assert a == a / d * d + a % d;
    if v <= a / d {
      MulMono(v, a / d, d);
    } else {
      MulMono(a / d + 1, v, d);
    }
  }

  /** `target_from_difficulty`. */
  method TargetFromDifficulty(d: F64) returns (t: Hash)
    ensures t == TargetOf(d)
  {
    TargetValue(d);
    var divisor := RoundedDifficulty(d);
    if divisor <= 1 {
      t := Pdiff1();
    } else {
      t := U256DivU64Be(Pdiff1(), divisor);
    }
    ValueInjective(t, TargetOf(d));
  }

  /** A hash meets the target of difficulty `d` exactly when hash times rounded difficulty is at most pdiff-1. */
  lemma MeetsTargetIff(hash: Hash, d: F64)
    ensures Value(hash) <= Value(TargetOf(d)) <==> Value(hash) * RoundedDifficulty(d) <= Value(Pdiff1())
  {
    hide Value, Pdiff1, BytesOf, TargetOf, RoundedDifficulty;
    TargetValue(d);
    QuotientAdjoint(Value(hash), Value(Pdiff1()), RoundedDifficulty(d));
  }

  /** `k` is the divisor of a difficulty: the nearest whole number, halves upwards, kept within 1 and 2^64 - 1. */
  ghost predicate IsDivisor(d: F64, k: nat) {
    match d
    case NaN => k == 1
    case NegInf => k == 1
    case PosInf => k == TWO64 - 1
    case Finite(r) =>
      if r < 0.5 then k == 1
      else if r >= (TWO64 - 1) as real then k == TWO64 - 1
      else k as real - 0.5 <= r < k as real + 0.5
  }

  lemma DivisorIsUnique(d: F64, k: nat)
    requires IsDivisor(d, k)
    ensures k == RoundedDifficulty(d)
  {
    if d.Finite? && 0.5 <= d.r < (TWO64 - 1) as real {
      var n := (d.r + 0.5).Floor;
      assert n as real <= d.r + 0.5 < n as real + 1.0;
      assert k as real <= d.r + 0.5 < k as real + 1.0;
    }
  }

  /** Every difficulty has a divisor. */
  lemma HasDivisor(d: F64)
    ensures IsDivisor(d, RoundedDifficulty(d))
  {
  }

  /** The pdiff-1 target is 0xFFFF followed by 26 zero bytes. */
  lemma Pdiff1Value()
    ensures Value(Pdiff1()) == 0xFFFF * Pow256(26)
  {
    var zeros := seq(26, i requires 0 <= i < 26 => 0 as Byte);
    assert Pdiff1() == [0, 0, 0, 0, 0xff, 0xff] + zeros;
    LeadingBytes();
    hide Value, Pow256, Pdiff1;
    TrailingZeros([0, 0, 0, 0, 0xff, 0xff], zeros);
  }

  lemma LeadingBytes()
    ensures Value([0, 0, 0, 0, 0xff, 0xff]) == 0xFFFF
  {
    ZeroValue([0, 0, 0, 0]);
    hide Value;
    ValueSnoc([0, 0, 0, 0], 0xff);
    ValueSnoc([0, 0, 0, 0, 0xff], 0xff);
    assert [0, 0, 0, 0] + [0xff] == [0, 0, 0, 0, 0xff];
    assert [0, 0, 0, 0, 0xff] + [0xff] == [0, 0, 0, 0, 0xff, 0xff];
  }

  lemma TrailingZeros(b: Bytes, zeros: Bytes)
    requires forall i :: 0 <= i < |zeros| ==> zeros[i] == 0
    ensures Value(b + zeros) == Value(b) * Pow256(|zeros|)
  {
    hide Value, Pow256;
    ValueSplit(b + zeros, |b|);
    ZeroValue(zeros);
    assert (b + zeros)[..|b|] == b && (b + zeros)[|b|..] == zeros;
  }

  lemma {:induction false} ZeroValue(b: Bytes)
    requires forall i :: 0 <= i < |b| ==> b[i] == 0
    ensures Value(b) == 0
  {
    if b != [] {
      ZeroValue(b[..|b| - 1]);
    }
  }

  /** The share law: with divisor `k` a hash meets the target exactly when hash * k is at most 0xFFFF * 256^26. */
  lemma ShareLaw(hash: Hash, d: F64, k: nat)
    requires IsDivisor(d, k)
    ensures Value(TargetOf(d)) == 0xFFFF * Pow256(26) / k
    ensures Value(hash) <= Value(TargetOf(d)) <==> Value(hash) * k <= 0xFFFF * Pow256(26)
  {
    hide Value, Pdiff1, TargetOf, RoundedDifficulty, IsDivisor, Pow256;
    DivisorIsUnique(d, k);
    Pdiff1Value();
    TargetValue(d);
    MeetsTargetIff(hash, d);
  }

  /** A higher difficulty never has a higher target. */
  lemma TargetsAreAntitone(d1: F64, d2: F64)
    requires AtMost(d1, d2)
    ensures Value(TargetOf(d2)) <= Value(TargetOf(d1)) <= Value(Pdiff1())
  {
    assert RoundedDifficulty(d1) <= RoundedDifficulty(d2);
    hide Value, Pdiff1, BytesOf, TargetOf, RoundedDifficulty;
    var k1: nat, k2: nat, p := RoundedDifficulty(d1), RoundedDifficulty(d2), Value(Pdiff1());
    TargetValue(d1);
    TargetValue(d2);
    QuotientAtMost(p, k1);
    QuotientAdjoint(p / k2, p, k2);
    MulMono(k1, k2, p / k2);
    QuotientAdjoint(p / k2, p, k1);
  }
}
