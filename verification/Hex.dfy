/** The three hexadecimal forms on the wire: byte strings, `{:08x}` integers, `from_str_radix(_, 16)`. */
module Hex {
  import opened Words

  /** A lower-case hexadecimal digit. */
  function DigitChar(d: nat): char
    requires d < 16
  {
    if d < 10 then ('0' as int + d) as char else ('a' as int + d - 10) as char
  }

  function DigitValue(c: char): Option<nat> {
    if '0' <= c <= '9' then Some(c as int - '0' as int)
    else if 'a' <= c <= 'f' then Some(c as int - 'a' as int + 10)
    else if 'A' <= c <= 'F' then Some(c as int - 'A' as int + 10)
    else None
  }

  lemma DigitBound(c: char)
    ensures DigitValue(c).Some? ==> DigitValue(c).value < 16
  {
  }

  lemma DigitRoundTrip(d: nat)
    requires d < 16
    ensures DigitValue(DigitChar(d)) == Some(d) && DigitChar(d) != '+'
  {
  }

  const LOWER: string := "0123456789abcdef"
  const UPPER: string := "0123456789ABCDEF"

  /** The digits are the sixteen of either case. */
  lemma DigitIs(c: char, v: nat)
    ensures DigitValue(c) == Some(v) <==> v < 16 && (c == LOWER[v] || c == UPPER[v])
  {
  }

  /** `hex::encode`. */
  function Encode(b: Bytes): (s: string)
    ensures |s| == 2 * |b|
  {
    if b == [] then "" else [DigitChar(b[0] / 16), DigitChar(b[0] % 16)] + Encode(b[1..])
  }

  /** `hex::decode`: odd lengths and non-hex characters are errors, either letter case is accepted. */
  function Decode(s: string): (r: Option<Bytes>)
    ensures r.Some? ==> |s| == 2 * |r.value|
  {
    if s == "" then Some([])
    else if |s| == 1 then None
    else
      DigitBound(s[0]);
      DigitBound(s[1]);
      match (DigitValue(s[0]), DigitValue(s[1]), Decode(s[2..]))
      case (Some(h), Some(l), Some(rest)) => Some([16 * h + l] + rest)
      case _ => None
  }

  /** Encoding writes two lower-case digits for each byte. */
  lemma {:induction false} EncodeIs(b: Bytes, i: nat)
    requires i < |b|
    ensures Encode(b)[2 * i] == LOWER[b[i] / 16] && Encode(b)[2 * i + 1] == LOWER[b[i] % 16]
  {
    hide DigitChar;
    if i == 0 {
      LowerIs(b[0] / 16);
      LowerIs(b[0] % 16);
    } else {
      EncodeIs(b[1..], i - 1);
      assert Encode(b)[2..] == Encode(b[1..]);
    }
  }

  lemma LowerIs(d: nat)
    requires d < 16
    ensures DigitChar(d) == LOWER[d]
  {
  }

  /** A string decodes exactly when it is pairs of digits, and then to the bytes they spell. */
  lemma {:induction false} DecodeIs(s: string, b: Bytes)
    ensures Decode(s) == Some(b) <==>
              && |s| == 2 * |b|
              && forall i :: 0 <= i < |b| ==> IsPair(s, b, i)
    decreases |s|
  {
    hide DigitValue;
    if |s| >= 2 {
      DigitBound(s[0]);
      DigitBound(s[1]);
      if b != [] {
        DecodeIs(s[2..], b[1..]);
        assert b == [b[0]] + b[1..];
        if |s| == 2 * |b| {
          PairIs(s, b);
        }
      }
    }
  }

  lemma PairIs(s: string, b: Bytes)
    requires b != [] && |s| == 2 * |b|
    ensures (forall i :: 0 <= i < |b| ==> IsPair(s, b, i))
            <==> IsPair(s, b, 0) && forall i :: 0 <= i < |b| - 1 ==> IsPair(s[2..], b[1..], i)
  {
    hide DigitValue;
    forall i | 0 <= i < |b| - 1
      ensures IsPair(s[2..], b[1..], i) <==> IsPair(s, b, i + 1)
    {
      assert s[2..][2 * i] == s[2 * (i + 1)] && s[2..][2 * i + 1] == s[2 * (i + 1) + 1];
    }
    assert forall i :: 1 <= i < |b| ==> (IsPair(s, b, i) <==> IsPair(s[2..], b[1..], i - 1));
  }

  ghost predicate IsPair(s: string, b: Bytes, i: nat)
    requires i < |b| && |s| == 2 * |b|
  {
    DigitValue(s[2 * i]) == Some(b[i] / 16) && DigitValue(s[2 * i + 1]) == Some(b[i] % 16)
  }

  lemma {:induction false} DecodeOfEncode(b: Bytes)
    ensures Decode(Encode(b)) == Some(b)
  {
    hide DigitChar, DigitValue;
    if b != [] {
      var s := Encode(b);
      DigitBound(s[0]);
      DigitBound(s[1]);
      DigitRoundTrip(b[0] / 16);
      DigitRoundTrip(b[0] % 16);
      assert s[2..] == Encode(b[1..]);
      DecodeOfEncode(b[1..]);
      assert b == [b[0]] + b[1..];
    }
  }

  /** The number a digit string spells in base 16, if every character is a digit. */
  function HexNumber(s: string): Option<nat> {
    if s == "" then Some(0)
    else match (HexNumber(s[..|s| - 1]), DigitValue(s[|s| - 1]))
      case (Some(n), Some(d)) => Some(16 * n + d)
      case _ => None
  }

  /** `u32::from_str_radix(s, 16)`: one optional plus sign, at least one digit, no overflow. */
  function FromStrRadix16(s: string): Option<U32> {
    var digits := if |s| > 1 && s[0] == '+' then s[1..] else s;
    if digits == "" then None
    else match HexNumber(digits)
      case Some(n) => if n < TWO32 then Some(n) else None
      case None => None
  }

  /** Numbers parse exactly when, after at most one plus sign, they are digits and fit. */
  lemma RadixIs(s: string, n: U32)
    ensures FromStrRadix16(s) == Some(n) <==>
              || (s != "" && HexNumber(s) == Some(n))
              || (|s| > 1 && s[0] == '+' && HexNumber(s[1..]) == Some(n))
  {
    hide DigitValue;
    if s != "" && HexNumber(s) == Some(n) {
      AllDigits(s, 0);
      PlusIsNoDigit();
    }
  }

  lemma PlusIsNoDigit()
    ensures DigitValue('+') == None
  {
  }

  lemma {:induction false} AllDigits(s: string, i: nat)
    requires HexNumber(s).Some? && i < |s|
    ensures DigitValue(s[i]).Some?
  {
    hide DigitValue;
    if i < |s| - 1 {
      AllDigits(s[..|s| - 1], i);
    }
  }

  /** The `k` low hexadecimal digits of `n`, most significant first. */
  function LowDigits(n: nat, k: nat): (s: string)
    ensures |s| == k
    decreases n, k
  {
    if k == 0 then "" else LowDigits(n / 16, k - 1) + [DigitChar(n % 16)]
  }

  /** `format!("{:08x}", n)`: a u32 never needs more than its eight padded digits. */
  function Format08x(n: U32): string {
    LowDigits(n, 8)
  }

  function Pow16(k: nat): nat {
    if k == 0 then 1 else 16 * Pow16(k - 1)
  }

  /** The padded form is lower-case digits too. */
  lemma {:induction false} LowDigitsAreLower(n: nat, k: nat, i: nat)
    requires i < k
    ensures LowDigits(n, k)[i] in LOWER
  {
    hide DigitChar;
    if i == k - 1 {
      LowerIs(n % 16);
    } else {
      LowDigitsAreLower(n / 16, k - 1, i);
    }
  }

  lemma {:induction false} LowDigitsSpell(n: nat, k: nat)
    requires n < Pow16(k)
    ensures HexNumber(LowDigits(n, k)) == Some(n)
    ensures k > 0 ==> LowDigits(n, k)[0] != '+'
  {
    hide DigitChar, DigitValue;
    if k > 0 {
      LowDigitsSpell(n / 16, k - 1);
      DigitRoundTrip(n % 16);
      assert LowDigits(n, k)[..k - 1] == LowDigits(n / 16, k - 1);
    }
  }

  /** What `{:08x}` prints, `from_str_radix` reads back. */
  lemma ParseOfFormat(n: U32)
    ensures FromStrRadix16(Format08x(n)) == Some(n)
  {
    assert Pow16(8) == TWO32;
    LowDigitsSpell(n, 8);
  }
}
