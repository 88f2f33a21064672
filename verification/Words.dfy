/** Machine integers, byte strings and the two result types shared by every module. */
module Words {

  type Byte = x: int | 0 <= x < 0x100
  type U32 = x: int | 0 <= x < 0x1_0000_0000
  type U64 = x: int | 0 <= x < 0x1_0000_0000_0000_0000
  type Bytes = seq<Byte>

  const TWO32: int := 0x1_0000_0000
  const TWO64: int := 0x1_0000_0000_0000_0000

  /** A 32-byte digest or target, most significant byte first. */
  type Hash = h: seq<Byte> | |h| == 32 witness seq(32, _ => 0)

  datatype Option<+T> = None | Some(value: T)

  datatype Result<+T, +E> = Ok(value: T) | Err(error: E)

  /** `now` is the last of the values set by `sets`, or still `start` if none of them sets one. */
  ghost predicate HoldsLast<T>(sets: seq<Option<T>>, start: T, now: T) {
    && (forall i :: 0 <= i < |sets| && sets[i].Some? && (forall k :: i < k < |sets| ==> sets[k].None?) ==>
          now == sets[i].value)
    && ((forall i :: 0 <= i < |sets| ==> sets[i].None?) ==> now == start)
  }

  lemma HoldsLastNext<T>(sets: seq<Option<T>>, start: T, now: T)
    requires sets != [] && HoldsLast(sets[..|sets| - 1], start, now)
    ensures HoldsLast(sets, start, if sets[|sets| - 1].Some? then sets[|sets| - 1].value else now)
  {
    var k := |sets| - 1;
    var before := sets[..k];
    assert forall i :: 0 <= i < k ==> before[i] == sets[i];
    if sets[k].None? {
      forall i | 0 <= i < |sets| && sets[i].Some? && forall j :: i < j < |sets| ==> sets[j].None?
        ensures now == sets[i].value
      {
        assert before[i].Some?;
      }
    } else {
      forall i | 0 <= i < |sets| && sets[i].Some? && forall j :: i < j < |sets| ==> sets[j].None?
        ensures i == k
      {
      }
    }
  }

  lemma {:induction false} HoldsLastIsOne<T>(sets: seq<Option<T>>, start: T, a: T, b: T)
    requires HoldsLast(sets, start, a) && HoldsLast(sets, start, b)
    ensures a == b
  {
    if sets != [] && sets[|sets| - 1].None? {
      HoldsLastBefore(sets, start, a);
      HoldsLastBefore(sets, start, b);
      HoldsLastIsOne(sets[..|sets| - 1], start, a, b);
    }
  }

  lemma HoldsLastBefore<T>(sets: seq<Option<T>>, start: T, now: T)
    requires sets != [] && sets[|sets| - 1].None? && HoldsLast(sets, start, now)
    ensures HoldsLast(sets[..|sets| - 1], start, now)
  {
    var k := |sets| - 1;
    assert forall i :: 0 <= i < k ==> sets[..k][i] == sets[i];
  }

  /** u64::saturating_sub. */
  function SatSub(a: nat, b: nat): nat {
    if a >= b then a - b else 0
  }

  /** u32::to_le_bytes. */
  function Le32(n: U32): (b: Bytes)
    ensures |b| == 4
  {
    [n % 0x100, n / 0x100 % 0x100, n / 0x1_0000 % 0x100, n / 0x100_0000]
  }

  /** u64::to_le_bytes. */
  function Le64(n: U64): (b: Bytes)
    ensures |b| == 8
  {
    Le32(n % TWO32) + Le32(n / TWO32)
  }

  /** u32::from_le_bytes. */
  function FromLe32(b: Bytes): (n: U32)
    requires |b| == 4
  {
    var b0: int, b1: int, b2: int, b3: int := b[0], b[1], b[2], b[3];
    b0 + 0x100 * b1 + 0x1_0000 * b2 + 0x100_0000 * b3
  }

  lemma FromLe32OfLe32(n: U32)
    ensures FromLe32(Le32(n)) == n
  {
    assert n == 0x100 * (n / 0x100) + n % 0x100;
    assert n / 0x100 == 0x100 * (n / 0x1_0000) + n / 0x100 % 0x100;
    assert n / 0x1_0000 == 0x100 * (n / 0x100_0000) + n / 0x1_0000 % 0x100;
  }

  lemma Le32OfFromLe32(b: Bytes)
    requires |b| == 4
    ensures Le32(FromLe32(b)) == b
  {
    var n: int := FromLe32(b);
    var b0: int, b1: int, b2: int, b3: int := b[0], b[1], b[2], b[3];
    var n2 := b2 + 0x100 * b3;
    var n1 := b1 + 0x100 * n2;
    assert n == b0 + 0x100 * n1;
    assert n / 0x100 == n1 && n1 / 0x100 == n2 && n2 / 0x100 == b3;
  }
}
