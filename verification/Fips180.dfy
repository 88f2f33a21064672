/** SHA-256 by sections 4, 5 and 6.2.2 of FIPS 180-4, as functions. */
module Fips180 {
  import opened Words
  import opened Arithmetic

  /** The eight-word chaining value. */
  type State = s: seq<bv32> | |s| == 8 witness seq(8, _ => 0 as bv32)

  /** One 64-byte message block. */
  type Block = b: seq<Byte> | |b| == 64 witness seq(64, _ => 0)

  const IV: State := [
    0x6a09e667, 0xbb67ae85, 0x3c6ef372, 0xa54ff53a, 0x510e527f, 0x9b05688c, 0x1f83d9ab, 0x5be0cd19]

  const K: seq<bv32> :=
    [0x428a2f98, 0x71374491, 0xb5c0fbcf, 0xe9b5dba5, 0x3956c25b, 0x59f111f1, 0x923f82a4, 0xab1c5ed5] +
    [0xd807aa98, 0x12835b01, 0x243185be, 0x550c7dc3, 0x72be5d74, 0x80deb1fe, 0x9bdc06a7, 0xc19bf174] +
    [0xe49b69c1, 0xefbe4786, 0x0fc19dc6, 0x240ca1cc, 0x2de92c6f, 0x4a7484aa, 0x5cb0a9dc, 0x76f988da] +
    [0x983e5152, 0xa831c66d, 0xb00327c8, 0xbf597fc7, 0xc6e00bf3, 0xd5a79147, 0x06ca6351, 0x14292967] +
    [0x27b70a85, 0x2e1b2138, 0x4d2c6dfc, 0x53380d13, 0x650a7354, 0x766a0abb, 0x81c2c92e, 0x92722c85] +
    [0xa2bfe8a1, 0xa81a664b, 0xc24b8b70, 0xc76c51a3, 0xd192e819, 0xd6990624, 0xf40e3585, 0x106aa070] +
    [0x19a4c116, 0x1e376c08, 0x2748774c, 0x34b0bcb5, 0x391c0cb3, 0x4ed8aa4a, 0x5b9cca4f, 0x682e6ff3] +
    [0x748f82ee, 0x78a5636f, 0x84c87814, 0x8cc70208, 0x90befffa, 0xa4506ceb, 0xbef9a3f7, 0xc67178f2]

  function BigSigma0(x: bv32): bv32 { x.RotateRight(2) ^ x.RotateRight(13) ^ x.RotateRight(22) }
  function BigSigma1(x: bv32): bv32 { x.RotateRight(6) ^ x.RotateRight(11) ^ x.RotateRight(25) }
  function SmallSigma0(x: bv32): bv32 { x.RotateRight(7) ^ x.RotateRight(18) ^ (x >> 3) }
  function SmallSigma1(x: bv32): bv32 { x.RotateRight(17) ^ x.RotateRight(19) ^ (x >> 10) }
  function Ch(x: bv32, y: bv32, z: bv32): bv32 { (x & y) ^ (!x & z) }
  function Maj(x: bv32, y: bv32, z: bv32): bv32 { (x & y) ^ (x & z) ^ (y & z) }

  /** Addition modulo 2^32 (section 2.2.2), the code's `wrapping_add`. */
  function Add(x: bv32, y: bv32): bv32 { x + y }

  /** The word whose binary numeral is `n`. */
  function ToWord(n: nat): bv32 {
    if n == 0 then 0 else (ToWord(n / 2) << 1) | (if n % 2 == 1 then 1 else 0)
  }

  /** The number that the low `k` bits of `x` spell. */
  function LowBits(x: bv32, k: nat): (n: nat)
    ensures n < Pow2(k)
    decreases x, k
  {
    if k == 0 then 0 else 2 * LowBits(x >> 1, k - 1) + (if x & 1 == 1 then 1 else 0)
  }

  function LowByte(x: bv32): Byte {
    LowBits(x, 8)
  }

  /** u32::from_be_bytes. */
  function BeWord(b0: Byte, b1: Byte, b2: Byte, b3: Byte): bv32 {
    ToWord(0x100_0000 * (b0 as int) + 0x1_0000 * (b1 as int) + 0x100 * (b2 as int) + (b3 as int))
  }

  /** The sixteen words of a message block. */
  type Words16 = w: seq<bv32> | |w| == 16 witness seq(16, _ => 0 as bv32)

  function BlockWord(block: Block, i: nat): bv32
    requires i < 16
  {
    BeWord(block[4 * i], block[4 * i + 1], block[4 * i + 2], block[4 * i + 3])
  }

  /** A block parsed into words (section 5.2.1). */
  function BlockWords(block: Block): Words16 {
    seq(16, i requires 0 <= i < 16 => BlockWord(block, i))
  }

  /** The message schedule: word `t` of section 6.2.2, step 1. */
  function W(m: Words16, t: nat): bv32
    decreases m, t
  {
    if t < 16 then m[t]
    else Add(Add(Add(W(m, t - 16), SmallSigma0(W(m, t - 15))), W(m, t - 7)), SmallSigma1(W(m, t - 2)))
  }

  /** The working variables of section 6.2.2, step 2. */
  datatype Working = Working(a: bv32, b: bv32, c: bv32, d: bv32, e: bv32, f: bv32, g: bv32, h: bv32)

  function Load(s: State): Working {
    Working(s[0], s[1], s[2], s[3], s[4], s[5], s[6], s[7])
  }

  /** One round: section 6.2.2, step 3. */
  function Round(v: Working, k: bv32, w: bv32): Working {
    var t1 := Add(Add(Add(Add(v.h, BigSigma1(v.e)), Ch(v.e, v.f, v.g)), k), w);
    var t2 := Add(BigSigma0(v.a), Maj(v.a, v.b, v.c));
    Working(Add(t1, t2), v.a, v.b, v.c, Add(v.d, t1), v.e, v.f, v.g)
  }

  /** The first `t` rounds over the words `m`. */
  function Rounds(v: Working, m: Words16, t: nat): Working
    requires t <= 64
    decreases m, t
  {
    if t == 0 then v else Round(Rounds(v, m, t - 1), K[t - 1], W(m, t - 1))
  }

  /** Section 6.2.2, step 4. */
  function FoldIn(s: State, v: Working): State {
    [Add(s[0], v.a), Add(s[1], v.b), Add(s[2], v.c), Add(s[3], v.d),
     Add(s[4], v.e), Add(s[5], v.f), Add(s[6], v.g), Add(s[7], v.h)]
  }

  function Compress(s: State, block: Block): State {
    FoldIn(s, Rounds(Load(s), BlockWords(block), 64))
  }

  /** u32::to_be_bytes. */
  function BeBytes(w: bv32): (b: Bytes)
    ensures |b| == 4
  {
    [LowByte(w >> 24), LowByte(w >> 16), LowByte(w >> 8), LowByte(w)]
  }

  function Digest(s: State): Hash {
    seq(32, j requires 0 <= j < 32 => BeBytes(s[j / 4])[j % 4])
  }

  /** u64::to_be_bytes. */
  function Be64(n: U64): (b: Bytes)
    ensures |b| == 8
  {
    [n / 0x100_0000_0000_0000, n / 0x1_0000_0000_0000 % 0x100, n / 0x100_0000_0000 % 0x100, n / 0x1_0000_0000 % 0x100,
     n / 0x100_0000 % 0x100, n / 0x1_0000 % 0x100, n / 0x100 % 0x100, n % 0x100]
  }

  function Zeros(n: nat): (z: Bytes)
    ensures |z| == n
  {
    seq(n, _ => 0)
  }

  /** The padding of section 5.1.1: a one bit, the least number of zero bits, the bit length. */
  function Pad(m: Bytes): Bytes {
    m + [0x80] + Zeros((119 - |m| % 64) % 64) + Be64(8 * |m| % TWO64)
  }

  /** Section 6.2.2: the chaining value after every whole block of `m`. */
  function HashBlocks(s: State, m: Bytes): State
    decreases |m|
  {
    if |m| < 64 then s else HashBlocks(Compress(s, m[..64]), m[64..])
  }

  function Sha256(m: Bytes): Hash {
    Digest(HashBlocks(IV, Pad(m)))
  }

  function Sha256d(m: Bytes): Hash {
    Sha256(Sha256(m))
  }

  /** The zero bytes complete a block after the one bit and before the length. */
  lemma ZerosFill(n: nat)
    ensures var z := (119 - n % 64) % 64; (n + 9 + z) % 64 == 0 && z < 64
  {
    var q, r := n / 64, n % 64;
    if r <= 55 {
      assert (119 - r) % 64 == 55 - r;
      assert n + 9 + (55 - r) == 64 * (q + 1);
    } else {
      assert (119 - r) % 64 == 119 - r;
      assert n + 9 + (119 - r) == 64 * (q + 2);
    }
  }

  /** Padding always yields whole blocks, so `HashBlocks` consumes every byte of it. */
  lemma PadIsWholeBlocks(m: Bytes)
    ensures |Pad(m)| % 64 == 0 && m <= Pad(m) && |m| + 9 <= |Pad(m)| < |m| + 73
  {
    hide Zeros, Be64;
    ZerosFill(|m|);
    assert |Pad(m)| == |m| + 9 + (119 - |m| % 64) % 64;
  }
}
