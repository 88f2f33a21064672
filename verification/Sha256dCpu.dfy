/**
 The hand-written SHA-256d of the CPU and GPU paths: the compression over arrays, the split at the
 64-byte midstate, the 20-byte finisher, and the resume of the inner compression from round 4.
 */
module Sha256dCpu {
  import opened Words
  import opened Arithmetic
  import opened Fips180

  /** One turn of the round loop over the working variables `a..h`. */
  method RoundStep(a0: bv32, b0: bv32, c0: bv32, d0: bv32, e0: bv32, f0: bv32, g0: bv32, h0: bv32,
                   k: bv32, w: bv32)
    returns (a: bv32, b: bv32, c: bv32, d: bv32, e: bv32, f: bv32, g: bv32, h: bv32)
    ensures Working(a, b, c, d, e, f, g, h) == Round(Working(a0, b0, c0, d0, e0, f0, g0, h0), k, w)
  {
    hide Add, SmallSigma0, SmallSigma1, BigSigma0, BigSigma1, Ch, Maj;
    a, b, c, d, e, f, g, h := a0, b0, c0, d0, e0, f0, g0, h0;
    var s1 := BigSigma1(e);
    var ch := Ch(e, f, g);
    var t1 := Add(Add(Add(Add(h, s1), ch), k), w);
    var s0 := BigSigma0(a);
    var maj := Maj(a, b, c);
    var t2 := Add(s0, maj);
    h := g;
    g := f;
    f := e;
    e := Add(d, t1);
    d := c;
    c := b;
    b := a;
    a := Add(t1, t2);
  }

  /** Rounds `lo..hi`, resumed from the working tuple that rounds `0..lo` left behind. */
  method RunRounds(a0: bv32, b0: bv32, c0: bv32, d0: bv32, e0: bv32, f0: bv32, g0: bv32, h0: bv32,
                   w: array<bv32>, lo: nat, hi: nat, ghost v0: Working, ghost m: Words16)
    returns (a: bv32, b: bv32, c: bv32, d: bv32, e: bv32, f: bv32, g: bv32, h: bv32)
    requires lo <= hi <= 64 && hi <= w.Length
    requires Working(a0, b0, c0, d0, e0, f0, g0, h0) == Rounds(v0, m, lo)
    requires forall t :: lo <= t < hi ==> w[t] == W(m, t)
    ensures Working(a, b, c, d, e, f, g, h) == Rounds(v0, m, hi)
  {
    hide Add, SmallSigma0, SmallSigma1, BigSigma0, BigSigma1, Ch, Maj;
    a, b, c, d, e, f, g, h := a0, b0, c0, d0, e0, f0, g0, h0;
    for i := lo to hi
      invariant Working(a, b, c, d, e, f, g, h) == Rounds(v0, m, i)
    {
      a, b, c, d, e, f, g, h := RoundStep(a, b, c, d, e, f, g, h, K[i], w[i]);
    }
  }

  /** The message words: the first sixteen entries of a fresh schedule. */
  method LoadWords(block: array<Byte>) returns (w: array<bv32>)
    requires block.Length == 64
    ensures fresh(w) && w.Length == 64
    ensures forall t :: 0 <= t < 16 ==> w[t] == W(BlockWords(block[..]), t)
  {
    ghost var m := BlockWords(block[..]);
    w := new bv32[64](_ => 0);
    for i := 0 to 16
      invariant forall t :: 0 <= t < i ==> w[t] == m[t]
    {
      var x := BeWord(block[4 * i], block[4 * i + 1], block[4 * i + 2], block[4 * i + 3]);
      assert x == m[i];
      w[i] := x;
    }
  }

  /** The schedule recurrence from index `lo` up. */
  method ExpandSchedule(w: array<bv32>, lo: nat, ghost m: Words16)
    requires w.Length == 64 && 16 <= lo <= 64
    requires forall t :: 0 <= t < lo ==> w[t] == W(m, t)
    modifies w
    ensures forall t :: 0 <= t < 64 ==> w[t] == W(m, t)
  {
    hide Add, SmallSigma0, SmallSigma1, BigSigma0, BigSigma1, Ch, Maj;
    for i := lo to 64
      invariant forall t :: 0 <= t < i ==> w[t] == W(m, t)
    {
      var s0 := SmallSigma0(w[i - 15]);
      var s1 := SmallSigma1(w[i - 2]);
      var x := Add(Add(Add(w[i - 16], s0), w[i - 7]), s1);
      assert x == W(m, i);
      w[i] := x;
    }
  }

  /** `sha256_compress`: `state` is updated in place over one block. */
  method Sha256Compress(state: array<bv32>, block: array<Byte>)
    requires state.Length == 8 && block.Length == 64
    modifies state
    ensures state[..] == Compress(old(state[..]), block[..])
  {
    ghost var bytes: Block := block[..];
    ghost var m := BlockWords(bytes);
    ghost var s0: State := state[..];
    var w := LoadWords(block);
    assert block[..] == bytes;
    ExpandSchedule(w, 16, m);
    var a, b, c, d, e, f, g, h :=
      RunRounds(state[0], state[1], state[2], state[3], state[4], state[5], state[6], state[7],
                w, 0, 64, Load(s0), m);
    AddInto(state, a, b, c, d, e, f, g, h);
    assert block[..] == bytes;
  }

  /** The closing additions of the working tuple into the chaining value. */
  method AddInto(state: array<bv32>, a: bv32, b: bv32, c: bv32, d: bv32, e: bv32, f: bv32, g: bv32, h: bv32)
    requires state.Length == 8
    modifies state
    ensures state[..] == FoldIn(old(state[..]), Working(a, b, c, d, e, f, g, h))
  {
    hide Add, SmallSigma0, SmallSigma1, BigSigma0, BigSigma1, Ch, Maj;
    var x0, x1, x2, x3 := Add(state[0], a), Add(state[1], b), Add(state[2], c), Add(state[3], d);
    var x4, x5, x6, x7 := Add(state[4], e), Add(state[5], f), Add(state[6], g), Add(state[7], h);
    assert FoldIn(state[..], Working(a, b, c, d, e, f, g, h)) == [x0, x1, x2, x3, x4, x5, x6, x7];
    state[0], state[1], state[2], state[3] := x0, x1, x2, x3;
    state[4], state[5], state[6], state[7] := x4, x5, x6, x7;
  }

  // ---------- The midstate split and the finisher ----------

  /** The last block of a padded 84-byte message whose final twenty bytes are `tail`. */
  function InnerBlock(tail: Bytes): Block
    requires |tail| == 20
  {
    tail + [0x80] + Zeros(35) + Be64(672)
  }

  /** The only block of a padded 32-byte message. */
  function OuterBlock(digest: Hash): Block {
    digest + [0x80] + Zeros(23) + Be64(256)
  }

  lemma PadOfHeader(h: Bytes)
    requires |h| == 84
    ensures Pad(h)[..64] == h[..64] && Pad(h)[64..] == InnerBlock(h[64..])
  {
    hide Zeros, Be64;
    assert Pad(h) == h + [0x80] + Zeros(35) + Be64(672);
    CutFirst(h, [0x80], Zeros(35), Be64(672), 64);
  }

  lemma CutFirst(a: Bytes, b: Bytes, c: Bytes, d: Bytes, k: nat)
    requires k <= |a|
    ensures (a + b + c + d)[..k] == a[..k] && (a + b + c + d)[k..] == a[k..] + b + c + d
  {
  }

  /** Hashing an 84-byte header is one compression to the midstate and one over the tail block. */
  lemma MidstateSplit(h: Bytes)
    requires |h| == 84
    ensures Sha256(h) == Digest(Compress(Compress(IV, h[..64]), InnerBlock(h[64..])))
  {
    PadOfHeader(h);
    var p := Pad(h);
    var q := p[64..];
    var s := Compress(IV, p[..64]);
    assert HashBlocks(IV, p) == HashBlocks(s, q);
    assert q[..64] == q && q[64..] == [];
    assert HashBlocks(s, q) == HashBlocks(Compress(s, q[..64]), q[64..]);
  }

  /** Hashing a 32-byte digest is a single compression. */
  lemma SingleBlockHash(d: Hash)
    ensures Sha256(d) == Digest(Compress(IV, OuterBlock(d)))
  {
    hide Compress, IV, Digest, OuterBlock, Pad;
    PadOfDigest(d);
    var p := Pad(d);
    assert p[..64] == p && p[64..] == [];
    assert HashBlocks(IV, p) == HashBlocks(Compress(IV, p[..64]), p[64..]);
  }

  lemma PadOfDigest(d: Hash)
    ensures Pad(d) == OuterBlock(d)
  {
    hide Zeros, Be64;
  }

  method MidstateOfFirstChunk(header: array<Byte>) returns (state: array<bv32>)
    requires header.Length == 84
    ensures fresh(state) && state.Length == 8
    ensures state[..] == Compress(IV, header[..64])
  {
    state := CopyState(IV);
    var chunk := new Byte[64](i requires 0 <= i < 64 reads header => header[i]);
    assert chunk[..] == header[..64];
    Sha256Compress(state, chunk);
  }

  /** `out[at..at + 4] = w.to_be_bytes()`. */
  method StoreWord(out: array<Byte>, at: nat, w: bv32)
    requires at + 4 <= out.Length
    modifies out
    ensures forall k :: 0 <= k < 4 ==> out[at + k] == BeBytes(w)[k]
    ensures forall j :: 0 <= j < out.Length && !(at <= j < at + 4) ==> out[j] == old(out[j])
  {
    var b := BeBytes(w);
    out[at], out[at + 1], out[at + 2], out[at + 3] := b[0], b[1], b[2], b[3];
  }

  /** Writes the eight words big-endian into the first 32 bytes of `out`. */
  method StoreDigest(state: array<bv32>, out: array<Byte>)
    requires state.Length == 8 && out.Length >= 32
    modifies out
    ensures out[..] == Digest(state[..]) + old(out[32..])
  {
    ghost var s: State := state[..];
    for i := 0 to 8
      invariant state[..] == s
      invariant forall j :: 0 <= j < 4 * i ==> out[j] == BeBytes(s[j / 4])[j % 4]
      invariant forall j :: 32 <= j < out.Length ==> out[j] == old(out[j])
    {
      StoreWord(out, 4 * i, state[i]);
      forall j | 4 * i <= j < 4 * i + 4
        ensures out[j] == BeBytes(s[j / 4])[j % 4]
      {
        assert out[4 * i + (j - 4 * i)] == BeBytes(s[i])[j - 4 * i];
        assert j / 4 == i && j % 4 == j - 4 * i;
      }
    }
  }

  /** The big-endian bit length in the last eight bytes of a block. */
  method StoreBitLength(block: array<Byte>, bits: U64)
    requires block.Length == 64
    modifies block
    ensures block[..] == old(block[..56]) + Be64(bits)
  {
    var b := Be64(bits);
    forall j | 0 <= j < 8 {
      block[56 + j] := b[j];
    }
  }

  /** The second block of the inner hash. */
  method PadTail(tail: array<Byte>) returns (block: array<Byte>)
    requires tail.Length == 20
    ensures fresh(block) && block.Length == 64 && block[..] == InnerBlock(tail[..])
  {
    block := new Byte[64](_ => 0);
    forall i | 0 <= i < 20 {
      block[i] := tail[i];
    }
    block[20] := 0x80;
    StoreBitLength(block, 84 * 8);
  }

  /** The one block of the outer hash. */
  method PadDigest(state: array<bv32>) returns (block: array<Byte>)
    requires state.Length == 8
    ensures fresh(block) && block.Length == 64 && block[..] == OuterBlock(Digest(state[..]))
  {
    block := new Byte[64](_ => 0);
    StoreDigest(state, block);
    block[32] := 0x80;
    StoreBitLength(block, 32 * 8);
  }

  /** A fresh copy of eight words. */
  method CopyState(s: State) returns (state: array<bv32>)
    ensures fresh(state) && state.Length == 8 && state[..] == s
  {
    state := new bv32[8](i requires 0 <= i < 8 => s[i]);
  }

  /** The inner hash, resumed from the midstate over the padded tail. */
  method HashTail(midstate: array<bv32>, tail: array<Byte>) returns (state: array<bv32>)
    requires midstate.Length == 8 && tail.Length == 20
    ensures fresh(state) && state.Length == 8
    ensures state[..] == Compress(midstate[..], InnerBlock(tail[..]))
  {
    ghost var s: State := midstate[..];
    var block := PadTail(tail);
    state := CopyState(midstate[..]);
    Sha256Compress(state, block);
    assert midstate[..] == s;
  }

  /** The outer hash of the digest held in `state`. */
  method HashDigest(state: array<bv32>) returns (out: array<Byte>)
    requires state.Length == 8
    ensures fresh(out) && out.Length == 32 && out[..] == Sha256(Digest(state[..]))
  {
    ghost var d := Digest(state[..]);
    var block := PadDigest(state);
    var outer := CopyState(IV);
    Sha256Compress(outer, block);
    SingleBlockHash(d);
    out := new Byte[32](_ => 0);
    StoreDigest(outer, out);
    assert out[..] == Sha256(d);
  }

  /** `finish_sha256d_from_midstate`. */
  method FinishSha256dFromMidstate(midstate: array<bv32>, tail: array<Byte>) returns (out: array<Byte>)
    requires midstate.Length == 8 && tail.Length == 20
    ensures fresh(out) && out.Length == 32
    ensures out[..] == Sha256(Digest(Compress(midstate[..], InnerBlock(tail[..]))))
  {
    var state := HashTail(midstate, tail);
    out := HashDigest(state);
  }

  lemma HeaderHash(h: Bytes)
    requires |h| == 84
    ensures Sha256(Digest(Compress(Compress(IV, h[..64]), InnerBlock(h[64..])))) == Sha256d(h)
  {
    MidstateSplit(h);
  }

  /** Midstate then finisher computes SHA-256 of SHA-256 of every 84-byte header. */
  method Sha256dViaMidstate(header: array<Byte>) returns (out: array<Byte>)
    requires header.Length == 84
    ensures out.Length == 32 && out[..] == Sha256d(header[..])
  {
    ghost var h := header[..];
    assert header[..64] == h[..64];
    var midstate := MidstateOfFirstChunk(header);
    var tail := new Byte[20](i requires 0 <= i < 20 reads header => header[64 + i]);
    assert tail[..] == h[64..];
    out := FinishSha256dFromMidstate(midstate, tail);
    HeaderHash(h);
    assert header[..] == h;
  }

  // ---------- Resuming the inner compression at round 4 ----------

  /** u32::swap_bytes. */
  function SwapBytes(n: U32): U32 {
    0x100_0000 * (n % 0x100) + 0x1_0000 * (n / 0x100 % 0x100) + 0x100 * (n / 0x1_0000 % 0x100) + n / 0x100_0000
  }

  /** The inner block of a header whose bytes 64..80 are `tail16` and whose nonce is `nonce`. */
  function NonceBlock(tail16: Bytes, nonce: U32): Block
    requires |tail16| == 16
  {
    InnerBlock(tail16 + Le32(nonce))
  }

  lemma AddZero(x: bv32)
    ensures Add(x, 0) == x
  {
  }

  lemma InnerBlockPadding(tail: Bytes)
    requires |tail| == 20
    ensures var m := InnerBlock(tail);
            && m[..20] == tail && m[20] == 0x80 && m[62] == 2 && m[63] == 160
            && forall i :: 21 <= i < 62 ==> m[i] == 0
  {
    assert Be64(672) == [0, 0, 0, 0, 0, 0, 2, 160];
  }

  /** The nonce bytes of the header, read big-endian, are the byte-swapped nonce. */
  lemma SwappedNonce(n: U32)
    ensures var b := Le32(n); BeWord(b[0], b[1], b[2], b[3]) == ToWord(SwapBytes(n))
  {
    hide ToWord, Le32, SwapBytes;
    SwapIs(n);
  }

  lemma SwapIs(n: U32)
    ensures var b := Le32(n);
            SwapBytes(n)
            == 0x100_0000 * (b[0] as int) + 0x1_0000 * (b[1] as int) + 0x100 * (b[2] as int) + (b[3] as int)
  {
  }

  function OneShifted(k: nat): bv32 {
    if k == 0 then 1 else OneShifted(k - 1) << 1
  }

  lemma {:induction false} PowerWord(k: nat)
    ensures Pow2(k) > 0 && ToWord(Pow2(k)) == OneShifted(k)
  {
    if k == 0 {
      assert ToWord(1) == 1;
    } else {
      PowerWord(k - 1);
      assert Pow2(k) / 2 == Pow2(k - 1) && Pow2(k) % 2 == 0;
    }
  }

  lemma TopBitWord()
    ensures ToWord(0x8000_0000) == 0x8000_0000
  {
    hide ToWord, Pow2, OneShifted;
    PowerWord(31);
    TopPower();
    TopShift();
  }

  lemma TopPower()
    ensures Pow2(31) == 0x8000_0000
  {
    assert Pow2(10) == 0x400;
    assert Pow2(20) == 0x10_0000;
  }

  lemma TopShift()
    ensures OneShifted(31) == 0x8000_0000
  {
    assert OneShifted(10) == 0x400;
    assert OneShifted(20) == 0x10_0000;
  }

  lemma PaddingConstants()
    ensures BeWord(0x80, 0, 0, 0) == 0x8000_0000 && BeWord(0, 0, 2, 160) == 672 && BeWord(0, 0, 0, 0) == 0
  {
    TopBitWord();
    SmallWords();
    assert BeWord(0x80, 0, 0, 0) == ToWord(0x8000_0000);
    assert BeWord(0, 0, 2, 160) == ToWord(672);
    assert BeWord(0, 0, 0, 0) == ToWord(0);
  }

  lemma SmallWords()
    ensures ToWord(672) == 672 && ToWord(0) == 0
  {
    assert ToWord(5) == 5;
    assert ToWord(42) == 42;
    assert ToWord(168) == 168;
  }

  /** The words of a nonce block as the code writes them: packed tail, any nonce word, constants. */
  ghost predicate JobWords(m: Words16, w0: bv32, w1: bv32, w2: bv32, w3: bv32) {
    && m[0] == w0 && m[1] == w1 && m[2] == w2 && m[3] == w3
    && m[5] == 0x8000_0000
    && (forall i :: 6 <= i < 15 ==> m[i] == 0)
    && m[15] == 672
  }

  function TailWord(tail16: Bytes, i: nat): bv32
    requires |tail16| == 16 && i < 4
  {
    BeWord(tail16[4 * i], tail16[4 * i + 1], tail16[4 * i + 2], tail16[4 * i + 3])
  }

  lemma NonceBlockByte(tail16: Bytes, nonce: U32, i: nat)
    requires |tail16| == 16 && i < 20
    ensures NonceBlock(tail16, nonce)[i] == if i < 16 then tail16[i] else Le32(nonce)[i - 16]
  {
  }

  lemma NonceBlockTail(tail16: Bytes, nonce: U32)
    requires |tail16| == 16
    ensures forall i :: 0 <= i < 4 ==> BlockWord(NonceBlock(tail16, nonce), i) == TailWord(tail16, i)
    ensures BlockWord(NonceBlock(tail16, nonce), 4) == ToWord(SwapBytes(nonce))
  {
    forall i | 0 <= i < 20
      ensures NonceBlock(tail16, nonce)[i] == if i < 16 then tail16[i] else Le32(nonce)[i - 16]
    {
      NonceBlockByte(tail16, nonce, i);
    }
    SwappedNonce(nonce);
  }

  lemma NonceBlockPadding(tail16: Bytes, nonce: U32)
    requires |tail16| == 16
    ensures var m := NonceBlock(tail16, nonce);
            && BlockWord(m, 5) == 0x8000_0000 && BlockWord(m, 15) == 672
            && forall i :: 6 <= i < 15 ==> BlockWord(m, i) == 0
  {
    InnerBlockPadding(tail16 + Le32(nonce));
    PaddingConstants();
  }

  /** Parsing a nonce block yields those sixteen words, the fifth being the byte-swapped nonce. */
  lemma NonceBlockWords(tail16: Bytes, nonce: U32)
    requires |tail16| == 16
    ensures var m := BlockWords(NonceBlock(tail16, nonce));
            && JobWords(m, TailWord(tail16, 0), TailWord(tail16, 1), TailWord(tail16, 2), TailWord(tail16, 3))
            && m[4] == ToWord(SwapBytes(nonce))
  {
    NonceBlockTail(tail16, nonce);
    NonceBlockPadding(tail16, nonce);
    hide NonceBlock, BlockWord, TailWord, ToWord, SwapBytes;
  }

  /** The last three nonce-independent schedule words. */
  lemma ConstantSchedule(m: Words16, w0: bv32, w1: bv32, w2: bv32, w3: bv32)
    requires JobWords(m, w0, w1, w2, w3)
    ensures W(m, 16) == Add(Add(w0, SmallSigma0(w1)), SmallSigma1(0))
    ensures W(m, 17) == Add(Add(w1, SmallSigma0(w2)), SmallSigma1(672))
    ensures W(m, 18) == Add(Add(w2, SmallSigma0(w3)), SmallSigma1(W(m, 16)))
  {
    hide Add, SmallSigma0, SmallSigma1;
    AddZero(Add(w0, SmallSigma0(w1)));
    AddZero(Add(w1, SmallSigma0(w2)));
    AddZero(Add(w2, SmallSigma0(w3)));
  }

  /** Rounds `0..t` read no schedule word beyond the first `t`. */
  lemma {:induction false} RoundsReadPrefix(v: Working, m1: Words16, m2: Words16, t: nat)
    requires t <= 16 && forall i :: 0 <= i < t ==> m1[i] == m2[i]
    ensures Rounds(v, m1, t) == Rounds(v, m2, t)
  {
    hide Round;
    if t > 0 {
      RoundsReadPrefix(v, m1, m2, t - 1);
    }
  }

  /** `prefix` and `sched3` are the state after round 3 and schedule words 16 to 18 over the words `m`. */
  ghost predicate IsPrefixFor(midstate: State, m: Words16, prefix: State, sched3: seq<bv32>) {
    && Load(prefix) == Rounds(Load(midstate), m, 4)
    && sched3 == [W(m, 16), W(m, 17), W(m, 18)]
  }

  /** A prefix computed for one nonce serves every nonce of the job. */
  lemma PrefixServesEveryNonce(midstate: State, m1: Words16, m2: Words16,
                               w0: bv32, w1: bv32, w2: bv32, w3: bv32, prefix: State, sched3: seq<bv32>)
    requires JobWords(m1, w0, w1, w2, w3) && JobWords(m2, w0, w1, w2, w3)
    requires IsPrefixFor(midstate, m1, prefix, sched3)
    ensures IsPrefixFor(midstate, m2, prefix, sched3)
  {
    hide Add, SmallSigma0, SmallSigma1, Round;
    ConstantSchedule(m1, w0, w1, w2, w3);
    ConstantSchedule(m2, w0, w1, w2, w3);
    hide W;
    RoundsReadPrefix(Load(midstate), m1, m2, 4);
  }

  lemma JobScheduleHead(m: Words16, w0: bv32, w1: bv32, w2: bv32, w3: bv32)
    requires JobWords(m, w0, w1, w2, w3)
    ensures W(m, 0) == w0 && W(m, 1) == w1 && W(m, 2) == w2 && W(m, 3) == w3 && W(m, 4) == m[4]
    ensures W(m, 5) == 0x8000_0000 && W(m, 15) == 672 && forall t :: 6 <= t < 15 ==> W(m, t) == 0
  {
    hide Add, SmallSigma0, SmallSigma1;
  }

  method FourWords(w0: bv32, w1: bv32, w2: bv32, w3: bv32) returns (w: array<bv32>)
    ensures fresh(w) && w.Length == 4 && w[0] == w0 && w[1] == w1 && w[2] == w2 && w[3] == w3
  {
    w := new bv32[] [w0, w1, w2, w3];
  }

  method ThreeWords(a: bv32, b: bv32, c: bv32) returns (w: array<bv32>)
    ensures fresh(w) && w.Length == 3 && w[..] == [a, b, c]
  {
    w := new bv32[] [a, b, c];
  }

  method EightWords(a: bv32, b: bv32, c: bv32, d: bv32, e: bv32, f: bv32, g: bv32, h: bv32) returns (s: array<bv32>)
    ensures fresh(s) && s.Length == 8 && s[..] == [a, b, c, d, e, f, g, h]
  {
    s := new bv32[] [a, b, c, d, e, f, g, h];
  }

  /** Rounds 0 to 3 from the midstate over the four constant words. */
  method PrefixRounds(midstate: array<bv32>, w0: bv32, w1: bv32, w2: bv32, w3: bv32, ghost m: Words16)
    returns (prefix: array<bv32>)
    requires midstate.Length == 8
    requires W(m, 0) == w0 && W(m, 1) == w1 && W(m, 2) == w2 && W(m, 3) == w3
    ensures fresh(prefix) && prefix.Length == 8
    ensures Load(prefix[..]) == Rounds(Load(midstate[..]), m, 4)
  {
    hide W, Round;
    ghost var mid: State := midstate[..];
    var wc := FourWords(w0, w1, w2, w3);
    var a, b, c, d, e, f, g, h :=
      RunRounds(midstate[0], midstate[1], midstate[2], midstate[3], midstate[4], midstate[5], midstate[6], midstate[7],
                wc, 0, 4, Load(mid), m);
    hide Rounds;
    prefix := EightWords(a, b, c, d, e, f, g, h);
    assert midstate[..] == mid;
  }

  /** `inner_prefix_precompute` after packing the tail: valid for every nonce word. */
  method PrecomputeWords(midstate: array<bv32>, w0: bv32, w1: bv32, w2: bv32, w3: bv32)
    returns (prefix: array<bv32>, sched3: array<bv32>)
    requires midstate.Length == 8
    ensures fresh(prefix) && prefix.Length == 8 && fresh(sched3) && sched3.Length == 3
    ensures forall m: Words16 :: JobWords(m, w0, w1, w2, w3) ==> IsPrefixFor(midstate[..], m, prefix[..], sched3[..])
  {
    hide W, Rounds, Round, Add, SmallSigma0, SmallSigma1;
    ghost var mid: State := midstate[..];
    ghost var m: Words16 := [w0, w1, w2, w3, 0, 0x8000_0000, 0, 0, 0, 0, 0, 0, 0, 0, 0, 672];
    assert JobWords(m, w0, w1, w2, w3);
    hide JobWords;
    JobScheduleHead(m, w0, w1, w2, w3);
    ConstantSchedule(m, w0, w1, w2, w3);
    var w15: bv32 := 672;
    var w16 := Add(Add(w0, SmallSigma0(w1)), SmallSigma1(0));
    var w17 := Add(Add(w1, SmallSigma0(w2)), SmallSigma1(w15));
    var w18 := Add(Add(w2, SmallSigma0(w3)), SmallSigma1(w16));
    prefix := PrefixRounds(midstate, w0, w1, w2, w3, m);
    ghost var p: State := prefix[..];
    sched3 := ThreeWords(w16, w17, w18);
    ghost var s3 := sched3[..];
    assert prefix[..] == p && midstate[..] == mid;
    assert IsPrefixFor(mid, m, p, s3);
    forall n: Words16 | JobWords(n, w0, w1, w2, w3)
      ensures IsPrefixFor(mid, n, p, s3)
    {
      PrefixServesEveryNonce(mid, m, n, w0, w1, w2, w3, p, s3);
    }
  }

  method PackTail(tail16: array<Byte>) returns (w0: bv32, w1: bv32, w2: bv32, w3: bv32)
    requires tail16.Length == 16
    ensures w0 == TailWord(tail16[..], 0) && w1 == TailWord(tail16[..], 1)
    ensures w2 == TailWord(tail16[..], 2) && w3 == TailWord(tail16[..], 3)
  {
    hide ToWord;
    w0 := BeWord(tail16[0], tail16[1], tail16[2], tail16[3]);
    w1 := BeWord(tail16[4], tail16[5], tail16[6], tail16[7]);
    w2 := BeWord(tail16[8], tail16[9], tail16[10], tail16[11]);
    w3 := BeWord(tail16[12], tail16[13], tail16[14], tail16[15]);
  }

  /** `inner_prefix_precompute`: done once per job, without the nonce. */
  method InnerPrefixPrecompute(midstate: array<bv32>, tail16: array<Byte>)
    returns (prefix: array<bv32>, sched3: array<bv32>)
    requires midstate.Length == 8 && tail16.Length == 16
    ensures fresh(prefix) && prefix.Length == 8 && fresh(sched3) && sched3.Length == 3
    ensures forall nonce: U32 ::
              IsPrefixFor(midstate[..], BlockWords(NonceBlock(tail16[..], nonce)), prefix[..], sched3[..])
  {
    hide *;
    ghost var tail, mid := tail16[..], midstate[..];
    var w0, w1, w2, w3 := PackTail(tail16);
    prefix, sched3 := PrecomputeWords(midstate, w0, w1, w2, w3);
    ghost var p, s3 := prefix[..], sched3[..];
    assert midstate[..] == mid && tail16[..] == tail;
    forall nonce: U32
      ensures IsPrefixFor(mid, BlockWords(NonceBlock(tail, nonce)), p, s3)
    {
      NonceBlockWords(tail, nonce);
    }
  }

  /** Five words, the padding constants, three spliced words. */
  method FillJobWords(w0: bv32, w1: bv32, w2: bv32, w3: bv32, w4: bv32, w16: bv32, w17: bv32, w18: bv32)
    returns (w: array<bv32>)
    ensures fresh(w) && w.Length == 64
    ensures w[0] == w0 && w[1] == w1 && w[2] == w2 && w[3] == w3 && w[4] == w4
    ensures w[5] == 0x8000_0000 && w[15] == 672 && forall t :: 6 <= t < 15 ==> w[t] == 0
    ensures w[16] == w16 && w[17] == w17 && w[18] == w18
  {
    w := new bv32[64](_ => 0);
    StoreHead(w, w0, w1, w2, w3, w4);
    w[5] := 0x8000_0000;
    w[15] := 672;
    w[16] := w16;
    w[17] := w17;
    w[18] := w18;
  }

  method StoreHead(w: array<bv32>, w0: bv32, w1: bv32, w2: bv32, w3: bv32, w4: bv32)
    requires w.Length == 64
    modifies w
    ensures w[0] == w0 && w[1] == w1 && w[2] == w2 && w[3] == w3 && w[4] == w4
    ensures forall t :: 5 <= t < 64 ==> w[t] == old(w[t])
  {
    w[0] := w0;
    w[1] := w1;
    w[2] := w2;
    w[3] := w3;
    w[4] := w4;
  }

  /** The schedule of the resumed compression. */
  method SpliceSchedule(w0: bv32, w1: bv32, w2: bv32, w3: bv32, w4: bv32, sched3: array<bv32>, ghost m: Words16)
    returns (w: array<bv32>)
    requires sched3.Length == 3 && JobWords(m, w0, w1, w2, w3) && m[4] == w4
    requires sched3[0] == W(m, 16) && sched3[1] == W(m, 17) && sched3[2] == W(m, 18)
    ensures fresh(w) && w.Length == 64
    ensures forall t :: 0 <= t < 64 ==> w[t] == W(m, t)
  {
    hide *;
    JobScheduleHead(m, w0, w1, w2, w3);
    w := FillJobWords(w0, w1, w2, w3, w4, sched3[0], sched3[1], sched3[2]);
    ExpandSchedule(w, 19, m);
  }

  /** Rounds 4 to 63 from the prefix, then the original midstate folded in. */
  method Resume(midstate: array<bv32>, prefix: array<bv32>, w: array<bv32>, ghost m: Words16)
    returns (out: array<bv32>)
    requires midstate.Length == 8 && prefix.Length == 8 && w.Length == 64
    requires Load(prefix[..]) == Rounds(Load(midstate[..]), m, 4)
    requires forall t :: 0 <= t < 64 ==> w[t] == W(m, t)
    ensures out.Length == 8
    ensures out[..] == FoldIn(midstate[..], Rounds(Load(midstate[..]), m, 64))
  {
    hide W, Rounds, FoldIn;
    ghost var mid: State := midstate[..];
    var a, b, c, d, e, f, g, h :=
      RunRounds(prefix[0], prefix[1], prefix[2], prefix[3], prefix[4], prefix[5], prefix[6], prefix[7],
                w, 4, 64, Load(mid), m);
    out := CopyState(midstate[..]);
    AddInto(out, a, b, c, d, e, f, g, h);
    assert midstate[..] == mid;
  }

  /**
   The GPU kernel's inner compression: start from the precomputed round-4 state and schedule words,
   run rounds 4 to 63, fold in the ORIGINAL midstate. It equals the full compression for every nonce.
   */
  method InnerCompressViaPrefix(midstate: array<bv32>, tail16: array<Byte>, nonce: U32) returns (out: array<bv32>)
    requires midstate.Length == 8 && tail16.Length == 16
    ensures out.Length == 8
    ensures out[..] == Compress(midstate[..], NonceBlock(tail16[..], nonce))
  {
    hide W, Rounds, FoldIn, ToWord, SwapBytes, BlockWords, NonceBlock, JobWords;
    ghost var tail, mid := tail16[..], midstate[..];
    ghost var m := BlockWords(NonceBlock(tail, nonce));
    var prefix, sched3 := InnerPrefixPrecompute(midstate, tail16);
    assert tail16[..] == tail && midstate[..] == mid;
    var w0, w1, w2, w3 := PackTail(tail16);
    var w4 := ToWord(SwapBytes(nonce));
    NonceBlockWords(tail, nonce);
    ghost var p: State := prefix[..];
    assert IsPrefixFor(mid, m, p, sched3[..]);
    assert sched3[0] == sched3[..][0] && sched3[1] == sched3[..][1] && sched3[2] == sched3[..][2];
    var w := SpliceSchedule(w0, w1, w2, w3, w4, sched3, m);
    assert prefix[..] == p && midstate[..] == mid;
    out := Resume(midstate, prefix, w, m);
    assert midstate[..] == mid && tail16[..] == tail;
  }
}
