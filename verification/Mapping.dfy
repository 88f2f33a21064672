/**
 `mining.notify` to work template, template to header, find to submit fields; and, beside them, the
 header the pool bridge rebuilds from the same notify and the three submitted hex fields.
 */
module Mapping {
  import opened Words
  import opened Fips180
  import opened Coinbase
  import Hex

  /** The raw hex fields of a `mining.notify`, as received. */
  datatype NotifyParams = NotifyParams(
    jobId: string, prevHashBeHex: string, coinb1Hex: string, coinb2Hex: string,
    merkleBranchesHex: seq<string>, versionHex: string, nbitsHex: string, ntimeHex: string, cleanJobs: bool)

  datatype WorkTemplate = WorkTemplate(
    version: U32, prev: Hash, time: U64, bits: U32, target: Hash,
    coinbasePrefix: Bytes, extranonceSize: Byte, coinbaseSuffix: Bytes, merkleBranch: seq<Hash>,
    nonceStart: U32, nonceEnd: U32)

  datatype MappedJob = MappedJob(template: WorkTemplate, jobId: string, xn1Low: U32)

  datatype MapError =
    | BadVersion | BadBits | BadTime | BadPrev | BadCoinb1 | BadCoinb2 | BadBranch(index: nat) | BadExtranonce1

  datatype SubmitFields = SubmitFields(extranonce2Hex: string, ntimeHex: string, nonceHex: string)

  // ---------- Field decoders ----------

  /** `decode_hash32`: valid hex of exactly 32 bytes. */
  function DecodeHash32(s: string): Option<Hash> {
    match Hex.Decode(s)
    case Some(v) => if |v| == 32 then Some(v) else None
    case None => None
  }

  function Reversed(b: Bytes): (r: Bytes)
    ensures |r| == |b| && forall i :: 0 <= i < |b| ==> r[i] == b[|b| - 1 - i]
  {
    seq(|b|, i requires 0 <= i < |b| => b[|b| - 1 - i])
  }

  /** `prev.reverse()`: swap the two ends and walk inwards. */
  method ReverseInPlace(a: array<Byte>)
    modifies a
    ensures a[..] == Reversed(old(a[..]))
  {
    ghost var was := a[..];
    var lo, hi := 0, a.Length;
    while lo + 1 < hi
      invariant 0 <= lo <= hi <= a.Length && lo + hi == a.Length
      invariant forall k :: lo <= k < hi ==> a[k] == was[k]
      invariant forall k :: 0 <= k < lo ==> a[k] == was[a.Length - 1 - k]
      invariant forall k :: hi <= k < a.Length ==> a[k] == was[a.Length - 1 - k]
      decreases hi - lo
    {
      hi := hi - 1;
      a[lo], a[hi] := a[hi], a[lo];
      lo := lo + 1;
    }
  }

  /** Every branch entry decoded, or the index of the first bad one. */
  function DecodeBranches(hexes: seq<string>, from: nat): (r: Result<seq<Hash>, MapError>)
    requires from <= |hexes|
    decreases |hexes| - from
  {
    if from == |hexes| then Ok([])
    else match DecodeHash32(hexes[from])
      case None => Err(BadBranch(from))
      case Some(h) =>
        match DecodeBranches(hexes, from + 1)
        case Ok(rest) => Ok([h] + rest)
        case Err(e) => Err(e)
  }

  // ---------- notify_to_template ----------

  /** What `notify_to_template` returns: the fields are checked in the order of the code. */
  function MapNotify(n: NotifyParams, extranonce1: Bytes, shareTarget: Hash): Result<MappedJob, MapError> {
    match Hex.FromStrRadix16(n.versionHex) case None => Err(BadVersion) case Some(version) =>
    match Hex.FromStrRadix16(n.nbitsHex) case None => Err(BadBits) case Some(bits) =>
    match Hex.FromStrRadix16(n.ntimeHex) case None => Err(BadTime) case Some(time) =>
    match DecodeHash32(n.prevHashBeHex) case None => Err(BadPrev) case Some(prevBe) =>
    match Hex.Decode(n.coinb1Hex) case None => Err(BadCoinb1) case Some(coinb1) =>
    match Hex.Decode(n.coinb2Hex) case None => Err(BadCoinb2) case Some(coinb2) =>
    match DecodeBranches(n.merkleBranchesHex, 0) case Err(e) => Err(e) case Ok(branch) =>
    if |extranonce1| != 4 then Err(BadExtranonce1)
    else
      Ok(MappedJob(
           WorkTemplate(version, Reversed(prevBe), time, bits, shareTarget, coinb1, 8, coinb2, branch, 0, TWO32 - 1),
           n.jobId,
           FromLe32(extranonce1)))
  }

  /** `notify_to_template`, with its in-place reversal and its decoding loop. */
  method NotifyToTemplate(n: NotifyParams, extranonce1: Bytes, shareTarget: Hash)
    returns (r: Result<MappedJob, MapError>)
    ensures r == MapNotify(n, extranonce1, shareTarget)
  {
    var version := Hex.FromStrRadix16(n.versionHex);
    if version.None? { return Err(BadVersion); }
    var bits := Hex.FromStrRadix16(n.nbitsHex);
    if bits.None? { return Err(BadBits); }
    var time := Hex.FromStrRadix16(n.ntimeHex);
    if time.None? { return Err(BadTime); }
    var prevBe := DecodeHash32(n.prevHashBeHex);
    if prevBe.None? { return Err(BadPrev); }
    var prev := new Byte[32](i requires 0 <= i < 32 => prevBe.value[i]);
    assert prev[..] == prevBe.value;
    ReverseInPlace(prev);
    var coinb1 := Hex.Decode(n.coinb1Hex);
    if coinb1.None? { return Err(BadCoinb1); }
    var coinb2 := Hex.Decode(n.coinb2Hex);
    if coinb2.None? { return Err(BadCoinb2); }
    var branch: seq<Hash> := [];
    ghost var all := DecodeBranches(n.merkleBranchesHex, 0);
    assert all.Ok? ==> branch + all.value == all.value;
    for i := 0 to |n.merkleBranchesHex|
      invariant DecodeBranches(n.merkleBranchesHex, 0)
             == match DecodeBranches(n.merkleBranchesHex, i) case Ok(rest) => Ok(branch + rest) case Err(e) => Err(e)
    {
      var h := DecodeHash32(n.merkleBranchesHex[i]);
      if h.None? { return Err(BadBranch(i)); }
      ghost var rest := DecodeBranches(n.merkleBranchesHex, i + 1);
      assert rest.Ok? ==> branch + ([h.value] + rest.value) == (branch + [h.value]) + rest.value;
      branch := branch + [h.value];
    }
    assert branch + [] == branch;
    if |extranonce1| != 4 { return Err(BadExtranonce1); }
    return Ok(MappedJob(
                WorkTemplate(version.value, prev[..], time.value, bits.value, shareTarget,
                             coinb1.value, 8, coinb2.value, branch, 0, TWO32 - 1),
                n.jobId,
                FromLe32(extranonce1)));
  }

  // ---------- The miner's header and its submit fields ----------

  /** `compose_extranonce`: the pool's half in the low 32 bits, the rolled half in the high 32. */
  function ComposeExtranonce(xn1Low: U32, xn2: U32): U64 {
    xn1Low + TWO32 * xn2
  }

  /** On the wire the composed extranonce is the pool's four bytes, then the miner's four. */
  lemma ExtranonceSplit(xn1: Bytes, xn2: U32)
    requires |xn1| == 4
    ensures Le64(ComposeExtranonce(FromLe32(xn1), xn2)) == xn1 + Le32(xn2)
  {
    Le32OfFromLe32(xn1);
    var e := ComposeExtranonce(FromLe32(xn1), xn2);
    assert e % TWO32 == FromLe32(xn1) && e / TWO32 == xn2;
  }

  /** The header the loop derives from a template for one xn2 and nonce. */
  function MinerHeader(job: MappedJob, xn2: U32, nonce: U32): (h: Bytes)
    ensures |h| == 84
  {
    var t := job.template;
    var txid := Sha256d(t.coinbasePrefix + Le64(ComposeExtranonce(job.xn1Low, xn2)) + t.coinbaseSuffix);
    HeaderBytes(t.version, t.prev, MerkleRoot(txid, t.merkleBranch, 0), t.time, t.bits, nonce)
  }

  /** `build_submit`; the cast of the time to 32 bits is written as `%`. */
  function BuildSubmit(xn2: U32, time: U64, nonce: U32): SubmitFields {
    SubmitFields(Hex.Encode(Le32(xn2)), Hex.Format08x(time % TWO32), Hex.Format08x(nonce))
  }

  // ---------- The bridge ----------

  /** The bridge's merkle walk: always hash(running, sibling). */
  function BridgeMerkle(h: Hash, branchesHex: seq<string>): Option<Hash>
    decreases |branchesHex|
  {
    if branchesHex == [] then Some(h)
    else match DecodeHash32(branchesHex[0])
      case None => None
      case Some(sib) => BridgeMerkle(Sha256d(h + sib), branchesHex[1..])
  }

  /** The header the bridge assembles from the notify, the session's xn1 and the submitted hex fields. */
  function BridgeHeader(n: NotifyParams, xn1: Bytes, f: SubmitFields): Option<Bytes> {
    match Hex.Decode(n.coinb1Hex) case None => None case Some(coinb1) =>
    match Hex.Decode(n.coinb2Hex) case None => None case Some(coinb2) =>
    match Hex.Decode(f.extranonce2Hex) case None => None case Some(xn2) =>
    if |xn2| != 4 then None else
    match BridgeMerkle(Sha256d(coinb1 + xn1 + xn2 + coinb2), n.merkleBranchesHex) case None => None case Some(merkle) =>
    match DecodeHash32(n.prevHashBeHex) case None => None case Some(prevBe) =>
    match Hex.FromStrRadix16(n.versionHex) case None => None case Some(version) =>
    match Hex.FromStrRadix16(n.nbitsHex) case None => None case Some(bits) =>
    match Hex.FromStrRadix16(f.ntimeHex) case None => None case Some(time) =>
    match Hex.FromStrRadix16(f.nonceHex) case None => None case Some(nonce) =>
    Some(Le32(version) + Reversed(prevBe) + merkle + Le64(time) + Le32(bits) + Le32(nonce))
  }

  lemma {:induction false} BridgeMerkleAgrees(h: Hash, hexes: seq<string>, from: nat)
    requires from <= |hexes| && DecodeBranches(hexes, from).Ok?
    ensures BridgeMerkle(h, hexes[from..]) == Some(MerkleRoot(h, DecodeBranches(hexes, from).value, 0))
    decreases |hexes| - from
  {
    hide Sha256d, Hex.Decode;
    if from < |hexes| {
      var sib := DecodeHash32(hexes[from]).value;
      var rest := DecodeBranches(hexes, from + 1).value;
      assert hexes[from..][1..] == hexes[from + 1..];
      assert DecodeBranches(hexes, from).value[1..] == rest;
      BridgeMerkleAgrees(Sha256d(h + sib), hexes, from + 1);
    }
  }

  /**
   Byte equality with the bridge, on every notify, extranonce, xn2 and nonce: whatever the miner hashed
   is what the bridge rebuilds from the submitted hex.
   */
  lemma BridgeRebuildsTheMinedHeader(n: NotifyParams, xn1: Bytes, target: Hash, xn2: U32, nonce: U32)
    requires MapNotify(n, xn1, target).Ok?
    ensures var job := MapNotify(n, xn1, target).value;
            BridgeHeader(n, xn1, BuildSubmit(xn2, job.template.time, nonce)) == Some(MinerHeader(job, xn2, nonce))
  {
    hide Sha256d, Hex.Decode, Hex.Encode, Hex.FromStrRadix16, Hex.Format08x, MerkleRoot, BridgeMerkle, Le32, Le64,
         ComposeExtranonce, FromLe32;
    var job := MapNotify(n, xn1, target).value;
    var t := job.template;
    Hex.DecodeOfEncode(Le32(xn2));
    Hex.ParseOfFormat(t.time % TWO32);
    Hex.ParseOfFormat(nonce);
    assert t.time % TWO32 == t.time;
    ExtranonceSplit(xn1, xn2);
    var coinbase := t.coinbasePrefix + xn1 + Le32(xn2) + t.coinbaseSuffix;
    assert t.coinbasePrefix + (xn1 + Le32(xn2)) + t.coinbaseSuffix == coinbase;
    BridgeMerkleAgrees(Sha256d(coinbase), n.merkleBranchesHex, 0);
    assert n.merkleBranchesHex[0..] == n.merkleBranchesHex;
  }

  /** `notify_to_template` succeeds exactly when every field decodes and extranonce1 has four bytes. */
  lemma MapSucceedsIff(n: NotifyParams, xn1: Bytes, target: Hash)
    ensures MapNotify(n, xn1, target).Ok? <==>
              && Hex.FromStrRadix16(n.versionHex).Some? && Hex.FromStrRadix16(n.nbitsHex).Some?
              && Hex.FromStrRadix16(n.ntimeHex).Some? && DecodeHash32(n.prevHashBeHex).Some?
              && Hex.Decode(n.coinb1Hex).Some? && Hex.Decode(n.coinb2Hex).Some?
              && (forall i :: 0 <= i < |n.merkleBranchesHex| ==> DecodeHash32(n.merkleBranchesHex[i]).Some?)
              && |xn1| == 4
  {
    BranchesDecodeIff(n.merkleBranchesHex, 0);
  }

  /** What a template holds: the decoded fields, the target it was asked for, and every nonce but the last. */
  lemma TemplateMeans(n: NotifyParams, xn1: Bytes, target: Hash)
    requires MapNotify(n, xn1, target).Ok?
    ensures var job := MapNotify(n, xn1, target).value;
            var t := job.template;
            && t.nonceStart == 0 && t.nonceEnd == 0xFFFF_FFFF && t.target == target && t.extranonceSize == 8
            && job.jobId == n.jobId && Le32(job.xn1Low) == xn1
            && Hex.FromStrRadix16(n.versionHex) == Some(t.version) && Hex.FromStrRadix16(n.nbitsHex) == Some(t.bits)
            && Hex.FromStrRadix16(n.ntimeHex) == Some(t.time)
            && Hex.Decode(n.coinb1Hex) == Some(t.coinbasePrefix) && Hex.Decode(n.coinb2Hex) == Some(t.coinbaseSuffix)
            && (exists be: Bytes :: Hex.Decode(n.prevHashBeHex) == Some(be) && Reversed(be) == t.prev)
            && |t.merkleBranch| == |n.merkleBranchesHex|
            && forall i :: 0 <= i < |t.merkleBranch| ==> Hex.Decode(n.merkleBranchesHex[i]) == Some(t.merkleBranch[i])
  {
    hide Hex.FromStrRadix16, Hex.Decode, Le32, FromLe32, Reversed;
    Le32OfFromLe32(xn1);
    BranchesAre(n.merkleBranchesHex, 0);
  }

  lemma {:induction false} BranchesAre(hexes: seq<string>, from: nat)
    requires from <= |hexes|
    ensures match DecodeBranches(hexes, from)
            case Ok(hashes) =>
              && |hashes| == |hexes| - from
              && forall i :: 0 <= i < |hashes| ==> Hex.Decode(hexes[from + i]) == Some(hashes[i])
            case Err(e) =>
              && e.BadBranch? && from <= e.index < |hexes| && DecodeHash32(hexes[e.index]).None?
              && forall i :: from <= i < e.index ==> DecodeHash32(hexes[i]).Some?
    decreases |hexes| - from
  {
    hide Hex.Decode;
    if from < |hexes| {
      BranchesAre(hexes, from + 1);
      if DecodeBranches(hexes, from).Ok? {
        var rest := DecodeBranches(hexes, from + 1).value;
        forall i | 0 < i <= |rest|
          ensures Hex.Decode(hexes[from + i]) == Some(DecodeBranches(hexes, from).value[i])
        {
          assert hexes[from + 1 + (i - 1)] == hexes[from + i];
        }
      }
    }
  }

  /** The position of a field in the order the code checks them; branch entries come one by one before extranonce1. */
  function Rank(e: MapError, branches: nat): nat {
    match e
    case BadVersion => 0
    case BadBits => 1
    case BadTime => 2
    case BadPrev => 3
    case BadCoinb1 => 4
    case BadCoinb2 => 5
    case BadBranch(i) => 6 + i
    case BadExtranonce1 => 6 + branches
  }

  /** The field this error blames is in fact bad. */
  ghost predicate IsBad(n: NotifyParams, xn1: Bytes, e: MapError) {
    match e
    case BadVersion => Hex.FromStrRadix16(n.versionHex).None?
    case BadBits => Hex.FromStrRadix16(n.nbitsHex).None?
    case BadTime => Hex.FromStrRadix16(n.ntimeHex).None?
    case BadPrev => DecodeHash32(n.prevHashBeHex).None?
    case BadCoinb1 => Hex.Decode(n.coinb1Hex).None?
    case BadCoinb2 => Hex.Decode(n.coinb2Hex).None?
    case BadBranch(i) => i < |n.merkleBranchesHex| && DecodeHash32(n.merkleBranchesHex[i]).None?
    case BadExtranonce1 => |xn1| != 4
  }

  /** A failed mapping blames the first bad field. */
  lemma MapBlamesTheFirst(n: NotifyParams, xn1: Bytes, target: Hash)
    requires MapNotify(n, xn1, target).Err?
    ensures var e := MapNotify(n, xn1, target).error;
            && IsBad(n, xn1, e)
            && forall other :: IsBad(n, xn1, other) ==>
                 Rank(e, |n.merkleBranchesHex|) <= Rank(other, |n.merkleBranchesHex|)
  {
    hide Hex.FromStrRadix16, Hex.Decode, DecodeHash32, FromLe32, Reversed, DecodeBranches;
    BranchesAre(n.merkleBranchesHex, 0);
    BranchesDecodeIff(n.merkleBranchesHex, 0);
  }

  lemma {:induction false} BranchesDecodeIff(hexes: seq<string>, from: nat)
    requires from <= |hexes|
    ensures DecodeBranches(hexes, from).Ok? <==> forall i :: from <= i < |hexes| ==> DecodeHash32(hexes[i]).Some?
    decreases |hexes| - from
  {
    if from < |hexes| {
      BranchesDecodeIff(hexes, from + 1);
    }
  }
}
