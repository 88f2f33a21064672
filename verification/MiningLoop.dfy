/**
 The launch loop: poll work, derive the header for the rolled xn2, take whatever the untrusted backends
 report, re-hash on the CPU, submit. The backends are arbitrary: any nonce, any claimed hash, any fault.
 */
module MiningLoop {
  import opened Words
  import opened Binary64
  import opened Fips180
  import opened Coinbase
  import opened Mapping
  import Targets
  import Hex

  /** A job in the client's slot: the notify and the session's extranonce1. */
  datatype StratumJob = StratumJob(notify: NotifyParams, extranonce1Hex: string)

  /** A backend's claim; nothing ties it to the header that was swept. */
  datatype Found = Found(nonce: U32, hash: Hash)

  /** What one launch reports: the GPU sweep (`Err` is a device fault) and the CPU pool's winner slot. */
  datatype Outcome = Outcome(gpu: Result<Option<Found>, string>, cpu: Option<Found>)

  /** One submitted share, beside the job and difficulty it was mined for. */
  datatype Submission = Submission(job: StratumJob, difficulty: F64, jobId: string, fields: SubmitFields)

  /** One turn of the loop: what `next_work` reads and what the backends then report. */
  datatype Launch = Launch(job: StratumJob, difficulty: F64, outcome: Outcome)

  /** `next_work`: the work behind a job, `None` when any field fails to decode. */
  function WorkOf(job: StratumJob, difficulty: F64): Option<MappedJob> {
    match Hex.Decode(job.extranonce1Hex)
    case None => None
    case Some(xn1) =>
      match MapNotify(job.notify, xn1, Targets.TargetOf(difficulty))
      case Ok(work) => Some(work)
      case Err(_) => None
  }

  /** The find a launch acts on: the GPU's if it has one, else the CPU pool's. */
  function Winner(o: Outcome): Option<Found> {
    match o.gpu
    case Ok(Some(f)) => Some(f)
    case _ => o.cpu
  }

  /** The pool accepts a share: the rebuilt header hashes to at most the target of the difficulty in force. */
  ghost predicate BridgeAccepts(s: Submission) {
    match Hex.Decode(s.job.extranonce1Hex)
    case None => false
    case Some(xn1) =>
      match BridgeHeader(s.job.notify, xn1, s.fields)
      case None => false
      case Some(h) =>
        && |xn1| == 4
        && s.jobId == s.job.notify.jobId
        && Targets.Value(Sha256d(h)) <= Targets.Value(Targets.TargetOf(s.difficulty))
  }

  /** The re-hash gate: the claimed hash is the header's, and it meets the target. */
  ghost predicate PassesGate(work: MappedJob, xn2: U32, f: Found) {
    && Sha256d(MinerHeader(work, xn2, f.nonce)) == f.hash
    && Targets.Value(f.hash) <= Targets.Value(work.template.target)
  }

  /** The submission a launch makes at `xn2`, if its winner passes the gate. */
  ghost function Submitted(l: Launch, work: MappedJob, xn2: U32): Option<Submission> {
    match Winner(l.outcome)
    case None => None
    case Some(f) =>
      if PassesGate(work, xn2, f)
      then Some(Submission(l.job, l.difficulty, work.jobId, BuildSubmit(xn2, work.template.time, f.nonce)))
      else None
  }

  /** The gate's test and the bridge's test are the same test. */
  lemma GateIffBridgeAccepts(l: Launch, work: MappedJob, xn2: U32, nonce: U32)
    requires WorkOf(l.job, l.difficulty) == Some(work)
    ensures var s := Submission(l.job, l.difficulty, work.jobId, BuildSubmit(xn2, work.template.time, nonce));
            BridgeAccepts(s) <==> PassesGate(work, xn2, Found(nonce, Sha256d(MinerHeader(work, xn2, nonce))))
  {
    hide Sha256d, Hex.Decode, MinerHeader, BridgeHeader, BuildSubmit, Targets.TargetOf, Targets.Value, MapNotify;
    var xn1 := Hex.Decode(l.job.extranonce1Hex).value;
    var target := Targets.TargetOf(l.difficulty);
    BridgeRebuildsTheMinedHeader(l.job.notify, xn1, target, xn2, nonce);
    MappedFields(l.job.notify, xn1, target);
  }

  lemma MappedFields(n: NotifyParams, xn1: Bytes, target: Hash)
    requires MapNotify(n, xn1, target).Ok?
    ensures var work := MapNotify(n, xn1, target).value;
            |xn1| == 4 && work.jobId == n.jobId && work.template.target == target
  {
  }

  /** What reaches the pool from one launch is accepted by the bridge. */
  lemma SubmittedIsAccepted(l: Launch, work: MappedJob, xn2: U32)
    requires WorkOf(l.job, l.difficulty) == Some(work) && Submitted(l, work, xn2).Some?
    ensures BridgeAccepts(Submitted(l, work, xn2).value)
  {
    hide Sha256d, BridgeAccepts, MinerHeader, BuildSubmit, WorkOf;
    var f := Winner(l.outcome).value;
    GateIffBridgeAccepts(l, work, xn2, f.nonce);
  }

  /** The xn2 of the `t`-th launch. */
  function Rolled(seed: U32, t: nat): U32 {
    (seed + t) % TWO32
  }

  lemma RolledStep(seed: U32, t: nat)
    ensures Rolled(seed, 0) == seed && Rolled(seed, t + 1) == (Rolled(seed, t) + 1) % TWO32
  {
  }

  /** Over at most 2^32 launches no xn2 repeats, on the wire included. */
  lemma RolledInjective(seed: U32, t1: nat, t2: nat)
    requires t1 < t2 < t1 + TWO32
    ensures Hex.Encode(Le32(Rolled(seed, t1))) != Hex.Encode(Le32(Rolled(seed, t2)))
  {
    hide Le32, Hex.Encode, FromLe32;
    var x1, x2 := Rolled(seed, t1), Rolled(seed, t2);
    assert x1 != x2;
    FromLe32OfLe32(x1);
    FromLe32OfLe32(x2);
    Hex.DecodeOfEncode(Le32(x1));
    Hex.DecodeOfEncode(Le32(x2));
  }

  lemma SubmittedHex(l: Launch, work: MappedJob, xn2: U32)
    requires Submitted(l, work, xn2).Some?
    ensures Submitted(l, work, xn2).value.fields.extranonce2Hex == Hex.Encode(Le32(xn2))
  {
    hide Sha256d, MinerHeader, Le32, Hex.Encode, Hex.Format08x, Targets.Value;
  }

  // ---------- Whole runs ----------

  /** How many of the turns launched; an idle poll (no work behind the job) neither launches nor rolls. */
  function Launched(turns: seq<Launch>): (n: nat)
    ensures n <= |turns|
  {
    if turns == [] then 0
    else
      var k := |turns| - 1;
      Launched(turns[..k]) + if WorkOf(turns[k].job, turns[k].difficulty).Some? then 1 else 0
  }

  /** What the last turn of a run submits, given how many launches came before it. */
  ghost function LastSubmitted(seed: U32, turns: seq<Launch>): Option<Submission>
    requires turns != []
  {
    var k := |turns| - 1;
    match WorkOf(turns[k].job, turns[k].difficulty)
    case None => None
    case Some(work) => Submitted(turns[k], work, Rolled(seed, Launched(turns[..k])))
  }

  /** Every submission of a run, oldest first. */
  ghost function Sent(seed: U32, turns: seq<Launch>): seq<Submission> {
    if turns == [] then []
    else Sent(seed, turns[..|turns| - 1]) + match LastSubmitted(seed, turns) case Some(s) => [s] case None => []
  }

  /** The launch numbers at which those submissions were made. */
  ghost function SentAt(seed: U32, turns: seq<Launch>): seq<nat> {
    if turns == [] then []
    else
      var k := |turns| - 1;
      SentAt(seed, turns[..k]) + if LastSubmitted(seed, turns).Some? then [Launched(turns[..k])] else []
  }

  /** Safety over every run of every backend: the bridge accepts every share that was sent. */
  lemma {:induction false} EverySentShareIsAccepted(seed: U32, turns: seq<Launch>)
    ensures forall i :: 0 <= i < |Sent(seed, turns)| ==> BridgeAccepts(Sent(seed, turns)[i])
  {
    hide BridgeAccepts, WorkOf, Submitted, Rolled, Launched;
    if turns != [] {
      var k := |turns| - 1;
      EverySentShareIsAccepted(seed, turns[..k]);
      if LastSubmitted(seed, turns).Some? {
        SubmittedIsAccepted(turns[k], WorkOf(turns[k].job, turns[k].difficulty).value,
                            Rolled(seed, Launched(turns[..k])));
      }
    }
  }

  // ---------- Every good find is sent ----------

  /** The find a launch is to act on: the GPU's if its sweep reports one, else what is in the CPU pool's slot. */
  ghost predicate Finds(o: Outcome, f: Found) {
    o.gpu == Ok(Some(f)) || ((o.gpu.Err? || o.gpu == Ok(None)) && o.cpu == Some(f))
  }

  /** The share that reports this find at this xn2, in the three hex fields of the wire. */
  function ShareOf(l: Launch, xn2: U32, ntime: U32, f: Found): Submission {
    Submission(l.job, l.difficulty, l.job.notify.jobId,
               SubmitFields(Hex.Encode(Le32(xn2)), Hex.Format08x(ntime), Hex.Format08x(f.nonce)))
  }

  /** The bridge accepts the share, and the find's claimed hash is that of the header the bridge rebuilds. */
  ghost predicate GoodShare(s: Submission, f: Found) {
    && BridgeAccepts(s)
    && Sha256d(BridgeHeader(s.job.notify, Hex.Decode(s.job.extranonce1Hex).value, s.fields).value) == f.hash
  }

  /** A bridge that accepts a share had everything the miner needs to map the job, but for the job's own time. */
  lemma AcceptedIsMappable(l: Launch, xn2: U32, ntime: U32, f: Found)
    requires BridgeAccepts(ShareOf(l, xn2, ntime, f)) && Hex.FromStrRadix16(l.job.notify.ntimeHex) == Some(ntime)
    ensures WorkOf(l.job, l.difficulty).Some?
  {
    hide Hex.Decode, Hex.FromStrRadix16, Hex.Encode, Hex.Format08x, DecodeHash32, Sha256d, BridgeMerkle, MapNotify;
    var n, xn1 := l.job.notify, Hex.Decode(l.job.extranonce1Hex).value;
    MapSucceedsIff(n, xn1, Targets.TargetOf(l.difficulty));
    var coinb1, coinb2 := Hex.Decode(n.coinb1Hex).value, Hex.Decode(n.coinb2Hex).value;
    BridgeNeedsBranches(
      Sha256d(coinb1 + xn1 + Hex.Decode(Hex.Encode(Le32(xn2))).value + coinb2), n.merkleBranchesHex);
  }

  lemma {:induction false} BridgeNeedsBranches(h: Hash, hexes: seq<string>)
    requires BridgeMerkle(h, hexes).Some?
    ensures forall i :: 0 <= i < |hexes| ==> DecodeHash32(hexes[i]).Some?
    decreases |hexes|
  {
    hide DecodeHash32, Sha256d;
    if hexes != [] {
      var sib := DecodeHash32(hexes[0]).value;
      BridgeNeedsBranches(Sha256d(h + sib), hexes[1..]);
      forall i | 0 <= i < |hexes|
        ensures DecodeHash32(hexes[i]).Some?
      {
        if i > 0 {
          assert hexes[i] == hexes[1..][i - 1];
        }
      }
    }
  }

  lemma MappedTime(n: NotifyParams, xn1: Bytes, target: Hash)
    requires MapNotify(n, xn1, target).Ok?
    ensures Hex.FromStrRadix16(n.ntimeHex) == Some(MapNotify(n, xn1, target).value.template.time)
  {
    hide Hex.FromStrRadix16, Hex.Decode;
  }

  /** A launch submits exactly the shares that are good: its find's, or none. */
  lemma SubmitsIffGood(l: Launch, xn2: U32, ntime: U32, f: Found)
    requires Finds(l.outcome, f) && Hex.FromStrRadix16(l.job.notify.ntimeHex) == Some(ntime)
    ensures GoodShare(ShareOf(l, xn2, ntime, f), f) ==> WorkOf(l.job, l.difficulty).Some?
    ensures WorkOf(l.job, l.difficulty).Some? ==>
              Submitted(l, WorkOf(l.job, l.difficulty).value, xn2)
              == if GoodShare(ShareOf(l, xn2, ntime, f), f) then Some(ShareOf(l, xn2, ntime, f)) else None
  {
    hide Sha256d, BridgeHeader, MinerHeader, MapNotify, Targets.TargetOf, Targets.Value, Le32,
         Hex.Encode, Hex.Format08x, Hex.FromStrRadix16, Hex.Decode;
    if GoodShare(ShareOf(l, xn2, ntime, f), f) {
      AcceptedIsMappable(l, xn2, ntime, f);
    }
    if WorkOf(l.job, l.difficulty).Some? {
      var work := WorkOf(l.job, l.difficulty).value;
      var xn1, target := Hex.Decode(l.job.extranonce1Hex).value, Targets.TargetOf(l.difficulty);
      MappedFields(l.job.notify, xn1, target);
      MappedTime(l.job.notify, xn1, target);
      assert BuildSubmit(xn2, work.template.time, f.nonce) == ShareOf(l, xn2, ntime, f).fields;
      BridgeRebuildsTheMinedHeader(l.job.notify, xn1, target, xn2, f.nonce);
    }
  }

  lemma {:induction false} SentStays(seed: U32, turns: seq<Launch>, k: nat)
    requires k <= |turns|
    ensures Sent(seed, turns[..k]) <= Sent(seed, turns) && SentAt(seed, turns[..k]) <= SentAt(seed, turns)
    ensures |Sent(seed, turns[..k])| == |SentAt(seed, turns[..k])|
  {
    hide LastSubmitted, Launched;
    if k < |turns| {
      SentStays(seed, turns[..|turns| - 1], k);
      assert turns[..|turns| - 1][..k] == turns[..k];
    } else {
      assert turns[..k] == turns;
      SentInStep(seed, turns);
    }
  }

  lemma {:induction false} SentInStep(seed: U32, turns: seq<Launch>)
    ensures |Sent(seed, turns)| == |SentAt(seed, turns)|
  {
    hide LastSubmitted, Launched;
    if turns != [] {
      SentInStep(seed, turns[..|turns| - 1]);
    }
  }

  /** Share `s` is among those sent, at this launch number. */
  ghost predicate SentBy(seed: U32, turns: seq<Launch>, s: Submission, launch: nat) {
    exists i :: 0 <= i < |Sent(seed, turns)| && i < |SentAt(seed, turns)|
                && Sent(seed, turns)[i] == s && SentAt(seed, turns)[i] == launch
  }

  /**
   No good find is dropped: in every run, whenever a launch's find (the GPU's, or the CPU pool's when the GPU reports
   none or a fault) hashes as claimed and the bridge would accept its share, that share is sent, at that launch.
   */
  lemma EveryGoodFindIsSent(seed: U32, turns: seq<Launch>, k: nat, ntime: U32, f: Found)
    requires k < |turns| && Finds(turns[k].outcome, f)
    requires Hex.FromStrRadix16(turns[k].job.notify.ntimeHex) == Some(ntime)
    requires GoodShare(ShareOf(turns[k], (seed + Launched(turns[..k])) % TWO32, ntime, f), f)
    ensures SentBy(seed, turns, ShareOf(turns[k], (seed + Launched(turns[..k])) % TWO32, ntime, f),
                   Launched(turns[..k]))
  {
    hide GoodShare, ShareOf, Finds, Submitted, WorkOf, Launched, Hex.FromStrRadix16;
    var upTo := turns[..k + 1];
    assert upTo[..k] == turns[..k] && upTo[k] == turns[k];
    SubmitsIffGood(turns[k], (seed + Launched(turns[..k])) % TWO32, ntime, f);
    SentStays(seed, turns, k + 1);
    SentInStep(seed, turns[..k]);
    var i := |Sent(seed, turns[..k])|;
    assert Sent(seed, upTo)[i] == ShareOf(turns[k], (seed + Launched(turns[..k])) % TWO32, ntime, f);
    assert SentAt(seed, upTo)[i] == Launched(turns[..k]);
    hide Sent, SentAt;
    assert Sent(seed, turns)[i] == Sent(seed, upTo)[i] && SentAt(seed, turns)[i] == SentAt(seed, upTo)[i];
  }

  /** Nothing else is sent: every share in the run reports the find of its own launch, hashing as claimed. */
  lemma {:induction false} EverySentShareIsAFind(seed: U32, turns: seq<Launch>, i: nat)
    requires i < |Sent(seed, turns)|
    ensures i < |SentAt(seed, turns)|
    ensures exists k: nat, ntime: U32, f: Found :: k < |turns| && IsShareOf(seed, turns, i, k, ntime, f)
  {
    hide GoodShare, ShareOf, Finds, Submitted, WorkOf, Launched, Hex.FromStrRadix16;
    var n := |turns| - 1;
    SentInStep(seed, turns);
    SentInStep(seed, turns[..n]);
    if i < |Sent(seed, turns[..n])| {
      EverySentShareIsAFind(seed, turns[..n], i);
      var k: nat, ntime: U32, f: Found :| k < n && IsShareOf(seed, turns[..n], i, k, ntime, f);
      assert turns[..n][..k] == turns[..k];
      assert IsShareOf(seed, turns, i, k, ntime, f);
    } else {
      var ntime, f := LastFind(seed, turns);
      assert IsShareOf(seed, turns, i, n, ntime, f);
    }
  }

  /** Share `i` of the run is turn `k`'s, for find `f`. */
  ghost predicate IsShareOf(seed: U32, turns: seq<Launch>, i: nat, k: nat, ntime: U32, f: Found)
    requires i < |Sent(seed, turns)| && i < |SentAt(seed, turns)| && k < |turns|
  {
    var share := ShareOf(turns[k], (seed + Launched(turns[..k])) % TWO32, ntime, f);
    && Finds(turns[k].outcome, f) && Hex.FromStrRadix16(turns[k].job.notify.ntimeHex) == Some(ntime)
    && GoodShare(share, f) && Sent(seed, turns)[i] == share && SentAt(seed, turns)[i] == Launched(turns[..k])
  }

  lemma LastFind(seed: U32, turns: seq<Launch>) returns (ntime: U32, f: Found)
    requires turns != [] && LastSubmitted(seed, turns).Some?
    ensures var k := |turns| - 1;
            var share := ShareOf(turns[k], (seed + Launched(turns[..k])) % TWO32, ntime, f);
            && Finds(turns[k].outcome, f) && Hex.FromStrRadix16(turns[k].job.notify.ntimeHex) == Some(ntime)
            && GoodShare(share, f) && LastSubmitted(seed, turns) == Some(share)
  {
    hide GoodShare, ShareOf, PassesGate, MapNotify, Launched, Hex.FromStrRadix16, Hex.Decode, Targets.TargetOf;
    var l := turns[|turns| - 1];
    var xn1, target := Hex.Decode(l.job.extranonce1Hex).value, Targets.TargetOf(l.difficulty);
    MappedTime(l.job.notify, xn1, target);
    ntime, f := WorkOf(l.job, l.difficulty).value.template.time, Winner(l.outcome).value;
    SubmitsIffGood(l, (seed + Launched(turns[..|turns| - 1])) % TWO32, ntime, f);
  }

  lemma {:induction false} SentCarriesItsRoll(seed: U32, turns: seq<Launch>)
    ensures var at := SentAt(seed, turns);
            && |at| == |Sent(seed, turns)|
            && (forall i :: 0 <= i < |at| ==> at[i] < Launched(turns))
            && (forall i, j :: 0 <= i < j < |at| ==> at[i] < at[j])
            && forall i :: 0 <= i < |at| ==>
                 Sent(seed, turns)[i].fields.extranonce2Hex == Hex.Encode(Le32(Rolled(seed, at[i])))
  {
    hide WorkOf, Submitted, Rolled, Hex.Encode, Le32;
    if turns != [] {
      var k := |turns| - 1;
      SentCarriesItsRoll(seed, turns[..k]);
      if LastSubmitted(seed, turns).Some? {
        SubmittedHex(turns[k], WorkOf(turns[k].job, turns[k].difficulty).value, Rolled(seed, Launched(turns[..k])));
      }
    }
  }

  /** Over at most 2^32 launches no two submissions carry the same extranonce2. */
  lemma NoExtranonceIsSentTwice(seed: U32, turns: seq<Launch>)
    requires Launched(turns) <= TWO32
    ensures forall i, j :: 0 <= i < j < |Sent(seed, turns)| ==>
              Sent(seed, turns)[i].fields.extranonce2Hex != Sent(seed, turns)[j].fields.extranonce2Hex
  {
    hide Sent, SentAt, Launched, Rolled, Hex.Encode, Le32;
    SentCarriesItsRoll(seed, turns);
    var at := SentAt(seed, turns);
    forall i, j | 0 <= i < j < |Sent(seed, turns)|
      ensures Sent(seed, turns)[i].fields.extranonce2Hex != Sent(seed, turns)[j].fields.extranonce2Hex
    {
      RolledInjective(seed, at[i], at[j]);
    }
  }

  /** `next_work`: decode extranonce1, derive the share target, map the notify. */
  method NextWork(job: StratumJob, difficulty: F64) returns (w: Option<MappedJob>)
    ensures w == WorkOf(job, difficulty)
  {
    hide MapNotify, Hex.Decode, Targets.TargetOf;
    var target := Targets.TargetFromDifficulty(difficulty);
    var xn1 := Hex.Decode(job.extranonce1Hex);
    if xn1.None? {
      return None;
    }
    var r := NotifyToTemplate(job.notify, xn1.value, target);
    match r
    case Ok(work) => return Some(work);
    case Err(_) => return None;
  }

  /** The state `run_stratum_full` carries from launch to launch. */
  class Miner {
    var xn2: U32
    var hashMismatches: nat
    var gpuFaultStreak: nat
    var recoverCalls: nat
    var submissions: seq<Submission>

    constructor (seed: U32)
      ensures xn2 == seed && hashMismatches == 0 && gpuFaultStreak == 0 && recoverCalls == 0 && submissions == []
    {
      xn2 := seed;
      hashMismatches := 0;
      gpuFaultStreak := 0;
      recoverCalls := 0;
      submissions := [];
    }

    /** Fault bookkeeping: recovery is attempted on the first fault of a streak, any clean sweep ends it. */
    method NoteGpuOutcome(gpu: Result<Option<Found>, string>) returns (gpuFound: Option<Found>)
      modifies `gpuFaultStreak, `recoverCalls
      ensures gpuFaultStreak == if gpu.Ok? then 0 else old(gpuFaultStreak) + 1
      ensures recoverCalls == old(recoverCalls) + if gpu.Err? && old(gpuFaultStreak) == 0 then 1 else 0
      ensures gpuFound == if gpu.Ok? then gpu.value else None
    {
      match gpu {
        case Ok(found) =>
          if gpuFaultStreak > 0 {
            gpuFaultStreak := 0;
          }
          return found;
        case Err(_) =>
          gpuFaultStreak := gpuFaultStreak + 1;
          if gpuFaultStreak == 1 {
            recoverCalls := recoverCalls + 1;
          }
          return None;
      }
    }

    /** The header skeleton of a launch: the nonce is zero until a find is checked. */
    method DeriveHeader(work: MappedJob, roll: U32) returns (hdr: array<Byte>)
      ensures fresh(hdr) && hdr.Length == 84
      ensures forall nonce: U32 :: hdr[..80] + Le32(nonce) == MinerHeader(work, roll, nonce)
    {
      hide Sha256d, MerkleRoot, Le32, Le64, ComposeExtranonce;
      var t := work.template;
      var extranonce := ComposeExtranonce(work.xn1Low, roll);
      var txid := CoinbaseTxid(t.coinbasePrefix, extranonce, t.coinbaseSuffix);
      var merkle := MerkleRootFromBranch(txid, t.merkleBranch, 0);
      hdr := Header84(t.version, t.prev, merkle, t.time, t.bits, 0);
      ghost var head := Le32(t.version) + t.prev + merkle + Le64(t.time) + Le32(t.bits);
      assert hdr[..] == head + Le32(0);
      assert hdr[..80] == head;
    }

    /** One launch: every path through it rolls xn2 exactly once. */
    method RunLaunch(l: Launch, work: MappedJob)
      requires WorkOf(l.job, l.difficulty) == Some(work)
      modifies this
      ensures xn2 == (old(xn2) + 1) % TWO32
      ensures submissions == old(submissions)
                + match Submitted(l, work, old(xn2)) case Some(s) => [s] case None => []
      ensures hashMismatches == old(hashMismatches)
                + match Winner(l.outcome)
                  case Some(f) => if Sha256d(MinerHeader(work, old(xn2), f.nonce)) != f.hash then 1 else 0
                  case None => 0
      ensures gpuFaultStreak == if l.outcome.gpu.Ok? then 0 else old(gpuFaultStreak) + 1
    {
      hide Sha256d, MinerHeader, WorkOf, BuildSubmit, Le32, Targets.Value;
      var hdr := DeriveHeader(work, xn2);
      var gpuFound := NoteGpuOutcome(l.outcome.gpu);
      var win := if gpuFound.Some? then gpuFound else l.outcome.cpu;
      if win.Some? {
        var f := win.value;
        assert hdr[..80] + Le32(f.nonce) == MinerHeader(work, xn2, f.nonce);
        CopyFromSlice(hdr, 80, Le32(f.nonce));
        assert hdr[..] == MinerHeader(work, xn2, f.nonce);
        var cpuHash := Sha256d(hdr[..]);
        if cpuHash != f.hash {
          hashMismatches := hashMismatches + 1;
          xn2 := (xn2 + 1) % TWO32;
          return;
        }
        var meets := Targets.HashLeqTarget(cpuHash, work.template.target);
        if !meets {
          xn2 := (xn2 + 1) % TWO32;
          return;
        }
        submissions := submissions
          + [Submission(l.job, l.difficulty, work.jobId, BuildSubmit(xn2, work.template.time, f.nonce))];
      }
      xn2 := (xn2 + 1) % TWO32;
    }

    /** A whole run from a fresh miner: it sends exactly `Sent`. */
    method Run(turns: seq<Launch>)
      requires submissions == []
      modifies this
      ensures submissions == Sent(old(xn2), turns)
      ensures xn2 == Rolled(old(xn2), Launched(turns))
    {
      hide WorkOf, Submitted, Rolled;
      ghost var seed := xn2;
      RolledStep(seed, 0);
      for k := 0 to |turns|
        invariant submissions == Sent(seed, turns[..k])
        invariant xn2 == Rolled(seed, Launched(turns[..k]))
      {
        var l := turns[k];
        assert turns[..k + 1][..k] == turns[..k];
        RolledStep(seed, Launched(turns[..k]));
        var work := NextWork(l.job, l.difficulty);
        if work.Some? {
          RunLaunch(l, work.value);
        }
      }
      assert turns[..|turns|] == turns;
    }
  }
}
