/**
 The CPU sweep: threads claim 4096-nonce chunks from one shared counter, hash them, and race to a single
 found slot. A step is one atomic action of one thread; the scheduler, the two cancel flags and the
 visibility of the relaxed stop flag are arbitrary.
 */
module CpuSweep {
  import opened Words
  import opened Arithmetic
  import opened SweepJob
  import opened Fips180
  import opened Sha256dCpu
  import Targets

  const CHUNK: nat := 4096

  /** Where a thread stands in its loop. */
  datatype Pc =
    | AtCheck                      // about to load the stop flags
    | AtClaim                      // about to bump the shared counter
    | Hashing(cur: nat, end: nat)  // `cur` is the next nonce of its chunk
    | Storing(nonce: nat)          // has a find, about to take the lock
    | Raising                      // about to set the local stop flag
    | Done

  datatype State = State(next: nat, found: Option<MiningResult>, localStop: bool, pc: seq<Pc>, hashed: multiset<nat>)

  /** The counter value up to which nonces have been handed out. */
  function Handed(j: Job, st: State): (h: nat)
    ensures h <= j.end
  {
    Min(st.next, j.end)
  }

  /** One atomic action of thread `t`; `cancelSeen` and `stopSeen` are what its flag loads return. */
  ghost function Step(j: Job, st: State, t: nat, cancelSeen: bool, stopSeen: bool): (r: State)
    requires ValidJob(j) && Inv(j, st) && t < |st.pc| && st.pc[t] != Done
    ensures |r.pc| == |st.pc| && r.next >= st.next
  {
    match st.pc[t]
    case AtCheck => st.(pc := st.pc[t := if cancelSeen || stopSeen then Done else AtClaim])
    case AtClaim =>
      st.(next := st.next + CHUNK,
          pc := st.pc[t := if st.next >= j.end then Done else Hashing(st.next, Min(st.next + CHUNK, j.end))])
    case Hashing(cur, end) =>
      if cur == end then st.(pc := st.pc[t := AtCheck])
      else st.(hashed := st.hashed + multiset{cur},
               pc := st.pc[t := if Qualifies(j, cur) then Storing(cur) else Hashing(cur + 1, end)])
    case Storing(n) =>
      st.(found := if st.found.None? then Some(MiningResult(n, HashAt(j, n))) else st.found,
          pc := st.pc[t := Raising])
    case Raising => st.(localStop := true, pc := st.pc[t := Done])
    case Done => st
  }

  // ---------- The invariant of every interleaving ----------

  ghost predicate Pending(st: State, n: nat) {
    exists t :: 0 <= t < |st.pc| && st.pc[t].Hashing? && st.pc[t].cur <= n < st.pc[t].end
  }

  /** No thread has a find yet. */
  ghost predicate NoFind(st: State) {
    st.found.None? && forall t :: 0 <= t < |st.pc| ==> !st.pc[t].Storing?
  }

  /** Chunks lie inside what was handed out and do not overlap. */
  ghost predicate ChunksApart(j: Job, st: State) {
    && (forall t :: 0 <= t < |st.pc| && st.pc[t].Hashing? ==> j.start <= st.pc[t].cur <= st.pc[t].end <= Handed(j, st))
    && (forall t, u :: 0 <= t < u < |st.pc| && st.pc[t].Hashing? && st.pc[u].Hashing? ==>
          st.pc[t].end <= st.pc[u].cur || st.pc[u].end <= st.pc[t].cur)
  }

  /** Only handed-out nonces are hashed, none twice, and none that is still waiting in a chunk. */
  ghost predicate HashedOnce(j: Job, st: State) {
    && (forall n :: n in st.hashed ==> st.hashed[n] == 1 && j.start <= n < Handed(j, st))
    && (forall t, n :: 0 <= t < |st.pc| && st.pc[t].Hashing? && st.pc[t].cur <= n < st.pc[t].end ==> n !in st.hashed)
  }

  ghost predicate FindsAreGood(j: Job, st: State)
    requires ValidJob(j)
  {
    && (forall t :: 0 <= t < |st.pc| && st.pc[t].Storing? ==> GoodFind(j, st.pc[t].nonce))
    && (st.found.Some? ==> GoodFind(j, st.found.value.nonce) && st.found.value.hash == HashAt(j, st.found.value.nonce))
    && (st.localStop ==> st.found.Some?)
    && (forall t :: 0 <= t < |st.pc| && st.pc[t] == Raising ==> st.found.Some?)
  }

  /** Until a find, everything handed out was hashed or waits in a chunk, and nothing hashed qualifies. */
  ghost predicate NothingMissed(j: Job, st: State)
    requires ValidJob(j) && HashedOnce(j, st)
  {
    NoFind(st) ==>
      && (forall n :: j.start <= n < Handed(j, st) ==> n in st.hashed || Pending(st, n))
      && (forall n :: n in st.hashed ==> !Qualifies(j, n))
  }

  ghost predicate Inv(j: Job, st: State)
    requires ValidJob(j)
  {
    && st.next >= j.start
    && ChunksApart(j, st) && HashedOnce(j, st) && FindsAreGood(j, st) && NothingMissed(j, st)
  }

  /** A step of `t` moves no other thread; its own chunk only shrinks, or is fresh. */
  lemma OthersStand(j: Job, st: State, t: nat, cancelSeen: bool, stopSeen: bool)
    requires ValidJob(j) && Inv(j, st) && t < |st.pc| && st.pc[t] != Done
    ensures var st' := Step(j, st, t, cancelSeen, stopSeen);
            && st'.pc == st.pc[t := st'.pc[t]]
            && Handed(j, st) <= Handed(j, st')
            && (st'.pc[t].Hashing? ==>
                  if st.pc[t].Hashing? then st.pc[t].cur <= st'.pc[t].cur <= st'.pc[t].end == st.pc[t].end
                  else j.start <= Handed(j, st) <= st'.pc[t].cur <= st'.pc[t].end <= Handed(j, st'))
  {
    hide Qualifies, HashAt, HashedOnce, FindsAreGood, NothingMissed;
  }

  lemma StepKeepsChunksApart(j: Job, st: State, t: nat, cancelSeen: bool, stopSeen: bool)
    requires ValidJob(j) && Inv(j, st) && t < |st.pc| && st.pc[t] != Done
    ensures ChunksApart(j, Step(j, st, t, cancelSeen, stopSeen))
  {
    hide Qualifies, HashAt, HashedOnce, FindsAreGood, NothingMissed, Step, Handed;
    OthersStand(j, st, t, cancelSeen, stopSeen);
  }

  lemma StepKeepsHashedOnce(j: Job, st: State, t: nat, cancelSeen: bool, stopSeen: bool)
    requires ValidJob(j) && Inv(j, st) && t < |st.pc| && st.pc[t] != Done
    ensures HashedOnce(j, Step(j, st, t, cancelSeen, stopSeen))
  {
    hide Qualifies, HashAt;
  }

  lemma StepKeepsFindsGood(j: Job, st: State, t: nat, cancelSeen: bool, stopSeen: bool)
    requires ValidJob(j) && Inv(j, st) && t < |st.pc| && st.pc[t] != Done
    ensures FindsAreGood(j, Step(j, st, t, cancelSeen, stopSeen))
  {
    hide Qualifies, HashAt;
  }

  lemma StepMissesNothing(j: Job, st: State, t: nat, cancelSeen: bool, stopSeen: bool)
    requires ValidJob(j) && Inv(j, st) && t < |st.pc| && st.pc[t] != Done
    ensures HashedOnce(j, Step(j, st, t, cancelSeen, stopSeen))
    ensures NothingMissed(j, Step(j, st, t, cancelSeen, stopSeen))
  {
    hide Qualifies, HashAt;
    StepKeepsHashedOnce(j, st, t, cancelSeen, stopSeen);
    var st' := Step(j, st, t, cancelSeen, stopSeen);
    if NoFind(st') {
      assert NoFind(st) by {
        assert forall u :: 0 <= u < |st.pc| && u != t ==> st'.pc[u] == st.pc[u];
      }
      forall n | j.start <= n < Handed(j, st')
        ensures n in st'.hashed || Pending(st', n)
      {
        StillHashedOrPending(j, st, t, cancelSeen, stopSeen, n);
      }
      assert !st'.pc[t].Storing?;
      forall n | n in st'.hashed
        ensures !Qualifies(j, n)
      {
        assert n in st.hashed || (st.pc[t].Hashing? && n == st.pc[t].cur);
      }
    }
  }

  lemma StillHashedOrPending(j: Job, st: State, t: nat, cancelSeen: bool, stopSeen: bool, n: nat)
    requires ValidJob(j) && Inv(j, st) && NoFind(st) && t < |st.pc| && st.pc[t] != Done
    requires var st' := Step(j, st, t, cancelSeen, stopSeen); NoFind(st') && j.start <= n < Handed(j, st')
    ensures var st' := Step(j, st, t, cancelSeen, stopSeen); n in st'.hashed || Pending(st', n)
  {
    hide Qualifies, HashAt;
    var st' := Step(j, st, t, cancelSeen, stopSeen);
    if n < Handed(j, st) {
      if n !in st.hashed {
        var u :| 0 <= u < |st.pc| && st.pc[u].Hashing? && st.pc[u].cur <= n < st.pc[u].end;
        assert u != t ==> st'.pc[u] == st.pc[u];
        assert st'.pc[u].Hashing? || n in st'.hashed;
      }
    } else {
      assert st'.pc[t].Hashing? && st'.pc[t].cur <= n < st'.pc[t].end;
    }
  }

  lemma StepKeepsInv(j: Job, st: State, t: nat, cancelSeen: bool, stopSeen: bool)
    requires ValidJob(j) && Inv(j, st) && t < |st.pc| && st.pc[t] != Done
    ensures Inv(j, Step(j, st, t, cancelSeen, stopSeen))
  {
    hide ChunksApart, HashedOnce, FindsAreGood, NothingMissed, Qualifies, Step;
    StepKeepsChunksApart(j, st, t, cancelSeen, stopSeen);
    StepKeepsFindsGood(j, st, t, cancelSeen, stopSeen);
    StepMissesNothing(j, st, t, cancelSeen, stopSeen);
  }

  // ---------- The shared counter ----------

  /** Chunks needed to cover the range. */
  function ChunksNeeded(j: Job): nat
    requires j.start < j.end
  {
    (j.end - j.start + CHUNK - 1) / CHUNK
  }

  function CountDone(pc: seq<Pc>): (n: nat)
    ensures n <= |pc|
    ensures (n == |pc|) <==> (forall t :: 0 <= t < |pc| ==> pc[t] == Done)
    ensures (n == 0) <==> (forall t :: 0 <= t < |pc| ==> pc[t] != Done)
  {
    if pc == [] then 0
    else
      var k := |pc| - 1;
      assert forall t :: 0 <= t < k ==> pc[..k][t] == pc[t];
      CountDone(pc[..k]) + if pc[k] == Done then 1 else 0
  }

  lemma {:induction false} CountDoneUpdate(pc: seq<Pc>, t: nat, p: Pc)
    requires t < |pc|
    ensures CountDone(pc[t := p]) == CountDone(pc) - (if pc[t] == Done then 1 else 0) + if p == Done then 1 else 0
  {
    var k := |pc| - 1;
    if t < k {
      CountDoneUpdate(pc[..k], t, p);
      assert pc[t := p][..k] == pc[..k][t := p];
    } else {
      assert pc[t := p][..k] == pc[..k];
    }
  }

  /** How often the counter was bumped. */
  function Claims(j: Job, st: State): nat
    requires st.next >= j.start
  {
    (st.next - j.start) / CHUNK
  }

  /**
   The counter only ever moves by whole chunks, and past the end once per finished thread at most. Until a
   find or a cancel, a thread finishes only by overshooting, so there the count is exact.
   */
  ghost predicate CounterInv(j: Job, st: State, cancelled: bool)
    requires ValidJob(j)
  {
    && st.next >= j.start
    && st.next == j.start + CHUNK * Claims(j, st)
    && Claims(j, st) <= ChunksNeeded(j) + CountDone(st.pc)
    && (NoFind(st) && !cancelled ==>
          && (CountDone(st.pc) > 0 ==> st.next >= j.end)
          && (st.next >= j.end ==> Claims(j, st) == ChunksNeeded(j) + CountDone(st.pc)))
  }

  /** The counter reaches the end exactly when enough chunks were claimed. */
  lemma ReachesEnd(j: Job, k: nat)
    requires j.start < j.end
    ensures j.start + CHUNK * k >= j.end <==> k >= ChunksNeeded(j)
  {
  }

  lemma StepKeepsCounterInv(j: Job, st: State, cancelled: bool, t: nat, cancelSeen: bool, stopSeen: bool)
    requires ValidJob(j) && Inv(j, st) && CounterInv(j, st, cancelled)
    requires t < |st.pc| && st.pc[t] != Done && (stopSeen ==> st.localStop)
    ensures CounterInv(j, Step(j, st, t, cancelSeen, stopSeen), cancelled || cancelSeen)
  {
    hide Qualifies, HashAt, HashedOnce, ChunksApart, NothingMissed, CountDone, ChunksNeeded;
    var st' := Step(j, st, t, cancelSeen, stopSeen);
    assert st'.pc == st.pc[t := st'.pc[t]];
    CountDoneUpdate(st.pc, t, st'.pc[t]);
    ReachesEnd(j, Claims(j, st));
    if st.pc[t] == AtClaim {
      assert Claims(j, st') == Claims(j, st) + 1;
      ReachesEnd(j, Claims(j, st'));
    } else {
      assert Claims(j, st') == Claims(j, st);
    }
    if NoFind(st') {
      StillNoFind(j, st, t, cancelSeen, stopSeen);
    }
  }

  lemma StillNoFind(j: Job, st: State, t: nat, cancelSeen: bool, stopSeen: bool)
    requires ValidJob(j) && Inv(j, st) && t < |st.pc| && st.pc[t] != Done
    requires NoFind(Step(j, st, t, cancelSeen, stopSeen))
    ensures NoFind(st)
  {
    hide Qualifies, HashAt, HashedOnce, ChunksApart, NothingMissed;
    var st' := Step(j, st, t, cancelSeen, stopSeen);
    assert forall u :: 0 <= u < |st.pc| && u != t ==> st'.pc[u] == st.pc[u];
  }

  // ---------- Termination ----------

  function Weight(p: Pc): nat {
    match p
    case Done => 0
    case Raising => 1
    case Storing(_) => 2
    case AtClaim => 3
    case AtCheck => 4
    case Hashing(cur, end) => 5 + if cur <= end then end - cur else 0
  }

  /** The sum of `f` over the threads. */
  function Total(f: Pc -> nat, pc: seq<Pc>): nat {
    if pc == [] then 0 else Total(f, pc[..|pc| - 1]) + f(pc[|pc| - 1])
  }

  lemma {:induction false} TotalUpdate(f: Pc -> nat, pc: seq<Pc>, t: nat, p: Pc)
    requires t < |pc|
    ensures Total(f, pc[t := p]) == Total(f, pc) - f(pc[t]) + f(p)
  {
    var k := |pc| - 1;
    if t < k {
      TotalUpdate(f, pc[..k], t, p);
      assert pc[t := p][..k] == pc[..k][t := p];
    } else {
      assert pc[t := p][..k] == pc[..k];
    }
  }

  function TotalWeight(pc: seq<Pc>): nat {
    Total(Weight, pc)
  }

  /** Every step either hands out new nonces or makes the threads' remaining work strictly lighter. */
  lemma StepMakesProgress(j: Job, st: State, t: nat, cancelSeen: bool, stopSeen: bool)
    requires ValidJob(j) && Inv(j, st) && t < |st.pc| && st.pc[t] != Done
    ensures var st' := Step(j, st, t, cancelSeen, stopSeen);
            || Handed(j, st') > Handed(j, st)
            || (Handed(j, st') == Handed(j, st) && TotalWeight(st'.pc) < TotalWeight(st.pc))
  {
    hide Qualifies, HashAt, HashedOnce, NothingMissed, FindsAreGood;
    var st' := Step(j, st, t, cancelSeen, stopSeen);
    TotalUpdate(Weight, st.pc, t, st'.pc[t]);
    assert st'.pc == st.pc[t := st'.pc[t]];
  }

  // ---------- One thread ----------

  /** With one thread the sweep ascends: a find at `n` has no qualifying nonce below it. */
  ghost predicate NoneBelow(j: Job, n: nat)
    requires ValidJob(j)
  {
    forall m :: j.start <= m < n && m < j.end ==> !Qualifies(j, m)
  }

  ghost predicate Ascending(j: Job, st: State)
    requires ValidJob(j)
  {
    |st.pc| == 1 ==>
      && (st.pc[0].Hashing? ==> st.pc[0].end == Handed(j, st))
      && (st.pc[0].Storing? ==> NoneBelow(j, st.pc[0].nonce))
      && (st.found.Some? ==> NoneBelow(j, st.found.value.nonce) && st.pc[0] in {Raising, Done})
  }

  lemma StepKeepsAscending(j: Job, st: State, t: nat, cancelSeen: bool, stopSeen: bool)
    requires ValidJob(j) && Inv(j, st) && Ascending(j, st) && t < |st.pc| && st.pc[t] != Done
    ensures Ascending(j, Step(j, st, t, cancelSeen, stopSeen))
  {
    hide Qualifies, HashAt;
    if |st.pc| == 1 && st.pc[0].Hashing? && st.pc[0].cur < st.pc[0].end {
      var cur := st.pc[0].cur;
      assert NoFind(st);
      forall m | j.start <= m < cur && m < j.end
        ensures !Qualifies(j, m)
      {
        assert m in st.hashed;
      }
    }
  }

  // ---------- The sweep ----------

  /** The outcome of a sweep, whatever the interleaving. */
  ghost predicate GoodOutcome(j: Job, threads: nat, cancelled: bool, r: Option<MiningResult>, hashed: multiset<nat>)
    requires ValidJob(j)
  {
    && (forall n :: n in hashed ==> hashed[n] == 1 && j.start <= n < j.end)
    && (r.Some? ==> GoodFind(j, r.value.nonce) && r.value.hash == HashAt(j, r.value.nonce))
    && (r.None? && !cancelled ==> forall n :: j.start <= n < j.end ==> n in hashed && !Qualifies(j, n))
    && (threads == 1 && r.Some? ==> NoneBelow(j, r.value.nonce))
  }

  ghost predicate Reachable(j: Job, st: State, cancelled: bool)
    requires ValidJob(j)
  {
    Inv(j, st) && CounterInv(j, st, cancelled) && Ascending(j, st)
  }

  lemma StartIsReachable(j: Job, threads: nat)
    requires ValidJob(j)
    ensures Reachable(j, State(j.start, None, false, seq(threads, _ => AtCheck), multiset{}), false)
  {
    hide Qualifies, HashAt;
    var st := State(j.start, None, false, seq(threads, _ => AtCheck), multiset{});
    assert CountDone(st.pc) == 0;
    assert NoFind(st) && Handed(j, st) == j.start;
  }

  /** Every interleaving keeps the invariant and makes progress. */
  lemma StepKeepsReachable(j: Job, st: State, cancelled: bool, t: nat, cancelSeen: bool, stopSeen: bool)
    requires ValidJob(j) && Reachable(j, st, cancelled)
    requires t < |st.pc| && st.pc[t] != Done && (stopSeen ==> st.localStop)
    ensures Inv(j, st)
    ensures var st' := Step(j, st, t, cancelSeen, stopSeen);
            && Reachable(j, st', cancelled || cancelSeen)
            && (|| Handed(j, st') > Handed(j, st)
                || (Handed(j, st') == Handed(j, st) && TotalWeight(st'.pc) < TotalWeight(st.pc)))
  {
    hide Inv, CounterInv, Ascending, Step;
    StepKeepsInv(j, st, t, cancelSeen, stopSeen);
    StepKeepsCounterInv(j, st, cancelled, t, cancelSeen, stopSeen);
    StepKeepsAscending(j, st, t, cancelSeen, stopSeen);
    StepMakesProgress(j, st, t, cancelSeen, stopSeen);
  }

  lemma FinishedOutcome(j: Job, st: State, cancelled: bool)
    requires ValidJob(j) && Reachable(j, st, cancelled)
    requires |st.pc| > 0 && !Running(st.pc)
    ensures GoodOutcome(j, |st.pc|, cancelled, st.found, st.hashed)
    ensures st.next <= j.start + (ChunksNeeded(j) + |st.pc|) * CHUNK
    ensures st.found.None? && !cancelled ==> st.next == j.start + (ChunksNeeded(j) + |st.pc|) * CHUNK
  {
    hide Qualifies, HashAt;
    assert CountDone(st.pc) == |st.pc|;
    if st.found.None? && !cancelled {
      assert NoFind(st);
      forall n: nat | j.start <= n < j.end
        ensures n in st.hashed && !Qualifies(j, n)
      {
        assert n in st.hashed || Pending(st, n);
      }
    }
  }

  /** The midstate of the job's header. */
  ghost predicate MidstateOf(j: Job, mid: array<bv32>)
    reads mid
  {
    |j.header| == 84 && mid.Length == 8 && mid[..] == Compress(IV, j.header[..64])
  }

  method Midstate(j: Job) returns (mid: array<bv32>)
    requires |j.header| == 84
    ensures fresh(mid) && MidstateOf(j, mid)
  {
    hide Compress, IV;
    var header := new Byte[84](i requires 0 <= i < 84 => j.header[i]);
    assert header[..] == j.header;
    mid := MidstateOfFirstChunk(header);
    assert header[..64] == j.header[..64];
  }

  /** Hash one nonce from the midstate and compare with the target. */
  method TryNonce(mid: array<bv32>, j: Job, n: nat) returns (hit: bool)
    requires |j.header| == 84 && n < TWO32 && MidstateOf(j, mid)
    ensures hit == Qualifies(j, n)
  {
    hide Compress, IV, Sha256, Sha256d, InnerBlock, Digest, Le32, Targets.Value;
    ghost var h := j.header[..80] + Le32(n);
    var bytes := j.header[64..80] + Le32(n);
    var tail := new Byte[20](i requires 0 <= i < 20 => bytes[i]);
    assert tail[..] == bytes == h[64..] && h[..64] == j.header[..64];
    ghost var m := mid[..];
    var hash := FinishSha256dFromMidstate(mid, tail);
    HeaderHash(h);
    hit := Targets.HashLeqTarget(hash[..], j.target);
  }

  /** The statement thread `t` is at, on the shared variables. */
  method Act(mid: array<bv32>, j: Job, ghost st: State, t: nat, cancelSeen: bool, stopSeen: bool,
             next0: nat, found0: Option<MiningResult>, localStop0: bool, pc0: seq<Pc>, hashed0: multiset<nat>)
    returns (next: nat, found: Option<MiningResult>, localStop: bool, pc: seq<Pc>, hashed: multiset<nat>)
    requires ValidJob(j) && st == State(next0, found0, localStop0, pc0, hashed0) && Inv(j, st)
    requires t < |pc0| && pc0[t] != Done && MidstateOf(j, mid)
    ensures State(next, found, localStop, pc, hashed) == Step(j, st, t, cancelSeen, stopSeen)
    ensures |pc| == |pc0|
  {
    hide Qualifies, HashAt, HashedOnce, NothingMissed, MidstateOf;
    next, found, localStop, pc, hashed := next0, found0, localStop0, pc0, hashed0;
    match pc[t] {
      case AtCheck =>
        if cancelSeen || stopSeen {
          pc := pc[t := Done];
        } else {
          pc := pc[t := AtClaim];
        }
      case AtClaim =>
        var start := next;
        next := next + CHUNK;
        if start >= j.end {
          pc := pc[t := Done];
        } else {
          pc := pc[t := Hashing(start, Min(start + CHUNK, j.end))];
        }
      case Hashing(cur, end) =>
        if cur == end {
          pc := pc[t := AtCheck];
        } else {
          hashed := hashed + multiset{cur};
          var hit := TryNonce(mid, j, cur);
          if hit {
            pc := pc[t := Storing(cur)];
          } else {
            pc := pc[t := Hashing(cur + 1, end)];
          }
        }
      case Storing(n) =>
        if found.None? {
          found := Some(MiningResult(n, HashAt(j, n)));
        }
        pc := pc[t := Raising];
      case Raising =>
        localStop := true;
        pc := pc[t := Done];
    }
  }

  // ---------- Runs ----------

  /** What the scheduler picks: a thread and what its flag loads return. */
  datatype Pick = Pick(thread: nat, cancelSeen: bool, stopSeen: bool)

  ghost predicate Enabled(st: State, p: Pick) {
    p.thread < |st.pc| && st.pc[p.thread] != Done && (p.stopSeen ==> st.localStop)
  }

  ghost function Begin(j: Job, threads: nat): State {
    State(j.start, None, false, seq(threads, _ => AtCheck), multiset{})
  }

  /** The state after these picks; a pick that is not enabled changes nothing. */
  ghost function RunOf(j: Job, threads: nat, picks: seq<Pick>): State
    requires ValidJob(j)
  {
    if picks == [] then Begin(j, threads)
    else
      var st, p := RunOf(j, threads, picks[..|picks| - 1]), picks[|picks| - 1];
      if Inv(j, st) && Enabled(st, p) then Step(j, st, p.thread, p.cancelSeen, p.stopSeen) else st
  }

  ghost predicate NoCancel(picks: seq<Pick>) {
    forall i :: 0 <= i < |picks| ==> !picks[i].cancelSeen
  }

  lemma CancelWeakens(j: Job, st: State, cancelled: bool)
    requires ValidJob(j) && Reachable(j, st, cancelled)
    ensures Reachable(j, st, true)
  {
    hide Inv, Ascending, NoFind;
  }

  lemma {:induction false} RunIsReachable(j: Job, threads: nat, picks: seq<Pick>)
    requires ValidJob(j)
    ensures Reachable(j, RunOf(j, threads, picks), !NoCancel(picks)) && |RunOf(j, threads, picks).pc| == threads
  {
    hide Reachable, Inv, Step;
    if picks == [] {
      StartIsReachable(j, threads);
    } else {
      var k := |picks| - 1;
      var before, p := picks[..k], picks[k];
      RunIsReachable(j, threads, before);
      var st := RunOf(j, threads, before);
      assert NoCancel(picks) <==> NoCancel(before) && !p.cancelSeen;
      if Enabled(st, p) {
        StepKeepsReachable(j, st, !NoCancel(before), p.thread, p.cancelSeen, p.stopSeen);
      } else if !NoCancel(picks) {
        CancelWeakens(j, st, !NoCancel(before));
      }
    }
  }

  lemma RunOne(j: Job, threads: nat, picks: seq<Pick>, p: Pick)
    requires ValidJob(j) && Inv(j, RunOf(j, threads, picks))
    requires var st := RunOf(j, threads, picks);
             p.thread < |st.pc| && st.pc[p.thread] != Done && (p.stopSeen ==> st.localStop)
    ensures RunOf(j, threads, picks + [p])
            == Step(j, RunOf(j, threads, picks), p.thread, p.cancelSeen, p.stopSeen)
  {
    hide Inv, Step;
    assert (picks + [p])[..|picks|] == picks;
  }

  /** Pick `i` of the run is a load of the stop flags. */
  ghost predicate LoadsFlags(j: Job, threads: nat, picks: seq<Pick>, i: nat)
    requires ValidJob(j) && i < |picks|
  {
    var st := RunOf(j, threads, picks[..i]);
    picks[i].thread < |st.pc| && st.pc[picks[i].thread] == AtCheck
  }

  /** Every load of the external flags returns what they hold at that step. */
  ghost predicate Obeys(j: Job, threads: nat, picks: seq<Pick>, cancel: nat -> bool)
    requires ValidJob(j)
  {
    forall i :: 0 <= i < |picks| ==> picks[i].cancelSeen == (LoadsFlags(j, threads, picks, i) && cancel(i))
  }

  lemma ObeysNothing(j: Job, threads: nat, cancel: nat -> bool)
    requires ValidJob(j)
    ensures Obeys(j, threads, [], cancel) && NoCancel([])
  {
  }

  lemma ObeysOne(j: Job, threads: nat, picks: seq<Pick>, cancel: nat -> bool, p: Pick)
    requires ValidJob(j) && Obeys(j, threads, picks, cancel)
    requires var st := RunOf(j, threads, picks);
             p.thread < |st.pc| && p.cancelSeen == (st.pc[p.thread] == AtCheck && cancel(|picks|))
    ensures Obeys(j, threads, picks + [p], cancel)
    ensures NoCancel(picks + [p]) <==> NoCancel(picks) && !p.cancelSeen
  {
    hide RunOf;
    var more := picks + [p];
    assert more[..|picks|] == picks;
    forall i | 0 <= i < |more|
      ensures more[i].cancelSeen == (LoadsFlags(j, threads, more, i) && cancel(i))
    {
      if i < |picks| {
        assert more[..i] == picks[..i] && more[i] == picks[i];
        assert LoadsFlags(j, threads, more, i) == LoadsFlags(j, threads, picks, i);
      }
    }
    assert forall i :: 0 <= i < |picks| ==> more[i] == picks[i];
    assert more[|picks|] == p;
  }

  /** Some thread has not returned yet. */
  predicate Running(pc: seq<Pc>) {
    exists t :: 0 <= t < |pc| && pc[t] != Done
  }

  /** The threads' loops under an arbitrary scheduler, until all have returned. */
  method RunThreads(mid: array<bv32>, j: Job, threads: nat, cancel: nat -> bool)
    returns (ghost st: State, found: Option<MiningResult>, hashed: multiset<nat>, next: nat, cancelled: bool,
             ghost picks: seq<Pick>)
    requires ValidJob(j) && threads >= 1 && MidstateOf(j, mid)
    ensures cancelled ==> exists k :: cancel(k)
    ensures st == RunOf(j, threads, picks) && Obeys(j, threads, picks, cancel)
    ensures cancelled <==> !NoCancel(picks)
    ensures Reachable(j, st, cancelled) && !Running(st.pc) && |st.pc| == threads
    ensures found == st.found && hashed == st.hashed && next == st.next
  {
    hide *;
    found, hashed, next, cancelled := None, multiset{}, j.start, false;
    var localStop, pc, clock := false, seq(threads, _ => AtCheck), 0;
    st, picks := State(next, found, localStop, pc, hashed), [];
    StartIsReachable(j, threads);
    RunOfNothing(j, threads);
    ObeysNothing(j, threads, cancel);
    while Running(pc)
      invariant st == RunOf(j, threads, picks) && Obeys(j, threads, picks, cancel)
      invariant MidstateOf(j, mid)
      invariant clock == |picks| && (cancelled <==> !NoCancel(picks))
      invariant st == State(next, found, localStop, pc, hashed) && |pc| == threads
      invariant Reachable(j, st, cancelled)
      invariant cancelled ==> exists k :: cancel(k)
      decreases j.end - Handed(j, st), TotalWeight(pc)
    {
      assert exists t :: 0 <= t < |pc| && pc[t] != Done by { SomeRunning(pc); }
      var t :| 0 <= t < |pc| && pc[t] != Done;
      var cancelSeen := pc[t] == AtCheck && cancel(clock);
      var visible: bool := *;
      var stopSeen := visible && localStop;
      StepKeepsReachable(j, st, cancelled, t, cancelSeen, stopSeen);
      cancelled := cancelled || cancelSeen;
      next, found, localStop, pc, hashed :=
        Act(mid, j, st, t, cancelSeen, stopSeen, next, found, localStop, pc, hashed);
      RunOne(j, threads, picks, Pick(t, cancelSeen, stopSeen));
      ObeysOne(j, threads, picks, cancel, Pick(t, cancelSeen, stopSeen));
      st, picks := Step(j, st, t, cancelSeen, stopSeen), picks + [Pick(t, cancelSeen, stopSeen)];
      clock := clock + 1;
    }
  }

  lemma RunOfNothing(j: Job, threads: nat)
    requires ValidJob(j)
    ensures RunOf(j, threads, []) == State(j.start, None, false, seq(threads, _ => AtCheck), multiset{})
  {
  }

  lemma SomeRunning(pc: seq<Pc>)
    requires Running(pc)
    ensures exists t :: 0 <= t < |pc| && pc[t] != Done
  {
  }

  /** A run that has ended with these results. */
  ghost predicate EndsAs(st: State, r: Option<MiningResult>, hashed: multiset<nat>, next: nat) {
    !Running(st.pc) && st.found == r && st.hashed == hashed && st.next == next
  }

  /**
   `CpuBackend::hash_range`. `cancel(k)` is what the `k`-th load of the two external flags returns. The
   result and the log of hashed nonces satisfy `GoodOutcome` under every scheduling; the termination
   measure of `RunThreads` shows that every run ends.
   */
  method HashRange(j: Job, threads: nat, cancel: nat -> bool)
    returns (r: Option<MiningResult>, hashed: multiset<nat>, next: nat, cancelled: bool)
    requires |j.header| == 84 && threads >= 1
    ensures cancelled ==> exists k :: cancel(k)
    ensures j.end <= j.start ==> r == None && hashed == multiset{} && !cancelled
    ensures j.start < j.end ==>
              && GoodOutcome(j, threads, cancelled, r, hashed)
              && next <= j.start + (ChunksNeeded(j) + threads) * CHUNK
              && (r.None? && !cancelled ==> next == j.start + (ChunksNeeded(j) + threads) * CHUNK)
    ensures j.start < j.end ==>
              exists picks :: Obeys(j, threads, picks, cancel) && EndsAs(RunOf(j, threads, picks), r, hashed, next)
    ensures j.start < j.end && (forall k :: cancel(k)) ==>
              r == None && hashed == multiset{} && next == j.start && cancelled
  {
    r, hashed, next, cancelled := None, multiset{}, j.start, false;
    if j.start < j.end {
      var mid := Midstate(j);
      ghost var st, picks;
      st, r, hashed, next, cancelled, picks := RunThreads(mid, j, threads, cancel);
      hide Reachable, GoodOutcome, ChunksNeeded, RunOf, NoCancel, LoadsFlags;
      FinishedOutcome(j, st, cancelled);
      assert EndsAs(RunOf(j, threads, picks), r, hashed, next);
      if forall k :: cancel(k) {
        RaisedFromTheStart(j, threads, picks);
        BeginRuns(j, threads);
      }
    }
  }

  /** `exhaustive_cpu_scan`: the least qualifying nonce of the range, by trying them in order. */
  method ExhaustiveScan(j: Job) returns (r: Option<nat>)
    requires ValidJob(j)
    ensures r == LeastQualifying(j, j.start)
  {
    hide Qualifies, HashAt, MidstateOf;
    var mid := Midstate(j);
    for n: nat := j.start to j.end
      invariant MidstateOf(j, mid) && LeastQualifying(j, j.start) == LeastQualifying(j, n)
    {
      var hit := TryNonce(mid, j, n);
      if hit {
        return Some(n);
      }
    }
    return None;
  }

  function LeastQualifying(j: Job, from: nat): Option<nat>
    requires ValidJob(j) && from <= j.end
    decreases j.end - from
  {
    if from == j.end then None
    else if Qualifies(j, from) then Some(from)
    else LeastQualifying(j, from + 1)
  }

  /** With one thread and no cancel, a sweep returns what the exhaustive scan returns. */
  lemma OneThreadIsTheScan(j: Job, r: Option<MiningResult>, hashed: multiset<nat>)
    requires ValidJob(j) && GoodOutcome(j, 1, false, r, hashed)
    ensures LeastQualifying(j, j.start) == match r case Some(m) => Some(m.nonce) case None => None
  {
    hide Qualifies, HashAt;
    LeastIs(j, j.start, match r case Some(m) => Some(m.nonce) case None => None);
  }

  lemma {:induction false} LeastIs(j: Job, from: nat, n: Option<nat>)
    requires ValidJob(j) && j.start <= from <= j.end
    requires n.None? ==> forall m :: from <= m < j.end ==> !Qualifies(j, m)
    requires n.Some? ==> from <= n.value < j.end && Qualifies(j, n.value)
                         && forall m :: from <= m < n.value ==> !Qualifies(j, m)
    ensures LeastQualifying(j, from) == n
    decreases j.end - from
  {
    hide Qualifies, HashAt;
    if from < j.end && !Qualifies(j, from) {
      LeastIs(j, from + 1, n);
    }
  }

  // ---------- What a raised flag does ----------

  /** From pick `m` on every load of the flags sees one raised: an external one, or the local one after a find. */
  ghost predicate RaisedFrom(j: Job, threads: nat, picks: seq<Pick>, m: nat)
    requires ValidJob(j)
  {
    forall i :: m <= i < |picks| && LoadsFlags(j, threads, picks, i) ==> picks[i].cancelSeen || picks[i].stopSeen
  }

  /** A thread past its check is to bump the counter once more. */
  function ToClaim(p: Pc): nat {
    if p == AtClaim then 1 else 0
  }

  /** The most a thread may still hash before it is back at its check. */
  function ToHash(p: Pc): nat {
    match p
    case AtClaim => CHUNK
    case Hashing(cur, end) => if cur <= end then end - cur else 0
    case _ => 0
  }

  lemma RaisedStep(j: Job, st: State, t: nat, cancelSeen: bool, stopSeen: bool)
    requires ValidJob(j) && Inv(j, st) && t < |st.pc| && st.pc[t] != Done
    requires st.pc[t] == AtCheck ==> cancelSeen || stopSeen
    ensures var st' := Step(j, st, t, cancelSeen, stopSeen);
            && st'.next + CHUNK * Total(ToClaim, st'.pc) == st.next + CHUNK * Total(ToClaim, st.pc)
            && |st'.hashed| + Total(ToHash, st'.pc) <= |st.hashed| + Total(ToHash, st.pc)
  {
    var st' := Step(j, st, t, cancelSeen, stopSeen);
    TotalUpdate(ToClaim, st.pc, t, st'.pc[t]);
    TotalUpdate(ToHash, st.pc, t, st'.pc[t]);
    RaisedThread(j, st, t, cancelSeen, stopSeen);
    hide Step, ToClaim, ToHash, Inv;
  }

  lemma RaisedThread(j: Job, st: State, t: nat, cancelSeen: bool, stopSeen: bool)
    requires ValidJob(j) && Inv(j, st) && t < |st.pc| && st.pc[t] != Done
    requires st.pc[t] == AtCheck ==> cancelSeen || stopSeen
    ensures var st' := Step(j, st, t, cancelSeen, stopSeen);
            && st'.pc == st.pc[t := st'.pc[t]]
            && st'.next + CHUNK * ToClaim(st'.pc[t]) == st.next + CHUNK * ToClaim(st.pc[t])
            && |st'.hashed| + ToHash(st'.pc[t]) <= |st.hashed| + ToHash(st.pc[t])
  {
    hide Qualifies, HashAt, HashedOnce, NothingMissed, FindsAreGood;
  }

  /**
   Once every load sees a raised flag, the only claims left are one for each thread already past its check, and the
   only nonces still hashed are those of the chunks in hand or so claimed.
   */
  lemma {:induction false} RaisedFlagStopsTheSweep(j: Job, threads: nat, picks: seq<Pick>, m: nat)
    requires ValidJob(j) && m <= |picks| && RaisedFrom(j, threads, picks, m)
    ensures var before, after := RunOf(j, threads, picks[..m]), RunOf(j, threads, picks);
            && after.next + CHUNK * Total(ToClaim, after.pc) == before.next + CHUNK * Total(ToClaim, before.pc)
            && |after.hashed| + Total(ToHash, after.pc) <= |before.hashed| + Total(ToHash, before.pc)
  {
    hide Reachable, Inv, Step, ToClaim, ToHash, Total;
    if m == |picks| {
      assert picks[..m] == picks;
    } else {
      var k := |picks| - 1;
      var st, p := RunOf(j, threads, picks[..k]), picks[k];
      RaisedBefore(j, threads, picks, m);
      RaisedFlagStopsTheSweep(j, threads, picks[..k], m);
      assert picks[..k][..m] == picks[..m];
      RunIsReachable(j, threads, picks[..k]);
      if Enabled(st, p) {
        assert st.pc[p.thread] == AtCheck ==> LoadsFlags(j, threads, picks, k);
        ReachableInv(j, st, !NoCancel(picks[..k]));
        RaisedStep(j, st, p.thread, p.cancelSeen, p.stopSeen);
      }
    }
  }

  /** External flags that stay up from step `m` on are such flags. */
  lemma RaisedFlagsAreSeen(j: Job, threads: nat, picks: seq<Pick>, cancel: nat -> bool, m: nat)
    requires ValidJob(j) && Obeys(j, threads, picks, cancel) && forall k :: k >= m ==> cancel(k)
    ensures RaisedFrom(j, threads, picks, m)
  {
  }

  lemma ReachableInv(j: Job, st: State, cancelled: bool)
    requires ValidJob(j) && Reachable(j, st, cancelled)
    ensures Inv(j, st)
  {
  }

  lemma RaisedBefore(j: Job, threads: nat, picks: seq<Pick>, m: nat)
    requires ValidJob(j) && picks != [] && RaisedFrom(j, threads, picks, m)
    ensures RaisedFrom(j, threads, picks[..|picks| - 1], m)
  {
    hide RunOf;
    var q := picks[..|picks| - 1];
    forall i | m <= i < |q| && LoadsFlags(j, threads, q, i)
      ensures q[i].cancelSeen || q[i].stopSeen
    {
      assert q[..i] == picks[..i] && LoadsFlags(j, threads, picks, i);
    }
  }

  /** Threads that have done nothing but return. */
  ghost predicate Untouched(j: Job, st: State) {
    && st.next == j.start && st.found.None? && !st.localStop && st.hashed == multiset{}
    && forall t :: 0 <= t < |st.pc| ==> st.pc[t] == AtCheck || st.pc[t] == Done
  }

  lemma UntouchedStep(j: Job, st: State, t: nat, cancelSeen: bool, stopSeen: bool)
    requires ValidJob(j) && Inv(j, st) && Untouched(j, st) && t < |st.pc| && st.pc[t] != Done && cancelSeen
    ensures Untouched(j, Step(j, st, t, cancelSeen, stopSeen))
  {
    hide Qualifies, HashAt, HashedOnce, ChunksApart, NothingMissed, FindsAreGood;
  }

  /** With an external flag up from the start nothing is claimed and nothing hashed: the sweep ends empty-handed. */
  lemma {:induction false} RaisedFromTheStart(j: Job, threads: nat, picks: seq<Pick>)
    requires ValidJob(j)
    requires forall i :: 0 <= i < |picks| && LoadsFlags(j, threads, picks, i) ==> picks[i].cancelSeen
    ensures Untouched(j, RunOf(j, threads, picks))
    ensures NoCancel(picks) ==> RunOf(j, threads, picks) == Begin(j, threads)
  {
    hide Inv, Step;
    if picks != [] {
      var k := |picks| - 1;
      var q, p := picks[..k], picks[k];
      forall i | 0 <= i < k && LoadsFlags(j, threads, q, i)
        ensures q[i].cancelSeen
      {
        assert q[..i] == picks[..i] && LoadsFlags(j, threads, picks, i);
      }
      RaisedFromTheStart(j, threads, q);
      assert NoCancel(picks) ==> NoCancel(q) && !p.cancelSeen;
      var st := RunOf(j, threads, q);
      if Inv(j, st) && Enabled(st, p) {
        assert LoadsFlags(j, threads, picks, k);
        UntouchedStep(j, st, p.thread, p.cancelSeen, p.stopSeen);
      }
    }
  }

  lemma BeginRuns(j: Job, threads: nat)
    requires threads >= 1
    ensures Running(Begin(j, threads).pc)
  {
    assert Begin(j, threads).pc[0] != Done;
  }

  /** The finder is on its way to raise the flag, or it is up. */
  ghost predicate FlagFollows(st: State) {
    st.found.Some? ==> st.localStop || exists t :: 0 <= t < |st.pc| && st.pc[t] == Raising
  }

  lemma FindsStep(j: Job, st: State, t: nat, cancelSeen: bool, stopSeen: bool)
    requires ValidJob(j) && Inv(j, st) && t < |st.pc| && st.pc[t] != Done
    ensures var st' := Step(j, st, t, cancelSeen, stopSeen);
            && (FlagFollows(st) ==> FlagFollows(st'))
            && (st.found.Some? ==> st'.found == st.found)
  {
    hide Qualifies, HashAt, HashedOnce, ChunksApart, NothingMissed, FindsAreGood;
    var st' := Step(j, st, t, cancelSeen, stopSeen);
    if st.pc[t].Storing? {
      assert st'.pc[t] == Raising;
    } else if u :| 0 <= u < |st.pc| && st.pc[u] == Raising {
      assert u != t ==> st'.pc[u] == Raising;
    }
  }

  /** A find leads to the flag: whoever stored it is about to raise it, or it is up. */
  lemma {:induction false} FindRaisesTheFlag(j: Job, threads: nat, picks: seq<Pick>)
    requires ValidJob(j)
    ensures FlagFollows(RunOf(j, threads, picks))
  {
    hide Inv, Step;
    if picks != [] {
      var before, p := picks[..|picks| - 1], picks[|picks| - 1];
      FindRaisesTheFlag(j, threads, before);
      var st := RunOf(j, threads, before);
      if Inv(j, st) && Enabled(st, p) {
        FindsStep(j, st, p.thread, p.cancelSeen, p.stopSeen);
      }
    }
  }

  /** The first find stored is the one the sweep returns. */
  lemma {:induction false} FirstFindStays(j: Job, threads: nat, picks: seq<Pick>, m: nat)
    requires ValidJob(j) && m <= |picks| && RunOf(j, threads, picks[..m]).found.Some?
    ensures RunOf(j, threads, picks).found == RunOf(j, threads, picks[..m]).found
  {
    hide Inv, Step;
    if m == |picks| {
      assert picks[..m] == picks;
    } else {
      var before, p := picks[..|picks| - 1], picks[|picks| - 1];
      assert before[..m] == picks[..m];
      FirstFindStays(j, threads, before, m);
      var st := RunOf(j, threads, before);
      if Inv(j, st) && Enabled(st, p) {
        FindsStep(j, st, p.thread, p.cancelSeen, p.stopSeen);
      }
    }
  }

  // ---------- How far the counter runs ----------

  /** Any uncancelled run can be continued until every thread is done. */
  lemma {:induction false} Finish(j: Job, threads: nat, picks: seq<Pick>) returns (all: seq<Pick>)
    requires ValidJob(j) && NoCancel(picks)
    ensures NoCancel(all) && !Running(RunOf(j, threads, all).pc)
    decreases j.end - Handed(j, RunOf(j, threads, picks)), TotalWeight(RunOf(j, threads, picks).pc)
  {
    hide Reachable, Inv, Step, TotalWeight, RunOf, Handed;
    var st := RunOf(j, threads, picks);
    all := picks;
    if Running(st.pc) {
      var t :| 0 <= t < |st.pc| && st.pc[t] != Done;
      RunIsReachable(j, threads, picks);
      StepKeepsReachable(j, st, !NoCancel(picks), t, false, false);
      RunOne(j, threads, picks, Pick(t, false, false));
      all := Finish(j, threads, picks + [Pick(t, false, false)]);
    }
  }

  /** The largest value the counter can reach. */
  function Largest(j: Job, threads: nat): nat
    requires j.start < j.end
  {
    j.start + (ChunksNeeded(j) + threads) * CHUNK
  }

  /** No run of any job, cancelled or not, takes the counter beyond it. */
  lemma CounterNeverExceedsLargest(j: Job, threads: nat, picks: seq<Pick>)
    requires ValidJob(j)
    ensures RunOf(j, threads, picks).next <= Largest(j, threads)
  {
    hide Inv, Ascending, NoFind, RunOf, ChunksNeeded;
    RunIsReachable(j, threads, picks);
  }

  /** Over a barren range an uncancelled run takes the counter there. */
  lemma FullSweepReachesLargest(j: Job, threads: nat) returns (picks: seq<Pick>)
    requires ValidJob(j) && threads >= 1 && Barren(j)
    ensures NoCancel(picks) && !Running(RunOf(j, threads, picks).pc)
    ensures RunOf(j, threads, picks).next == Largest(j, threads)
  {
    picks := Finish(j, threads, []);
    RunIsReachable(j, threads, picks);
    hide RunOf, Qualifies, ChunksNeeded, NoCancel, Running;
    var st := RunOf(j, threads, picks);
    assert st.found.None? by {
      assert FindsAreGood(j, st);
    }
    hide Reachable;
    FinishedOutcome(j, st, false);
  }

  /** That value is at most `threads` chunks past the end exactly when the span is a whole number of chunks. */
  lemma LargestWithinThreadsChunksIff(j: Job, threads: nat)
    requires ValidJob(j)
    ensures Largest(j, threads) <= j.end + threads * CHUNK <==> (j.end - j.start) % CHUNK == 0
    ensures Largest(j, threads) < j.end + (threads + 1) * CHUNK
  {
    var span := j.end - j.start;
    assert span == CHUNK * (span / CHUNK) + span % CHUNK;
  }

  // ---------- A find spares the counter one overshoot ----------

  /** Some thread holds a find it has not finished with. */
  ghost predicate FinderAtWork(st: State) {
    exists t :: 0 <= t < |st.pc| && (st.pc[t].Storing? || st.pc[t] == Raising)
  }

  /** A thread has returned that never overshot. */
  ghost predicate OneSpared(j: Job, st: State)
    requires ValidJob(j) && st.next >= j.start
  {
    CountDone(st.pc) >= 1 && Claims(j, st) <= ChunksNeeded(j) + CountDone(st.pc) - 1
  }

  /** Once `n` was handed out it waits in a chunk, or someone is busy with a find, or a finder returned. */
  ghost predicate FinderReturns(j: Job, st: State, n: nat)
    requires ValidJob(j) && st.next >= j.start
  {
    n < Handed(j, st) ==> Pending(st, n) || FinderAtWork(st) || OneSpared(j, st)
  }

  lemma StepKeepsOneSpared(j: Job, st: State, cancelled: bool, t: nat, cancelSeen: bool, stopSeen: bool)
    requires ValidJob(j) && Inv(j, st) && CounterInv(j, st, cancelled) && t < |st.pc| && st.pc[t] != Done
    requires OneSpared(j, st) || st.pc[t] == Raising
    ensures OneSpared(j, Step(j, st, t, cancelSeen, stopSeen))
  {
    hide Qualifies, HashAt, HashedOnce, ChunksApart, NothingMissed, FindsAreGood, CountDone, ChunksNeeded, NoFind;
    var st' := Step(j, st, t, cancelSeen, stopSeen);
    assert st'.pc == st.pc[t := st'.pc[t]];
    CountDoneUpdate(st.pc, t, st'.pc[t]);
    ReachesEnd(j, Claims(j, st));
    if st.pc[t] == AtClaim {
      assert Claims(j, st') == Claims(j, st) + 1;
    } else {
      assert Claims(j, st') == Claims(j, st);
    }
  }

  lemma StepKeepsFinder(j: Job, st: State, t: nat, cancelSeen: bool, stopSeen: bool, n: nat)
    requires ValidJob(j) && Inv(j, st) && t < |st.pc| && st.pc[t] != Done && st.pc[t] != Raising
    requires j.start <= n < Handed(j, Step(j, st, t, cancelSeen, stopSeen)) && Qualifies(j, n)
    requires n < Handed(j, st) ==> Pending(st, n) || FinderAtWork(st)
    ensures var st' := Step(j, st, t, cancelSeen, stopSeen); Pending(st', n) || FinderAtWork(st')
  {
    hide Qualifies, HashAt, HashedOnce, ChunksApart, NothingMissed, FindsAreGood;
    var st' := Step(j, st, t, cancelSeen, stopSeen);
    if n >= Handed(j, st) {
      assert st'.pc[t].Hashing? && st'.pc[t].cur <= n < st'.pc[t].end;
    } else if FinderAtWork(st) {
      var u :| 0 <= u < |st.pc| && (st.pc[u].Storing? || st.pc[u] == Raising);
      assert st'.pc[u].Storing? || st'.pc[u] == Raising;
    } else {
      var u :| 0 <= u < |st.pc| && st.pc[u].Hashing? && st.pc[u].cur <= n < st.pc[u].end;
      assert st'.pc[u].Storing? || (st'.pc[u].Hashing? && st'.pc[u].cur <= n < st'.pc[u].end);
    }
  }

  lemma {:induction false} RunKeepsFinder(j: Job, threads: nat, picks: seq<Pick>, n: nat)
    requires ValidJob(j) && j.start <= n < j.end && Qualifies(j, n)
    ensures RunOf(j, threads, picks).next >= j.start && FinderReturns(j, RunOf(j, threads, picks), n)
  {
    hide Qualifies, Step, Inv, CounterInv, Ascending, Handed, OneSpared, Pending, FinderAtWork;
    RunIsReachable(j, threads, picks);
    NextFromStart(j, RunOf(j, threads, picks));
    if picks == [] {
      NothingHandedYet(j, threads);
    } else {
      var before, p := picks[..|picks| - 1], picks[|picks| - 1];
      RunKeepsFinder(j, threads, before, n);
      RunIsReachable(j, threads, before);
      var st := RunOf(j, threads, before);
      if Enabled(st, p) && n < Handed(j, RunOf(j, threads, picks)) {
        if OneSpared(j, st) || st.pc[p.thread] == Raising {
          StepKeepsOneSpared(j, st, !NoCancel(before), p.thread, p.cancelSeen, p.stopSeen);
        } else {
          StepKeepsFinder(j, st, p.thread, p.cancelSeen, p.stopSeen, n);
        }
      }
    }
  }

  lemma NextFromStart(j: Job, st: State)
    requires ValidJob(j) && Inv(j, st)
    ensures st.next >= j.start
  {
    hide ChunksApart, HashedOnce, FindsAreGood, NothingMissed;
  }

  lemma NothingHandedYet(j: Job, threads: nat)
    requires ValidJob(j)
    ensures Handed(j, RunOf(j, threads, [])) == j.start
  {
  }

  /** With a qualifying nonce in the range no run, cancelled or not, leaves the bound. */
  lemma FindKeepsTheBound(j: Job, threads: nat, picks: seq<Pick>, n: nat)
    requires ValidJob(j) && threads >= 1 && j.start <= n < j.end && Qualifies(j, n)
    ensures RunOf(j, threads, picks).next <= j.end + threads * CHUNK
  {
    hide RunOf, Qualifies, Inv, Ascending, NoFind, CountDone;
    RunIsReachable(j, threads, picks);
    RunKeepsFinder(j, threads, picks, n);
    var st := RunOf(j, threads, picks);
    assert n < Handed(j, st) ==> Claims(j, st) <= ChunksNeeded(j) + threads - 1;
  }

  /**
   Every run keeps the counter within `threads` chunks of the end if and only if the span is a whole number of chunks
   or some nonce of the range qualifies: else the last, partial chunk carries the counter further.
   */
  lemma OvershootIsThreadsChunksIff(j: Job, threads: nat)
    requires ValidJob(j) && threads >= 1
    ensures (forall picks :: RunOf(j, threads, picks).next <= j.end + threads * CHUNK)
            <==> (j.end - j.start) % CHUNK == 0 || !Barren(j)
  {
    hide RunOf, Largest, Qualifies;
    LargestWithinThreadsChunksIff(j, threads);
    if (j.end - j.start) % CHUNK == 0 {
      forall picks: seq<Pick>
        ensures RunOf(j, threads, picks).next <= j.end + threads * CHUNK
      {
        CounterNeverExceedsLargest(j, threads, picks);
      }
    } else if Barren(j) {
      var picks := FullSweepReachesLargest(j, threads);
    } else {
      var n :| j.start <= n < j.end && Qualifies(j, n);
      forall picks: seq<Pick>
        ensures RunOf(j, threads, picks).next <= j.end + threads * CHUNK
      {
        FindKeepsTheBound(j, threads, picks, n);
      }
    }
  }

  /** Where no find comes, the range's own bounds decide. */
  lemma BarrenOvershootIff(j: Job, threads: nat)
    requires ValidJob(j) && threads >= 1 && Barren(j)
    ensures (forall picks :: RunOf(j, threads, picks).next <= j.end + threads * CHUNK)
            <==> (j.end - j.start) % CHUNK == 0
  {
    hide RunOf, Barren;
    OvershootIsThreadsChunksIff(j, threads);
  }

  /** One nonce that does not qualify, one thread: two claims, and the run leaves the counter 8191 past the end. */
  lemma OvershootExample(j: Job) returns (picks: seq<Pick>)
    requires ValidJob(j) && j.end == j.start + 1 && !Qualifies(j, j.start)
    ensures RunOf(j, 1, picks).next == j.end + 8191 && RunOf(j, 1, picks).next > j.end + 1 * CHUNK
  {
    hide RunOf, Qualifies;
    picks := FullSweepReachesLargest(j, 1);
  }

  /** The 64-bit counter never wraps. */
  lemma CounterFits(j: Job, threads: nat, picks: seq<Pick>)
    requires ValidJob(j) && threads < 0x8_0000_0000_0000
    ensures RunOf(j, threads, picks).next < TWO64
  {
    hide RunOf, Largest;
    CounterNeverExceedsLargest(j, threads, picks);
    LargestWithinThreadsChunksIff(j, threads);
  }
}
