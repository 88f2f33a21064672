/**
 The two-pipe GPU sweep: launch on one pipe while the other drains. The kernel is a contract over the constants and
 arguments of each launch; the driver may fault at any call and the cancel flags may rise at any time.
 */
module GpuSweep {
  import opened Words
  import opened Arithmetic
  import opened Fips180
  import opened SweepJob
  import opened Sha256dCpu
  import opened GpuKernel

  /** The nonces the host counts one launch for. */
  datatype Slice = Slice(lo: nat, hi: nat)

  /** The driver: does its `k`-th host-to-device call fail? */
  type Driver = nat -> bool

  // ---------- Slices ----------

  /** What a launch at `lo` sweeps: a full grid, capped by the range's end. */
  function Swept(lo: nat, npl: nat, end: nat): Slice {
    Slice(lo, Min(lo + npl, end))
  }

  /** The nonces handed to the device so far end here. */
  function Reached(j: Job, launches: seq<Slice>): nat {
    if launches == [] then j.start else launches[|launches| - 1].hi
  }

  /** Launches follow each other without gap or overlap, each as large as fits. */
  ghost predicate Chain(j: Job, npl: nat, launches: seq<Slice>) {
    launches == [] ||
    var before, last := launches[..|launches| - 1], launches[|launches| - 1];
    Chain(j, npl, before) && last == Swept(Reached(j, before), npl, j.end) && last.lo < last.hi
  }

  lemma {:induction false} ChainLink(j: Job, npl: nat, launches: seq<Slice>, i: nat)
    requires Chain(j, npl, launches) && i < |launches|
    ensures launches[i].lo == if i == 0 then j.start else launches[i - 1].hi
    ensures launches[i].lo < launches[i].hi == Min(launches[i].lo + npl, j.end)
  {
    if i < |launches| - 1 {
      ChainLink(j, npl, launches[..|launches| - 1], i);
    }
  }

  /** Slice `i` starts `i` full launches into the range. */
  lemma {:induction false} SliceStart(j: Job, npl: nat, launches: seq<Slice>, i: nat)
    requires Chain(j, npl, launches) && i < |launches|
    ensures launches[i].lo == j.start + i * npl && launches[i].hi == Min(j.start + i * npl + npl, j.end)
  {
    hide Chain;
    ChainLink(j, npl, launches, i);
    if i > 0 {
      SliceStart(j, npl, launches, i - 1);
      assert i * npl == (i - 1) * npl + npl;
    }
  }

  /** A chain that reached the end has as many slices as are needed to cover the range. */
  lemma SliceCount(j: Job, npl: nat, launches: seq<Slice>)
    requires ValidJob(j) && npl > 0 && Chain(j, npl, launches) && Reached(j, launches) == j.end
    ensures |launches| == (j.end - j.start + npl - 1) / npl
    ensures j.end - j.start <= |launches| * npl
  {
    hide Chain;
    var m := |launches|;
    ChainLink(j, npl, launches, m - 1);
    SliceStart(j, npl, launches, m - 1);
    assert m * npl == (m - 1) * npl + npl;
    QuotientIs(j.end - j.start + npl - 1, npl, m);
  }

  /** Nonce `n` of the range belongs to slice `(n - start) / npl` and to no other. */
  lemma SliceOf(j: Job, npl: nat, launches: seq<Slice>, n: nat, i: nat)
    requires npl > 0 && Chain(j, npl, launches) && i < |launches| && j.start <= n < j.end
    ensures launches[i].lo <= n < launches[i].hi <==> i == (n - j.start) / npl
  {
    hide Chain;
    SliceStart(j, npl, launches, i);
    QuotientBounds(n - j.start, npl);
    if launches[i].lo <= n < launches[i].hi {
      QuotientIs(n - j.start, npl, i);
    }
  }

  /** A chain that reached the end partitions the range. */
  lemma SlicesPartition(j: Job, npl: nat, launches: seq<Slice>, n: nat)
    requires ValidJob(j) && npl > 0 && Chain(j, npl, launches) && Reached(j, launches) == j.end
    requires j.start <= n < j.end
    ensures (n - j.start) / npl < |launches|
    ensures forall i :: 0 <= i < |launches| ==> (launches[i].lo <= n < launches[i].hi <==> i == (n - j.start) / npl)
  {
    hide Chain;
    SliceCount(j, npl, launches);
    var q := (n - j.start) / npl;
    QuotientBounds(n - j.start, npl);
    if q >= |launches| {
      MulMono(|launches|, q, npl);
    }
    forall i | 0 <= i < |launches|
      ensures launches[i].lo <= n < launches[i].hi <==> i == q
    {
      SliceOf(j, npl, launches, n, i);
    }
  }

  /** The arguments of the launch for a slice: the device sweeps its whole grid, up to the range's end. */
  function ArgsFor(j: Job, grid: Grid, s: Slice): Args {
    Args(s.lo, j.end, grid)
  }

  /** The first `count` launches visit no qualifying nonce. */
  ghost predicate CleanFirst(j: Job, grid: Grid, launches: seq<Slice>, count: nat)
    requires |j.header| == 84 && count <= |launches|
  {
    forall i :: 0 <= i < count ==> Clean(j, ArgsFor(j, grid, launches[i]))
  }

  // ---------- Pipes ----------

  /** Per-pipe resources: the device buffers the host can see, and the launch in flight, if any. */
  class PipeRes {
    var loaded: Constants
    var foundFlag: bool
    var foundNonce: nat
    var foundHash: Hash
    var inFlight: bool
    var launch: nat   // index of the launch the device works on
    var args: Args    // and the arguments it was given

    constructor (c: Constants)
      ensures loaded == c && !inFlight
    {
      loaded := c;
      foundFlag := false;
      foundNonce := 0;
      foundHash := seq(32, _ => 0);
      inFlight := false;
      launch := 0;
      args := Args(0, 0, Grid(0, 0));
    }

    /** Upload a job's constants; a leftover launch is ordered before these writes and is forgotten. */
    method Prime(c: Constants, fails: bool) returns (ok: bool)
      modifies this
      ensures ok == !fails
      ensures ok ==> loaded == c && !inFlight && !foundFlag
    {
      if fails {
        return false;
      }
      loaded := c;
      foundFlag := false;
      inFlight := false;
      return true;
    }

    /** Zero the flag and launch with these arguments. */
    method Launch(zeroFails: bool, launchFails: bool, k: nat, a: Args) returns (ok: bool)
      requires !inFlight
      modifies this
      ensures loaded == old(loaded)
      ensures ok == !(zeroFails || launchFails)
      ensures ok ==> inFlight && !foundFlag && launch == k && args == a
      ensures !ok ==> !inFlight
    {
      if zeroFails {
        return false;
      }
      foundFlag := false;
      if launchFails {
        return false;
      }
      inFlight, launch, args := true, k, a;
      return true;
    }

    /** Wait for the launch, then read the flag and, if set, the find. */
    method Drain(kernel: Kernel) returns (r: Result<Option<MiningResult>, string>)
      requires inFlight && !foundFlag
      modifies `foundFlag, `foundNonce, `foundHash
      ensures r == match kernel(launch, loaded, args)
                   case Fault => Err("synchronize")
                   case Empty => Ok(None)
                   case Hit(n, h) => Ok(Some(MiningResult(n, h)))
      ensures r == Ok(None) ==> !foundFlag
    {
      var reply := kernel(launch, loaded, args);
      if reply.Fault? {
        return Err("synchronize");
      }
      if reply.Hit? {
        foundFlag, foundNonce, foundHash := true, reply.nonce, reply.hash;
      }
      if !foundFlag {
        return Ok(None);
      }
      return Ok(Some(MiningResult(foundNonce, foundHash)));
    }
  }

  // ---------- The sweep ----------

  /** `pick_pipe`. */
  function PickPipe(a: PipeRes, b: PipeRes, which: nat): PipeRes {
    if which == 0 then a else b
  }

  /**
   Between iterations: everything launched is drained, on the pipe whose turn it is (the older launch), or on
   the other one (the newest launch). What was drained was clean.
   */
  ghost predicate Pipeline(j: Job, grid: Grid, next: nat, launches: seq<Slice>, drained: nat,
                           pipe: PipeRes, other: PipeRes)
    requires ValidJob(j)
    reads pipe, other
  {
    && Chain(j, LaunchSize(grid), launches) && next == Reached(j, launches) && j.start <= next <= j.end
    && drained + Flying(pipe) + Flying(other) == |launches|
    && (pipe.inFlight ==> !pipe.foundFlag && pipe.launch == drained && pipe.args == ArgsFor(j, grid, launches[drained]))
    && (other.inFlight ==> !other.foundFlag && other.launch == |launches| - 1)
    && (other.inFlight ==> other.args == ArgsFor(j, grid, launches[|launches| - 1]))
    && (!other.inFlight && launches != [] ==> next == j.end)
    && CleanFirst(j, grid, launches, drained)
  }

  function Flying(p: PipeRes): nat
    reads p
  {
    if p.inFlight then 1 else 0
  }

  /** How a sweep may end. */
  ghost predicate GoodSweep(j: Job, grid: Grid, launches: seq<Slice>, drained: nat, cancelled: bool,
                            r: Result<Option<MiningResult>, string>)
    requires ValidJob(j)
  {
    && Chain(j, LaunchSize(grid), launches) && drained <= |launches| <= drained + 2
    && CleanFirst(j, grid, launches, drained)
    && (r == Ok(None) && !cancelled ==> drained == |launches| && Reached(j, launches) == j.end)
    && (r.Ok? && r.value.Some? ==>
          && drained < |launches|
          && FitsJob(j, ArgsFor(j, grid, launches[drained]), Hit(r.value.value.nonce, r.value.value.hash)))
  }

  // ---------- Faults ----------

  /** None of the driver's first `calls` calls fails. */
  ghost predicate Served(driver: Driver, calls: nat) {
    forall k: nat :: k < calls ==> !driver(k)
  }

  /** The oldest launch not yet drained came back as a fault. */
  ghost predicate LaunchFaulted(j: Job, grid: Grid, kernel: Kernel, launches: seq<Slice>, drained: nat)
    requires |j.header| == 84
  {
    && drained < |launches|
    && exists c :: ConstantsOf(j, c) && kernel(drained, c, ArgsFor(j, grid, launches[drained])) == Fault
  }

  /** The first driver call to fail is one of these `count`. */
  ghost predicate CallFailed(driver: Driver, from: nat, count: nat) {
    exists k: nat :: from <= k < from + count && driver(k) && Served(driver, k)
  }

  /** A launch makes two calls, zeroing the flag and the launch itself. */
  lemma LaunchCalls(driver: Driver, from: nat, setup: nat)
    requires Served(driver, from + setup)
    ensures driver(from + setup) || driver(from + setup + 1) ==> CallFailed(driver, from, setup + 2)
    ensures !(driver(from + setup) || driver(from + setup + 1)) ==> Served(driver, from + setup + 2)
  {
    if driver(from + setup) {
      assert Served(driver, from + setup);
    } else if driver(from + setup + 1) {
      assert Served(driver, from + setup + 1);
    }
  }

  /** Midstate, tail and round-4 prefix of the job's header. */
  method Precompute(j: Job) returns (c: Constants)
    requires |j.header| == 84
    ensures ConstantsOf(j, c)
  {
    hide Compress, IV, IsPrefixFor, NonceBlock, BlockWords;
    var header := new Byte[84](i requires 0 <= i < 84 => j.header[i]);
    assert header[..] == j.header;
    var mid := MidstateOfFirstChunk(header);
    assert header[..64] == j.header[..64];
    var tail16 := new Byte[16](i requires 0 <= i < 16 => j.header[64 + i]);
    assert tail16[..] == j.header[64..80];
    var prefix, sched3 := InnerPrefixPrecompute(mid, tail16);
    c := Cuda(mid[..], prefix[..], sched3[..], tail16[..], j.target);
  }

  /** Midstate and tail only. */
  method PrecomputePlain(j: Job) returns (c: Constants)
    requires |j.header| == 84
    ensures ConstantsOf(j, c)
  {
    hide Compress, IV;
    var header := new Byte[84](i requires 0 <= i < 84 => j.header[i]);
    assert header[..] == j.header;
    var mid := MidstateOfFirstChunk(header);
    assert header[..64] == j.header[..64];
    c := Opencl(mid[..], j.header[64..80], j.target);
  }

  lemma DrainedClean(j: Job, grid: Grid, launches: seq<Slice>, drained: nat)
    requires |j.header| == 84 && drained < |launches|
    requires CleanFirst(j, grid, launches, drained) && Clean(j, ArgsFor(j, grid, launches[drained]))
    ensures CleanFirst(j, grid, launches, drained + 1)
  {
    hide Clean;
  }

  lemma LaunchedNext(j: Job, grid: Grid, launches: seq<Slice>, drained: nat)
    requires ValidJob(j) && LaunchSize(grid) > 0 && Chain(j, LaunchSize(grid), launches) && Reached(j, launches) < j.end
    requires drained <= |launches| && CleanFirst(j, grid, launches, drained)
    ensures var more := launches + [Swept(Reached(j, launches), LaunchSize(grid), j.end)];
            && Chain(j, LaunchSize(grid), more) && Reached(j, launches) < Reached(j, more) <= j.end
            && CleanFirst(j, grid, more, drained)
  {
    hide Clean, LaunchSize;
    var more := launches + [Swept(Reached(j, launches), LaunchSize(grid), j.end)];
    assert more[..|more| - 1] == launches;
  }

  /**
   Drain the pipe whose turn it is, if it is in flight. A find ends the sweep with the oldest launch's reply; a
   clean reply retires that launch.
   */
  method DrainTurn(pipe: PipeRes, other: PipeRes, j: Job, grid: Grid, c: Constants, kernel: Kernel,
                   next: nat, launches: seq<Slice>, drained0: nat)
    returns (r: Result<Option<MiningResult>, string>, drained: nat)
    requires pipe != other && ValidJob(j) && Honest(kernel) && ConstantsOf(j, c) && pipe.loaded == c
    requires Pipeline(j, grid, next, launches, drained0, pipe, other)
    modifies pipe
    ensures pipe.loaded == c
    ensures r.Err? ==> LaunchFaulted(j, grid, kernel, launches, drained)
    ensures !old(pipe.inFlight) ==> r == Ok(None)
    ensures r == Ok(None) ==>
              && !pipe.inFlight && Pipeline(j, grid, next, launches, drained, pipe, other)
              && drained == drained0 + old(Flying(pipe)) && drained + Flying(other) == |launches|
    ensures r != Ok(None) ==> GoodSweep(j, grid, launches, drained, false, r)
    ensures other.inFlight ==> !other.foundFlag
  {
    hide Honest, ConstantsOf, Chain, CleanFirst, Clean, Qualifies, HashAt, Visits, LaunchSize;
    drained := drained0;
    if !pipe.inFlight {
      return Ok(None), drained;
    }
    ReplyFitsJob(j, c, kernel, drained, ArgsFor(j, grid, launches[drained]));
    r := pipe.Drain(kernel);
    if r == Ok(None) {
      pipe.inFlight := false;
      DrainedClean(j, grid, launches, drained);
      drained := drained + 1;
    }
  }

  /** Launch the next slice on an idle pipe and hand the turn to the other pipe. */
  method LaunchTurn(pipe: PipeRes, other: PipeRes, j: Job, grid: Grid, zeroFails: bool, launchFails: bool,
                    next0: nat, launches0: seq<Slice>, ghost drained: nat)
    returns (ok: bool, next: nat, launches: seq<Slice>)
    requires pipe != other && ValidJob(j) && LaunchSize(grid) > 0 && next0 < j.end && !pipe.inFlight
    requires Pipeline(j, grid, next0, launches0, drained, pipe, other)
    modifies pipe
    ensures pipe.loaded == old(pipe.loaded)
    ensures ok == !(zeroFails || launchFails)
    ensures !ok ==> launches == launches0 && forall e: string :: GoodSweep(j, grid, launches, drained, false, Err(e))
    ensures ok ==> |launches| == |launches0| + 1 && next0 < next <= j.end
    ensures ok ==> Pipeline(j, grid, next, launches, drained, other, pipe)
  {
    hide Chain, CleanFirst, Swept, LaunchSize;
    LaunchedNext(j, grid, launches0, drained);
    next, launches := next0, launches0;
    var launchSize := Min(LaunchSize(grid), j.end - next);
    ok := pipe.Launch(zeroFails, launchFails, |launches|, Args(next, j.end, grid));
    if ok {
      SweptSize(next, LaunchSize(grid), j.end);
      launches := launches + [Swept(next, LaunchSize(grid), j.end)];
      next := next + launchSize;
    }
  }

  lemma SweptSize(lo: nat, npl: nat, end: nat)
    requires lo < end
    ensures Swept(lo, npl, end) == Slice(lo, lo + Min(npl, end - lo))
  {
  }

  /** Nothing left to launch and nothing in flight: the whole range was drained clean. */
  lemma Exhausted(j: Job, grid: Grid, next: nat, launches: seq<Slice>, drained: nat, pipe: PipeRes, other: PipeRes)
    requires ValidJob(j) && Pipeline(j, grid, next, launches, drained, pipe, other)
    requires next >= j.end && !pipe.inFlight && !other.inFlight
    ensures GoodSweep(j, grid, launches, drained, false, Ok(None))
  {
    hide Chain, CleanFirst, LaunchSize;
  }

  /** One iteration past the cancel check: drain the pipe whose turn it is, then launch, end, or pass the turn. */
  method CudaTurn(pipe: PipeRes, other: PipeRes, j: Job, grid: Grid, c: Constants, kernel: Kernel, driver: Driver,
                  next0: nat, launches0: seq<Slice>, drained0: nat)
    returns (done: bool, r: Result<Option<MiningResult>, string>, next: nat, launches: seq<Slice>, drained: nat)
    requires pipe != other && ValidJob(j) && LaunchSize(grid) > 0 && Honest(kernel)
    requires ConstantsOf(j, c) && pipe.loaded == c && Served(driver, 2 * |launches0| + 2)
    requires Pipeline(j, grid, next0, launches0, drained0, pipe, other)
    modifies pipe
    ensures pipe.loaded == c
    ensures done ==> GoodSweep(j, grid, launches, drained, false, r)
    ensures r.Ok? ==> Served(driver, 2 * |launches| + 2)
    ensures r.Err? ==>
              done && (LaunchFaulted(j, grid, kernel, launches, drained) || CallFailed(driver, 2 * |launches|, 4))
    ensures !done ==> Pipeline(j, grid, next, launches, drained, other, pipe)
    ensures !done ==> next0 < next <= j.end || (next == next0 && other.inFlight && !pipe.inFlight)
    ensures |launches0| <= |launches| <= |launches0| + 1
  {
    hide Honest, ConstantsOf, Chain, CleanFirst, Swept, Pipeline, GoodSweep, LaunchSize;
    hide LaunchFaulted, Served, CallFailed;
    next, launches := next0, launches0;
    r, drained := DrainTurn(pipe, other, j, grid, c, kernel, next, launches, drained0);
    if r != Ok(None) {
      return true, r, next, launches, drained;
    }
    if next < j.end {
      LaunchCalls(driver, 2 * |launches|, 2);
      var calls, ok := 2 * |launches| + 2, true;
      ok, next, launches := LaunchTurn(pipe, other, j, grid, driver(calls), driver(calls + 1), next, launches, drained);
      if !ok {
        return true, Err("kernel launch"), next, launches, drained;
      }
    } else if !pipe.inFlight && !other.inFlight {
      Exhausted(j, grid, next, launches, drained, pipe, other);
      return true, Ok(None), next, launches, drained;
    } else {
      PassTurn(j, grid, next, launches, drained, pipe, other);
    }
    return false, Ok(None), next, launches, drained;
  }

  /**
   `CudaBackend::hash_range`, on pipes that persist between calls. An error names the launch that faulted or the first
   driver call that failed: two for priming, then two for each launch.
   */
  method CudaHashRange(a: PipeRes, b: PipeRes, j: Job, grid: Grid, kernel: Kernel, driver: Driver, cancel: nat -> bool)
    returns (r: Result<Option<MiningResult>, string>, launches: seq<Slice>, drained: nat, cancelled: bool)
    requires a != b && |j.header| == 84 && LaunchSize(grid) > 0 && Honest(kernel)
    modifies a, b
    ensures cancelled ==> r == Ok(None) && exists k :: cancel(k)
    ensures forall k: nat :: cancel(k) ==> |launches| <= k
    ensures j.start < j.end && cancel(0) && r.Ok? ==> cancelled && launches == []
    ensures j.end <= j.start ==> r == Ok(None) && launches == []
    ensures j.start < j.end ==> GoodSweep(j, grid, launches, drained, cancelled, r)
    ensures j.start < j.end && r.Ok? ==> Served(driver, 2 * |launches| + 2)
    ensures r.Err? ==> LaunchFaulted(j, grid, kernel, launches, drained) || CallFailed(driver, 2 * |launches|, 4)
  {
    hide Honest, ConstantsOf, Chain, CleanFirst, Swept, Pipeline, GoodSweep, LaunchSize;
    hide LaunchFaulted, Served, CallFailed;
    r, launches, drained, cancelled := Ok(None), [], 0, false;
    if j.end <= j.start {
      return;
    }
    var c := Precompute(j);
    PrimingCalls(driver);
    var ok := a.Prime(c, driver(0));
    if !ok {
      NeverPrimed(j, grid, "prime pipe A");
      return Err("prime pipe A"), launches, drained, cancelled;
    }
    ok := b.Prime(c, driver(1));
    if !ok {
      NeverPrimed(j, grid, "prime pipe B");
      return Err("prime pipe B"), launches, drained, cancelled;
    }
    Starts(j, grid, a, b);
    var next: nat := j.start;
    var current: nat, tick: nat := 0, 0;
    while true
      invariant current <= 1 && a.loaded == c && b.loaded == c && !cancelled && Served(driver, 2 * |launches| + 2)
      invariant Pipeline(j, grid, next, launches, drained, PickPipe(a, b, current), PickPipe(a, b, 1 - current))
      invariant |launches| <= tick && forall k: nat :: k < tick ==> !cancel(k)
      decreases j.end - next, Flying(a) + Flying(b), 1 - Flying(PickPipe(a, b, current))
    {
      var pipe, other := PickPipe(a, b, current), PickPipe(a, b, 1 - current);
      if cancel(tick) {
        StoppedEarly(j, grid, next, launches, drained, pipe, other);
        return Ok(None), launches, drained, true;
      }
      var done;
      done, r, next, launches, drained :=
        CudaTurn(pipe, other, j, grid, c, kernel, driver, next, launches, drained);
      if done {
        return;
      }
      current, tick := 1 - current, tick + 1;
    }
  }

  lemma PrimingCalls(driver: Driver)
    ensures driver(0) || driver(1) ==> CallFailed(driver, 0, 4)
    ensures !driver(0) && !driver(1) ==> Served(driver, 2)
  {
    if driver(0) {
      assert Served(driver, 0);
    } else if driver(1) {
      assert Served(driver, 1);
    }
  }

  lemma Starts(j: Job, grid: Grid, pipe: PipeRes, other: PipeRes)
    requires ValidJob(j) && !pipe.inFlight && !other.inFlight
    ensures Pipeline(j, grid, j.start, [], 0, pipe, other)
  {
  }

  lemma PassTurn(j: Job, grid: Grid, next: nat, launches: seq<Slice>, drained: nat, pipe: PipeRes, other: PipeRes)
    requires ValidJob(j) && Pipeline(j, grid, next, launches, drained, pipe, other)
    requires !pipe.inFlight && next >= j.end
    ensures Pipeline(j, grid, next, launches, drained, other, pipe)
  {
    hide Chain, CleanFirst, LaunchSize;
  }

  lemma StoppedEarly(j: Job, grid: Grid, next: nat, launches: seq<Slice>, drained: nat, pipe: PipeRes, other: PipeRes)
    requires ValidJob(j) && Pipeline(j, grid, next, launches, drained, pipe, other)
    ensures GoodSweep(j, grid, launches, drained, true, Ok(None))
  {
    hide Chain, CleanFirst, LaunchSize;
  }

  lemma NeverPrimed(j: Job, grid: Grid, e: string)
    requires ValidJob(j)
    ensures GoodSweep(j, grid, [], 0, false, Err(e))
  {
  }

  lemma NothingFlies(j: Job, grid: Grid, next: nat, drained: nat, pipe: PipeRes, other: PipeRes)
    requires ValidJob(j) && Pipeline(j, grid, next, [], drained, pipe, other)
    ensures !pipe.inFlight && !other.inFlight
  {
  }

  /** Launch the next batch if there is nonce space left for one. */
  method TryLaunch(pipe: PipeRes, other: PipeRes, j: Job, grid: Grid, zeroFails: bool, launchFails: bool,
                   next0: nat, launches0: seq<Slice>, ghost drained: nat)
    returns (ok: bool, launched: bool, next: nat, launches: seq<Slice>)
    requires pipe != other && ValidJob(j) && !pipe.inFlight && (LaunchSize(grid) == 0 ==> launches0 == [])
    requires Pipeline(j, grid, next0, launches0, drained, pipe, other)
    modifies pipe
    ensures pipe.loaded == old(pipe.loaded) && (LaunchSize(grid) == 0 ==> launches == [])
    ensures !ok ==> (zeroFails || launchFails) && launches == launches0
    ensures !ok ==> forall e: string :: GoodSweep(j, grid, launches, drained, false, Err(e))
    ensures ok && launched ==> !(zeroFails || launchFails) && |launches| == |launches0| + 1 && next0 < next <= j.end
    ensures ok && launched ==> Pipeline(j, grid, next, launches, drained, other, pipe)
    ensures ok && !launched ==> next == next0 && launches == launches0 && !pipe.inFlight
    ensures ok && !launched && other.inFlight ==> Pipeline(j, grid, next, launches, drained, other, pipe)
    ensures ok && !launched && !other.inFlight && LaunchSize(grid) > 0 ==>
              GoodSweep(j, grid, launches, drained, false, Ok(None))
  {
    hide Pipeline, GoodSweep, LaunchSize;
    ok, launched, next, launches := true, false, next0, launches0;
    if LaunchSize(grid) == 0 {
      NothingFlies(j, grid, next, drained, pipe, other);
    }
    if next < j.end {
      var launchSize := Min(LaunchSize(grid), j.end - next);
      if launchSize > 0 {
        ok, next, launches := LaunchTurn(pipe, other, j, grid, zeroFails, launchFails, next, launches, drained);
        launched := ok;
        return;
      }
    }
    if LaunchSize(grid) > 0 {
      if other.inFlight {
        PassTurn(j, grid, next, launches, drained, pipe, other);
      } else {
        Exhausted(j, grid, next, launches, drained, pipe, other);
      }
    }
  }

  method DrainIgnoring(other: PipeRes, kernel: Kernel)
    requires other.inFlight ==> !other.foundFlag
    modifies other
    ensures !other.inFlight
  {
    if other.inFlight {
      var _ := other.Drain(kernel);
      other.inFlight := false;
    }
  }

  /** An OpenCL sweep ends like a CUDA one, but a launch size of zero launches nothing and reports an empty range. */
  ghost predicate OpenclOutcome(j: Job, grid: Grid, launches: seq<Slice>, drained: nat, cancelled: bool,
                                r: Result<Option<MiningResult>, string>)
    requires ValidJob(j)
  {
    if LaunchSize(grid) > 0 then GoodSweep(j, grid, launches, drained, cancelled, r)
    else launches == [] && (r.Ok? ==> r == Ok(None))
  }

  /** One iteration past the cancel check; `inFlight` is cleared before a drain error is passed on. */
  method OpenclTurn(pipe: PipeRes, other: PipeRes, j: Job, grid: Grid, c: Constants, kernel: Kernel, driver: Driver,
                    next0: nat, launches0: seq<Slice>, drained0: nat)
    returns (done: bool, r: Result<Option<MiningResult>, string>, next: nat, launches: seq<Slice>, drained: nat)
    requires pipe != other && ValidJob(j) && Honest(kernel) && (LaunchSize(grid) == 0 ==> launches0 == [])
    requires ConstantsOf(j, c) && pipe.loaded == c && other.loaded == c && Served(driver, 2 * |launches0| + 1)
    requires Pipeline(j, grid, next0, launches0, drained0, pipe, other)
    modifies pipe, other
    ensures pipe.loaded == c && (!done ==> other.loaded == c) && (LaunchSize(grid) == 0 ==> launches == [])
    ensures done ==> OpenclOutcome(j, grid, launches, drained, false, r)
    ensures r.Ok? ==> Served(driver, 2 * |launches| + 1)
    ensures r.Err? ==>
              done && (LaunchFaulted(j, grid, kernel, launches, drained) || CallFailed(driver, 2 * |launches|, 3))
    ensures r.Ok? && r.value.Some? ==> done && !pipe.inFlight && !other.inFlight
    ensures !done ==> other.inFlight == old(other.inFlight) && Pipeline(j, grid, next, launches, drained, other, pipe)
    ensures !done ==> next0 < next <= j.end || (next == next0 && other.inFlight && !pipe.inFlight)
    ensures |launches0| <= |launches| <= |launches0| + 1
  {
    hide Honest, ConstantsOf, Chain, CleanFirst, Swept, Pipeline, GoodSweep, LaunchSize;
    hide LaunchFaulted, Served, CallFailed;
    next, launches := next0, launches0;
    if LaunchSize(grid) == 0 {
      NothingFlies(j, grid, next, drained0, pipe, other);
    }
    r, drained := DrainTurn(pipe, other, j, grid, c, kernel, next, launches, drained0);
    pipe.inFlight := false;
    if r.Err? {
      return true, r, next, launches, drained;
    }
    if r.value.Some? {
      DrainIgnoring(other, kernel);
      return true, r, next, launches, drained;
    }
    LaunchCalls(driver, 2 * |launches|, 1);
    var calls, ok, launched := 2 * |launches| + 1, true, true;
    ok, launched, next, launches :=
      TryLaunch(pipe, other, j, grid, driver(calls), driver(calls + 1), next, launches, drained);
    if !ok {
      return true, Err("kernel enqueue"), next, launches, drained;
    }
    return !launched && !pipe.inFlight && !other.inFlight, Ok(None), next, launches, drained;
  }

  /**
   `OpenclBackend::hash_range`: pipes made for the call, and on a find the other pipe is drained too, its outcome
   ignored.
   */
  method OpenclHashRange(j: Job, grid: Grid, kernel: Kernel, driver: Driver, cancel: nat -> bool)
    returns (r: Result<Option<MiningResult>, string>, launches: seq<Slice>, drained: nat, cancelled: bool,
             ghost idle: bool)
    requires |j.header| == 84 && Honest(kernel)
    ensures cancelled ==> r == Ok(None) && exists k :: cancel(k)
    ensures forall k: nat :: cancel(k) ==> |launches| <= k
    ensures j.start < j.end && cancel(0) && r.Ok? ==> cancelled && launches == []
    ensures j.end <= j.start ==> r == Ok(None) && launches == []
    ensures j.start < j.end ==> OpenclOutcome(j, grid, launches, drained, cancelled, r)
    ensures j.start < j.end && r.Ok? ==> Served(driver, 2 * |launches| + 1)
    ensures r.Err? ==> LaunchFaulted(j, grid, kernel, launches, drained) || CallFailed(driver, 2 * |launches|, 3)
    ensures r.Ok? && r.value.Some? ==> idle
  {
    hide Honest, ConstantsOf, Chain, CleanFirst, Swept, Pipeline, GoodSweep, LaunchSize;
    hide LaunchFaulted, Served, CallFailed;
    r, launches, drained, cancelled, idle := Ok(None), [], 0, false, true;
    if j.end <= j.start {
      return;
    }
    var c := PrecomputePlain(j);
    SetupCall(driver);
    if driver(0) {
      NeverPrimed(j, grid, "pipe setup");
      return Err("pipe setup"), launches, drained, cancelled, false;
    }
    var pa := new PipeRes(c);
    var pb := new PipeRes(c);
    Starts(j, grid, pa, pb);
    var next: nat := j.start;
    var current: nat, tick: nat := 0, 0;
    while true
      invariant current <= 1 && pa.loaded == c && pb.loaded == c && !cancelled && Served(driver, 2 * |launches| + 1)
      invariant LaunchSize(grid) == 0 ==> launches == []
      invariant Pipeline(j, grid, next, launches, drained, PickPipe(pa, pb, current), PickPipe(pa, pb, 1 - current))
      invariant |launches| <= tick && forall k: nat :: k < tick ==> !cancel(k)
      decreases j.end - next, Flying(pa) + Flying(pb), 1 - Flying(PickPipe(pa, pb, current))
    {
      var pipe, other := PickPipe(pa, pb, current), PickPipe(pa, pb, 1 - current);
      if cancel(tick) {
        StoppedEarly(j, grid, next, launches, drained, pipe, other);
        return Ok(None), launches, drained, true, false;
      }
      var done;
      done, r, next, launches, drained :=
        OpenclTurn(pipe, other, j, grid, c, kernel, driver, next, launches, drained);
      if done {
        idle := !pipe.inFlight && !other.inFlight;
        return;
      }
      current, tick := 1 - current, tick + 1;
    }
  }

  lemma SetupCall(driver: Driver)
    ensures driver(0) ==> CallFailed(driver, 0, 3)
    ensures !driver(0) ==> Served(driver, 1)
  {
    if driver(0) {
      assert Served(driver, 0);
    }
  }

  // ---------- What a sweep tells its caller ----------

  /** Some launch of the sweep visits nonces below the range. */
  ghost predicate Strays(j: Job, grid: Grid) {
    exists i: nat :: j.start + i * LaunchSize(grid) < j.end && WrapsBelow(LaunchArgs(j, grid, i), j.start)
  }

  function LaunchArgs(j: Job, grid: Grid, i: nat): Args {
    Args(j.start + i * LaunchSize(grid), j.end, grid)
  }

  /** A range that starts at 0, as every template's does, has nothing below it. */
  lemma ZeroStartHasNoStrays(j: Job, grid: Grid)
    requires j.start == 0
    ensures !Strays(j, grid)
  {
  }

  /** Nor has one whose last launch, whole, ends within 2^32. */
  lemma FittingLaunchesHaveNoStrays(j: Job, grid: Grid)
    requires ValidJob(j) && ValidGrid(grid) && LaunchSize(grid) == grid.threads * grid.perThread
    requires j.start + ((j.end - 1 - j.start) / LaunchSize(grid) + 1) * LaunchSize(grid) <= TWO32
    ensures !Strays(j, grid)
  {
    hide LaunchSize, WrapsBelow;
    var npl := LaunchSize(grid);
    var last := (j.end - 1 - j.start) / npl;
    QuotientBounds(j.end - 1 - j.start, npl);
    forall i: nat | j.start + i * npl < j.end
      ensures !WrapsBelow(LaunchArgs(j, grid, i), j.start)
    {
      MulLess(i, last + 1, npl);
      MulMono(i + 1, last + 1, npl);
      assert (i + 1) * npl == i * npl + npl;
      NoWrapWithin(LaunchArgs(j, grid, i), j.start);
    }
  }

  /**
   A sweep that was neither cancelled nor faulted misses nothing, and what it reports qualifies, with its hash; no
   earlier slice holds a qualifying nonce. The find lies in the range unless it lies below it.
   */
  lemma SweepMissesNothing(j: Job, grid: Grid, launches: seq<Slice>, drained: nat, r: Option<MiningResult>)
    requires ValidJob(j) && ValidGrid(grid) && LaunchSize(grid) > 0
    requires GoodSweep(j, grid, launches, drained, false, Ok(r))
    ensures (exists n: nat :: GoodFind(j, n)) ==> r.Some?
    ensures r.Some? ==> r.value.nonce < j.end && Qualifies(j, r.value.nonce) && r.value.hash == HashAt(j, r.value.nonce)
    ensures r.Some? ==> drained < |launches| && Visits(ArgsFor(j, grid, launches[drained]), r.value.nonce)
    ensures r.Some? ==> forall n: nat :: GoodFind(j, n) ==> drained <= (n - j.start) / LaunchSize(grid)
    ensures r.None? ==> |launches| == (j.end - j.start + LaunchSize(grid) - 1) / LaunchSize(grid)
  {
    hide Chain, Qualifies, HashAt, LaunchSize, Visits, CleanFirst;
    var npl := LaunchSize(grid);
    if r.None? {
      SliceCount(j, npl, launches);
    }
    forall n: nat | GoodFind(j, n)
      ensures r.Some? && drained <= (n - j.start) / npl
    {
      if r.None? {
        SlicesPartition(j, npl, launches, n);
      }
      if (n - j.start) / npl < drained {
        CleanSlice(j, grid, launches, drained, n);
      }
    }
  }

  /** Without strays it is exact: `Some` exactly when a nonce of the range qualifies, and then with one of the range. */
  lemma SweepIsExact(j: Job, grid: Grid, launches: seq<Slice>, drained: nat, r: Option<MiningResult>)
    requires ValidJob(j) && ValidGrid(grid) && LaunchSize(grid) > 0 && !Strays(j, grid)
    requires GoodSweep(j, grid, launches, drained, false, Ok(r))
    ensures r.Some? <==> exists n: nat :: GoodFind(j, n)
    ensures r.Some? ==> GoodFind(j, r.value.nonce) && r.value.hash == HashAt(j, r.value.nonce)
    ensures r.Some? ==> forall n: nat :: GoodFind(j, n) ==> drained <= (n - j.start) / LaunchSize(grid)
    ensures r.Some? && LaunchSize(grid) == grid.threads * grid.perThread ==>
              drained == (r.value.nonce - j.start) / LaunchSize(grid)
  {
    hide Chain, Qualifies, HashAt, LaunchSize, Visits, CleanFirst, GoodSweep;
    SweepMissesNothing(j, grid, launches, drained, r);
    if r.Some? {
      LaunchedArgs(j, grid, launches, drained, false, Ok(r));
      VisitsBelowIff(LaunchArgs(j, grid, drained), j.start);
      assert r.value.nonce >= j.start;
      assert GoodFind(j, r.value.nonce);
      FoundInSlice(j, grid, launches, drained, r.value);
    }
  }

  lemma LaunchedArgs(j: Job, grid: Grid, launches: seq<Slice>, drained: nat, cancelled: bool,
                     r: Result<Option<MiningResult>, string>)
    requires ValidJob(j) && ValidGrid(grid) && drained < |launches|
    requires GoodSweep(j, grid, launches, drained, cancelled, r)
    ensures ArgsFor(j, grid, launches[drained]) == LaunchArgs(j, grid, drained)
    ensures ValidArgs(LaunchArgs(j, grid, drained))
  {
    hide Chain, LaunchSize, CleanFirst, FitsJob;
    SliceStart(j, LaunchSize(grid), launches, drained);
    ChainLink(j, LaunchSize(grid), launches, drained);
  }

  /** A find of the range lies at or after the launch's start, and in its slice if the launch size did not wrap. */
  lemma FoundInSlice(j: Job, grid: Grid, launches: seq<Slice>, drained: nat, m: MiningResult)
    requires ValidJob(j) && ValidGrid(grid) && LaunchSize(grid) > 0
    requires GoodSweep(j, grid, launches, drained, false, Ok(Some(m))) && GoodFind(j, m.nonce)
    ensures m.nonce >= launches[drained].lo
    ensures LaunchSize(grid) == grid.threads * grid.perThread ==> drained == (m.nonce - j.start) / LaunchSize(grid)
  {
    hide Chain, Qualifies, HashAt, LaunchSize, Visits;
    var npl := LaunchSize(grid);
    LaunchedArgs(j, grid, launches, drained, false, Ok(Some(m)));
    if m.nonce < launches[drained].lo {
      BelowIsEarlier(j, npl, launches, drained, m.nonce);
      CleanSlice(j, grid, launches, drained, m.nonce);
    } else if npl == grid.threads * grid.perThread {
      VisitsNoFurther(LaunchArgs(j, grid, drained), m.nonce);
      QuotientIs(m.nonce - j.start, npl, drained);
    }
  }

  lemma BelowIsEarlier(j: Job, npl: nat, launches: seq<Slice>, i: nat, n: nat)
    requires npl > 0 && Chain(j, npl, launches) && i < |launches| && j.start <= n < launches[i].lo
    ensures (n - j.start) / npl < i
  {
    hide Chain;
    SliceStart(j, npl, launches, i);
    QuotientBounds(n - j.start, npl);
    MulLess((n - j.start) / npl, i, npl);
  }

  lemma CleanSlice(j: Job, grid: Grid, launches: seq<Slice>, drained: nat, n: nat)
    requires ValidJob(j) && ValidGrid(grid) && LaunchSize(grid) > 0 && Chain(j, LaunchSize(grid), launches)
    requires drained <= |launches| && CleanFirst(j, grid, launches, drained)
    requires j.start <= n < j.end && (n - j.start) / LaunchSize(grid) < drained
    ensures !Qualifies(j, n)
  {
    hide Chain, Qualifies, LaunchSize, Visits;
    var q := (n - j.start) / LaunchSize(grid);
    SliceOf(j, LaunchSize(grid), launches, n, q);
    SliceStart(j, LaunchSize(grid), launches, q);
    LaunchSizeAtMost(grid);
    VisitsItsSlice(ArgsFor(j, grid, launches[q]), n);
    assert Clean(j, ArgsFor(j, grid, launches[q]));
  }

  // ---------- Finds below the range ----------

  /** The first `count` launches. */
  function Plan(j: Job, npl: nat, count: nat): (launches: seq<Slice>)
    ensures |launches| == count
  {
    if count == 0 then []
    else
      var before := Plan(j, npl, count - 1);
      before + [Swept(Reached(j, before), npl, j.end)]
  }

  lemma {:induction false} PlanIsChain(j: Job, npl: nat, count: nat)
    requires ValidJob(j) && npl > 0 && (count > 0 ==> j.start + (count - 1) * npl < j.end)
    ensures Chain(j, npl, Plan(j, npl, count)) && Reached(j, Plan(j, npl, count)) == Min(j.start + count * npl, j.end)
  {
    if count > 0 {
      assert count * npl == (count - 1) * npl + npl;
      if count > 1 {
        assert (count - 1) * npl == (count - 2) * npl + npl;
      }
      PlanIsChain(j, npl, count - 1);
      var before := Plan(j, npl, count - 1);
      assert Plan(j, npl, count)[..count - 1] == before;
    }
  }

  lemma {:induction false} FirstDirty(j: Job, grid: Grid, i: nat) returns (k: nat)
    requires ValidJob(j) && !Clean(j, LaunchArgs(j, grid, i))
    ensures k <= i && !Clean(j, LaunchArgs(j, grid, k)) && forall m: nat :: m < k ==> Clean(j, LaunchArgs(j, grid, m))
  {
    hide Clean;
    if m: nat :| m < i && !Clean(j, LaunchArgs(j, grid, m)) {
      k := FirstDirty(j, grid, m);
    } else {
      k := i;
    }
  }

  /** Launch `i` of the sweep visits a qualifying nonce below the range. */
  ghost predicate FindsBelow(j: Job, grid: Grid, i: nat)
    requires ValidJob(j)
  {
    && j.start + i * LaunchSize(grid) < j.end
    && exists n: nat :: Visits(LaunchArgs(j, grid, i), n) && n < j.start && Qualifies(j, n)
  }

  /** Where the range holds nothing to find, a sweep may report a find exactly when some launch visits one below it. */
  lemma StrayFindIff(j: Job, grid: Grid)
    requires ValidJob(j) && ValidGrid(grid) && LaunchSize(grid) > 0 && Barren(j)
    ensures (exists launches, drained, m :: GoodSweep(j, grid, launches, drained, false, Ok(Some(m))))
            <==> exists i: nat :: FindsBelow(j, grid, i)
  {
    hide Chain, Qualifies, HashAt, LaunchSize, Visits, GoodSweep, Barren;
    if launches, drained, m :| GoodSweep(j, grid, launches, drained, false, Ok(Some(m))) {
      FindIsBelow(j, grid, launches, drained, m);
    }
    if i: nat :| FindsBelow(j, grid, i) {
      assert !Clean(j, LaunchArgs(j, grid, i));
      var k := FirstDirty(j, grid, i);
      MulMono(k, i, LaunchSize(grid));
      var m := DirtyIsFound(j, grid, k);
    }
  }

  lemma FindIsBelow(j: Job, grid: Grid, launches: seq<Slice>, drained: nat, m: MiningResult)
    requires ValidJob(j) && ValidGrid(grid) && Barren(j)
    requires GoodSweep(j, grid, launches, drained, false, Ok(Some(m)))
    ensures FindsBelow(j, grid, drained)
  {
    hide Chain, Qualifies, HashAt, LaunchSize, Visits, CleanFirst;
    LaunchedArgs(j, grid, launches, drained, false, Ok(Some(m)));
    assert m.nonce < j.start;
  }

  lemma DirtyIsFound(j: Job, grid: Grid, k: nat) returns (m: MiningResult)
    requires ValidJob(j) && ValidGrid(grid) && LaunchSize(grid) > 0 && j.start + k * LaunchSize(grid) < j.end
    requires !Clean(j, LaunchArgs(j, grid, k)) && forall i: nat :: i < k ==> Clean(j, LaunchArgs(j, grid, i))
    ensures GoodSweep(j, grid, Plan(j, LaunchSize(grid), k + 1), k, false, Ok(Some(m)))
  {
    hide Chain, Qualifies, HashAt, LaunchSize, Visits, Plan;
    var npl := LaunchSize(grid);
    PlanIsChain(j, npl, k + 1);
    var launches := Plan(j, npl, k + 1);
    forall i | 0 <= i <= k
      ensures ArgsFor(j, grid, launches[i]) == LaunchArgs(j, grid, i)
    {
      SliceStart(j, npl, launches, i);
    }
    var n :| Visits(LaunchArgs(j, grid, k), n) && Qualifies(j, n);
    m := MiningResult(n, HashAt(j, n));
  }

  /** A sweep of the topmost 2^20 nonces in the default geometry strays. */
  lemma DefaultsStrayAtTheTop(header: Bytes, target: Hash)
    ensures Strays(Job(header, target, 0xFFF0_0000, 0xFFFF_FFFF), CudaGrid(560, 256, 4096))
  {
    var j, grid := Job(header, target, 0xFFF0_0000, 0xFFFF_FFFF), CudaGrid(560, 256, 4096);
    assert NonceAt(LaunchArgs(j, grid, 0), 256, 0) == 0;
    assert WrapsBelow(LaunchArgs(j, grid, 0), j.start);
  }

  /**
   The OpenCL sweep, neither cancelled nor faulted, is exact if and only if its launch size did not wrap to zero or
   there is nothing to find.
   */
  lemma OpenclIsExactIff(j: Job, grid: Grid, launches: seq<Slice>, drained: nat, r: Option<MiningResult>)
    requires ValidJob(j) && ValidGrid(grid) && (LaunchSize(grid) > 0 ==> !Strays(j, grid))
    requires OpenclOutcome(j, grid, launches, drained, false, Ok(r))
    ensures (r.Some? <==> exists n: nat :: GoodFind(j, n)) <==> LaunchSize(grid) > 0 || Barren(j)
  {
    hide LaunchSize, Strays, GoodSweep, Qualifies;
    if LaunchSize(grid) > 0 {
      SweepIsExact(j, grid, launches, drained, r);
    } else if n: nat :| j.start <= n < j.end && Qualifies(j, n) {
      assert GoodFind(j, n);
    }
  }
}
