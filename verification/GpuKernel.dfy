/**
 One kernel launch: the constants uploaded to its pipe, the nonces its threads come by, and the contract of what it
 leaves on the device.
 */
module GpuKernel {
  import opened Words
  import opened Arithmetic
  import opened Fips180
  import opened SweepJob
  import opened Sha256dCpu
  import Targets

  // ---------- Constants ----------

  /** The per-job constants in a pipe's device buffers; only the CUDA kernel resumes from a precomputed prefix. */
  datatype Constants =
    | Cuda(mid: Fips180.State, prefix: Fips180.State, sched3: seq<bv32>, tail16: Bytes, target: Hash)
    | Opencl(mid: Fips180.State, tail16: Bytes, target: Hash)

  /** The prefix and schedule words, where there are any, fit the midstate and tail, for every nonce. */
  ghost predicate WellPrimed(c: Constants) {
    && |c.tail16| == 16
    && (c.Cuda? ==> forall n: U32 :: IsPrefixFor(c.mid, BlockWords(NonceBlock(c.tail16, n)), c.prefix, c.sched3))
  }

  function KernelHash(c: Constants, n: nat): Hash
    requires |c.tail16| == 16 && n < TWO32
  {
    Sha256(Digest(Compress(c.mid, NonceBlock(c.tail16, n))))
  }

  ghost predicate KernelAccepts(c: Constants, n: nat)
    requires |c.tail16| == 16 && n < TWO32
  {
    Targets.Value(KernelHash(c, n)) <= Targets.Value(c.target)
  }

  /** The constants of a job are those of its header. */
  ghost predicate ConstantsOf(j: Job, c: Constants)
    requires |j.header| == 84
  {
    WellPrimed(c) && c.mid == Compress(IV, j.header[..64]) && c.tail16 == j.header[64..80] && c.target == j.target
  }

  /** The kernel's hash over a job's constants is SHA-256d of the job's header with that nonce. */
  lemma KernelHashIsHashAt(j: Job, c: Constants, n: nat)
    requires |j.header| == 84 && ConstantsOf(j, c) && n < TWO32
    ensures KernelHash(c, n) == HashAt(j, n)
  {
    hide Compress, Sha256, Sha256d, InnerBlock, Digest, WellPrimed, IV;
    var h := j.header[..80] + Le32(n);
    assert h[..64] == j.header[..64] && h[64..] == c.tail16 + Le32(n);
    HeaderHash(h);
  }

  // ---------- Which nonces a launch comes by ----------

  /** The geometry of a launch: device threads, and how many nonces each of them tries. */
  datatype Grid = Grid(threads: nat, perThread: nat)

  /** The scalar arguments of a launch. */
  datatype Args = Args(start: nat, end: nat, grid: Grid)

  ghost predicate ValidGrid(g: Grid) {
    1 <= g.threads && 1 <= g.perThread < TWO32
  }

  ghost predicate ValidArgs(a: Args) {
    a.start < a.end < TWO32 && ValidGrid(a.grid)
  }

  /** The `k`-th nonce of thread `gid`, in the kernel's 32-bit arithmetic. */
  function NonceAt(a: Args, gid: nat, k: nat): (n: nat)
    ensures n < TWO32
  {
    (a.start + gid * a.grid.perThread + k) % TWO32
  }

  /** The thread gets as far as its `k`-th nonce: it returns at the first one past the end. */
  ghost predicate Reaches(a: Args, gid: nat, k: nat) {
    gid < a.grid.threads && k < a.grid.perThread && forall i: nat :: i <= k ==> NonceAt(a, gid, i) < a.end
  }

  ghost predicate Visits(a: Args, n: nat)
    ensures Visits(a, n) ==> n < a.end
  {
    exists gid: nat, k: nat :: Reaches(a, gid, k) && NonceAt(a, gid, k) == n
  }

  /** Every nonce the launch is accounted for is visited. */
  lemma VisitsItsSlice(a: Args, n: nat)
    requires ValidArgs(a) && a.start <= n < a.end && n - a.start < a.grid.threads * a.grid.perThread
    ensures Visits(a, n)
  {
    hide NonceAt;
    var size := a.grid.perThread;
    var gid, k := ThreadOf(n - a.start, a.grid);
    forall i: nat | i <= k
      ensures NonceAt(a, gid, i) == a.start + gid * size + i
    {
      NonceUnwrapped(a, gid, i);
    }
    assert Reaches(a, gid, k) && NonceAt(a, gid, k) == n;
  }

  /** The thread and step that come by the `d`-th nonce. */
  lemma ThreadOf(d: nat, g: Grid) returns (gid: nat, k: nat)
    requires ValidGrid(g) && d < g.threads * g.perThread
    ensures gid < g.threads && k < g.perThread && gid * g.perThread + k == d
  {
    gid, k := d / g.perThread, d % g.perThread;
    QuotientBounds(d, g.perThread);
    MulLess(gid, g.threads, g.perThread);
    QuotientIs(d, g.perThread, gid);
  }

  lemma NonceUnwrapped(a: Args, gid: nat, k: nat)
    requires a.start + gid * a.grid.perThread + k < TWO32
    ensures NonceAt(a, gid, k) == a.start + gid * a.grid.perThread + k
  {
  }

  /** From the launch's start upwards it visits nothing else. */
  lemma VisitsNoFurther(a: Args, n: nat)
    requires ValidArgs(a) && Visits(a, n) && n >= a.start
    ensures n - a.start < a.grid.threads * a.grid.perThread
  {
    hide Reaches, NonceAt;
    var gid: nat, k: nat :| Reaches(a, gid, k) && NonceAt(a, gid, k) == n;
    InGrid(a, gid, k);
    NonceAtMost(a, gid, k);
  }

  lemma InGrid(a: Args, gid: nat, k: nat)
    requires Reaches(a, gid, k)
    ensures gid * a.grid.perThread + k < a.grid.threads * a.grid.perThread
  {
    WithinGrid(gid, k, a.grid);
  }

  lemma NonceAtMost(a: Args, gid: nat, k: nat)
    ensures NonceAt(a, gid, k) <= a.start + gid * a.grid.perThread + k
  {
    ModAtMost(a.start + gid * a.grid.perThread + k, TWO32);
  }

  lemma WithinGrid(gid: nat, k: nat, g: Grid)
    requires gid < g.threads && k < g.perThread
    ensures gid * g.perThread + k < g.threads * g.perThread
  {
    MulMono(gid + 1, g.threads, g.perThread);
    assert (gid + 1) * g.perThread == gid * g.perThread + g.perThread;
  }

  lemma ModAtMost(x: nat, m: nat)
    requires m > 0
    ensures x % m <= x
  {
    assert x == m * (x / m) + x % m;
  }

  lemma ModStep(x: nat, i: nat, m: nat)
    requires i < m
    ensures (x + i) % m == if x % m + i < m then x % m + i else x % m + i - m
  {
    var q, b := x / m, x % m;
    assert x == m * q + b;
    if b + i < m {
      QuotientIs(x + i, m, q);
    } else {
      assert (q + 1) * m == q * m + m;
      QuotientIs(x + i, m, q + 1);
    }
  }

  /** Some thread's first nonce wraps to below `floor`. */
  ghost predicate WrapsBelow(a: Args, floor: nat) {
    exists gid: nat :: gid < a.grid.threads && NonceAt(a, gid, 0) < floor
  }

  /** A launch visits a nonce below a floor at or under its start exactly when some thread's first nonce wraps there. */
  lemma VisitsBelowIff(a: Args, floor: nat)
    requires ValidArgs(a) && floor <= a.start
    ensures (exists n: nat :: n < floor && Visits(a, n)) <==> WrapsBelow(a, floor)
  {
    if n: nat :| n < floor && Visits(a, n) {
      var gid: nat, k: nat :| Reaches(a, gid, k) && NonceAt(a, gid, k) == n;
      FirstIsLeast(a, gid, k);
      assert NonceAt(a, gid, 0) < floor;
    }
    if gid: nat :| gid < a.grid.threads && NonceAt(a, gid, 0) < floor {
      assert Reaches(a, gid, 0);
      assert Visits(a, NonceAt(a, gid, 0));
    }
  }

  /** A thread that wrapped on the way would have met 2^32 - 1, past the end, and returned. */
  lemma FirstIsLeast(a: Args, gid: nat, k: nat)
    requires ValidArgs(a) && Reaches(a, gid, k)
    ensures NonceAt(a, gid, 0) <= NonceAt(a, gid, k)
  {
    hide NonceAt;
    NonceFromFirst(a, gid, k);
    if NonceAt(a, gid, 0) + k >= TWO32 {
      NonceFromFirst(a, gid, TWO32 - 1 - NonceAt(a, gid, 0));
    }
  }

  lemma NonceFromFirst(a: Args, gid: nat, k: nat)
    requires k < TWO32
    ensures var first := NonceAt(a, gid, 0);
            NonceAt(a, gid, k) == if first + k < TWO32 then first + k else first + k - TWO32
  {
    ModStep(a.start + gid * a.grid.perThread, k, TWO32);
  }

  /** A launch whose threads end within 2^32 wraps nowhere. */
  lemma NoWrapWithin(a: Args, floor: nat)
    requires ValidArgs(a) && floor <= a.start && a.start + a.grid.threads * a.grid.perThread <= TWO32
    ensures !WrapsBelow(a, floor)
  {
    forall gid: nat | gid < a.grid.threads
      ensures NonceAt(a, gid, 0) >= floor
    {
      WithinGrid(gid, 0, a.grid);
    }
  }

  // ---------- The device ----------

  /** What a launch leaves on the device once its stream is synchronised. */
  datatype Reply = Fault | Empty | Hit(nonce: nat, hash: Hash)

  /** The device: the reply to the `k`-th launch over given constants and arguments. */
  type Kernel = (nat, Constants, Args) -> Reply

  /** Over well-primed constants the flag is set iff some visited nonce qualifies, with one of them. */
  ghost predicate Fits(c: Constants, a: Args, r: Reply)
    requires |c.tail16| == 16 && a.end <= TWO32
  {
    match r
    case Fault => true
    case Empty => forall n :: Visits(a, n) ==> !KernelAccepts(c, n)
    case Hit(n, h) => Visits(a, n) && KernelAccepts(c, n) && h == KernelHash(c, n)
  }

  ghost predicate Honest(kernel: Kernel) {
    forall k: nat, c: Constants, a: Args :: WellPrimed(c) && a.end <= TWO32 ==> Fits(c, a, kernel(k, c, a))
  }

  /** A kernel reply over a job's constants, in terms of the job. */
  ghost predicate FitsJob(j: Job, a: Args, r: Reply)
    requires |j.header| == 84 && a.end <= TWO32
  {
    match r
    case Fault => true
    case Empty => Clean(j, a)
    case Hit(n, h) => Visits(a, n) && Qualifies(j, n) && h == HashAt(j, n)
  }

  /** Nothing the launch visits qualifies. */
  ghost predicate Clean(j: Job, a: Args)
    requires |j.header| == 84 && a.end <= TWO32
  {
    forall n :: Visits(a, n) ==> !Qualifies(j, n)
  }

  lemma ReplyFitsJob(j: Job, c: Constants, kernel: Kernel, k: nat, a: Args)
    requires |j.header| == 84 && ConstantsOf(j, c) && Honest(kernel) && a.end <= TWO32
    ensures FitsJob(j, a, kernel(k, c, a))
  {
    hide KernelHash, HashAt, WellPrimed, Visits;
    assert Fits(c, a, kernel(k, c, a));
    forall n: nat | Visits(a, n)
      ensures KernelHash(c, n) == HashAt(j, n) && (KernelAccepts(c, n) <==> Qualifies(j, n))
    {
      KernelHashIsHashAt(j, c, n);
    }
  }

  // ---------- Launch sizes ----------

  function Clamp(x: nat, lo: nat, hi: nat): nat
    requires lo <= hi
  {
    if x < lo then lo else if x > hi then hi else x
  }

  /** The CUDA constructor's clamps. */
  function CudaGrid(blocks: U32, threadsPerBlock: U32, noncesPerThread: U32): (g: Grid)
    ensures ValidGrid(g)
  {
    Bounds(Clamp(blocks, 1, 65535), 1, 65535, Clamp(threadsPerBlock, 64, 1024), 64, 1024);
    Grid(Clamp(blocks, 1, 65535) * Clamp(threadsPerBlock, 64, 1024), Max(noncesPerThread, 1))
  }

  /** The OpenCL constructor's, from below only. */
  function OpenclGrid(blocks: U32, threadsPerBlock: U32, noncesPerThread: U32): (g: Grid)
    ensures ValidGrid(g)
  {
    Bounds(Max(blocks, 1), 1, TWO32, Max(threadsPerBlock, 1), 1, TWO32);
    Grid(Max(blocks, 1) * Max(threadsPerBlock, 1), Max(noncesPerThread, 1))
  }

  /** Dimensions within the limits are kept, others are brought to the nearest one. */
  lemma GridClamps(blocks: U32, threadsPerBlock: U32, noncesPerThread: U32)
    ensures 1 <= blocks <= 65535 && 64 <= threadsPerBlock <= 1024 && 1 <= noncesPerThread ==>
              CudaGrid(blocks, threadsPerBlock, noncesPerThread) == Grid(blocks * threadsPerBlock, noncesPerThread)
    ensures CudaGrid(0, 0, 0) == Grid(64, 1) && CudaGrid(TWO32 - 1, TWO32 - 1, 1) == Grid(65535 * 1024, 1)
    ensures 1 <= blocks && 1 <= threadsPerBlock && 1 <= noncesPerThread ==>
              OpenclGrid(blocks, threadsPerBlock, noncesPerThread) == Grid(blocks * threadsPerBlock, noncesPerThread)
    ensures OpenclGrid(0, 0, 0) == Grid(1, 1)
  {
  }

  /** `nonces_per_launch`, in a release build's 64 bits. */
  function LaunchSize(g: Grid): nat {
    g.threads * g.perThread % TWO64
  }

  /** The CUDA product is positive and fits in 64 bits, whatever the configuration. */
  lemma CudaSizeFits(blocks: U32, threadsPerBlock: U32, noncesPerThread: U32)
    ensures var g := CudaGrid(blocks, threadsPerBlock, noncesPerThread);
            64 <= LaunchSize(g) == g.threads * g.perThread
  {
    var b, t, n := Clamp(blocks, 1, 65535), Clamp(threadsPerBlock, 64, 1024), Max(noncesPerThread, 1);
    assert 64 <= b * t <= 65535 * 1024 by { Bounds(b, 1, 65535, t, 64, 1024); }
    Bounds(b * t, 64, 65535 * 1024, n, 1, TWO32 - 1);
    assert b * t * n < TWO64;
  }

  /** The OpenCL product can wrap to zero. */
  lemma OpenclSizeCanWrap()
    ensures LaunchSize(OpenclGrid(0x8000_0000, 0x8000_0000, 4)) == 0
  {
    assert 0x8000_0000 * 0x8000_0000 * 4 == TWO64;
  }

  /** The host never counts more than the device sweeps. */
  lemma LaunchSizeAtMost(g: Grid)
    ensures LaunchSize(g) <= g.threads * g.perThread
  {
    ModAtMost(g.threads * g.perThread, TWO64);
  }

  lemma Bounds(x: nat, xlo: nat, xhi: nat, y: nat, ylo: nat, yhi: nat)
    requires xlo <= x <= xhi && ylo <= y <= yhi
    ensures xlo * ylo <= x * y <= xhi * yhi
  {
    assert xlo * ylo <= x * ylo <= x * y;
    assert x * y <= xhi * y <= xhi * yhi;
  }
}
