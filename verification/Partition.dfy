/** Splitting a nonce range between the GPU and the CPU threads. */
module Partition {
  import opened Words
  import opened Arithmetic
  import opened Binary64

  /** A half-open nonce range. */
  datatype Range = Range(lo: nat, hi: nat)

  function Size(r: Range): int {
    r.hi - r.lo
  }

  const F32_EPSILON: real := 1.0 / 8388608.0

  /** `cpu_share.clamp(0.0, 1.0)`; `None` for NaN, which clamps to itself. */
  function ClampShare(share: F64): (r: Option<real>)
    ensures r.Some? ==> 0.0 <= r.value <= 1.0
  {
    match share
    case NaN => None
    case NegInf => Some(0.0)
    case PosInf => Some(1.0)
    case Finite(x) => Some(if x < 0.0 then 0.0 else if x > 1.0 then 1.0 else x)
  }

  predicate CpuActive(share: F64, threads: nat) {
    threads > 0 && ClampShare(share).Some? && ClampShare(share).value > 0.0
  }

  /** The share is within f32 epsilon of 1: the GPU is to get nothing. */
  predicate AllCpu(share: F64) {
    ClampShare(share).Some? && 1.0 - ClampShare(share).value < F32_EPSILON
  }

  /** Of the multiples of 2^-24, which are the f32 shares just below 1, only 1 and its neighbour are that close. */
  lemma AllCpuIff(k: nat)
    requires k <= 0x100_0000
    ensures AllCpu(Finite(1.0 - k as real / 16777216.0)) <==> k <= 1
  {
    var step := 1.0 / 16777216.0;
    assert k as real / 16777216.0 == k as real * step;
    if k >= 2 {
      assert k as real * step >= 2.0 * step;
    }
  }

  /** The ranges follow each other from `lo` to `hi` without gap or overlap. */
  ghost predicate Tiles(ranges: seq<Range>, lo: nat, hi: nat) {
    if ranges == [] then lo == hi
    else
      var k := |ranges| - 1;
      ranges[k].lo <= ranges[k].hi == hi && Tiles(ranges[..k], lo, ranges[k].lo)
  }

  function TotalSize(ranges: seq<Range>): int {
    if ranges == [] then 0 else TotalSize(ranges[..|ranges| - 1]) + Size(ranges[|ranges| - 1])
  }

  /** Tiles conserve nonces: their sizes add up to the span. */
  lemma {:induction false} TilesConserve(ranges: seq<Range>, lo: nat, hi: nat)
    requires Tiles(ranges, lo, hi)
    ensures lo <= hi && TotalSize(ranges) == hi - lo
  {
    if ranges != [] {
      TilesConserve(ranges[..|ranges| - 1], lo, ranges[|ranges| - 1].lo);
    }
  }

  /** Tiles are disjoint and complete: every nonce of the span lies in exactly one of them. */
  lemma {:induction false} TilesCover(ranges: seq<Range>, lo: nat, hi: nat, n: nat)
    requires Tiles(ranges, lo, hi) && lo <= n < hi
    ensures exists i :: 0 <= i < |ranges| && OnlyIn(ranges, n, i)
  {
    var m := |ranges| - 1;
    assert forall k :: 0 <= k < m ==> ranges[..m][k] == ranges[k];
    if n < ranges[m].lo {
      TilesCover(ranges[..m], lo, ranges[m].lo, n);
      var i :| 0 <= i < m && OnlyIn(ranges[..m], n, i);
      assert OnlyIn(ranges, n, i);
    } else {
      TilesBelow(ranges[..m], lo, ranges[m].lo);
      assert OnlyIn(ranges, n, m);
    }
  }

  ghost predicate OnlyIn(ranges: seq<Range>, n: nat, i: nat) {
    forall k :: 0 <= k < |ranges| ==> (ranges[k].lo <= n < ranges[k].hi <==> k == i)
  }

  lemma {:induction false} TilesBelow(ranges: seq<Range>, lo: nat, hi: nat)
    requires Tiles(ranges, lo, hi)
    ensures lo <= hi && forall i :: 0 <= i < |ranges| ==> lo <= ranges[i].lo <= ranges[i].hi <= hi
  {
    if ranges != [] {
      var k := |ranges| - 1;
      TilesBelow(ranges[..k], lo, ranges[k].lo);
      assert forall i :: 0 <= i < k ==> ranges[..k][i] == ranges[i];
    }
  }

  lemma {:induction false} TilesPrepend(first: Range, ranges: seq<Range>, hi: nat)
    requires first.lo <= first.hi && Tiles(ranges, first.hi, hi)
    ensures Tiles([first] + ranges, first.lo, hi)
  {
    if ranges == [] {
      assert [first] + ranges == [first];
      assert [first][..0] == [];
    } else {
      var k := |ranges| - 1;
      TilesPrepend(first, ranges[..k], ranges[k].lo);
      assert ([first] + ranges)[..k + 1] == [first] + ranges[..k];
    }
  }

  /** The share of thread `i` when `total` nonces are dealt to `threads` threads. */
  function Dealt(total: nat, threads: nat, i: nat): nat
    requires threads > 0
  {
    total / threads + if i < total % threads then 1 else 0
  }

  /** What the first `i` threads are dealt. */
  function DealtBefore(total: nat, threads: nat, i: nat): nat
    requires threads > 0
  {
    i * (total / threads) + if i < total % threads then i else total % threads
  }

  lemma DealNext(total: nat, threads: nat, i: nat)
    requires threads > 0
    ensures DealtBefore(total, threads, i + 1) == DealtBefore(total, threads, i) + Dealt(total, threads, i)
    ensures DealtBefore(total, threads, 0) == 0
  {
    var q := total / threads;
    assert (i + 1) * q == i * q + q;
    assert 0 * q == 0;
  }

  lemma {:induction false} DealWithin(total: nat, threads: nat, i: nat)
    requires 0 < threads && i <= threads
    ensures DealtBefore(total, threads, i) <= total
    ensures DealtBefore(total, threads, threads) == total
    decreases threads - i
  {
    if i == threads {
      assert total == threads * (total / threads) + total % threads;
    } else {
      DealWithin(total, threads, i + 1);
      DealNext(total, threads, i);
    }
  }

  /** The CPU pool's size; `rounded` is whatever the float product rounded to. */
  function CpuTotal(total: nat, share: F64, rounded: U64): (c: nat)
    requires total > 0
    ensures 1 <= c <= total
    ensures c == total <==> AllCpu(share) || total == 1
    ensures !AllCpu(share) && 1 <= rounded < total ==> c == rounded
    ensures !AllCpu(share) && rounded == 0 ==> c == 1
    ensures !AllCpu(share) && 2 <= total <= rounded ==> c == total - 1
  {
    if AllCpu(share) then total
    else
      var capped := if rounded <= total - 1 then rounded else total - 1;
      if capped >= 1 then capped else 1
  }

  /**
   `partition_nonce_range`. With the CPU pool active the ranges tile the span, one per CPU thread after the
   GPU's, the CPU sizes differ by at most one, and the GPU range is empty exactly when the share is within
   epsilon of 1 or the span is a single nonce.
   */
  method PartitionNonceRange(start: U32, end: U32, share: F64, threads: nat, rounded: U64)
    returns (gpu: Range, cpus: seq<Range>)
    ensures end <= start ==> gpu == Range(start, start) && cpus == []
    ensures start < end && !CpuActive(share, threads) ==> gpu == Range(start, end) && cpus == []
    ensures start < end && CpuActive(share, threads) ==>
              && Tiles([gpu] + cpus, start, end) && gpu.lo == start && |cpus| == threads
              && (forall i, k :: 0 <= i <= k < |cpus| ==> Size(cpus[k]) <= Size(cpus[i]) <= Size(cpus[k]) + 1)
              && end - gpu.hi == CpuTotal(end - start, share, rounded)
              && (Size(gpu) == 0 <==> AllCpu(share) || end - start == 1)
  {
    if end <= start {
      return Range(start, start), [];
    }
    var total := end - start;
    if !CpuActive(share, threads) {
      return Range(start, end), [];
    }
    var cpuTotal := CpuTotal(total, share, rounded);
    hide CpuTotal, AllCpu, CpuActive;
    var gpuEnd := Min(start + (total - cpuTotal), end);
    gpu := Range(start, gpuEnd);
    cpus := Deal(gpuEnd, end, threads);
    TilesPrepend(gpu, cpus, end);
  }

  /** Equal contiguous chunks of `[lo, hi)`, the first ones a nonce larger. */
  method Deal(lo: nat, hi: nat, threads: nat) returns (ranges: seq<Range>)
    requires lo <= hi && threads > 0
    ensures |ranges| == threads && Tiles(ranges, lo, hi)
    ensures forall i, k :: 0 <= i <= k < threads ==> Size(ranges[k]) <= Size(ranges[i]) <= Size(ranges[k]) + 1
  {
    hide DealtBefore;
    var cpuTotal := hi - lo;
    var chunk, remainder := cpuTotal / threads, cpuTotal % threads;
    var cursor := lo;
    ranges := [];
    DealNext(cpuTotal, threads, 0);
    for i := 0 to threads
      invariant |ranges| == i && cursor == lo + DealtBefore(cpuTotal, threads, i)
      invariant Tiles(ranges, lo, cursor)
      invariant forall k :: 0 <= k < i ==> Size(ranges[k]) == Dealt(cpuTotal, threads, k)
    {
      DealNext(cpuTotal, threads, i);
      DealWithin(cpuTotal, threads, i + 1);
      var extra := if i < remainder then 1 else 0;
      var size := chunk + extra;
      var stop := Min(cursor + size, hi);
      assert (ranges + [Range(cursor, stop)])[..i] == ranges;
      ranges := ranges + [Range(cursor, stop)];
      cursor := stop;
    }
    DealWithin(cpuTotal, threads, threads);
    ranges := ranges[threads - 1 := ranges[threads - 1].(hi := hi)];
  }
}
