/** What every sweep engine is asked to do, and what counts as a find. */
module SweepJob {
  import opened Words
  import opened Fips180
  import Targets

  /** What a sweep is asked to do. `end` is exclusive, so nonce 2^32 - 1 is never swept. */
  datatype Job = Job(header: Bytes, target: Hash, start: U32, end: U32)

  /** An accepted nonce and its hash. */
  datatype MiningResult = MiningResult(nonce: nat, hash: Hash)

  /** SHA-256d of the header with the nonce in bytes 80 to 83. */
  function HashAt(j: Job, n: nat): Hash
    requires |j.header| == 84 && n < TWO32
  {
    Sha256d(j.header[..80] + Le32(n))
  }

  predicate Qualifies(j: Job, n: nat)
    requires |j.header| == 84 && n < TWO32
  {
    Targets.Value(HashAt(j, n)) <= Targets.Value(j.target)
  }

  ghost predicate ValidJob(j: Job) {
    |j.header| == 84 && j.start < j.end
  }

  ghost predicate GoodFind(j: Job, n: nat)
    requires ValidJob(j)
  {
    j.start <= n < j.end && Qualifies(j, n)
  }

  /** No nonce of the range qualifies. */
  ghost predicate Barren(j: Job)
    requires ValidJob(j)
  {
    forall n :: j.start <= n < j.end ==> !Qualifies(j, n)
  }
}
