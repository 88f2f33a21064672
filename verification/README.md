# csd-pool-miner: verified model

A Dafny 4.11 model of the mining core of csd-pool-miner, the GPU/CPU miner and Stratum client of the Compute
Substrate network. `dafny verify dfyconfig.toml` checks the whole project.

The modules follow the program:

- **Share pipeline.** `Mapping`, `Coinbase`, `Hex` and `Targets` turn a notify into a template, a header and a share
  target; `MiningLoop` runs launches against backends that may report any nonce, any hash or any fault. The pool's own
  rebuilding of a submitted header is written as an independent definition, `Mapping.BridgeHeader`.
- **SHA-256d.** `Fips180` is the hash as sections 5.1.1 and 6.2.2 of FIPS 180-4 define it, `Fips180Roots` derives
  its constants; `Sha256dCpu` is the program's array code: midstate, finisher and the resumption at round 4.
- **Sweeps.** `CpuSweep` interleaves the threads of the CPU pool step by step under an arbitrary scheduler. `GpuSweep`
  is the two-pipe loop against a kernel contract (`GpuKernel`) that speaks about the constants actually uploaded and
  the nonces each device thread comes by. `Partition` splits a range between them. `SweepJob` is what they share.
- **Session.** `Session` is the handshake, the reader and frame dispatch; `Preempt` the race between publishing a job
  and sweeping an old one; `Failover` and `Watchdog` endpoint rotation and the thread that asks for it. Interleavings
  are sequences of atomic events; statements hold for every sequence.
- **Supervisors.** `StallLadder`, `Thermal` and, for the two together with the gate between them, `Supervision`.
- **Smaller parts.** `Autotune`, `Calendar`, `HashrateWindows`. `Words`, `Binary64`, `Text` and `Arithmetic` hold
  machine integers, f64 values, strings and a few products and quotients.

Methods are the program's own step-by-step code, proved against functions; lemmas then say what those functions
promise. Integers are unbounded with the program's wraps and casts written out.

Where the program and its comments disagree the model follows the program:

- `build_thermal_cfg` says the resume threshold is always below the limit; unless a lower one is given that takes a
  limit in (0, 2^56] (`Thermal.ResumeBelowLimitIff`).
- The forced window is said to let the watchdog recover or exit a hung card; the exit is within reach of one window
  exactly when all recoveries fit into it, which the defaults do not (`Supervision.ExitInWindowIff`).
- A deliberate failover is said to hold the backup for a full interval; it does exactly when the failback clock was
  stopped, or not started before the first dial. A clock that is already running, even a young one, cuts the interval
  short by its age (`Failover.NoFailbackIff`); between two backups it always runs.
- The handshake is said to lose no push; it loses those that share a line with one of its replies, and no others
  (`Session.NoPushIsLostIff`, with a case in `Session.HandshakeLosesAPush`).
- A GPU sweep is said to search its range; near 2^32 the kernels' 32-bit index wraps and they also visit the lowest
  nonces. That is harmless for a range that starts at 0, as every template's does; elsewhere a find can lie below the
  range (`GpuSweep.SweepIsExact`, `GpuSweep.StrayFindIff`).
- A failover is said to be bounded to one per `accept_stale` by the reconnect stamp; a reconnect that completes after
  the tick has loaded the stamp escapes (`Watchdog.FailoverIsTimelyIff`).
- The re-check after clearing the preempt flag is called race-free; it is exactly as long as job ids determine the
  prev hash (`Preempt.FreshIffIdsFixPrevs`).

## Model

| member | source | states |
|---|---|---|
| MiningLoop.EverySentShareIsAccepted | src/stratum/loop_stratum.rs:869-1249 | For every seed, every sequence of jobs and difficulties and every backend behaviour (any nonce, any claimed hash, any fault), each submission of the run makes the bridge rebuild a header whose SHA-256d is at most the target of the difficulty read with the job |
| MiningLoop.EveryGoodFindIsSent | src/stratum/loop_stratum.rs:1154-1239 | In every run, whenever a launch's find (the GPU's, or the CPU pool's when the GPU reports none or a fault) hashes as claimed and the bridge would accept its share, that share is sent, at that launch number and roll |
| MiningLoop.EverySentShareIsAFind | src/stratum/loop_stratum.rs:1154-1239 | Every share sent is that of its own launch's find, the GPU's if it has one, hashing as claimed |
| MiningLoop.SubmitsIffGood | src/stratum/loop_stratum.rs:1163-1199 | A launch submits its find exactly when the claimed hash is that of the header the bridge rebuilds and the bridge accepts the share; then everything the miner needs had decoded |
| MiningLoop.NoExtranonceIsSentTwice | src/stratum/loop_stratum.rs:1185-1247 | Over at most 2^32 launches no two submissions of a run carry the same extranonce2 text, whatever idle polls and faults fall between |
| MiningLoop.SentCarriesItsRoll | src/stratum/loop_stratum.rs:1229-1247 | Submissions are made at strictly increasing launch numbers and each carries the roll of its own launch |
| MiningLoop.GateIffBridgeAccepts | src/stratum/loop_stratum.rs:1171-1199 | The CPU re-hash gate passes a nonce exactly when the pool bridge, rebuilding the header from the three hex fields, accepts it |
| MiningLoop.SubmittedIsAccepted | src/stratum/loop_stratum.rs:1157-1239 | Whatever one launch hands to the submitter is accepted by the bridge |
| MiningLoop.RolledInjective | src/stratum/loop_stratum.rs:1185-1247 | Rolls less than 2^32 launches apart differ, on the wire too |
| MiningLoop.NextWork | src/stratum/loop_stratum.rs:316-346 | Work is what mapping the notify under the session extranonce1 and the target of the current difficulty gives; any field that fails to decode leaves the loop idle |
| MiningLoop.Miner.RunLaunch | src/stratum/loop_stratum.rs:952-1247 | One launch appends exactly the gated submission of its winner (GPU first), counts a mismatch exactly when the claimed hash is not the header's, keeps the fault streak, and rolls xn2 once on every path |
| MiningLoop.Miner.Run | src/stratum/loop_stratum.rs:869-1249 | A whole run sends exactly the specified submissions and ends at the roll of its launch count |
| MiningLoop.Miner.DeriveHeader | src/stratum/loop_stratum.rs:954-973 | The skeleton header with any nonce written into bytes 80-83 is the miner's header for that nonce |
| MiningLoop.Miner.NoteGpuOutcome | src/stratum/loop_stratum.rs:1094-1151 | A device fault extends the streak and yields no find, recovery is attempted on the first fault of a streak only, any clean sweep ends it |
| Mapping.BridgeRebuildsTheMinedHeader | src/stratum/mapping.rs:213-255 | For every notify that maps, every xn2 and nonce: the header the bridge assembles from the submitted hex is byte for byte the one the miner hashed |
| Mapping.BridgeMerkleAgrees | src/stratum/mapping.rs:228-236 | The bridge's walk over the hex branch equals the miner's index-driven merkle fold at index 0 |
| Mapping.NotifyToTemplate | src/stratum/mapping.rs:97-166 | The imperative mapping, error cases in the code's order, with the in-place reversal of prev and the branch loop |
| Mapping.MapSucceedsIff | src/stratum/mapping.rs:97-166 | Mapping succeeds exactly when all numbers and hex fields decode, prev and every branch entry are 32 bytes and extranonce1 is 4 bytes |
| Mapping.MapBlamesTheFirst | src/stratum/mapping.rs:97-166 | A failed mapping names a field that is bad, and no field checked earlier is; branch entries count one by one |
| Mapping.TemplateMeans | src/stratum/mapping.rs:140-166 | A template holds the decoded fields, prev reversed, extranonce1 as its low half, the target asked for and the nonces from 0 up to but not including 2^32 - 1 |
| Mapping.ReverseInPlace | src/stratum/mapping.rs:111-113 | Swapping ends inwards leaves the mirrored array |
| Mapping.ExtranonceSplit | src/stratum/mapping.rs:54-63 | The composed 64-bit extranonce is on the wire the pool's four bytes followed by the rolled four |
| Hex.DecodeOfEncode | src/stratum/mapping.rs:68-74 | hex decode of hex encode is the identity on byte strings |
| Hex.DecodeIs | src/stratum/mapping.rs:78-85 | A string decodes exactly when it is pairs of hex digits, and to the bytes they spell |
| Hex.DigitIs | src/stratum/mapping.rs:78-85 | The digits are the sixteen of either case with their values |
| Hex.EncodeIs | src/stratum/mapping.rs:68-74 | Encoding writes two lower-case digits for each byte |
| Hex.RadixIs | src/stratum/mapping.rs:97-104 | A number parses exactly when, after at most one plus sign, it is hex digits and fits 32 bits |
| Hex.ParseOfFormat | src/stratum/mapping.rs:71-72 | Parsing the eight-digit format of any 32-bit number returns it |
| Coinbase.BuildCoinbaseBytes | src/coinbase.rs:17-23 | prefix, extranonce little-endian, suffix, in a freshly filled buffer |
| Coinbase.CoinbaseTxid | src/coinbase.rs:26-29 | The txid is SHA-256d of prefix, extranonce and suffix |
| Coinbase.MerkleRootFromBranch | src/coinbase.rs:34-50 | The loop over the branch computes the recursive fold, running hash left or right by the index bit |
| Coinbase.BranchLeadsToRoot | src/coinbase.rs:31-50 | For every tree of 2^depth leaves and every leaf, the fold over the leaf's branch is the root of the tree |
| Coinbase.Header84 | src/coinbase.rs:55-71 | The slice copies fill exactly the six header fields in their layout |
| Targets.U256DivU64Be | src/stratum/loop_stratum.rs:182-193 | The byte-wise long division never needs to truncate a quotient byte and its 32 bytes spell floor(dividend / divisor) |
| Targets.DivideByte | src/stratum/loop_stratum.rs:187-190 | One step of the division: the cast to a byte drops nothing, the digit and the next remainder spell the accumulator |
| Targets.HashLeqTarget | src/stratum/loop_stratum.rs:200-210 | The byte-wise comparison decides the order of the two numbers |
| Targets.FirstDifferenceDecides | src/stratum/loop_stratum.rs:200-210 | The first differing byte decides the order of equally long big-endian numbers |
| Targets.TargetFromDifficulty | src/stratum/loop_stratum.rs:83-94 | The target spells floor(pdiff-1 / k) for the rounded difficulty k, for every float input including NaN and the infinities |
| Targets.MeetsTargetIff | src/stratum/loop_stratum.rs:83-94 | A hash meets the target of a difficulty exactly when hash times rounded difficulty is at most pdiff-1 |
| Targets.ShareLaw | src/stratum/loop_stratum.rs:76-94 | With the divisor k nearest to the difficulty (halves upwards, within 1 and 2^64 - 1, 1 for NaN) the target is floor(0xFFFF * 256^26 / k), and a hash meets it exactly when hash * k is at most 0xFFFF * 256^26 |
| Targets.DivisorIsUnique | src/stratum/loop_stratum.rs:83-89 | The rounded difficulty is the whole number k with k - 0.5 <= d < k + 0.5, clamped at both ends |
| Targets.HasDivisor | src/stratum/loop_stratum.rs:83-89 | Every float difficulty has such a divisor |
| Targets.Pdiff1Value | src/stratum/loop_stratum.rs:56-67 | The pdiff-1 target is 0xFFFF * 256^26 |
| Targets.TargetsAreAntitone | src/stratum/loop_stratum.rs:83-94 | A larger difficulty never has a larger target |
| Targets.ValueInjective | src/stratum/loop_stratum.rs:200-210 | Byte strings of one length with equal value are equal |
| Sha256dCpu.Sha256Compress | src/sha256d_cpu.rs:49-103 | The array code updates the state to the compression of section 6.2.2 of FIPS 180-4 |
| Sha256dCpu.MidstateOfFirstChunk | src/sha256d_cpu.rs:110-116 | The midstate is the compression of the first 64 header bytes from the initial value |
| Sha256dCpu.FinishSha256dFromMidstate | src/sha256d_cpu.rs:121-153 | From any midstate and 20-byte tail: SHA-256 of the digest of compressing the padded tail |
| Sha256dCpu.Sha256dViaMidstate | src/sha256d_cpu.rs:110-153 | For every 84-byte header, midstate then finisher computes SHA-256 of SHA-256 as defined by padding and block iteration |
| Sha256dCpu.MidstateSplit | src/sha256d_cpu.rs:105-153 | Padding and iterating an 84-byte message is one compression to the midstate and one over the hand-built tail block |
| Sha256dCpu.SingleBlockHash | src/sha256d_cpu.rs:135-152 | The hand-padded outer block hashes like the 32-byte digest |
| Sha256dCpu.InnerPrefixPrecompute | src/sha256d_cpu.rs:233-300 | Computed once without a nonce, prefix and the three schedule words are the state after round 3 and W16 to W18 of the padded block for every nonce |
| Sha256dCpu.PrefixServesEveryNonce | src/sha256d_cpu.rs:204-300 | A prefix that fits one nonce's block fits every other nonce's block |
| Sha256dCpu.ConstantSchedule | src/sha256d_cpu.rs:233-300 | W16, W17 and W18 of a nonce block do not involve the nonce word |
| Sha256dCpu.NonceBlockWords | src/sha256d_cpu.rs:312-325 | The words the resume writes, with the byte-swapped nonce, are the big-endian words of the padded block |
| Sha256dCpu.RoundsReadPrefix | src/sha256d_cpu.rs:233-300 | The first t rounds depend on the first t words only |
| Sha256dCpu.InnerCompressViaPrefix | src/sha256d_cpu.rs:312-374 | For every midstate, tail and nonce, resuming at round 4 and folding in the original midstate equals the full 64-round compression |
| Fips180.PadIsWholeBlocks | src/sha256d_cpu.rs:125-133 | Padding extends the message by the least amount to whole 64-byte blocks |
| Fips180Roots.RoundConstantsAreRoots | src/sha256d_cpu.rs:35-45 | The 64 round constants are the fractions of the cube roots of the first 64 primes, to 32 bits |
| Fips180Roots.InitialValueIsRoots | src/sha256d_cpu.rs:30-33 | The initial value is the fractions of the square roots of the first eight primes |
| CpuSweep.HashRange | src/backends/cpu.rs:47-135 | Under every interleaving of the threads and every cancel the sweep ends; a find is in range with its qualifying hash, no nonce is hashed twice; None without a cancel means every nonce was hashed and none qualifies, and the counter is exactly at its largest value; the results are those of an actual run of the steps whose flag loads return what the flags hold; with a flag up throughout nothing is claimed or hashed and nothing found |
| CpuSweep.RaisedFlagStopsTheSweep | src/backends/cpu.rs:90-123 | From any moment on from which every load of the flags sees one raised, each thread already past its check claims once more and no other thread claims, and only the chunks in hand or so claimed are still hashed |
| CpuSweep.RaisedFromTheStart | src/backends/cpu.rs:96-101 | With an external flag up from the start no run claims or hashes anything |
| CpuSweep.FindRaisesTheFlag | src/backends/cpu.rs:114-120 | In every run a stored find means the local flag is up or about to be raised |
| CpuSweep.FirstFindStays | src/backends/cpu.rs:114-120 | The first find stored is never replaced |
| CpuSweep.TryNonce | src/backends/cpu.rs:110-114 | Finishing from the midstate and comparing byte by byte decides whether a nonce qualifies |
| CpuSweep.RunThreads | src/backends/cpu.rs:79-128 | An arbitrary scheduler stepping the threads terminates in a reachable state with all threads done |
| CpuSweep.StepKeepsInv | src/backends/cpu.rs:90-125 | Every atomic step of every thread keeps: chunks apart and inside what was handed out, nothing hashed twice, finds good, nothing missed |
| CpuSweep.StepMissesNothing | src/backends/cpu.rs:105-122 | Until a find, every handed-out nonce is hashed without qualifying or still waits in exactly its chunk |
| CpuSweep.StepKeepsChunksApart | src/backends/cpu.rs:102-109 | Chunks claimed from the shared counter never overlap |
| CpuSweep.StepKeepsCounterInv | src/backends/cpu.rs:102-108 | The counter moves by whole chunks and passes the end once per finished thread at most |
| CpuSweep.StepMakesProgress | src/backends/cpu.rs:90-125 | Every step hands out nonces or makes the remaining work lighter, so no schedule runs forever |
| CpuSweep.StepKeepsAscending | src/backends/cpu.rs:110-123 | With one thread a find has no qualifying nonce below it |
| CpuSweep.OneThreadIsTheScan | src/selftest.rs:332-342 | One thread without a cancel returns what the exhaustive scan returns, the least qualifying nonce or none |
| CpuSweep.ExhaustiveScan | src/selftest.rs:332-342 | Trying nonces in order finds the least qualifying one |
| CpuSweep.OvershootIsThreadsChunksIff | src/backends/cpu.rs:66-75 | For every job and thread count, every run keeps the counter within threads chunks of the end if and only if the span is a whole number of chunks or some nonce of the range qualifies |
| CpuSweep.FindKeepsTheBound | src/backends/cpu.rs:102-123 | With a qualifying nonce in the range no run, cancelled or not, takes the counter further: the thread that finds it returns without overshooting |
| CpuSweep.RunKeepsFinder | src/backends/cpu.rs:90-125 | In every run a qualifying nonce, once handed out, waits in a chunk, or some thread is busy with a find, or one has returned without overshooting |
| CpuSweep.StepKeepsOneSpared | src/backends/cpu.rs:90-125 | A thread that returns after a find leaves the counter one claim short of its bound, and no later step makes up for it |
| CpuSweep.BarrenOvershootIff | src/backends/cpu.rs:66-75 | Where no find comes, the bound holds in every run if and only if the span is a whole number of chunks |
| CpuSweep.CounterNeverExceedsLargest | src/backends/cpu.rs:102-108 | No run of any job, cancelled or not, takes the counter beyond start plus the chunks needed plus one per thread |
| CpuSweep.FullSweepReachesLargest | src/backends/cpu.rs:102-108 | Over a range without a find some uncancelled run ends with the counter exactly there |
| CpuSweep.OvershootExample | src/backends/cpu.rs:102-108 | One nonce that does not qualify, one thread: a run that leaves the counter 8191 past the end |
| CpuSweep.CounterFits | src/backends/cpu.rs:66-75 | In every run the 64-bit counter does not wrap |
| GpuSweep.CudaHashRange | src/backends/cuda.rs:359-483 | Both pipes primed from one precompute; against any honest kernel, driver faults and cancels: launches chain without gap or overlap, are drained in launch order, at most two are in flight, no more launches are made than iterations before a flag is up, a find comes from the oldest launch, None without a cancel only after all were drained clean; the loop ends. An error is that of the oldest launch or of the first driver call to fail, one of the next calls after those the launches so far made; without an error none of those failed |
| GpuSweep.CudaTurn | src/backends/cuda.rs:424-482 | One iteration drains the pipe whose turn it is and then launches, ends the sweep or passes the turn; every turn that does not end it makes progress |
| GpuSweep.OpenclHashRange | src/backends/opencl.rs:150-307 | The same guarantees for the two-queue loop over plain midstate and tail, for any launch dimensions; after a find neither pipe is left in flight; a launch size wrapped to zero reports every range empty without a launch |
| GpuSweep.OpenclTurn | src/backends/opencl.rs:220-306 | One iteration of the OpenCL loop: the drained pipe is idle whatever the drain said, a find drains the other pipe too, and only a turn that launches or passes goes on |
| GpuSweep.OpenclIsExactIff | src/backends/opencl.rs:203-307 | Without cancel, fault or stray the OpenCL sweep returns Some exactly when a nonce qualifies, if and only if the launch size did not wrap to zero or no nonce of the range qualifies |
| GpuSweep.PrecomputePlain | src/backends/opencl.rs:163-169 | The OpenCL upload is the midstate, tail and target of the job's header |
| GpuKernel.OpenclSizeCanWrap | src/backends/opencl.rs:95-97 | Dimensions the OpenCL constructor accepts whose product wraps to zero in 64 bits |
| GpuSweep.TryLaunch | src/backends/opencl.rs:245-300 | Launches the next slice if the launch size is positive; otherwise passes the turn, or ends the sweep with everything drained clean |
| GpuSweep.SweepIsExact | src/backends/cuda.rs:413-482 | Without cancel, fault or stray the sweep returns Some exactly when a nonce of the range qualifies; then a qualifying nonce of the range with its hash, from the earliest slice that holds one |
| GpuSweep.SweepMissesNothing | src/backends/cuda.rs:413-482 | Strays or not, an uncancelled sweep without a fault reports a find whenever a nonce of the range qualifies, what it reports qualifies, no earlier slice holds a qualifying nonce, and None means ceil(span / nonces per launch) launches were made |
| GpuSweep.StrayFindIff | src/kernels/sha256d.cu:276-297 | Over a range where nothing qualifies a sweep can report a find if and only if one of its launches visits a qualifying nonce below the range |
| GpuSweep.FittingLaunchesHaveNoStrays | src/kernels/sha256d.cu:276-297 | A sweep whose last launch, whole, ends within 2^32 visits nothing below its range |
| GpuSweep.DefaultsStrayAtTheTop | src/kernels/sha256d.cu:276-297 | A concrete case: the default geometry over the topmost 2^20 nonces visits nonces below them |
| GpuKernel.VisitsItsSlice | src/kernels/sha256d.cl:154-178 | In the kernel's 32-bit arithmetic every nonce a launch is counted for is reached by some thread |
| GpuKernel.VisitsNoFurther | src/kernels/sha256d.cl:154-178 | From its start upwards a launch visits no more than threads times nonces per thread |
| GpuKernel.VisitsBelowIff | src/kernels/sha256d.cl:154-178 | A launch visits a nonce below a floor at or under its start if and only if some thread's first nonce wraps to below that floor |
| GpuSweep.SlicesPartition | src/backends/cuda.rs:444-478 | Once the end is reached nonce n lies in slice (n - start) / nonces-per-launch and in no other |
| GpuSweep.SliceCount | src/backends/cuda.rs:444-478 | The number of launches that cover a range |
| GpuKernel.KernelHashIsHashAt | src/backends/cuda.rs:372-377 | What the kernel hashes from the uploaded midstate, prefix, schedule words and tail is SHA-256d of the job's header with that nonce |
| GpuKernel.ReplyFitsJob | src/backends/cuda.rs:372-377 | An honest kernel over a job's constants reports in terms of that job |
| GpuSweep.Precompute | src/backends/cuda.rs:372-377 | The uploaded constants are those of the job's header, good for every nonce |
| GpuSweep.PipeRes.Prime | src/backends/cuda.rs:331-352 | A primed pipe holds the new constants, a clear flag and no launch; a failed upload is reported |
| GpuSweep.PipeRes.Launch | src/backends/cuda.rs:444-478 | A launch starts with the flag zeroed; if zeroing or launching fails nothing is in flight |
| GpuSweep.PipeRes.Drain | src/backends/cuda.rs:499-527 | A drain returns exactly what the kernel reported for the launch in flight |
| GpuSweep.DrainTurn | src/backends/cuda.rs:433-442 | Draining the pipe whose turn it is retires the oldest launch or ends the sweep |
| GpuSweep.LaunchTurn | src/backends/cuda.rs:444-481 | The next slice is launched on the idle pipe and the turn passes; host and kernel agree on the slice's size |
| GpuKernel.CudaSizeFits | src/backends/cuda.rs:184-193 | For every configuration the clamped product is at least 64 and does not wrap in 64 bits |
| GpuKernel.GridClamps | src/backends/cuda.rs:176-182 | Launch dimensions within the limits are kept, others brought to the nearest limit |
| Partition.PartitionNonceRange | src/mining_config.rs:36-84 | Whatever the float product rounds to, one GPU range and one range per CPU thread tile the span in order, CPU sizes differ by at most one, the GPU range is empty exactly for a share within epsilon of 1 or a span of one |
| Partition.Deal | src/mining_config.rs:62-82 | Equal contiguous chunks with the remainder given to the first threads end exactly at the end, so the last-range patch changes nothing |
| Partition.TilesConserve | src/mining_config.rs:31-34 | The sizes of the ranges add up to the span |
| Partition.TilesCover | src/mining_config.rs:31-34 | Every nonce of the span lies in exactly one range |
| Partition.CpuTotal | src/mining_config.rs:53-59 | The pool gets between one nonce and all of them, all exactly when the share is within epsilon of 1 or the span is one; short of that it gets exactly the rounded product where that is at least one and leaves the GPU one |
| Partition.AllCpuIff | src/mining_config.rs:54-57 | Among the f32 shares just below 1 only 1 and its neighbour leave the GPU nothing |
| Preempt.FreshIffIdsFixPrevs | src/stratum/client.rs:977-1018 | In all reader/miner interleavings over a given stream of notifies every sweep is of the published prev or has the flag up, if and only if equal job ids in the stream have equal prevs |
| Preempt.IntakeIffIdsNeverReturn | src/stratum/loop_stratum.rs:889-936 | In all interleavings a preempted sweep is followed by an intake before any further sweep, if and only if no job id returns after a prev change |
| Preempt.FlagMeansChange | src/stratum/client.rs:1006-1018 | In every run, a raised flag during a sweep means a prev-changing job was published after the swept work was read |
| Preempt.SweepsAreFresh | src/stratum/loop_stratum.rs:900-907 | Clearing the flag without the lock loses nothing: freshness holds in every reachable state |
| Preempt.PreemptionLeadsToIntake | src/stratum/loop_stratum.rs:930-936 | No sweep runs between a preempted one and the next intake |
| Preempt.RunKeepsInv | src/stratum/client.rs:977-1018 | Slot, flag and the miner's work relate to the stream of notifies as stated, after every run |
| Preempt.LateClearRun | src/stratum/loop_stratum.rs:898-907 | A concrete run: read, publish more under the same id, clear, check, sweep with the flag down |
| Preempt.SweepAgainRun | src/stratum/loop_stratum.rs:1064-1070 | A concrete run: the same id returns during a sweep and the preempted work is swept again without an intake |
| Session.Client.Run | src/stratum/client.rs:608-690 | Over any number of reconnects and failed dials, and however each connection ends (end of stream or any I/O error), the published job and difficulty are the fold of dispatch over every connection's frames in arrival order, each under its own extranonce1 |
| Session.ConnectionLeavesTheLast | src/stratum/client.rs:1000-1040 | After an established connection the difficulty is the last one dispatched and the job the last notify, under the session's extranonce1, or what they were if none was; with ordinary replies these are the last of the whole byte stream |
| Session.HandshakeOkIff | src/stratum/client.rs:539-592 | A handshake succeeds exactly when no reply it read is an error or malformed, subscribe was answered and the last answer to authorize is true |
| Session.HelloVerdict | src/stratum/client.rs:555-584 | The lines read fail the handshake exactly when one of them is fatal, with the first such error; otherwise it holds the last answer to each call |
| Session.HelloReadsWhileWaiting | src/stratum/client.rs:539-584 | The handshake reads on exactly while no reply was fatal and a call is unanswered |
| Session.AckIff | src/stratum/client.rs:165-190 | A submit ack is a response without a method whose id is at least 100, so never a handshake reply or a push |
| Session.EveryFrameCounts | src/stratum/client.rs:440-446 | When no handshake reply doubles as a push, an established connection publishes the fold of all the newline-delimited frames of its byte stream, wherever the handshake ends and however timeouts split the bytes: none lost, reordered or applied twice |
| Session.EarlyPushesReplay | src/stratum/client.rs:534-580 | Wherever the subscribe and authorize replies fall, replaying the captured pushes publishes what the other lines publish, in order |
| Session.RepliesPublishNothing | src/stratum/client.rs:555-580 | Leaving ordinary replies out of the fold changes nothing |
| Session.NoPushIsLostIff | src/stratum/client.rs:440-446 | An established connection dispatches exactly the jobs and difficulties of its byte stream, in order, if and only if no reply of its handshake carries one; otherwise it dispatches fewer |
| Session.RepliesKeepPushesIff | src/stratum/client.rs:555-580 | Setting replies aside keeps every push when none carries one and loses some when one does |
| Session.EarlyPushesAreKept | src/stratum/client.rs:534-580 | The captured early pushes are, push for push, those of the handshake's other lines |
| Session.PublishesTheDispatched | src/stratum/client.rs:956-1045 | The published state after a connection is what its dispatched pushes do, and nothing else |
| Session.PushWithReplyIdIsLost | src/stratum/client.rs:555-570 | Any handshake line that is both a reply and a push costs at least one push |
| Session.HandshakeLosesAPush | src/stratum/client.rs:555-570 | A concrete handshake of two lines that succeeds and dispatches nothing although its subscribe reply sets a difficulty |
| Session.Client.Serve | src/stratum/client.rs:616-642 | However idle timeouts split the bytes, reads publish the fold of the frames, and the buffer holds the unfinished line |
| Session.Client.OnRead | src/stratum/client.rs:620-643 | A timeout keeps what it read and publishes nothing, a frame is dispatched with all buffered text, a dead link clears the buffer |
| Session.Client.Handshake | src/stratum/client.rs:522-595 | The loop takes exactly the reads up to the second reply, a fatal reply or anything that is not a line, and reports which |
| Session.LinesThenReads | src/stratum/client.rs:440-446 | Handing the reader over after any number of whole lines neither loses nor merges a frame |
| Session.Client.Open | src/stratum/client.rs:1085-1101 | A successful dial takes the new extranonce1 and then publishes the early pushes; a failed one changes nothing |
| Session.Client.DispatchFrame | src/stratum/client.rs:956-1045 | A frame acts as specified; the preempt flag rises exactly on a changed prev, the staleness clock moves exactly on a changed job id |
| Session.Client.RecordAck | src/stratum/client.rs:171-242 | Exactly the responses with id 100 or more and no method are acks; each is counted once and by kind, and any ack ends the unacked streak |
| Session.NextRead | src/stratum/client.rs:616-640 | One more read completes a frame or lengthens the buffer, nothing else |
| Text.ReadOn | src/stratum/client.rs:616-620 | Appending a read to a stream extends its last line and completes it exactly when the read ends in a newline |
| Failover.EndpointList.Reconnect | src/stratum/client.rs:1058-1161 | The dial loop tries the specified endpoints in order until one answers, sleeping before dial n the first backoff doubled n times up to the cap, reset on success |
| Failover.PrimaryDialStartsTheClock | src/endpoint.rs:115-135 | Every dial of the primary, a failback included, starts the failback clock at that moment |
| Failover.FailbackTimeIff | src/endpoint.rs:115-135 | On a backup entered from the primary an attempt goes back exactly from an interval after the primary's dial on |
| Failover.EachEndpointOnce | src/stratum/client.rs:1149-1155 | As many failed dials as there are endpoints, with no failback, try each endpoint exactly once |
| Failover.FailedDialsRotate | src/endpoint.rs:104-109 | Failed dials without a failback step through the list from the current endpoint, wrapping |
| Failover.NoFailbackIff | src/endpoint.rs:115-135 | A deliberate failover from any endpoint to a backup, first dialed at t0, sees no failback within an interval of t0, over all later attempts of all reconnects, answered or not, if and only if the failback clock was stopped or not started before t0 |
| Failover.FailoverHoldsIff | src/endpoint.rs:115-135 | Under the same condition, and only then, a backup that answered at t0 is selected by every redial of the interval |
| Failover.YoungClockCutsTheFailoverShort | src/endpoint.rs:115-135 | A concrete case: a clock 900 s old halves a backup's 30 minutes |
| Failover.YoungClockCutsTheRotationShort | src/endpoint.rs:115-135 | A concrete case inside one reconnect: with three endpoints the second dial returns to the primary |
| Failover.SecondFailoverIsCutShort | src/endpoint.rs:115-135 | A failover from one backup to another never gets the full interval: the dial of the first started the clock |
| Failover.FirstFailoverHolds | src/endpoint.rs:120-127 | A failover with the clock stopped sees no failback for a full interval from its first attempt |
| Failover.RunningClockHolds | src/endpoint.rs:128-134 | A clock started at or after a time lets no attempt within an interval of that time fall back, wherever the rotation stands |
| Failover.EndpointList.MaybeFailback | src/endpoint.rs:115-135 | Falls back exactly when due; otherwise keeps the clock fresh on the primary or starts it on a backup |
| Failover.EndpointList.Advance | src/endpoint.rs:104-109 | Rotates to the next endpoint, wrapping; a single endpoint stays |
| Watchdog.FailoversBounded | src/stratum/client.rs:657-690 | In every interleaving of watchdog, reader and miner, failovers never exceed reconnects while connected, nor reconnects plus one while reconnecting |
| Watchdog.DropFailsOverIff | src/stratum/client.rs:640-690 | A link given up leads to the next endpoint exactly when a tick has asked for a failover since the last one was given up |
| Watchdog.ArmedIffPending | src/stratum/client.rs:920-930 | In every interleaving the failover flag is up exactly while such a request is pending |
| Watchdog.UnackedAreUnanswered | src/stratum/client.rs:861-880 | In every interleaving the unacked counter is the number of submissions since the last ack or new socket |
| Watchdog.ReconnectsAreHandshakes | src/stratum/client.rs:1085-1147 | Every successful handshake is stamped and counted once |
| Watchdog.FailoverIsNotRushed | src/stratum/watchdog.rs:89-195 | In every run a failover is requested only after some accept and at least accept_stale after every accept and every reconnect that the tick's separate loads could see |
| Watchdog.FailoverIsTimelyIff | src/stratum/watchdog.rs:58-62 | When a tick acts within accept_stale of reading its clock, its failover is at least accept_stale after every completed reconnect exactly when no reconnect completed since its last load |
| Watchdog.LateReconnectEscapes | src/stratum/client.rs:903-931 | A concrete run: a reconnect completed after the last load is not seen, and the failover is armed on a link made that instant |
| Watchdog.DecisionMeans | src/stratum/watchdog.rs:89-161 | Both actions as conditions on what happened, whatever the order of the checks |
| StallLadder.ExitIsEarned | src/gpu_watchdog.rs:174-223 | In every run with a nondecreasing clock the exit ends an unbroken streak of at least dwell actionable samples with exactly max_recoveries attempts in it, attempts and exit each at least the window apart |
| StallLadder.RecoverIsEarned | src/gpu_watchdog.rs:174-223 | An attempt is made only on such a streak, with budget left |
| StallLadder.FlooredIff | src/gpu_watchdog.rs:143-151 | A rate exactly at the floor is floored, so is NaN; above the floor none is |
| StallLadder.DisabledDoesNothing | src/gpu_watchdog.rs:152-175 | A disabled watchdog never acts and never counts, over every run |
| StallLadder.StallReachesExit | src/gpu_watchdog.rs:324-388 | An unbroken stall sampled at least delta apart exits within max(dwell,1) + max_recoveries * max(1, ceil(window/delta)) ticks |
| StallLadder.StateIsHistory | src/gpu_watchdog.rs:268-286 | The carried streak, count and stamp are exactly the history of the current streak |
| StallLadder.StallProgress | src/gpu_watchdog.rs:324-388 | How many ticks a stall that has not exited can have taken, by attempt |
| StallLadder.Watchdog.Tick | src/gpu_watchdog.rs:324-388 | The tick acts on the prior streak and leaves the specified state; a failed rebuild spends an attempt like a good one |
| Thermal.PauseIsBounded | src/thermal.rs:311-323 | In any block of consecutive paused polls the time after the first is under the cap |
| Thermal.WindowHolds | src/thermal.rs:289-306 | Once opened, a window applies Running on every poll until its length has elapsed |
| Thermal.OpeningsAreApart | src/thermal.rs:281-324 | Any two openings are at least window plus cap apart |
| Thermal.StuckHotOpens | src/thermal.rs:311-320 | A pause that has lasted the cap opens a window, so a card that reads hot forever is looked at |
| Thermal.PausedIff | src/thermal.rs:281-325 | Over every run the gate is paused at a poll exactly when the raw verdict is paused, no window opens there and the poll lies in none |
| Thermal.ThrottleIsApplied | src/thermal.rs:308-324 | From a reset on, a pause shorter than the cap is applied at every one of its polls |
| Thermal.OpensAtTheCapIff | src/thermal.rs:311-320 | A continuous pause opens a window exactly at the poll where it has lasted the cap |
| Thermal.RunningResets | src/thermal.rs:304-308 | A verdict to run outside a window resets the dead-man |
| Thermal.WindowEndResets | src/thermal.rs:291-299 | So does the poll that sees the window's length elapsed |
| Thermal.ConfigMeans | src/thermal.rs:141-161 | Throttling is on exactly when a limit is given; a lower resume threshold is kept, a derived one is five degrees below and never negative; the cap defaults to 600 s |
| Thermal.SinceOpening | src/thermal.rs:281-324 | After an opening, elapsed time pays first for the window and then for the accrued pause |
| Thermal.Hysteresis | src/thermal.rs:102-127 | Inside the band the state is held, outside it the reading decides |
| Thermal.ResumeBelowLimitIff | src/thermal.rs:141-161 | For every f64 limit and whichever way the difference rounds: the resume threshold is below the limit exactly when a lower one was given or the limit lies in (0, 2^56], not always as the comment says |
| Thermal.InfiniteLimit | src/thermal.rs:141-161 | A concrete case: an infinite limit gets an infinite threshold |
| Thermal.FlapsIff | src/thermal.rs:129-139 | Some steady temperature flips the gate on every sample exactly when the threshold is above the limit |
| Binary64.FiveIsSubtractedIff | src/thermal.rs:153 | Subtracting 5 from a positive double rounds to something smaller exactly up to 2^56 |
| Thermal.TickGate | src/thermal.rs:387-403 | The dead-man sees the raw decision, the gate gets the overridden one, and a change is reported exactly on an edge |
| Thermal.Deadman.Advance | src/thermal.rs:281-324 | One poll updates the dead-man and its verdict as specified |
| Thermal.ThermalGate.Apply | src/thermal.rs:353-357 | The flag takes the new state and the return value says whether it changed |
| Supervision.PausedTickStandsDown | src/stratum/loop_stratum.rs:531-550 | A watchdog tick that finds the gate paused at either of its two loads does nothing and forgets the stall, whatever the GPU shows |
| Supervision.PauseResets | src/stratum/loop_stratum.rs:531-550 | One watchdog tick anywhere in a pause leaves it reset for as long as the pause lasts |
| Supervision.HotCardIsThrottled | src/thermal.rs:100-125 | A card that reads above its limit at every poll is throttled from the first of them on until the cap has passed |
| Supervision.ClosedGateMeansHot | src/thermal.rs:100-125 | In every run a closed gate was closed by a reading above the limit with throttling enabled, and no later poll missed a reading or found one at the resume threshold or below |
| Supervision.GateStaysOpen | src/thermal.rs:177-195 | Through all interleaved polls of a forced window the gate stays open until the window's length has really passed |
| Supervision.StuckHotHangIsCaught | src/thermal.rs:177-195 | The whole story from any state: a thermal pause with a watchdog tick in it, the poll that opens a forced window, a GPU that stays floored with fresh jobs; if dwell * poll < window the watchdog acts before the window closes, by recovery or, with recoveries off, by exit |
| Supervision.HangIsCaughtInOneWindow | src/thermal.rs:177-195 | The part of it from the opening on |
| Supervision.ExitTakesEveryRung | src/gpu_watchdog.rs:324-388 | From a reset watchdog no exit comes before max_recoveries * recover_window has passed |
| Supervision.ExitInWindowIff | src/thermal.rs:177-195 | From a reset watchdog some run exits within a window if and only if the watchdog is enabled and max_recoveries * recover_window is less than the window |
| Supervision.DefaultsNeverExitInOneWindow | src/thermal.rs:185-188 | The defaults fail that condition: no run exits within one 90-second window, despite the comment |
| Autotune.RoundTripIff | src/backends/autotune.rs:151-208 | Parsing the printed cache returns the geometry exactly when the device name has no newline and all dimensions are non-zero |
| Autotune.RoundTrip | src/backends/autotune.rs:151-208 | The forward half, for any runs of backslashes and quotes in the name |
| Autotune.UnquoteOfQuoted | src/backends/autotune.rs:213-219 | Two sequential global replaces undo the quoting of every name |
| Autotune.FirstReplace | src/backends/autotune.rs:218 | The first replace turns back exactly the quotes |
| Autotune.SecondReplace | src/backends/autotune.rs:218 | The second replace halves every run of backslashes |
| Autotune.ParseToml | src/backends/autotune.rs:167-208 | The loop over the lines computes the specified parse, fatal lines and missing keys included |
| Autotune.ParseOfShow | src/backends/autotune.rs:185-189 | Unsigned numbers parse back from their decimal display |
| Autotune.PickBest | src/backends/autotune.rs:86-102 | The pick is usable, occurs in the list and beats every other usable entry; none only if nothing is usable |
| Autotune.PickIsFastest | src/backends/autotune.rs:85-127 | The pick is a finite positive rate, no finite rate is larger, and among equal rates no launch size, then blocks, threads, nonces per thread, is larger; nothing is picked only if no rate is finite and positive |
| Autotune.PickIsOrderIndependent | src/backends/autotune.rs:81-85 | Lists with the same measurements have the same pick, whatever their order |
| Autotune.StrictTotalOrder | src/backends/autotune.rs:106-127 | The comparison with its tie-breaks is a strict total order on usable measurements |
| Calendar.CivilIsDate | src/logging.rs:108-120 | For every day, negative ones included, the result is a valid proleptic Gregorian date and the inverse formula returns the day |
| Calendar.CivilOfDays | src/logging.rs:108-120 | Every valid date is the date of its day number |
| Calendar.TomorrowIsNextDay | src/logging.rs:108-120 | The next day's date is the calendar successor, across months, leap days and centuries |
| Calendar.EpochDay | src/logging.rs:108-120 | Day 0 is 1970-01-01 and day -1 is 1969-12-31 |
| Calendar.YearFits | src/logging.rs:118 | Within 780 billion days of the epoch the year fits the 32-bit cast |
| Calendar.SecondsRoundTrip | src/logging.rs:98-106 | Date and time of day are in range and give back the second, before the epoch too |
| Calendar.NextDayIsLater | src/logging.rs:108-120 | The calendar successor of a valid date is valid and one day later |
| HashrateWindows.WindowsSeeTheHistory | src/stats.rs:147-176 | When all records are no later than the query, each window sees exactly the samples ever recorded in it, so has their mean |
| HashrateWindows.Windows.Means | src/stats.rs:155-161 | All three means are those of the full history |
| HashrateWindows.Windows.WindowAverage | src/stats.rs:164-176 | The mean computed from the pruned buffer is the mean over the full history's window |
| HashrateWindows.Windows.Record | src/stats.rs:147-151 | Recording extends the history and keeps the buffer its pruning |
| HashrateWindows.SeesTheHistoryIff | src/stats.rs:147-176 | A window queried at any time sees the full history exactly when no sample of it lies behind the horizon of a later record |
| HashrateWindows.BufferIsBounded | src/stats.rs:147-151 | The buffer never holds a sample older than 15 minutes before the last record |

## Left out

- Sockets, TLS, DNS, the HTTP stats server, Discord, wallet creation, configuration files, services and NVML: I/O.
- JSON: a line is decoded by an arbitrary function to what its consumers can see of it (id, method, parameters, reply).
- The CUDA and OpenCL kernels and drivers: a contract says what a launch reports over well-formed constants, and every driver call may fail. Rebuilding a wedged context (`recover`) is only counted.
- `sha2` (`Sha256::digest`, `compress256`) is taken to be FIPS 180-4, so the `_fast` variants are the specification itself.
- The CPU pool inside one launch of the mining loop appears as an arbitrary winner slot; the standalone sweep is `CpuSweep`. No exhaustiveness is claimed for the dual launch: a finished GPU sweep stops the pool.
- The template id (`fnv1a64`), hashrate accounting, log lines, `suggested_difficulty`, benchmark timing and candidate geometries: they affect no share.
- The pool's acceptance is judged against the difficulty read with the job; a difficulty change while that job is mined is the pool's to honour.
- Relaxed atomics: steps are sequentially consistent, except that a stale stop flag or preempt flag may be read as unset. Lock poisoning is not modelled.
- Floating point: f64 values are NaN, the infinities and reals; the thermal threshold's difference is rounded to nearest among the representable numbers, the partition's product may round to any value, difficulties round as reals do; the text of `mh_s` is any format that round-trips.
- Session.Client.Serve: bytes are characters; `read_line` discards a multi-byte character split by a timeout, which the text model does not show (frames are ASCII).
- Session.EveryFrameCounts: the fold is of dispatch, that is of job and difficulty; acks arriving before the authorize reply are dispatched without being counted, as in the code.
- Watchdog.FailoverIsNotRushed: speaks of the reconnects the tick's loads could see; `Watchdog.FailoverIsTimelyIff` says when that is all of them.
- GpuSweep.SweepIsExact: for sweeps none of whose launches wraps to below the range; `GpuSweep.SweepMissesNothing` and `GpuSweep.StrayFindIff` say what is left of it otherwise.
- Autotune.RoundTripIff: for the rate NaN the parsed value is equal in the model but not under the float comparison of the program.
- Calendar.CivilIsDate: integers are unbounded; the 64-bit addition overflows only for days within 719468 of the 64-bit limit.
- HashrateWindows.Windows.WindowAverage: sums are reals; since the filtered samples are equal as sequences, any summation in order gives equal results.
- Supervision.HangIsCaughtInOneWindow: a tick of the watchdog is one step between thermal polls; a gate that flips between its two loads is covered by `Supervision.PausedTickStandsDown`.
- Thermal.Deadman.Advance: durations are unbounded where the code saturates at the largest duration.
