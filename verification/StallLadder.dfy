/** The GPU-stall watchdog: a pure decision, the state it carries between ticks, and what whole runs guarantee. */
module StallLadder {
  import opened Words
  import opened Arithmetic
  import opened Binary64

  datatype Config = Config(enabled: bool, floorGhs: F64, dwellSamples: U32, recoverWindow: nat, maxRecoveries: U32)

  /** One sample of the live view. */
  datatype Sample = Sample(ghs: F64, jobsFlowing: bool, connHealthy: bool)

  datatype Action = Wait | Recover | Exit

  datatype State = State(flooredStreak: U32, recoveriesDone: U32, recoveryAt: Option<nat>)

  const RESET: State := State(0, 0, None)

  /** NaN counts as floored. */
  predicate IsFloored(ghs: F64, floor: F64) {
    ghs.NaN? || AtMost(ghs, floor)
  }

  predicate Actionable(cfg: Config, s: Sample) {
    IsFloored(s.ghs, cfg.floorGhs) && s.jobsFlowing && s.connHealthy
  }

  function SatInc(n: U32): U32 {
    if n == TWO32 - 1 then n else n + 1
  }

  /** `gpu_watchdog_decision` on the snapshot of a sample and the carried state. */
  function Decide(cfg: Config, s: Sample, st: State, now: nat): Action {
    if !cfg.enabled || !IsFloored(s.ghs, cfg.floorGhs) || !s.jobsFlowing || !s.connHealthy then Wait
    else if SatInc(st.flooredStreak) < cfg.dwellSamples then Wait
    else match st.recoveryAt
      case Some(at) =>
        if SatSub(now, at) < cfg.recoverWindow then Wait
        else if st.recoveriesDone < cfg.maxRecoveries then Recover
        else Exit
      case None => if cfg.maxRecoveries == 0 then Exit else Recover
  }

  /** The state after a tick; a failed rebuild spends an attempt and starts the grace window like a good one. */
  function Next(cfg: Config, s: Sample, st: State, now: nat): State {
    if !cfg.enabled then st
    else if !Actionable(cfg, s) then RESET
    else
      var counted := st.(flooredStreak := SatInc(st.flooredStreak));
      if Decide(cfg, s, st, now) == Recover
      then counted.(recoveriesDone := SatInc(st.recoveriesDone), recoveryAt := Some(now))
      else counted
  }

  /** `GpuWatchdogState` and the tick that updates it. */
  class Watchdog {
    var flooredStreak: U32
    var recoveriesDone: U32
    var recoveryAtMs: Option<nat>

    constructor ()
      ensures View() == RESET
    {
      flooredStreak, recoveriesDone, recoveryAtMs := 0, 0, None;
    }

    ghost function View(): State
      reads this
    {
      State(flooredStreak, recoveriesDone, recoveryAtMs)
    }

    /** `gpu_watchdog_tick`; `rebuilt` is what `view.recover()` would return. */
    method Tick(cfg: Config, s: Sample, rebuilt: bool, now: nat) returns (action: Action)
      modifies this
      ensures action == Decide(cfg, s, old(View()), now)
      ensures View() == Next(cfg, s, old(View()), now)
    {
      if !cfg.enabled {
        return Wait;
      }
      if !IsFloored(s.ghs, cfg.floorGhs) || !s.jobsFlowing || !s.connHealthy {
        flooredStreak, recoveriesDone, recoveryAtMs := 0, 0, None;
        return Wait;
      }
      action := Decide(cfg, s, State(flooredStreak, recoveriesDone, recoveryAtMs), now);
      flooredStreak := SatInc(flooredStreak);
      if action == Recover {
        if rebuilt {
          recoveriesDone := SatInc(recoveriesDone);
          recoveryAtMs := Some(now);
        } else {
          recoveriesDone := SatInc(recoveriesDone);
          recoveryAtMs := Some(now);
        }
      }
    }
  }

  // ---------- Whole runs ----------

  datatype Turn = Turn(sample: Sample, now: nat)

  function After(cfg: Config, turns: seq<Turn>): State {
    if turns == [] then RESET
    else
      var last := turns[|turns| - 1];
      Next(cfg, last.sample, After(cfg, turns[..|turns| - 1]), last.now)
  }

  /** The action of tick `i` of the run. */
  function ActionAt(cfg: Config, turns: seq<Turn>, i: nat): Action
    requires i < |turns|
  {
    Decide(cfg, turns[i].sample, After(cfg, turns[..i]), turns[i].now)
  }

  function LastAction(cfg: Config, turns: seq<Turn>): Action
    requires turns != []
  {
    ActionAt(cfg, turns, |turns| - 1)
  }

  /** Where the unbroken streak of actionable samples at the end of the run begins. */
  function StreakStart(cfg: Config, turns: seq<Turn>): (s: nat)
    ensures s <= |turns|
    ensures forall i :: s <= i < |turns| ==> Actionable(cfg, turns[i].sample)
    ensures s > 0 ==> !Actionable(cfg, turns[s - 1].sample)
  {
    if turns == [] then 0
    else if Actionable(cfg, turns[|turns| - 1].sample) then
      var before := turns[..|turns| - 1];
      assert forall i :: 0 <= i < |before| ==> before[i] == turns[i];
      StreakStart(cfg, before)
    else |turns|
  }

  /** When recovery was attempted during that streak. */
  function RecoverTimes(cfg: Config, turns: seq<Turn>): seq<nat> {
    if turns == [] || !Actionable(cfg, turns[|turns| - 1].sample) then []
    else
      var before := RecoverTimes(cfg, turns[..|turns| - 1]);
      if LastAction(cfg, turns) == Recover then before + [turns[|turns| - 1].now] else before
  }

  ghost predicate Nondecreasing(turns: seq<Turn>) {
    forall i, k :: 0 <= i <= k < |turns| ==> turns[i].now <= turns[k].now
  }

  /** Consecutive times are at least `gap` apart. */
  ghost predicate Spaced(times: seq<nat>, gap: nat) {
    forall i :: 0 < i < |times| ==> times[i - 1] + gap <= times[i]
  }

  /** The streak counter saturates but otherwise counts the current streak. */
  lemma {:induction false} StreakIsCounted(cfg: Config, turns: seq<Turn>)
    requires cfg.enabled
    ensures After(cfg, turns).flooredStreak == Min(|turns| - StreakStart(cfg, turns), TWO32 - 1)
  {
    hide Actionable, Decide;
    if turns != [] {
      StreakIsCounted(cfg, turns[..|turns| - 1]);
    }
  }

  /** The recovery count and stamp are those of the attempts of the current streak. */
  ghost predicate Attempted(cfg: Config, st: State, times: seq<nat>, now: nat) {
    && st.recoveriesDone == |times| <= cfg.maxRecoveries
    && st.recoveryAt == (if times == [] then None else Some(times[|times| - 1]))
    && Spaced(times, cfg.recoverWindow)
    && forall i :: 0 <= i < |times| ==> times[i] <= now
  }

  lemma AttemptAdds(cfg: Config, s: Sample, st: State, times: seq<nat>, before: nat, now: nat)
    requires cfg.enabled && Attempted(cfg, st, times, before) && before <= now
    ensures Attempted(cfg, Next(cfg, s, st, now),
                      if !Actionable(cfg, s) then []
                      else if Decide(cfg, s, st, now) == Recover then times + [now] else times, now)
  {
    hide IsFloored;
  }

  function LastTime(turns: seq<Turn>): nat {
    if turns == [] then 0 else turns[|turns| - 1].now
  }

  /** A disabled watchdog never acts and never counts. */
  lemma {:induction false} DisabledDoesNothing(cfg: Config, turns: seq<Turn>)
    requires !cfg.enabled
    ensures After(cfg, turns) == RESET && (turns != [] ==> LastAction(cfg, turns) == Wait)
  {
    if turns != [] {
      DisabledDoesNothing(cfg, turns[..|turns| - 1]);
    }
  }

  lemma {:induction false} AttemptsAreHistory(cfg: Config, turns: seq<Turn>)
    requires cfg.enabled && Nondecreasing(turns)
    ensures Attempted(cfg, After(cfg, turns), RecoverTimes(cfg, turns), LastTime(turns))
  {
    hide Actionable, Decide, Attempted, Next;
    if turns == [] {
      NothingAttempted(cfg);
    } else {
      var before, last := turns[..|turns| - 1], turns[|turns| - 1];
      AttemptsAreHistory(cfg, before);
      AttemptAdds(cfg, last.sample, After(cfg, before), RecoverTimes(cfg, before), LastTime(before), last.now);
    }
  }

  lemma {:induction false} AttemptsNeedTheDwell(cfg: Config, turns: seq<Turn>)
    requires cfg.enabled
    ensures RecoverTimes(cfg, turns) != [] ==> |turns| - StreakStart(cfg, turns) >= cfg.dwellSamples
  {
    hide Actionable, Decide, After;
    if turns != [] {
      var before, last := turns[..|turns| - 1], turns[|turns| - 1];
      AttemptsNeedTheDwell(cfg, before);
      StreakIsCounted(cfg, before);
      if LastAction(cfg, turns) == Recover {
        RecoverMeans(cfg, last.sample, After(cfg, before), last.now);
      }
    }
  }

  /** The carried state is exactly the history of the current streak. */
  lemma StateIsHistory(cfg: Config, turns: seq<Turn>)
    requires cfg.enabled && Nondecreasing(turns)
    ensures After(cfg, turns).flooredStreak == Min(|turns| - StreakStart(cfg, turns), TWO32 - 1)
    ensures Attempted(cfg, After(cfg, turns), RecoverTimes(cfg, turns), LastTime(turns))
    ensures RecoverTimes(cfg, turns) != [] ==> |turns| - StreakStart(cfg, turns) >= cfg.dwellSamples
    ensures |RecoverTimes(cfg, turns)| <= cfg.maxRecoveries
  {
    hide After, RecoverTimes, StreakStart, Nondecreasing, Attempted;
    StreakIsCounted(cfg, turns);
    AttemptsAreHistory(cfg, turns);
    AttemptsNeedTheDwell(cfg, turns);
    AttemptsFit(cfg, After(cfg, turns), RecoverTimes(cfg, turns), LastTime(turns));
  }

  lemma AttemptsFit(cfg: Config, st: State, times: seq<nat>, now: nat)
    ensures Attempted(cfg, st, times, now) ==> |times| <= cfg.maxRecoveries
  {
  }

  lemma NothingAttempted(cfg: Config)
    ensures Attempted(cfg, RESET, [], 0)
  {
  }

  /** An attempt needs the dwell, budget, and a window that has passed since the last one. */
  lemma RecoverMeans(cfg: Config, s: Sample, st: State, now: nat)
    requires Decide(cfg, s, st, now) == Recover
    ensures SatInc(st.flooredStreak) >= cfg.dwellSamples && Actionable(cfg, s)
    ensures st.recoveryAt.Some? ==> SatSub(now, st.recoveryAt.value) >= cfg.recoverWindow
    ensures st.recoveriesDone < cfg.maxRecoveries || (st.recoveryAt.None? && cfg.maxRecoveries > 0)
  {
  }

  lemma DecideNeedsActionable(cfg: Config, s: Sample, st: State, now: nat)
    ensures Decide(cfg, s, st, now) != Wait ==> Actionable(cfg, s)
  {
  }

  /** A rate exactly at the floor is floored; so is NaN, and against a NaN floor nothing else. */
  lemma FlooredIff(ghs: F64, floor: F64)
    ensures ghs == floor ==> IsFloored(ghs, floor)
    ensures ghs.Finite? && floor.Finite? ==> (IsFloored(ghs, floor) <==> ghs.r <= floor.r)
    ensures ghs.NaN? ==> IsFloored(ghs, floor)
    ensures floor.NaN? && !ghs.NaN? ==> !IsFloored(ghs, floor)
    ensures ghs.PosInf? && !floor.NaN? ==> (IsFloored(ghs, floor) <==> floor.PosInf?)
  {
  }

  /**
   The process exits only at the end of an unbroken streak of at least `dwell` actionable samples, after exactly
   `maxRecoveries` attempts in that streak, the attempts and the exit each at least a recover window apart.
   */
  lemma ExitIsEarned(cfg: Config, turns: seq<Turn>)
    requires cfg.enabled && Nondecreasing(turns) && turns != [] && LastAction(cfg, turns) == Exit
    ensures |turns| - StreakStart(cfg, turns) >= cfg.dwellSamples && StreakStart(cfg, turns) < |turns|
    ensures |RecoverTimes(cfg, turns)| == cfg.maxRecoveries
    ensures Spaced(RecoverTimes(cfg, turns) + [turns[|turns| - 1].now], cfg.recoverWindow)
  {
    hide Actionable, Decide, After, Attempted, Spaced;
    var last, before := turns[|turns| - 1], turns[..|turns| - 1];
    StateIsHistory(cfg, before);
    ExitMeans(cfg, last.sample, After(cfg, before), last.now);
    ExitSpacing(cfg, last.sample, After(cfg, before), RecoverTimes(cfg, before), LastTime(before), last.now);
  }

  lemma ExitSpacing(cfg: Config, s: Sample, st: State, times: seq<nat>, before: nat, now: nat)
    requires Attempted(cfg, st, times, before) && before <= now && Decide(cfg, s, st, now) == Exit
    ensures |times| == cfg.maxRecoveries && Spaced(times + [now], cfg.recoverWindow)
  {
    hide Decide;
    ExitMeans(cfg, s, st, now);
  }

  lemma ExitMeans(cfg: Config, s: Sample, st: State, now: nat)
    requires Decide(cfg, s, st, now) == Exit
    ensures SatInc(st.flooredStreak) >= cfg.dwellSamples && Actionable(cfg, s)
    ensures match st.recoveryAt
            case Some(at) => SatSub(now, at) >= cfg.recoverWindow && st.recoveriesDone >= cfg.maxRecoveries
            case None => cfg.maxRecoveries == 0
  {
  }

  /** An attempt is made only on such a streak too, with budget left. */
  lemma RecoverIsEarned(cfg: Config, turns: seq<Turn>)
    requires cfg.enabled && Nondecreasing(turns) && turns != [] && LastAction(cfg, turns) == Recover
    ensures |turns| - StreakStart(cfg, turns) >= cfg.dwellSamples && StreakStart(cfg, turns) < |turns|
    ensures |RecoverTimes(cfg, turns)| <= cfg.maxRecoveries
  {
    hide Actionable, IsFloored;
    var last, before := turns[|turns| - 1], turns[..|turns| - 1];
    DecideNeedsActionable(cfg, last.sample, After(cfg, before), last.now);
    StateIsHistory(cfg, before);
    StateIsHistory(cfg, turns);
  }

  // ---------- How soon a stall ends ----------

  /** Ticks, at least `delta` apart, that are sure to outlast the recover window. */
  function TicksPerRecovery(cfg: Config, delta: nat): (k: nat)
    requires delta > 0
    ensures k >= 1 && k * delta >= cfg.recoverWindow
  {
    var k := (cfg.recoverWindow + delta - 1) / delta;
    assert k * delta >= cfg.recoverWindow by { CeilCovers(cfg.recoverWindow, delta); }
    if k == 0 then 1 else k
  }

  lemma CeilCovers(x: nat, d: nat)
    requires d > 0
    ensures (x + d - 1) / d * d >= x
  {
    var q := (x + d - 1) / d;
    assert x + d - 1 == d * q + (x + d - 1) % d;
  }

  /** The dwell in ticks: a dwell of 0 acts on the first sample, like a dwell of 1. */
  function Dwell(cfg: Config): nat {
    if cfg.dwellSamples == 0 then 1 else cfg.dwellSamples
  }

  /** Ticks within which an unbroken stall reaches Exit. */
  function ExitBound(cfg: Config, delta: nat): (n: nat)
    requires delta > 0
    ensures n >= 1
  {
    Dwell(cfg) + cfg.maxRecoveries * TicksPerRecovery(cfg, delta)
  }

  /** The samples of the current streak are at least `delta` apart. */
  ghost predicate SampledEvery(cfg: Config, turns: seq<Turn>, delta: nat) {
    forall i :: StreakStart(cfg, turns) < i < |turns| ==> turns[i - 1].now + delta <= turns[i].now
  }

  /** No tick of the current streak exited. */
  ghost predicate NoExitInStreak(cfg: Config, turns: seq<Turn>) {
    forall i :: StreakStart(cfg, turns) <= i < |turns| ==> ActionAt(cfg, turns, i) != Exit
  }

  lemma StreakPrefix(cfg: Config, turns: seq<Turn>, delta: nat)
    requires turns != [] && StreakStart(cfg, turns) < |turns|
    ensures var before := turns[..|turns| - 1];
            && StreakStart(cfg, before) == StreakStart(cfg, turns)
            && (SampledEvery(cfg, turns, delta) ==> SampledEvery(cfg, before, delta))
            && (NoExitInStreak(cfg, turns) ==> NoExitInStreak(cfg, before) && LastAction(cfg, turns) != Exit)
            && (Nondecreasing(turns) ==> Nondecreasing(before))
  {
    hide Actionable, Decide, After;
    var before := turns[..|turns| - 1];
    assert forall i :: 0 <= i < |before| ==> before[i] == turns[i];
    forall i | 0 <= i < |before|
      ensures ActionAt(cfg, before, i) == ActionAt(cfg, turns, i)
    {
      assert before[..i] == turns[..i];
    }
  }

  /** What the last tick of a streak did, in terms of the attempts before it. */
  lemma TickOfStreak(cfg: Config, turns: seq<Turn>)
    requires cfg.enabled && Nondecreasing(turns) && StreakStart(cfg, turns) < |turns|
    requires LastAction(cfg, turns) != Exit
    ensures var times, now := RecoverTimes(cfg, turns[..|turns| - 1]), turns[|turns| - 1].now;
            RecoverTimes(cfg, turns) == if LastAction(cfg, turns) == Recover then times + [now] else times
    ensures var times, now := RecoverTimes(cfg, turns[..|turns| - 1]), turns[|turns| - 1].now;
            LastAction(cfg, turns) == Wait ==>
              if times == [] then |turns| - StreakStart(cfg, turns) < cfg.dwellSamples
              else SatSub(now, times[|times| - 1]) < cfg.recoverWindow
  {
    hide IsFloored;
    var before := turns[..|turns| - 1];
    StateIsHistory(cfg, before);
  }

  /**
   How far a stall without an exit can have come: no attempt and still dwelling, or `c` ticks after its last attempt,
   all attempts before it having taken at most `TicksPerRecovery` ticks each.
   */
  ghost predicate Progress(cfg: Config, k: nat, times: seq<nat>, now: nat, delta: nat, c: nat)
    requires delta > 0
  {
    if times == [] then k < Dwell(cfg)
    else
      && k <= Dwell(cfg) + (|times| - 1) * TicksPerRecovery(cfg, delta) + c
      && c < TicksPerRecovery(cfg, delta)
      && times[|times| - 1] + c * delta <= now
  }

  lemma ProgressByAttempt(cfg: Config, k: nat, times: seq<nat>, before: nat, now: nat, delta: nat, c: nat)
    requires delta > 0 && Progress(cfg, k, times, before, delta, c)
    ensures Progress(cfg, k + 1, times + [now], now, delta, 0)
  {
    hide TicksPerRecovery;
    var r, K := |times|, TicksPerRecovery(cfg, delta);
    if r > 0 {
      assert r * K == (r - 1) * K + K;
    } else {
      assert 0 * K == 0;
    }
    assert 0 * delta == 0;
  }

  lemma ProgressByWaiting(cfg: Config, k: nat, times: seq<nat>, before: nat, now: nat, delta: nat, c: nat)
    requires delta > 0 && Progress(cfg, k, times, before, delta, c) && before + delta <= now
    requires times != [] && SatSub(now, times[|times| - 1]) < cfg.recoverWindow
    ensures Progress(cfg, k + 1, times, now, delta, c + 1)
  {
    var K := TicksPerRecovery(cfg, delta);
    assert (c + 1) * delta == c * delta + delta;
    hide TicksPerRecovery;
    MulLess(c + 1, K, delta);
  }

  lemma {:induction false} StallProgress(cfg: Config, turns: seq<Turn>, delta: nat) returns (c: nat)
    requires cfg.enabled && delta > 0 && Nondecreasing(turns) && turns != []
    requires SampledEvery(cfg, turns, delta) && NoExitInStreak(cfg, turns)
    ensures Progress(cfg, |turns| - StreakStart(cfg, turns), RecoverTimes(cfg, turns), turns[|turns| - 1].now, delta, c)
  {
    hide Actionable, IsFloored, ActionAt, NoExitInStreak, Nondecreasing, RecoverTimes, After;
    c := 0;
    var start, now := StreakStart(cfg, turns), turns[|turns| - 1].now;
    if start == |turns| {
      NoAttempts(cfg, turns);
      return;
    }
    var before := turns[..|turns| - 1];
    StreakPrefix(cfg, turns, delta);
    TickOfStreak(cfg, turns);
    var times := RecoverTimes(cfg, before);
    var c0 := 0;
    if start < |before| {
      c0 := StallProgress(cfg, before, delta);
    } else {
      NoAttempts(cfg, before);
    }
    hide SampledEvery, StreakStart, Progress;
    var prior := if start < |before| then before[|before| - 1].now else 0;
    assert Progress(cfg, |before| - start, times, prior, delta, c0) by {
      ProgressAtStart(cfg, delta);
    }
    if LastAction(cfg, turns) == Recover {
      ProgressByAttempt(cfg, |before| - start, times, prior, now, delta, c0);
    } else if times == [] {
      ProgressDwelling(cfg, |turns| - start, now, delta);
    } else {
      c := c0 + 1;
      ProgressByWaiting(cfg, |before| - start, times, before[|before| - 1].now, now, delta, c0);
    }
  }

  lemma NoAttempts(cfg: Config, turns: seq<Turn>)
    requires StreakStart(cfg, turns) == |turns|
    ensures RecoverTimes(cfg, turns) == []
  {
  }

  lemma ProgressAtStart(cfg: Config, delta: nat)
    requires delta > 0
    ensures Progress(cfg, 0, [], 0, delta, 0)
  {
  }

  lemma ProgressDwelling(cfg: Config, k: nat, now: nat, delta: nat)
    requires delta > 0 && k < cfg.dwellSamples
    ensures Progress(cfg, k, [], now, delta, 0)
  {
  }

  /** A stall that has not exited is shorter than the bound. */
  lemma NoExitIsShort(cfg: Config, turns: seq<Turn>, delta: nat)
    requires cfg.enabled && delta > 0 && Nondecreasing(turns) && turns != []
    requires SampledEvery(cfg, turns, delta) && NoExitInStreak(cfg, turns)
    ensures |turns| - StreakStart(cfg, turns) < ExitBound(cfg, delta)
  {
    hide *;
    var c := StallProgress(cfg, turns, delta);
    StateIsHistory(cfg, turns);
    ProgressIsBounded(cfg, |turns| - StreakStart(cfg, turns), RecoverTimes(cfg, turns),
                      turns[|turns| - 1].now, delta, c);
  }

  lemma ProgressIsBounded(cfg: Config, k: nat, times: seq<nat>, now: nat, delta: nat, c: nat)
    requires delta > 0 && Progress(cfg, k, times, now, delta, c) && |times| <= cfg.maxRecoveries
    ensures k < ExitBound(cfg, delta)
  {
    hide TicksPerRecovery;
    var r, K := |times|, TicksPerRecovery(cfg, delta);
    MulMono(r, cfg.maxRecoveries, K);
    assert r > 0 ==> r * K == (r - 1) * K + K;
  }

  /** An unbroken stall sampled at least `delta` apart reaches Exit within `ExitBound` ticks. */
  lemma StallReachesExit(cfg: Config, turns: seq<Turn>, delta: nat)
    requires cfg.enabled && delta > 0 && Nondecreasing(turns) && SampledEvery(cfg, turns, delta)
    requires |turns| - StreakStart(cfg, turns) >= ExitBound(cfg, delta)
    ensures exists i :: StreakStart(cfg, turns) <= i < |turns| && ActionAt(cfg, turns, i) == Exit
  {
    hide StreakStart, ActionAt, ExitBound, SampledEvery, Nondecreasing;
    if NoExitInStreak(cfg, turns) {
      NoExitIsShort(cfg, turns, delta);
    }
  }
}
