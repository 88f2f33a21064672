/**
 The thermal throttle: a temperature decision with hysteresis, the dead-man that bounds a continuous pause, the gate
 both drive, and the bounds they keep over whole runs. Time is in any fixed unit.
 */
module Thermal {
  import opened Words
  import opened Binary64

  datatype Config = Config(enabled: bool, limit: F64, resume: F64, maxPause: nat)

  const DEFAULT_HYSTERESIS: real := 5.0
  const DEFAULT_MAX_PAUSE_SECS: nat := 600
  const FORCE_RESUME_WINDOW_SECS: nat := 90

  /** `build_thermal_cfg`; `lowered` is what `limit - 5.0` evaluates to. */
  function BuildConfig(limit: Option<F64>, resume: Option<F64>, maxPause: Option<nat>, lowered: F64): Config {
    match limit
    case None => Config(false, Finite(83.0), Finite(78.0), DEFAULT_MAX_PAUSE_SECS)
    case Some(l) =>
      Config(true, l, if resume.Some? && Less(resume.value, l) then resume.value else Max(lowered, Finite(0.0)),
             match maxPause case Some(m) => m case None => DEFAULT_MAX_PAUSE_SECS)
  }

  /**
   The resume threshold is below the limit exactly when a lower one was given or the limit lies in (0, 2^56]: an
   infinite or NaN limit, one that is not positive, and one so large that subtracting 5 rounds back all break it.
   */
  lemma ResumeBelowLimitIff(limit: F64, resume: Option<F64>, maxPause: Option<nat>, lowered: F64)
    requires IsF64(limit) && IsDifference(limit, DEFAULT_HYSTERESIS, lowered)
    ensures var cfg := BuildConfig(Some(limit), resume, maxPause, lowered);
            Less(cfg.resume, cfg.limit) <==>
              (resume.Some? && Less(resume.value, limit)) || (limit.Finite? && 0.0 < limit.r <= TWO56)
  {
    hide Nearest, IsDouble;
    if limit.Finite? && limit.r > 0.0 {
      FiveIsSubtractedIff(limit.r, lowered.r);
    }
  }

  /**
   Throttling is on exactly when a limit is given. A given resume threshold is kept when it is below the limit; a
   derived one is five degrees below, and never negative.
   */
  lemma ConfigMeans(limit: Option<F64>, resume: Option<F64>, maxPause: Option<nat>, lowered: F64)
    requires limit.Some? ==> IsDifference(limit.value, 5.0, lowered)
    ensures var cfg := BuildConfig(limit, resume, maxPause, lowered);
            && (cfg.enabled <==> limit.Some?)
            && (limit.Some? ==>
                  cfg.limit == limit.value && cfg.maxPause == if maxPause.Some? then maxPause.value else 600)
            && (limit.Some? && resume.Some? && Less(resume.value, limit.value) ==> cfg.resume == resume.value)
            && (limit.Some? && !(resume.Some? && Less(resume.value, limit.value)) ==>
                  cfg.resume == if Less(Finite(0.0), lowered) then lowered else Finite(0.0))
  {
  }

  /** With an infinite limit the threshold is infinite too. */
  lemma InfiniteLimit(maxPause: Option<nat>)
    ensures var cfg := BuildConfig(Some(PosInf), None, maxPause, PosInf);
            IsDifference(PosInf, DEFAULT_HYSTERESIS, PosInf) && cfg.resume == PosInf && !Less(cfg.resume, cfg.limit)
  {
  }

  /** `thermal_decision`: is the next state paused? Missing or NaN telemetry fails safe to running. */
  function Decide(paused: bool, temp: Option<F64>, cfg: Config): bool {
    if !cfg.enabled then false
    else match temp
      case None => false
      case Some(t) =>
        if t.NaN? then false
        else if paused then !AtMost(t, cfg.resume)
        else Less(cfg.limit, t)
  }

  /** A reading inside the band holds the state, whichever it is; one outside decides it, whatever it was. */
  lemma Hysteresis(paused: bool, t: F64, cfg: Config)
    requires cfg.enabled && Less(cfg.resume, cfg.limit)
    ensures t.NaN? ==> !Decide(paused, Some(t), cfg)
    ensures Less(cfg.limit, t) ==> Decide(paused, Some(t), cfg)
    ensures AtMost(t, cfg.resume) ==> !Decide(paused, Some(t), cfg)
    ensures Less(cfg.resume, t) && AtMost(t, cfg.limit) ==> Decide(paused, Some(t), cfg) == paused
  {
  }

  /** A steady reading that pauses a running card and resumes a paused one. */
  ghost predicate Flaps(cfg: Config, t: F64) {
    Decide(false, Some(t), cfg) && !Decide(true, Some(t), cfg)
  }

  /** Some steady temperature makes the gate flip on every sample exactly when the threshold is above the limit. */
  lemma FlapsIff(cfg: Config)
    requires cfg.enabled
    ensures (exists t :: Flaps(cfg, t)) <==> Less(cfg.limit, cfg.resume)
  {
    if Less(cfg.limit, cfg.resume) {
      assert Flaps(cfg, cfg.resume);
    }
  }

  // ---------- The dead-man ----------

  datatype DeadmanState = DeadmanState(pausedFor: nat, forcingLeft: Option<nat>)

  const IDLE: DeadmanState := DeadmanState(0, None)

  /** The state after a tick, whether the gate is to be paused, and whether a window opened. */
  function Tick(d: DeadmanState, paused: bool, elapsed: nat, cap: nat, window: nat): (DeadmanState, bool, bool) {
    match d.forcingLeft
    case Some(left) =>
      if SatSub(left, elapsed) == 0 then (DeadmanState(0, None), paused, false)
      else (DeadmanState(d.pausedFor, Some(left - elapsed)), false, false)
    case None =>
      if !paused then (DeadmanState(0, None), false, false)
      else if d.pausedFor + elapsed >= cap then (DeadmanState(0, Some(window)), false, true)
      else (DeadmanState(d.pausedFor + elapsed, None), true, false)
  }

  class ThermalGate {
    var paused: bool

    constructor ()
      ensures !paused
    {
      paused := false;
    }

    method Apply(now: bool) returns (changed: bool)
      modifies this
      ensures paused == now && changed == (old(paused) != now)
    {
      changed := paused != now;
      paused := now;
    }
  }

  class Deadman {
    var pausedFor: nat
    var forcingLeft: Option<nat>

    constructor ()
      ensures View() == IDLE
    {
      pausedFor, forcingLeft := 0, None;
    }

    ghost function View(): DeadmanState
      reads this
    {
      DeadmanState(pausedFor, forcingLeft)
    }

    method Advance(paused: bool, elapsed: nat, cap: nat, window: nat) returns (apply: bool, forcedOpen: bool)
      modifies this
      ensures (View(), apply, forcedOpen) == Tick(old(View()), paused, elapsed, cap, window)
    {
      if forcingLeft.Some? {
        var remaining := SatSub(forcingLeft.value, elapsed);
        if remaining == 0 {
          forcingLeft := None;
          pausedFor := 0;
          return paused, false;
        } else {
          forcingLeft := Some(remaining);
          return false, false;
        }
      }
      if !paused {
        pausedFor := 0;
        return paused, false;
      }
      pausedFor := pausedFor + elapsed;
      if pausedFor >= cap {
        forcingLeft := Some(window);
        pausedFor := 0;
        return false, true;
      }
      return paused, false;
    }
  }

  /** `thermal_tick_with_deadman`: the dead-man sees the raw decision, the gate gets the overridden one. */
  method TickGate(gate: ThermalGate, deadman: Deadman, temp: Option<F64>, cfg: Config, elapsed: nat)
    returns (applied: bool, changed: bool, forcedOpen: bool)
    modifies gate, deadman
    ensures (deadman.View(), applied, forcedOpen)
              == Tick(old(deadman.View()), Decide(old(gate.paused), temp, cfg), elapsed, cfg.maxPause,
                      FORCE_RESUME_WINDOW_SECS)
    ensures gate.paused == applied && changed == (old(gate.paused) != gate.paused)
  {
    var decision := Decide(gate.paused, temp, cfg);
    applied, forcedOpen := deadman.Advance(decision, elapsed, cfg.maxPause, FORCE_RESUME_WINDOW_SECS);
    changed := gate.Apply(applied);
  }

  // ---------- Whole runs ----------

  /** One poll: the raw thermal verdict and the time since the previous poll. */
  datatype Poll = Poll(paused: bool, elapsed: nat)

  /** The dead-man after a run of polls. */
  function After(polls: seq<Poll>, cap: nat, window: nat): DeadmanState {
    if polls == [] then IDLE
    else
      var last := polls[|polls| - 1];
      Tick(After(polls[..|polls| - 1], cap, window), last.paused, last.elapsed, cap, window).0
  }

  /** Was the gate paused at poll `i`? */
  predicate PausedAt(polls: seq<Poll>, cap: nat, window: nat, i: nat)
    requires i < |polls|
  {
    Tick(After(polls[..i], cap, window), polls[i].paused, polls[i].elapsed, cap, window).1
  }

  /** Did a forced window open at poll `i`? */
  predicate OpenedAt(polls: seq<Poll>, cap: nat, window: nat, i: nat)
    requires i < |polls|
  {
    Tick(After(polls[..i], cap, window), polls[i].paused, polls[i].elapsed, cap, window).2
  }

  /** The time that passed over polls `from` to `to - 1`. */
  function Elapsed(polls: seq<Poll>, from: nat, to: nat): nat
    requires from <= to <= |polls|
  {
    if from == to then 0 else Elapsed(polls, from, to - 1) + polls[to - 1].elapsed
  }

  lemma AfterNext(polls: seq<Poll>, cap: nat, window: nat, i: nat)
    requires i < |polls|
    ensures After(polls[..i + 1], cap, window)
              == Tick(After(polls[..i], cap, window), polls[i].paused, polls[i].elapsed, cap, window).0
  {
    assert polls[..i + 1][..i] == polls[..i];
  }

  /** How far a block of paused polls is: no window is open, and the accrued pause covers all but its first poll. */
  lemma {:induction false} PausedBlock(polls: seq<Poll>, cap: nat, window: nat, a: nat, b: nat)
    requires a < b <= |polls| && forall i :: a <= i < b ==> PausedAt(polls, cap, window, i)
    ensures var d := After(polls[..b], cap, window);
            d.forcingLeft == None && Elapsed(polls, a + 1, b) <= d.pausedFor && (d.pausedFor < cap || b == a + 1)
  {
    AfterNext(polls, cap, window, b - 1);
    if b > a + 1 {
      PausedBlock(polls, cap, window, a, b - 1);
    }
    assert PausedAt(polls, cap, window, b - 1);
  }

  /** A continuous pause stays under the cap: after its first poll, less than `cap` elapses while it lasts. */
  lemma PauseIsBounded(polls: seq<Poll>, cap: nat, window: nat, a: nat, b: nat)
    requires a + 1 < b <= |polls| && forall i :: a <= i < b ==> PausedAt(polls, cap, window, i)
    ensures Elapsed(polls, a + 1, b) < cap
  {
    PausedBlock(polls, cap, window, a, b);
  }

  /** Once opened, a window holds the gate running until its length has elapsed. */
  lemma {:induction false} WindowHolds(polls: seq<Poll>, cap: nat, window: nat, i: nat, j: nat)
    requires i <= j < |polls| && OpenedAt(polls, cap, window, i)
    requires i < j ==> Elapsed(polls, i + 1, j + 1) < window
    ensures !PausedAt(polls, cap, window, j)
    ensures After(polls[..j + 1], cap, window).forcingLeft
            == Some(if i < j then window - Elapsed(polls, i + 1, j + 1) else window)
  {
    AfterNext(polls, cap, window, j);
    if i < j {
      ElapsedGrows(polls, i + 1, j);
      WindowHolds(polls, cap, window, i, j - 1);
    }
  }

  lemma ElapsedGrows(polls: seq<Poll>, from: nat, to: nat)
    requires from <= to < |polls|
    ensures Elapsed(polls, from, to + 1) == Elapsed(polls, from, to) + polls[to].elapsed
  {
  }

  /** After an opening, time first pays for the window and then for the accrued pause. */
  lemma {:induction false} SinceOpening(polls: seq<Poll>, cap: nat, window: nat, i: nat, k: nat)
    requires i < k <= |polls| && OpenedAt(polls, cap, window, i)
    ensures var d, e := After(polls[..k], cap, window), Elapsed(polls, i + 1, k);
            match d.forcingLeft case Some(left) => e + left >= window case None => e >= window + d.pausedFor
  {
    hide After;
    AfterNext(polls, cap, window, k - 1);
    if i + 1 < k {
      SinceOpening(polls, cap, window, i, k - 1);
    }
  }

  /** Any two openings are at least window plus cap apart. */
  lemma OpeningsAreApart(polls: seq<Poll>, cap: nat, window: nat, i: nat, j: nat)
    requires i < j < |polls| && OpenedAt(polls, cap, window, i) && OpenedAt(polls, cap, window, j)
    ensures Elapsed(polls, i + 1, j + 1) >= window + cap
  {
    SinceOpening(polls, cap, window, i, j);
    ElapsedGrows(polls, i + 1, j);
  }

  /** A card that reads hot forever is looked at: a pause that has lasted the cap opens a window. */
  lemma StuckHotOpens(polls: seq<Poll>, cap: nat, window: nat, a: nat, b: nat)
    requires a < b <= |polls| && After(polls[..a], cap, window) == IDLE
    requires forall i :: a <= i < b ==> polls[i].paused
    requires Elapsed(polls, a, b) >= cap
    ensures exists i :: a <= i < b && OpenedAt(polls, cap, window, i)
  {
    if forall i :: a <= i < b ==> !OpenedAt(polls, cap, window, i) {
      Accrues(polls, cap, window, a, b);
    }
  }

  lemma {:induction false} Accrues(polls: seq<Poll>, cap: nat, window: nat, a: nat, b: nat)
    requires a <= b <= |polls| && After(polls[..a], cap, window) == IDLE
    requires forall i :: a <= i < b ==> polls[i].paused && !OpenedAt(polls, cap, window, i)
    ensures After(polls[..b], cap, window) == DeadmanState(Elapsed(polls, a, b), None)
    ensures a < b ==> Elapsed(polls, a, b) < cap
  {
    hide After;
    if a < b {
      Accrues(polls, cap, window, a, b - 1);
      AfterNext(polls, cap, window, b - 1);
      ElapsedGrows(polls, a, b - 1);
      hide Elapsed;
      assert !OpenedAt(polls, cap, window, b - 1);
    }
  }

  // ---------- When the throttle is applied ----------

  /** Poll `i` lies in a forced window, that is before the poll that sees its length elapsed. */
  ghost predicate InWindow(polls: seq<Poll>, cap: nat, window: nat, i: nat)
    requires i < |polls|
  {
    exists j :: 0 <= j < i && OpenedAt(polls, cap, window, j) && Elapsed(polls, j + 1, i + 1) < window
  }

  /** An open window was opened, and what is left of it is what has not elapsed since. */
  lemma {:induction false} WindowHasOpening(polls: seq<Poll>, cap: nat, window: nat, i: nat) returns (j: nat)
    requires i <= |polls| && After(polls[..i], cap, window).forcingLeft.Some?
    ensures j < i && OpenedAt(polls, cap, window, j)
    ensures After(polls[..i], cap, window).forcingLeft == Some(window - Elapsed(polls, j + 1, i))
  {
    hide Elapsed, After, OpenedAt;
    NotOpenAtFirst(polls, cap, window);
    WindowGoesOn(polls, cap, window, i - 1);
    if OpenedAt(polls, cap, window, i - 1) {
      j := i - 1;
      NoTime(polls, i);
    } else {
      j := WindowHasOpening(polls, cap, window, i - 1);
      ElapsedGrows(polls, j + 1, i - 1);
    }
  }

  lemma NotOpenAtFirst(polls: seq<Poll>, cap: nat, window: nat)
    ensures After(polls[..0], cap, window) == IDLE
  {
  }

  lemma WindowGoesOn(polls: seq<Poll>, cap: nat, window: nat, i: nat)
    requires i < |polls| && After(polls[..i + 1], cap, window).forcingLeft.Some?
    ensures var left := After(polls[..i + 1], cap, window).forcingLeft.value;
            if OpenedAt(polls, cap, window, i) then left == window
            else
              && After(polls[..i], cap, window).forcingLeft.Some?
              && After(polls[..i], cap, window).forcingLeft.value == left + polls[i].elapsed
  {
    hide After;
    AfterNext(polls, cap, window, i);
  }

  lemma NoTime(polls: seq<Poll>, i: nat)
    requires i <= |polls|
    ensures Elapsed(polls, i, i) == 0
  {
  }

  /**
   The gate is paused at a poll exactly when the raw verdict is paused, no forced window opens there and the poll lies
   in none.
   */
  lemma PausedIff(polls: seq<Poll>, cap: nat, window: nat, i: nat)
    requires i < |polls|
    ensures PausedAt(polls, cap, window, i)
            <==> polls[i].paused && !OpenedAt(polls, cap, window, i) && !InWindow(polls, cap, window, i)
  {
    hide After, Elapsed;
    if j :| 0 <= j < i && OpenedAt(polls, cap, window, j) && Elapsed(polls, j + 1, i + 1) < window {
      WindowHolds(polls, cap, window, j, i);
    }
    if polls[i].paused && !OpenedAt(polls, cap, window, i) && !PausedAt(polls, cap, window, i) {
      var j := WindowHasOpening(polls, cap, window, i);
      ElapsedGrows(polls, j + 1, i);
    }
  }

  /** Only a continuous pause accrues: a verdict to run, outside a window, resets the dead-man. */
  lemma RunningResets(polls: seq<Poll>, cap: nat, window: nat, i: nat)
    requires i < |polls| && !polls[i].paused && !InWindow(polls, cap, window, i)
    ensures After(polls[..i + 1], cap, window) == IDLE
  {
    hide After, Elapsed;
    AfterNext(polls, cap, window, i);
    if After(polls[..i], cap, window).forcingLeft.Some? {
      var j := WindowHasOpening(polls, cap, window, i);
      ElapsedGrows(polls, j + 1, i);
    }
  }

  /** So does the poll that sees a window's length elapsed. */
  lemma WindowEndResets(polls: seq<Poll>, cap: nat, window: nat, i: nat, j: nat)
    requires j < i < |polls| && OpenedAt(polls, cap, window, j)
    requires j + 1 < i ==> Elapsed(polls, j + 1, i) < window
    requires Elapsed(polls, j + 1, i + 1) >= window
    ensures After(polls[..i + 1], cap, window) == IDLE
  {
    hide After, Elapsed;
    AfterNext(polls, cap, window, i);
    WindowHolds(polls, cap, window, j, i - 1);
    ElapsedGrows(polls, j + 1, i);
    NoTime(polls, i);
  }

  /** From a reset on, a continuous pause opens a window exactly at the poll where it has lasted the cap. */
  lemma OpensAtTheCapIff(polls: seq<Poll>, cap: nat, window: nat, a: nat, i: nat)
    requires a <= i < |polls| && After(polls[..a], cap, window) == IDLE
    requires forall k :: a <= k <= i ==> polls[k].paused
    requires forall k :: a <= k < i ==> !OpenedAt(polls, cap, window, k)
    ensures OpenedAt(polls, cap, window, i) <==> Elapsed(polls, a, i + 1) >= cap
  {
    hide After, Elapsed;
    Accrues(polls, cap, window, a, i);
    ElapsedGrows(polls, a, i);
  }

  /** Under the cap the throttle is honoured at every poll of the pause. */
  lemma {:induction false} ThrottleIsApplied(polls: seq<Poll>, cap: nat, window: nat, a: nat, b: nat)
    requires a < b <= |polls| && After(polls[..a], cap, window) == IDLE
    requires forall i :: a <= i < b ==> polls[i].paused
    requires Elapsed(polls, a, b) < cap
    ensures forall i :: a <= i < b ==> PausedAt(polls, cap, window, i) && !OpenedAt(polls, cap, window, i)
  {
    hide After, PausedAt, OpenedAt;
    ElapsedGrows(polls, a, b - 1);
    if a < b - 1 {
      ThrottleIsApplied(polls, cap, window, a, b - 1);
    }
    PausedUnderCap(polls, cap, window, a, b - 1);
  }

  lemma PausedUnderCap(polls: seq<Poll>, cap: nat, window: nat, a: nat, i: nat)
    requires a <= i < |polls| && After(polls[..a], cap, window) == IDLE
    requires forall k :: a <= k <= i ==> polls[k].paused
    requires forall k :: a <= k < i ==> !OpenedAt(polls, cap, window, k)
    requires Elapsed(polls, a, i + 1) < cap
    ensures PausedAt(polls, cap, window, i) && !OpenedAt(polls, cap, window, i)
  {
    hide After, Elapsed;
    Accrues(polls, cap, window, a, i);
    ElapsedGrows(polls, a, i);
  }
}
