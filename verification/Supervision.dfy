/**
 The thermal gate, its dead-man and the stall watchdog together: the watchdog samples through the gate, so a thermal
 pause stands it down, and the dead-man's forced window is what lets it look at a card that reads hot forever.
 */
module Supervision {
  import opened Words
  import opened Arithmetic
  import opened Binary64
  import Thermal
  import Ladder = StallLadder

  datatype Joint = Joint(paused: bool, deadman: Thermal.DeadmanState, watchdog: Ladder.State)

  datatype Config = Config(thermal: Thermal.Config, ladder: Ladder.Config)

  /** One poll of either thread at time `at`. */
  datatype Event =
    | ThermalPoll(at: nat, temp: Option<F64>, elapsed: nat)
    | WatchdogPoll(at: nat, ghs: F64, jobs: bool, link: bool)

  /** `LoopGpuView`: the gate is loaded once per health question, and a paused gate answers no to each. */
  function Viewed(pausedForJobs: bool, pausedForLink: bool, e: Event): Ladder.Sample
    requires e.WatchdogPoll?
  {
    Ladder.Sample(e.ghs, !pausedForJobs && e.jobs, !pausedForLink && e.link)
  }

  function Seen(paused: bool, e: Event): Ladder.Sample
    requires e.WatchdogPoll?
  {
    Viewed(paused, paused, e)
  }

  function Step(cfg: Config, window: nat, s: Joint, e: Event): Joint {
    match e
    case ThermalPoll(_, temp, elapsed) =>
      var hot := Thermal.Decide(s.paused, temp, cfg.thermal);
      var t := Thermal.Tick(s.deadman, hot, elapsed, cfg.thermal.maxPause, window);
      s.(paused := t.1, deadman := t.0)
    case WatchdogPoll(at, _, _, _) => s.(watchdog := Ladder.Next(cfg.ladder, Seen(s.paused, e), s.watchdog, at))
  }

  function Action(cfg: Config, s: Joint, e: Event): Ladder.Action {
    match e
    case ThermalPoll(_, _, _) => Ladder.Wait
    case WatchdogPoll(at, _, _, _) => Ladder.Decide(cfg.ladder, Seen(s.paused, e), s.watchdog, at)
  }

  function Exec(cfg: Config, window: nat, s: Joint, events: seq<Event>): Joint {
    if events == [] then s
    else Step(cfg, window, Exec(cfg, window, s, events[..|events| - 1]), events[|events| - 1])
  }

  function ActionAt(cfg: Config, window: nat, s: Joint, events: seq<Event>, i: nat): Ladder.Action
    requires i < |events|
  {
    Action(cfg, Exec(cfg, window, s, events[..i]), events[i])
  }

  /**
   A watchdog tick that finds the gate paused at either of its two loads does nothing and forgets the stall, whatever
   the GPU shows.
   */
  lemma PausedTickStandsDown(cfg: Ladder.Config, st: Ladder.State, e: Event, pausedForJobs: bool, pausedForLink: bool)
    requires e.WatchdogPoll? && (pausedForJobs || pausedForLink)
    ensures Ladder.Decide(cfg, Viewed(pausedForJobs, pausedForLink, e), st, e.at) == Ladder.Wait
    ensures cfg.enabled ==> Ladder.Next(cfg, Viewed(pausedForJobs, pausedForLink, e), st, e.at) == Ladder.RESET
  {
  }

  /** One watchdog tick anywhere in a pause leaves the watchdog reset for as long as the pause lasts. */
  lemma {:induction false} PauseResets(cfg: Config, window: nat, s: Joint, events: seq<Event>, k: nat)
    requires cfg.ladder.enabled && k < |events| && events[k].WatchdogPoll?
    requires forall i :: k <= i < |events| ==> Exec(cfg, window, s, events[..i]).paused
    ensures Exec(cfg, window, s, events).watchdog == Ladder.RESET
  {
    hide Step;
    var n := |events| - 1;
    var before, last := events[..n], events[n];
    assert forall i :: 0 <= i <= n ==> before[..i] == events[..i];
    if k < n {
      PauseResets(cfg, window, s, before, k);
    }
    PausedStepResets(cfg, window, Exec(cfg, window, s, before), last);
  }

  lemma PausedStepResets(cfg: Config, window: nat, s: Joint, e: Event)
    requires cfg.ladder.enabled && s.paused && (e.WatchdogPoll? || s.watchdog == Ladder.RESET)
    ensures Step(cfg, window, s, e).watchdog == Ladder.RESET
  {
  }

  // ---------- The gate ----------

  /** The time the thermal polls account for. */
  function ThermalElapsed(events: seq<Event>): nat {
    if events == [] then 0
    else
      var last := events[|events| - 1];
      ThermalElapsed(events[..|events| - 1]) + if last.ThermalPoll? then last.elapsed else 0
  }

  ghost predicate ReadsHot(cfg: Thermal.Config, e: Event) {
    e.ThermalPoll? ==> e.temp.Some? && Less(cfg.limit, e.temp.value)
  }

  /**
   A card that reads above its limit at every poll is throttled from the first of them on, for as long as the cap has
   not passed.
   */
  lemma {:induction false} HotCardIsThrottled(cfg: Config, window: nat, s: Joint, events: seq<Event>)
    requires cfg.thermal.enabled && AtMost(cfg.thermal.resume, cfg.thermal.limit) && s.deadman == Thermal.IDLE
    requires forall i :: 0 <= i < |events| ==> ReadsHot(cfg.thermal, events[i])
    requires ThermalElapsed(events) < cfg.thermal.maxPause
    ensures Exec(cfg, window, s, events).deadman == Thermal.DeadmanState(ThermalElapsed(events), None)
    ensures (exists i :: 0 <= i < |events| && events[i].ThermalPoll?) ==> Exec(cfg, window, s, events).paused
  {
    if events != [] {
      var k := |events| - 1;
      var before := events[..k];
      assert forall i :: 0 <= i < k ==> before[i] == events[i];
      HotCardIsThrottled(cfg, window, s, before);
      hide Exec, ThermalElapsed;
      HotStep(cfg, window, Exec(cfg, window, s, before), events[k]);
    }
  }

  lemma HotStep(cfg: Config, window: nat, s: Joint, e: Event)
    requires cfg.thermal.enabled && AtMost(cfg.thermal.resume, cfg.thermal.limit) && ReadsHot(cfg.thermal, e)
    requires s.deadman.forcingLeft == None
    requires s.deadman.pausedFor + (if e.ThermalPoll? then e.elapsed else 0) < cfg.thermal.maxPause
    ensures var r := Step(cfg, window, s, e);
            && r.deadman == Thermal.DeadmanState(
                              s.deadman.pausedFor + (if e.ThermalPoll? then e.elapsed else 0), None)
            && r.paused == if e.ThermalPoll? then true else s.paused
  {
  }

  /** Polls `from` and later leave a paused gate paused: each has a reading above the resume threshold. */
  ghost predicate StaysWarm(cfg: Thermal.Config, events: seq<Event>, from: nat) {
    forall k :: from <= k < |events| && events[k].ThermalPoll? ==>
      events[k].temp.Some? && !events[k].temp.value.NaN? && !AtMost(events[k].temp.value, cfg.resume)
  }

  /** Poll `i` has a reading above the limit. */
  ghost predicate ClosedBy(cfg: Thermal.Config, events: seq<Event>, i: nat) {
    && i < |events| && events[i].ThermalPoll? && events[i].temp.Some? && Less(cfg.limit, events[i].temp.value)
    && StaysWarm(cfg, events, i + 1)
  }

  /**
   A closed gate was closed by a reading above the limit, with throttling enabled, and no poll since has missed a
   reading or found one at the resume threshold or below.
   */
  lemma {:induction false} ClosedGateMeansHot(cfg: Config, window: nat, s: Joint, events: seq<Event>)
    requires !s.paused && Exec(cfg, window, s, events).paused
    ensures cfg.thermal.enabled && exists i :: ClosedBy(cfg.thermal, events, i)
  {
    var k := |events| - 1;
    var before := events[..k];
    var r := Exec(cfg, window, s, before);
    assert forall i :: 0 <= i < k ==> before[i] == events[i];
    if r.paused {
      ClosedGateMeansHot(cfg, window, s, before);
      var i :| ClosedBy(cfg.thermal, before, i);
      assert ClosedBy(cfg.thermal, events, i);
    } else {
      assert ClosedBy(cfg.thermal, events, k);
    }
  }

  // ---------- One forced window ----------

  /** The last thermal poll's time, `since` if there was none yet. */
  function LastThermal(since: nat, events: seq<Event>): nat {
    if events == [] then since
    else if events[|events| - 1].ThermalPoll? then events[|events| - 1].at
    else LastThermal(since, events[..|events| - 1])
  }

  /** Events come in order from `since` on; a poller never reports more elapsed time than has passed. */
  ghost predicate Timely(since: nat, events: seq<Event>) {
    && (forall i :: 0 <= i < |events| ==> since <= events[i].at)
    && (forall i, k :: 0 <= i <= k < |events| ==> events[i].at <= events[k].at)
    && forall i :: 0 <= i < |events| && events[i].ThermalPoll? ==>
         LastThermal(since, events[..i]) + events[i].elapsed <= events[i].at
  }

  lemma TimelyPrefix(since: nat, events: seq<Event>)
    requires Timely(since, events) && events != []
    ensures Timely(since, events[..|events| - 1])
  {
    var before := events[..|events| - 1];
    assert forall i :: 0 <= i < |before| ==> before[i] == events[i] && before[..i] == events[..i];
  }

  /** The dead-man has just opened a window. */
  ghost predicate JustOpened(s: Joint, window: nat) {
    !s.paused && s.deadman.forcingLeft == Some(window)
  }

  /** Until the window's length has passed the gate stays open, however hot the card reads. */
  lemma {:induction false} GateStaysOpen(cfg: Config, window: nat, s: Joint, events: seq<Event>, since: nat)
    requires JustOpened(s, window) && Timely(since, events)
    requires forall i :: 0 <= i < |events| ==> events[i].at < since + window
    ensures var r := Exec(cfg, window, s, events);
            && !r.paused && r.deadman.forcingLeft.Some?
            && since <= LastThermal(since, events)
            && LastThermal(since, events) + r.deadman.forcingLeft.value >= since + window
  {
    if events != [] {
      var before, last := events[..|events| - 1], events[|events| - 1];
      TimelyPrefix(since, events);
      GateStaysOpen(cfg, window, s, before, since);
    }
  }

  /** How many watchdog polls there are. */
  function Samples(events: seq<Event>): nat {
    if events == [] then 0 else Samples(events[..|events| - 1]) + if events[|events| - 1].WatchdogPoll? then 1 else 0
  }

  /** Every watchdog poll before `deadline` finds the GPU floored with fresh jobs over a healthy link. */
  ghost predicate Floored(cfg: Config, events: seq<Event>, deadline: nat) {
    forall i :: 0 <= i < |events| && events[i].WatchdogPoll? && events[i].at < deadline ==>
      Ladder.IsFloored(events[i].ghs, cfg.ladder.floorGhs) && events[i].jobs && events[i].link
  }

  /** The action a confirmed stall leads to first. */
  function FirstAction(cfg: Ladder.Config): Ladder.Action {
    if cfg.maxRecoveries == 0 then Ladder.Exit else Ladder.Recover
  }

  /** While the watchdog has not acted it only counts. */
  lemma {:induction false} CountsUntilItActs(cfg: Config, window: nat, s: Joint, events: seq<Event>, since: nat)
    requires cfg.ladder.enabled && JustOpened(s, window) && s.watchdog == Ladder.RESET && Timely(since, events)
    requires forall i :: 0 <= i < |events| ==> events[i].at < since + window
    requires Floored(cfg, events, since + window)
    requires forall i :: 0 <= i < |events| ==> ActionAt(cfg, window, s, events, i) != FirstAction(cfg.ladder)
    ensures Samples(events) < Ladder.Dwell(cfg.ladder)
    ensures Exec(cfg, window, s, events).watchdog == Ladder.State(Samples(events), 0, None)
  {
    if events != [] {
      var before, last := events[..|events| - 1], events[|events| - 1];
      TimelyPrefix(since, events);
      assert forall i :: 0 <= i < |before| ==> before[i] == events[i] && before[..i] == events[..i];
      forall i | 0 <= i < |before|
        ensures ActionAt(cfg, window, s, before, i) != FirstAction(cfg.ladder)
      {
        assert ActionAt(cfg, window, s, before, i) == ActionAt(cfg, window, s, events, i);
      }
      CountsUntilItActs(cfg, window, s, before, since);
      GateStaysOpen(cfg, window, s, before, since);
      assert ActionAt(cfg, window, s, events, |before|) == Action(cfg, Exec(cfg, window, s, before), last);
      hide Exec, ActionAt, Timely, JustOpened, Thermal.Tick, Thermal.Decide;
      CountsOne(cfg, window, Exec(cfg, window, s, before), last, Samples(before));
    }
  }

  lemma CountsOne(cfg: Config, window: nat, s: Joint, e: Event, k: nat)
    requires cfg.ladder.enabled && !s.paused && k < Ladder.Dwell(cfg.ladder) && s.watchdog == Ladder.State(k, 0, None)
    requires e.WatchdogPoll? ==> Ladder.IsFloored(e.ghs, cfg.ladder.floorGhs) && e.jobs && e.link
    requires Action(cfg, s, e) != FirstAction(cfg.ladder)
    ensures var k' := if e.WatchdogPoll? then k + 1 else k;
            k' < Ladder.Dwell(cfg.ladder) && Step(cfg, window, s, e).watchdog == Ladder.State(k', 0, None)
  {
  }

  /** The last watchdog poll's time, `since` if there was none yet. */
  function LastSample(since: nat, events: seq<Event>): nat {
    if events == [] then since
    else if events[|events| - 1].WatchdogPoll? then events[|events| - 1].at
    else LastSample(since, events[..|events| - 1])
  }

  /** The watchdog never lets more than `poll` pass without sampling. */
  ghost predicate SampledEvery(since: nat, events: seq<Event>, poll: nat) {
    forall i :: 0 <= i < |events| ==> events[i].at <= LastSample(since, events[..i]) + poll
  }

  lemma {:induction false} SamplesKeepPace(since: nat, events: seq<Event>, poll: nat, n: nat)
    requires n <= |events| && SampledEvery(since, events, poll)
    ensures LastSample(since, events[..n]) <= since + Samples(events[..n]) * poll
  {
    if n == 0 {
      assert 0 * poll == 0;
    } else {
      SamplesKeepPace(since, events, poll, n - 1);
      assert events[..n][..n - 1] == events[..n - 1];
      var k := Samples(events[..n - 1]);
      assert (k + 1) * poll == k * poll + poll;
    }
  }

  /** The events before `deadline`. */
  lemma Split(events: seq<Event>, deadline: nat) returns (m: nat)
    requires events != [] && events[|events| - 1].at >= deadline
    requires forall i, k :: 0 <= i <= k < |events| ==> events[i].at <= events[k].at
    ensures m < |events| && events[m].at >= deadline && forall i :: 0 <= i < m ==> events[i].at < deadline
  {
    m := |events| - 1;
    while m > 0 && events[m - 1].at >= deadline
      invariant m < |events| && events[m].at >= deadline
    {
      m := m - 1;
    }
  }

  lemma TimelyTake(since: nat, events: seq<Event>, m: nat)
    requires Timely(since, events) && m <= |events|
    ensures Timely(since, events[..m])
  {
    var q := events[..m];
    assert forall i :: 0 <= i < m ==> q[i] == events[i] && q[..i] == events[..i];
  }

  lemma FlooredTake(cfg: Config, events: seq<Event>, m: nat, deadline: nat)
    requires Floored(cfg, events, deadline) && m <= |events|
    ensures Floored(cfg, events[..m], deadline)
  {
  }

  lemma InOrder(since: nat, events: seq<Event>)
    requires Timely(since, events)
    ensures forall i, k :: 0 <= i <= k < |events| ==> events[i].at <= events[k].at
  {
  }

  /**
   A GPU that stays floored, with fresh jobs over a healthy link, through a whole forced window is acted on before the
   window closes, as soon as the dwell fits: a recovery, or the exit if recovery is switched off.
   */
  lemma HangIsCaughtInOneWindow(cfg: Config, window: nat, s: Joint, events: seq<Event>, since: nat, poll: nat)
    requires cfg.ladder.enabled && JustOpened(s, window) && s.watchdog == Ladder.RESET
    requires Timely(since, events) && SampledEvery(since, events, poll) && Floored(cfg, events, since + window)
    requires events != [] && events[|events| - 1].at >= since + window
    requires Ladder.Dwell(cfg.ladder) * poll < window
    ensures exists i :: 0 <= i < |events| && events[i].at < since + window
                        && ActionAt(cfg, window, s, events, i) == FirstAction(cfg.ladder)
  {
    hide Exec, Step, Timely, JustOpened, Floored, SampledEvery, Samples, LastSample, Action;
    InOrder(since, events);
    var m := Split(events, since + window);
    var q := events[..m];
    EnoughSamples(since, events, poll, m, window, Ladder.Dwell(cfg.ladder));
    TimelyTake(since, events, m);
    FlooredTake(cfg, events, m, since + window);
    assert forall i :: 0 <= i < m ==> q[i].at < since + window;
    if forall i :: 0 <= i < m ==> ActionAt(cfg, window, s, q, i) != FirstAction(cfg.ladder) {
      CountsUntilItActs(cfg, window, s, q, since);
    } else {
      var i :| 0 <= i < m && ActionAt(cfg, window, s, q, i) == FirstAction(cfg.ladder);
      assert q[i] == events[i] && q[..i] == events[..i];
      assert ActionAt(cfg, window, s, events, i) == FirstAction(cfg.ladder);
    }
  }

  lemma EnoughSamples(since: nat, events: seq<Event>, poll: nat, m: nat, window: nat, dwell: nat)
    requires m < |events| && SampledEvery(since, events, poll)
    requires events[m].at >= since + window && dwell * poll < window
    ensures Samples(events[..m]) >= dwell
  {
    SamplesKeepPace(since, events, poll, m);
    var k := Samples(events[..m]);
    assert (k + 1) * poll == k * poll + poll;
    MulLess(dwell, k + 1, poll);
  }

  // ---------- From the pause to the catch ----------

  /** This thermal poll makes the dead-man open a window. */
  predicate Opens(cfg: Config, window: nat, s: Joint, e: Event) {
    e.ThermalPoll?
    && Thermal.Tick(s.deadman, Thermal.Decide(s.paused, e.temp, cfg.thermal), e.elapsed, cfg.thermal.maxPause, window).2
  }

  lemma OpeningOpens(cfg: Config, window: nat, s: Joint, e: Event)
    requires Opens(cfg, window, s, e)
    ensures JustOpened(Step(cfg, window, s, e), window) && Step(cfg, window, s, e).watchdog == s.watchdog
  {
  }

  lemma {:induction false} ExecAppend(cfg: Config, window: nat, s: Joint, a: seq<Event>, b: seq<Event>)
    ensures Exec(cfg, window, s, a + b) == Exec(cfg, window, Exec(cfg, window, s, a), b)
  {
    if b == [] {
      assert a + b == a;
    } else {
      ExecAppend(cfg, window, s, a, b[..|b| - 1]);
      assert (a + b)[..|a + b| - 1] == a + b[..|b| - 1];
    }
  }

  lemma ExecOne(cfg: Config, window: nat, s: Joint, a: seq<Event>, e: Event)
    ensures Exec(cfg, window, s, a + [e]) == Step(cfg, window, Exec(cfg, window, s, a), e)
  {
    assert (a + [e])[..|a|] == a;
  }

  /** An action of a run's later part is an action of the run. */
  lemma ActionAppend(cfg: Config, window: nat, s: Joint, a: seq<Event>, b: seq<Event>, i: nat)
    requires i < |b|
    ensures ActionAt(cfg, window, s, a + b, |a| + i) == ActionAt(cfg, window, Exec(cfg, window, s, a), b, i)
  {
    ExecAppend(cfg, window, s, a, b[..i]);
    assert (a + b)[..|a| + i] == a + b[..i];
  }

  /**
   The whole story, from any state: a run whose last part is a thermal pause with a watchdog tick in it, the poll that
   opens a forced window, and then a GPU that stays floored with fresh jobs until the window's end. The watchdog acts
   inside the window, by recovery or, if recoveries are off, by exit.
   */
  lemma StuckHotHangIsCaught(cfg: Config, window: nat, s: Joint, before: seq<Event>, k: nat, opening: Event,
                             events: seq<Event>, poll: nat)
    requires cfg.ladder.enabled && k < |before| && before[k].WatchdogPoll?
    requires forall i :: k <= i < |before| ==> Exec(cfg, window, s, before[..i]).paused
    requires Opens(cfg, window, Exec(cfg, window, s, before), opening)
    requires Timely(opening.at, events) && SampledEvery(opening.at, events, poll)
    requires Floored(cfg, events, opening.at + window)
    requires events != [] && events[|events| - 1].at >= opening.at + window
    requires Ladder.Dwell(cfg.ladder) * poll < window
    ensures var run := before + [opening] + events;
            exists i :: |before| < i < |run| && run[i].at < opening.at + window
                        && ActionAt(cfg, window, s, run, i) == FirstAction(cfg.ladder)
  {
    hide Timely, SampledEvery, Floored, Step, Action, Opens, JustOpened;
    var start := Exec(cfg, window, s, before);
    PauseResets(cfg, window, s, before, k);
    OpeningOpens(cfg, window, start, opening);
    var head := before + [opening];
    assert head[..|head| - 1] == before;
    var facing := Exec(cfg, window, s, head);
    HangIsCaughtInOneWindow(cfg, window, facing, events, opening.at, poll);
    var i :| 0 <= i < |events| && events[i].at < opening.at + window
             && ActionAt(cfg, window, facing, events, i) == FirstAction(cfg.ladder);
    ActionAppend(cfg, window, s, head, events, i);
    assert (head + events)[|head| + i] == events[i];
  }

  // ---------- When a window reaches the exit ----------

  /** The attempts of a stall that began inside the window are a recover window apart from each other. */
  ghost predicate Rungs(cfg: Ladder.Config, st: Ladder.State, since: nat) {
    && st.recoveriesDone <= cfg.maxRecoveries
    && (st.recoveryAt.None? <==> st.recoveriesDone == 0)
    && (st.recoveryAt.Some? ==> st.recoveryAt.value >= since + (st.recoveriesDone - 1) * cfg.recoverWindow)
  }

  lemma RungsStep(cfg: Ladder.Config, s: Ladder.Sample, st: Ladder.State, since: nat, now: nat)
    requires Rungs(cfg, st, since) && now >= since && (st.recoveryAt.Some? ==> now >= st.recoveryAt.value)
    ensures Rungs(cfg, Ladder.Next(cfg, s, st, now), since)
    ensures Ladder.Decide(cfg, s, st, now) == Ladder.Exit ==> now >= since + cfg.maxRecoveries * cfg.recoverWindow
  {
    var r: int, w := st.recoveriesDone, cfg.recoverWindow;
    assert r * w == (r - 1) * w + w;
    assert 0 * w == 0;
  }

  lemma {:induction false} RungsHold(cfg: Config, window: nat, s: Joint, events: seq<Event>, since: nat)
    requires s.watchdog == Ladder.RESET && Timely(since, events)
    ensures var st := Exec(cfg, window, s, events).watchdog;
            && Rungs(cfg.ladder, st, since)
            && (st.recoveryAt.Some? ==> events != [] && st.recoveryAt.value <= events[|events| - 1].at)
  {
    if events != [] {
      var before, last := events[..|events| - 1], events[|events| - 1];
      TimelyPrefix(since, events);
      RungsHold(cfg, window, s, before, since);
      if last.WatchdogPoll? {
        var r := Exec(cfg, window, s, before);
        RungsStep(cfg.ladder, Seen(r.paused, last), r.watchdog, since, last.at);
      }
    }
  }

  /** From a reset watchdog no exit comes sooner than all its recoveries take. */
  lemma ExitTakesEveryRung(cfg: Config, window: nat, s: Joint, events: seq<Event>, since: nat, i: nat)
    requires s.watchdog == Ladder.RESET && Timely(since, events) && i < |events|
    requires ActionAt(cfg, window, s, events, i) == Ladder.Exit
    ensures cfg.ladder.enabled
    ensures events[i].at >= since + cfg.ladder.maxRecoveries * cfg.ladder.recoverWindow
  {
    TimelyTake(since, events, i);
    RungsHold(cfg, window, s, events[..i], since);
    var r := Exec(cfg, window, s, events[..i]);
    RungsStep(cfg.ladder, Seen(r.paused, events[i]), r.watchdog, since, events[i].at);
  }

  /** A sample of a dead GPU over a working session. */
  function DeadSample(at: nat): Event {
    WatchdogPoll(at, NaN, true, true)
  }

  /**
   The fastest climb: samples until the dwell is one short, then one sample per rung, a recover window apart. If the
   gate is paused, as it is not in a forced window, a telemetry dropout opens it first.
   */
  function Dwelling(paused: bool, since: nat, n: nat): seq<Event> {
    if n > 0 then Dwelling(paused, since, n - 1) + [DeadSample(since)]
    else if paused then [ThermalPoll(since, None, 0)]
    else []
  }

  function Climb(cfg: Ladder.Config, paused: bool, since: nat, rungs: nat): seq<Event> {
    if rungs == 0 then Dwelling(paused, since, Ladder.Dwell(cfg) - 1)
    else Climb(cfg, paused, since, rungs - 1) + [DeadSample(since + (rungs - 1) * cfg.recoverWindow)]
  }

  lemma DropoutOpensTheGate(cfg: Config, window: nat, s: Joint, since: nat)
    ensures var r := Step(cfg, window, s, ThermalPoll(since, None, 0)); !r.paused && r.watchdog == s.watchdog
  {
  }

  lemma DwellStep(cfg: Config, window: nat, r: Joint, since: nat, n: nat)
    requires cfg.ladder.enabled && n + 1 < Ladder.Dwell(cfg.ladder)
    requires !r.paused && r.watchdog == Ladder.State(n, 0, None)
    ensures var q := Step(cfg, window, r, DeadSample(since)); !q.paused && q.watchdog == Ladder.State(n + 1, 0, None)
  {
  }

  lemma {:induction false} DwellingCounts(cfg: Config, window: nat, s: Joint, since: nat, n: nat)
    requires cfg.ladder.enabled && s.watchdog == Ladder.RESET && n < Ladder.Dwell(cfg.ladder)
    ensures var r := Exec(cfg, window, s, Dwelling(s.paused, since, n));
            !r.paused && r.watchdog == Ladder.State(n, 0, None)
  {
    hide Step, Exec;
    ExecNothing(cfg, window, s);
    if n > 0 {
      DwellingCounts(cfg, window, s, since, n - 1);
      var before := Dwelling(s.paused, since, n - 1);
      ExecOne(cfg, window, s, before, DeadSample(since));
      DwellStep(cfg, window, Exec(cfg, window, s, before), since, n - 1);
    } else if s.paused {
      ExecOne(cfg, window, s, [], ThermalPoll(since, None, 0));
      DropoutOpensTheGate(cfg, window, s, since);
      assert [] + [ThermalPoll(since, None, 0)] == Dwelling(s.paused, since, 0);
    }
  }

  lemma ExecNothing(cfg: Config, window: nat, s: Joint)
    ensures Exec(cfg, window, s, []) == s
  {
  }

  /** After `k` rungs the watchdog has made `k` attempts, the last a window ago, and stays past its dwell. */
  ghost predicate OnRung(cfg: Ladder.Config, r: Joint, since: nat, k: nat) {
    && !r.paused && Ladder.SatInc(r.watchdog.flooredStreak) >= cfg.dwellSamples
    && r.watchdog.recoveriesDone == k
    && r.watchdog.recoveryAt == if k == 0 then None else Some(since + (k - 1) * cfg.recoverWindow)
  }

  lemma RungAction(cfg: Config, window: nat, r: Joint, since: nat, k: nat)
    requires cfg.ladder.enabled && OnRung(cfg.ladder, r, since, k) && k <= cfg.ladder.maxRecoveries
    ensures var e := DeadSample(since + k * cfg.ladder.recoverWindow);
            && Action(cfg, r, e) == (if k < cfg.ladder.maxRecoveries then Ladder.Recover else Ladder.Exit)
            && (k < cfg.ladder.maxRecoveries ==> OnRung(cfg.ladder, Step(cfg, window, r, e), since, k + 1))
  {
    var w := cfg.ladder.recoverWindow;
    assert k > 0 ==> k * w == (k - 1) * w + w;
  }

  lemma {:induction false} ClimbReaches(cfg: Config, window: nat, s: Joint, since: nat, k: nat)
    requires cfg.ladder.enabled && s.watchdog == Ladder.RESET && k <= cfg.ladder.maxRecoveries
    ensures OnRung(cfg.ladder, Exec(cfg, window, s, Climb(cfg.ladder, s.paused, since, k)), since, k)
  {
    hide Exec, Step, Action;
    if k == 0 {
      DwellingCounts(cfg, window, s, since, Ladder.Dwell(cfg.ladder) - 1);
    } else {
      hide OnRung;
      ClimbReaches(cfg, window, s, since, k - 1);
      var before := Climb(cfg.ladder, s.paused, since, k - 1);
      RungAction(cfg, window, Exec(cfg, window, s, before), since, k - 1);
      ExecOne(cfg, window, s, before, DeadSample(since + (k - 1) * cfg.ladder.recoverWindow));
    }
  }

  /** The climb is a possible run: in order, a thermal poll only at the very start. */
  ghost predicate SamplesFrom(since: nat, events: seq<Event>, last: nat) {
    && (forall i :: 0 <= i < |events| && events[i].ThermalPoll? ==> i == 0 && events[i] == ThermalPoll(since, None, 0))
    && (forall i :: 0 <= i < |events| ==> since <= events[i].at <= last)
    && forall i, k :: 0 <= i <= k < |events| ==> events[i].at <= events[k].at
  }

  lemma SampleLater(since: nat, events: seq<Event>, last: nat, at: nat)
    requires SamplesFrom(since, events, last) && since <= last <= at
    ensures SamplesFrom(since, events + [DeadSample(at)], at)
  {
  }

  lemma {:induction false} DwellingIsOrdered(paused: bool, since: nat, n: nat)
    ensures SamplesFrom(since, Dwelling(paused, since, n), since)
  {
    if n > 0 {
      DwellingIsOrdered(paused, since, n - 1);
      SampleLater(since, Dwelling(paused, since, n - 1), since, since);
      hide SamplesFrom;
    }
  }

  /** When the last of `rungs` rungs is taken. */
  function RungTime(cfg: Ladder.Config, since: nat, rungs: nat): nat {
    since + if rungs == 0 then 0 else (rungs - 1) * cfg.recoverWindow
  }

  lemma {:induction false} ClimbIsOrdered(cfg: Ladder.Config, paused: bool, since: nat, rungs: nat)
    ensures SamplesFrom(since, Climb(cfg, paused, since, rungs), RungTime(cfg, since, rungs))
  {
    hide SamplesFrom;
    if rungs == 0 {
      DwellingIsOrdered(paused, since, Ladder.Dwell(cfg) - 1);
    } else {
      ClimbIsOrdered(cfg, paused, since, rungs - 1);
      if rungs > 1 {
        MulMono(rungs - 2, rungs - 1, cfg.recoverWindow);
      }
      SampleLater(since, Climb(cfg, paused, since, rungs - 1),
                  RungTime(cfg, since, rungs - 1), RungTime(cfg, since, rungs));
    }
  }

  lemma OrderedIsTimely(since: nat, events: seq<Event>, last: nat)
    requires SamplesFrom(since, events, last)
    ensures Timely(since, events)
  {
    assert events[..0] == [];
  }

  /** This run exits inside the window. */
  ghost predicate ExitsInside(cfg: Config, window: nat, s: Joint, since: nat, events: seq<Event>, i: nat) {
    && Timely(since, events) && i < |events| && events[i].at < since + window
    && ActionAt(cfg, window, s, events, i) == Ladder.Exit
  }

  /** Some run from a reset watchdog exits within a window exactly when all its rungs fit into the window. */
  lemma ExitInWindowIff(cfg: Config, window: nat, s: Joint, since: nat)
    requires s.watchdog == Ladder.RESET
    ensures (exists events, i :: ExitsInside(cfg, window, s, since, events, i))
            <==> cfg.ladder.enabled && cfg.ladder.maxRecoveries * cfg.ladder.recoverWindow < window
  {
    hide Timely, Exec, Climb, Step, Action;
    if exists events, i :: ExitsInside(cfg, window, s, since, events, i) {
      var events, i: nat :| ExitsInside(cfg, window, s, since, events, i);
      ExitTakesEveryRung(cfg, window, s, events, since, i);
    } else if cfg.ladder.enabled && cfg.ladder.maxRecoveries * cfg.ladder.recoverWindow < window {
      ClimbExits(cfg, window, s, since);
    }
  }

  lemma ClimbExits(cfg: Config, window: nat, s: Joint, since: nat)
    requires s.watchdog == Ladder.RESET && cfg.ladder.enabled
    requires cfg.ladder.maxRecoveries * cfg.ladder.recoverWindow < window
    ensures exists events, i :: ExitsInside(cfg, window, s, since, events, i)
  {
    hide Timely, Exec, Step, Action, OnRung, Climb;
    var top := cfg.ladder.maxRecoveries;
    var before := Climb(cfg.ladder, s.paused, since, top);
    var events := Climb(cfg.ladder, s.paused, since, top + 1);
    ClimbReaches(cfg, window, s, since, top);
    RungAction(cfg, window, Exec(cfg, window, s, before), since, top);
    ClimbIsOrdered(cfg.ladder, s.paused, since, top + 1);
    OrderedIsTimely(since, events, since + top * cfg.ladder.recoverWindow);
    ClimbEnds(cfg.ladder, s.paused, since, top);
    assert ExitsInside(cfg, window, s, since, events, |before|);
  }

  lemma ClimbEnds(cfg: Ladder.Config, paused: bool, since: nat, rungs: nat)
    ensures var before, events := Climb(cfg, paused, since, rungs), Climb(cfg, paused, since, rungs + 1);
            && |events| == |before| + 1 && events[..|before|] == before
            && events[|before|] == DeadSample(since + rungs * cfg.recoverWindow)
  {
  }

  /** The defaults do not fit: three recoveries a minute apart outlast a 90-second window, so it never exits. */
  lemma DefaultsNeverExitInOneWindow(cfg: Config, s: Joint, events: seq<Event>, since: nat, i: nat)
    requires cfg.ladder.maxRecoveries == 3 && cfg.ladder.recoverWindow == 60_000
    requires s.watchdog == Ladder.RESET && Timely(since, events) && i < |events| && events[i].at < since + 90_000
    ensures ActionAt(cfg, 90_000, s, events, i) != Ladder.Exit
  {
    hide Timely, ActionAt;
    ExitInWindowIff(cfg, 90_000, s, since);
    assert !ExitsInside(cfg, 90_000, s, since, events, i);
  }
}
