/**
 The reliability watchdog over whole runs. Three threads interleave: the watchdog reads the clock, loads four
 counters one by one and acts; the reader drops, consumes the failover flag and redials; the mining thread submits.
 */
module Watchdog {
  import opened Words
  import opened Arithmetic
  import opened Failover

  datatype Config = Config(maxUnacked: nat, jobStale: nat, acceptStale: nat)

  datatype Snapshot = Snapshot(consecutiveUnacked: nat, lastNewJobMs: nat, lastAcceptMs: nat, lastReconnectMs: nat)

  datatype Action = Nothing | ForceReconnect | SwitchEndpoint

  function JobIsStale(lastNewJobMs: nat, now: nat, threshold: nat): bool {
    lastNewJobMs > 0 && SatSub(now, lastNewJobMs) > threshold
  }

  /** `accept_deadman`: fresh work, once credited, and no credit for too long. */
  function AcceptDeadman(lastAcceptMs: nat, lastNewJobMs: nat, now: nat, acceptThreshold: nat, freshWithin: nat): bool {
    if lastAcceptMs == 0 then false
    else if lastNewJobMs == 0 || SatSub(now, lastNewJobMs) > freshWithin then false
    else SatSub(now, lastAcceptMs) >= acceptThreshold
  }

  /** `watchdog_decision`. */
  function Decision(s: Snapshot, cfg: Config, now: nat): Action {
    if s.consecutiveUnacked >= cfg.maxUnacked then ForceReconnect
    else if JobIsStale(s.lastNewJobMs, now, cfg.jobStale) then ForceReconnect
    else
      var baseline := if s.lastAcceptMs == 0 then 0 else Max(s.lastAcceptMs, s.lastReconnectMs);
      if AcceptDeadman(baseline, s.lastNewJobMs, now, cfg.acceptStale, cfg.jobStale) then SwitchEndpoint else Nothing
  }

  /** The three outcomes in terms of what happened, not of the order of the checks. */
  lemma DecisionMeans(s: Snapshot, cfg: Config, now: nat)
    ensures Decision(s, cfg, now) == SwitchEndpoint <==>
              && s.consecutiveUnacked < cfg.maxUnacked
              && 0 < s.lastNewJobMs && now <= s.lastNewJobMs + cfg.jobStale
              && 0 < s.lastAcceptMs && SatSub(now, s.lastAcceptMs) >= cfg.acceptStale
              && SatSub(now, s.lastReconnectMs) >= cfg.acceptStale
    ensures Decision(s, cfg, now) == ForceReconnect <==>
              || s.consecutiveUnacked >= cfg.maxUnacked
              || (0 < s.lastNewJobMs && s.lastNewJobMs + cfg.jobStale < now)
  {
  }

  // ---------- Runs ----------

  datatype Reader =
    | Connected
    | Dialing    // inside `reconnect`
    | Installed  // new socket in place, streak reset, not yet stamped
    | Stamped    // `last_reconnect_ms` stored, not yet counted

  datatype State = State(
    clock: nat, reader: Reader, armed: bool, failovers: nat, reconnects: nat, endpoints: Endpoints,
    shared: Snapshot,
    now: nat, loads: nat, seen: Snapshot,      // the watchdog's clock reading, how many counters it has, their values
    stamps: seq<nat>, accepts: seq<nat>,       // every stamp ever stored in the two clocks
    stampsSeen: nat, acceptsSeen: nat)         // how many of them when the watchdog loaded each

  datatype Event =
    | Tick(ms: nat)
    | Submit                 // miner: one more pending share
    | Ack(accepted: bool)    // reader: any ack ends the streak, an accept is stamped
    | NewJob                 // reader: a changed job id
    | ReadClock              // watchdog: start of a tick
    | LoadUnacked | LoadJob | LoadAccept | LoadReconnect
    | Act                    // watchdog: decide and request
    | Drop                   // reader: the link is dead; consume the flag, start dialing
    | Dial(ok: bool)         // reader: one attempt
    | Stamp                  // reader: store the reconnect time
    | Bump                   // reader: count the reconnect

  function Init(clock: nat, endpoints: Endpoints): State {
    State(clock, Connected, false, 0, 0, endpoints, Snapshot(0, 0, 0, 0), 0, 0, Snapshot(0, 0, 0, 0), [], [], 0, 0)
  }

  const FAILBACK_MS: nat := 1_800_000

  /** What the watchdog's current tick would do if it acted now. */
  function Verdict(s: State, cfg: Config): Action {
    if s.loads == 5 then Decision(s.seen, cfg, s.now) else Nothing
  }

  function Step(s: State, cfg: Config, e: Event): Option<State> {
    match e
    case Tick(ms) => Some(s.(clock := s.clock + ms))
    case Submit => Some(s.(shared := s.shared.(consecutiveUnacked := s.shared.consecutiveUnacked + 1)))
    case Ack(ok) =>
      if !s.reader.Connected? then None
      else if ok then
        Some(s.(shared := s.shared.(consecutiveUnacked := 0, lastAcceptMs := s.clock),
                accepts := s.accepts + [s.clock]))
      else Some(s.(shared := s.shared.(consecutiveUnacked := 0)))
    case NewJob => Some(s.(shared := s.shared.(lastNewJobMs := s.clock)))
    case ReadClock => if s.loads != 0 then None else Some(s.(now := s.clock, loads := 1))
    case LoadUnacked =>
      if s.loads != 1 then None
      else Some(s.(loads := 2, seen := s.seen.(consecutiveUnacked := s.shared.consecutiveUnacked)))
    case LoadJob =>
      if s.loads != 2 then None else Some(s.(loads := 3, seen := s.seen.(lastNewJobMs := s.shared.lastNewJobMs)))
    case LoadAccept =>
      if s.loads != 3 then None
      else Some(s.(loads := 4, seen := s.seen.(lastAcceptMs := s.shared.lastAcceptMs), acceptsSeen := |s.accepts|))
    case LoadReconnect =>
      if s.loads != 4 then None
      else Some(s.(loads := 5, seen := s.seen.(lastReconnectMs := s.shared.lastReconnectMs), stampsSeen := |s.stamps|))
    case Act =>
      if s.loads != 5 then None else Some(s.(loads := 0, armed := s.armed || Verdict(s, cfg) == SwitchEndpoint))
    case Drop =>
      if !s.reader.Connected? then None
      else if s.armed then
        Some(s.(reader := Dialing, armed := false, endpoints := Advanced(s.endpoints), failovers := s.failovers + 1))
      else Some(s.(reader := Dialing))
    case Dial(ok) =>
      if !s.reader.Dialing? then None
      else
        var e := FailedBack(s.endpoints, s.clock, FAILBACK_MS);
        if ok then Some(s.(endpoints := e, reader := Installed, shared := s.shared.(consecutiveUnacked := 0)))
        else Some(s.(endpoints := Advanced(e)))
    case Stamp =>
      if !s.reader.Installed? then None
      else Some(s.(reader := Stamped, shared := s.shared.(lastReconnectMs := s.clock), stamps := s.stamps + [s.clock]))
    case Bump =>
      if !s.reader.Stamped? then None else Some(s.(reader := Connected, reconnects := s.reconnects + 1))
  }

  function Exec(s: State, cfg: Config, events: seq<Event>): Option<State> {
    if events == [] then Some(s)
    else match Exec(s, cfg, events[..|events| - 1])
      case None => None
      case Some(m) => Step(m, cfg, events[|events| - 1])
  }

  /** The newest stamp is the largest and is what the clock shows; nothing is stamped in the future. */
  ghost predicate StampsInOrder(stamps: seq<nat>, last: nat, clock: nat) {
    && (stamps == [] ==> last == 0)
    && (stamps != [] ==> last == stamps[|stamps| - 1])
    && forall i :: 0 <= i < |stamps| ==> 0 < stamps[i] <= last <= clock
  }

  /** What the watchdog loaded is the newest stamp there was at that time. */
  ghost predicate Loaded(stamps: seq<nat>, seenCount: nat, seenLast: nat) {
    && seenCount <= |stamps|
    && (seenCount == 0 ==> seenLast == 0)
    && (seenCount > 0 ==> seenLast == stamps[seenCount - 1])
    && forall i :: 0 <= i < seenCount ==> 0 < stamps[i] <= seenLast
  }

  ghost predicate ReconnectClock(s: State) {
    StampsInOrder(s.stamps, s.shared.lastReconnectMs, s.clock) && Loaded(s.stamps, s.stampsSeen, s.seen.lastReconnectMs)
  }

  ghost predicate AcceptClock(s: State) {
    StampsInOrder(s.accepts, s.shared.lastAcceptMs, s.clock) && Loaded(s.accepts, s.acceptsSeen, s.seen.lastAcceptMs)
  }

  /** A tick's clock reading is not ahead, and reconnects after its last load are stamped no earlier than it. */
  ghost predicate TickClock(s: State) {
    && (s.loads > 0 ==> s.now <= s.clock)
    && s.stampsSeen <= |s.stamps|
    && (s.loads == 5 ==> forall i :: s.stampsSeen <= i < |s.stamps| ==> s.now <= s.stamps[i])
  }

  ghost predicate Counters(s: State) {
    s.clock > 0 && s.failovers <= s.reconnects + if s.reader.Connected? then 0 else 1
  }

  ghost predicate Inv(s: State) {
    Counters(s) && ReconnectClock(s) && AcceptClock(s) && TickClock(s)
  }

  lemma StepKeepsReconnectClock(s: State, cfg: Config, e: Event)
    requires s.clock > 0 && ReconnectClock(s) && Step(s, cfg, e).Some?
    ensures ReconnectClock(Step(s, cfg, e).value)
  {
    hide Verdict, FailedBack, Advanced;
  }

  lemma StepKeepsAcceptClock(s: State, cfg: Config, e: Event)
    requires s.clock > 0 && AcceptClock(s) && Step(s, cfg, e).Some?
    ensures AcceptClock(Step(s, cfg, e).value)
  {
    hide Verdict, FailedBack, Advanced;
  }

  lemma StepKeepsTickClock(s: State, cfg: Config, e: Event)
    requires TickClock(s) && Step(s, cfg, e).Some?
    ensures TickClock(Step(s, cfg, e).value)
  {
    hide Verdict, FailedBack, Advanced;
  }

  lemma StepKeepsInv(s: State, cfg: Config, e: Event)
    requires Inv(s) && Step(s, cfg, e).Some?
    ensures Inv(Step(s, cfg, e).value)
  {
    hide Verdict, FailedBack, Advanced, ReconnectClock, AcceptClock, TickClock;
    StepKeepsReconnectClock(s, cfg, e);
    StepKeepsAcceptClock(s, cfg, e);
    StepKeepsTickClock(s, cfg, e);
  }

  lemma {:induction false} RunKeepsInv(clock: nat, endpoints: Endpoints, cfg: Config, events: seq<Event>)
    requires clock > 0 && Exec(Init(clock, endpoints), cfg, events).Some?
    ensures Inv(Exec(Init(clock, endpoints), cfg, events).value)
  {
    hide Step;
    if events != [] {
      RunKeepsInv(clock, endpoints, cfg, events[..|events| - 1]);
      hide Inv;
      StepKeepsInv(Exec(Init(clock, endpoints), cfg, events[..|events| - 1]).value, cfg, events[|events| - 1]);
    }
  }

  /** In every run: never more failovers than reconnects while connected, at most one more while reconnecting. */
  lemma FailoversBounded(clock: nat, endpoints: Endpoints, cfg: Config, events: seq<Event>)
    requires clock > 0 && Exec(Init(clock, endpoints), cfg, events).Some?
    ensures var s := Exec(Init(clock, endpoints), cfg, events).value;
            && s.failovers <= s.reconnects + 1
            && (s.reader.Connected? ==> s.failovers <= s.reconnects)
  {
    hide Step, Exec;
    RunKeepsInv(clock, endpoints, cfg, events);
  }

  /**
   In every run a failover is requested only after some accept, and no earlier than `acceptStale` after every accept
   and every reconnect that the tick's loads could see.
   */
  lemma FailoverIsNotRushed(clock: nat, endpoints: Endpoints, cfg: Config, events: seq<Event>)
    requires clock > 0 && cfg.acceptStale > 0 && Exec(Init(clock, endpoints), cfg, events).Some?
    ensures var s := Exec(Init(clock, endpoints), cfg, events).value;
            Verdict(s, cfg) == SwitchEndpoint ==>
              && 0 < s.acceptsSeen <= |s.accepts| && s.stampsSeen <= |s.stamps|
              && (forall i :: 0 <= i < s.acceptsSeen ==> s.accepts[i] + cfg.acceptStale <= s.now)
              && (forall i :: 0 <= i < s.stampsSeen ==> s.stamps[i] + cfg.acceptStale <= s.now)
  {
    hide Step, Exec, Decision;
    RunKeepsInv(clock, endpoints, cfg, events);
    var s := Exec(Init(clock, endpoints), cfg, events).value;
    DecisionMeans(s.seen, cfg, s.now);
  }

  /**
   When the tick took less than `acceptStale` to get from its clock reading to acting, the failover it requests is at
   least `acceptStale` after every completed reconnect exactly when none completed since its last load.
   */
  lemma FailoverIsTimelyIff(clock: nat, endpoints: Endpoints, cfg: Config, events: seq<Event>)
    requires clock > 0 && cfg.acceptStale > 0 && Exec(Init(clock, endpoints), cfg, events).Some?
    requires var s := Exec(Init(clock, endpoints), cfg, events).value;
             Verdict(s, cfg) == SwitchEndpoint && s.clock < s.now + cfg.acceptStale
    ensures var s := Exec(Init(clock, endpoints), cfg, events).value;
            (forall i :: 0 <= i < |s.stamps| ==> s.stamps[i] + cfg.acceptStale <= s.clock)
            <==> s.stampsSeen == |s.stamps|
  {
    hide Step, Exec, Decision;
    RunKeepsInv(clock, endpoints, cfg, events);
    FailoverIsNotRushed(clock, endpoints, cfg, events);
    var s := Exec(Init(clock, endpoints), cfg, events).value;
    if s.stampsSeen < |s.stamps| {
      assert s.now <= s.stamps[s.stampsSeen];
    }
  }

  // ---------- A request is carried out, once ----------

  /** Event `i` of the run is a watchdog tick that asks for a failover. */
  ghost predicate RequestedAt(start: State, cfg: Config, events: seq<Event>, i: nat) {
    && i < |events| && events[i].Act? && Exec(start, cfg, events[..i]).Some?
    && Verdict(Exec(start, cfg, events[..i]).value, cfg) == SwitchEndpoint
  }

  /** A failover was asked for and the link has not been given up since. */
  ghost predicate Pending(start: State, cfg: Config, events: seq<Event>) {
    exists i: nat :: RequestedAt(start, cfg, events, i) && forall k :: i < k < |events| ==> !events[k].Drop?
  }

  lemma PendingNext(start: State, cfg: Config, events: seq<Event>)
    requires events != []
    ensures var k := |events| - 1;
            Pending(start, cfg, events) <==>
              RequestedAt(start, cfg, events, k) || (Pending(start, cfg, events[..k]) && !events[k].Drop?)
  {
    hide Exec, Verdict;
    var k := |events| - 1;
    var before := events[..k];
    forall i: nat | i < k
      ensures before[i] == events[i] && (RequestedAt(start, cfg, before, i) <==> RequestedAt(start, cfg, events, i))
    {
      assert before[..i] == events[..i];
    }
    if RequestedAt(start, cfg, events, k) {
      assert Pending(start, cfg, events);
    } else if Pending(start, cfg, before) && !events[k].Drop? {
      var i: nat :| RequestedAt(start, cfg, before, i) && forall k :: i < k < |before| ==> !before[k].Drop?;
      assert RequestedAt(start, cfg, events, i);
    }
    if Pending(start, cfg, events) {
      var i: nat :| RequestedAt(start, cfg, events, i) && forall k :: i < k < |events| ==> !events[k].Drop?;
      assert i < k ==> RequestedAt(start, cfg, before, i);
    }
  }

  /** The flag is up exactly while a request is pending. */
  lemma {:induction false} ArmedIffPending(clock: nat, endpoints: Endpoints, cfg: Config, events: seq<Event>)
    requires Exec(Init(clock, endpoints), cfg, events).Some?
    ensures Exec(Init(clock, endpoints), cfg, events).value.armed <==> Pending(Init(clock, endpoints), cfg, events)
  {
    hide Verdict, FailedBack, Advanced, Pending;
    var start := Init(clock, endpoints);
    if events == [] {
      NothingPending(start, cfg);
    } else {
      var k := |events| - 1;
      ArmedIffPending(clock, endpoints, cfg, events[..k]);
      PendingNext(start, cfg, events);
    }
  }

  lemma NothingPending(start: State, cfg: Config)
    ensures !Pending(start, cfg, [])
  {
  }

  /** A link given up leads to the next endpoint if a request is pending, and to the same one if not. */
  lemma DropFailsOverIff(clock: nat, endpoints: Endpoints, cfg: Config, events: seq<Event>)
    requires Exec(Init(clock, endpoints), cfg, events + [Drop]).Some?
    ensures Exec(Init(clock, endpoints), cfg, events).Some?
    ensures var before, after := Exec(Init(clock, endpoints), cfg, events).value,
                                 Exec(Init(clock, endpoints), cfg, events + [Drop]).value;
            var requested := Pending(Init(clock, endpoints), cfg, events);
            && after.reader.Dialing? && !after.armed
            && after.endpoints == (if requested then Advanced(before.endpoints) else before.endpoints)
            && after.failovers == before.failovers + (if requested then 1 else 0)
  {
    hide Pending, Advanced, FailedBack, Verdict;
    assert (events + [Drop])[..|events|] == events;
    ArmedIffPending(clock, endpoints, cfg, events);
  }

  /** The submissions since the last ack or new socket. */
  function Unanswered(events: seq<Event>): nat {
    if events == [] then 0
    else match events[|events| - 1]
      case Submit => Unanswered(events[..|events| - 1]) + 1
      case Ack(_) => 0
      case Dial(true) => 0
      case _ => Unanswered(events[..|events| - 1])
  }

  /** The unacked counter is that number in every run. */
  lemma {:induction false} UnackedAreUnanswered(clock: nat, endpoints: Endpoints, cfg: Config, events: seq<Event>)
    requires Exec(Init(clock, endpoints), cfg, events).Some?
    ensures Exec(Init(clock, endpoints), cfg, events).value.shared.consecutiveUnacked == Unanswered(events)
  {
    hide Verdict, FailedBack, Advanced;
    if events != [] {
      UnackedAreUnanswered(clock, endpoints, cfg, events[..|events| - 1]);
    }
  }

  /** The handshakes that succeeded. */
  function Handshakes(events: seq<Event>): nat {
    if events == [] then 0 else Handshakes(events[..|events| - 1]) + if events[|events| - 1] == Dial(true) then 1 else 0
  }

  /** Every successful handshake is stamped and counted once, by the time the reader is back at its link. */
  lemma {:induction false} ReconnectsAreHandshakes(clock: nat, endpoints: Endpoints, cfg: Config, events: seq<Event>)
    requires Exec(Init(clock, endpoints), cfg, events).Some?
    ensures var s := Exec(Init(clock, endpoints), cfg, events).value;
            && Handshakes(events) == s.reconnects + (if s.reader.Installed? || s.reader.Stamped? then 1 else 0)
            && Handshakes(events) == |s.stamps| + (if s.reader.Installed? then 1 else 0)
  {
    hide Verdict, FailedBack, Advanced;
    if events != [] {
      ReconnectsAreHandshakes(clock, endpoints, cfg, events[..|events| - 1]);
    }
  }

  lemma ExecOne(s: State, cfg: Config, done: seq<Event>, e: Event)
    requires Exec(s, cfg, done).Some?
    ensures Exec(s, cfg, done + [e]) == Step(Exec(s, cfg, done).value, cfg, e)
  {
    assert (done + [e])[..|done|] == done;
  }

  /** Credited, then silent for the accept window with fresh work: the tick has loaded everything. */
  lemma DeadmanTick() returns (events: seq<Event>)
    ensures var run := Exec(Init(1, Endpoints(2, 0, 0)), Config(10, 300_000, 1_800_000), events);
            && run.Some? && run.value.loads == 5 && run.value.now == 1_800_001 == run.value.clock
            && run.value.seen == Snapshot(0, 1_800_001, 1, 0)
            && run.value.reader.Connected? && run.value.stamps == [] && !run.value.armed
  {
    hide Exec, Verdict, FailedBack, Advanced, Decision;
    var s0, cfg := Init(1, Endpoints(2, 0, 0)), Config(10, 300_000, 1_800_000);
    assert Exec(s0, cfg, []) == Some(s0) by { ExecNone(s0, cfg); }
    ExecOne(s0, cfg, [], Ack(true));
    var e1 := [] + [Ack(true)];
    ExecOne(s0, cfg, e1, Tick(1_800_000));
    var e2 := e1 + [Tick(1_800_000)];
    ExecOne(s0, cfg, e2, NewJob);
    var e3 := e2 + [NewJob];
    ExecOne(s0, cfg, e3, ReadClock);
    var e4 := e3 + [ReadClock];
    ExecOne(s0, cfg, e4, LoadUnacked);
    var e5 := e4 + [LoadUnacked];
    ExecOne(s0, cfg, e5, LoadJob);
    var e6 := e5 + [LoadJob];
    ExecOne(s0, cfg, e6, LoadAccept);
    var e7 := e6 + [LoadAccept];
    ExecOne(s0, cfg, e7, LoadReconnect);
    events := e7 + [LoadReconnect];
  }

  lemma ExecNone(s: State, cfg: Config)
    ensures Exec(s, cfg, []) == Some(s)
  {
  }

  /** A reconnect that completes after the last load escapes the guard: the failover is armed on a link just made. */
  lemma LateReconnectEscapes() returns (events: seq<Event>)
    ensures var cfg := Config(10, 300_000, 1_800_000);
            var run := Exec(Init(1, Endpoints(2, 0, 0)), cfg, events);
            && run.Some? && Verdict(run.value, cfg) == SwitchEndpoint
            && run.value.reader.Connected? && run.value.stamps == [run.value.clock]
  {
    hide Exec, FailedBack, Advanced;
    var s0, cfg := Init(1, Endpoints(2, 0, 0)), Config(10, 300_000, 1_800_000);
    var e0 := DeadmanTick();
    ExecOne(s0, cfg, e0, Drop);
    var e1 := e0 + [Drop];
    ExecOne(s0, cfg, e1, Dial(true));
    var e2 := e1 + [Dial(true)];
    ExecOne(s0, cfg, e2, Stamp);
    var e3 := e2 + [Stamp];
    ExecOne(s0, cfg, e3, Bump);
    events := e3 + [Bump];
  }
}
