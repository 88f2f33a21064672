/**
 Job-change preemption: the reader thread publishes jobs and raises `new_job` while holding the slot's lock;
 the mining thread reads the slot under the lock, but clears and polls the flag without it. Events are the
 atomic steps of the two threads; a run is any sequence of enabled events.
 */
module Preempt {
  import opened Words

  /** A notify, reduced to what preemption looks at. */
  datatype Note = Note(id: string, prev: string)

  datatype Reader =
    | Waiting
    | Publishing(prevChanged: bool)  // slot written, lock still held, flag not yet raised

  datatype Miner =
    | Intake
    | Clearing(work: Note)  // has read the slot, about to clear the flag
    | Checking(work: Note)  // at the top of the per-launch loop
    | Sweeping(work: Note)

  /** `log` holds every notify stored so far, `readAt` how many there were when the current work was read. */
  datatype State = State(slot: Option<Note>, flag: bool, reader: Reader, miner: Miner,
                         log: seq<Note>, readAt: nat, preempted: bool)

  datatype Event =
    | Store(note: Note)         // reader: take the lock, write the slot
    | Raise                     // reader: raise the flag if the prev changed, release the lock
    | Read(usable: bool)        // miner: `next_work`; an unusable job leaves it idle
    | Clear                     // miner: clear the flag
    | Refresh                   // miner: the refresh interval elapsed
    | Check                     // miner: compare the published job id, then sweep or go back to intake
    | EndSweep(sawFlag: bool)   // miner: `hash_range` returns, because of the flag or otherwise

  const START: State := State(None, false, Waiting, Intake, [], 0, false)

  /** The step an event takes, `None` when it is not enabled. The lock is free iff the reader is waiting. */
  function Step(s: State, e: Event): Option<State> {
    match e
    case Store(n) =>
      if !s.reader.Waiting? then None
      else
        var prevChanged := s.slot.None? || s.slot.value.prev != n.prev;
        Some(s.(slot := Some(n), reader := Publishing(prevChanged), log := s.log + [n]))
    case Raise =>
      if s.reader.Waiting? then None
      else Some(s.(flag := s.flag || s.reader.prevChanged, reader := Waiting))
    case Read(usable) =>
      if !s.miner.Intake? || !s.reader.Waiting? then None
      else if s.slot.None? || !usable then Some(s)
      else Some(s.(miner := Clearing(s.slot.value), readAt := |s.log|, preempted := false))
    case Clear =>
      if !s.miner.Clearing? then None
      else Some(s.(flag := false, miner := Checking(s.miner.work)))
    case Refresh =>
      if !s.miner.Checking? then None
      else Some(s.(miner := Intake))
    case Check =>
      if !s.miner.Checking? || !s.reader.Waiting? then None
      else if s.slot.Some? && s.slot.value.id != s.miner.work.id then Some(s.(miner := Intake))
      else Some(s.(miner := Sweeping(s.miner.work)))
    case EndSweep(sawFlag) =>
      if !s.miner.Sweeping? || (sawFlag && !s.flag) then None
      else Some(s.(miner := Checking(s.miner.work), preempted := s.preempted || sawFlag))
  }

  /** The state after a run from `s`. */
  function Exec(s: State, events: seq<Event>): Option<State> {
    if events == [] then Some(s)
    else match Exec(s, events[..|events| - 1])
      case None => None
      case Some(m) => Step(m, events[|events| - 1])
  }

  /** The job a lock holder can see: while the reader publishes, still the one before. */
  function Published(s: State): Option<Note> {
    if s.reader.Waiting? then s.slot
    else if |s.log| >= 2 then Some(s.log[|s.log| - 2])
    else None
  }

  /** A prev-changing notify was stored at position `k`. */
  predicate ChangesPrev(log: seq<Note>, k: nat)
    requires k < |log|
  {
    k == 0 || log[k].prev != log[k - 1].prev
  }

  predicate ChangedSince(log: seq<Note>, from: nat) {
    exists k :: from <= k < |log| && ChangesPrev(log, k)
  }

  /** The current job as the miner's state relates to it, in every reachable state. */
  ghost predicate Inv(s: State) {
    && (s.slot.None? <==> s.log == [])
    && (s.log != [] ==> s.slot == Some(s.log[|s.log| - 1]))
    && (s.reader.Publishing? ==> s.readAt < |s.log| && s.reader.prevChanged == ChangesPrev(s.log, |s.log| - 1))
    && s.readAt <= |s.log|
    && (!s.miner.Intake? ==> s.readAt > 0 && s.miner.work == s.log[s.readAt - 1])
    && ((s.miner.Checking? || s.miner.Sweeping?) && s.flag ==> ChangedSince(s.log, s.readAt))
    && (s.preempted ==> !s.miner.Clearing? && ChangedSince(s.log, s.readAt))
  }

  lemma StoreExtends(log: seq<Note>, n: Note, from: nat)
    ensures ChangedSince(log, from) ==> ChangedSince(log + [n], from)
  {
    if ChangedSince(log, from) {
      var k :| from <= k < |log| && ChangesPrev(log, k);
      assert ChangesPrev(log + [n], k);
    }
  }

  lemma StepKeepsInv(s: State, e: Event)
    requires Inv(s) && Step(s, e).Some?
    ensures Inv(Step(s, e).value)
  {
    hide ChangedSince;
    if e.Store? {
      StoreExtends(s.log, e.note, s.readAt);
    } else if e.Raise? && s.reader.prevChanged && s.readAt < |s.log| {
      assert ChangesPrev(s.log, |s.log| - 1);
      LastChanges(s.log, s.readAt);
    }
  }

  lemma LastChanges(log: seq<Note>, from: nat)
    requires from < |log| && ChangesPrev(log, |log| - 1)
    ensures ChangedSince(log, from)
  {
  }

  lemma {:induction false} RunKeepsInv(events: seq<Event>)
    requires Exec(START, events).Some?
    ensures Inv(Exec(START, events).value)
  {
    hide Inv, Step;
    if events == [] {
      StartInv();
    } else {
      RunKeepsInv(events[..|events| - 1]);
      StepKeepsInv(Exec(START, events[..|events| - 1]).value, events[|events| - 1]);
    }
  }

  lemma StartInv()
    ensures Inv(START)
  {
  }

  /** The flag rises during a sweep only when a prev-changing job was published after the work was read. */
  lemma FlagMeansChange(events: seq<Event>)
    requires Exec(START, events).Some?
    ensures var s := Exec(START, events).value;
            s.miner.Sweeping? && s.flag ==>
              && 0 < s.readAt <= |s.log| && s.miner.work == s.log[s.readAt - 1]
              && ChangedSince(s.log, s.readAt)
  {
    hide ChangedSince;
    RunKeepsInv(events);
  }

  // ---------- No sweep of stale work ----------

  /** Equal job ids mean equal prevs. */
  ghost predicate IdFixesPrev(log: seq<Note>) {
    forall i, k :: 0 <= i < |log| && 0 <= k < |log| && log[i].id == log[k].id ==> log[i].prev == log[k].prev
  }

  /** The sweep, if any, is of the published job's prev, or the flag is up. */
  ghost predicate Fresh(s: State) {
    s.miner.Sweeping? ==> s.flag || (Published(s).Some? && Published(s).value.prev == s.miner.work.prev)
  }

  lemma StepKeepsFresh(s: State, e: Event)
    requires Inv(s) && IdFixesPrev(s.log) && Fresh(s) && Step(s, e).Some?
    ensures Fresh(Step(s, e).value)
  {
    hide ChangedSince;
    if e.Check? {
      assert s.slot.value.id == s.miner.work.id ==> s.log[|s.log| - 1].prev == s.log[s.readAt - 1].prev;
    }
  }

  lemma {:induction false} SweepsAreFresh(events: seq<Event>)
    requires Exec(START, events).Some? && IdFixesPrev(Exec(START, events).value.log)
    ensures Fresh(Exec(START, events).value)
  {
    hide Inv, IdFixesPrev, Step, Fresh;
    if events == [] {
      assert Fresh(START) by { NoSweepAtStart(); }
    } else {
      var before := Exec(START, events[..|events| - 1]).value;
      LogGrows(before, events[|events| - 1]);
      SweepsAreFresh(events[..|events| - 1]);
      RunKeepsInv(events[..|events| - 1]);
      StepKeepsFresh(before, events[|events| - 1]);
    }
  }

  lemma NoSweepAtStart()
    ensures Fresh(START) && SweepIsOwed(START)
  {
  }

  lemma LogGrows(s: State, e: Event)
    requires Step(s, e).Some?
    ensures s.log <= Step(s, e).value.log
    ensures IdFixesPrev(Step(s, e).value.log) ==> IdFixesPrev(s.log)
    ensures NeverReturns(Step(s, e).value.log) ==> NeverReturns(s.log)
  {
    var log, more := s.log, Step(s, e).value.log;
    assert log <= more;
    assert forall i :: 0 <= i < |log| ==> log[i] == more[i];
    if NeverReturns(more) {
      forall i, k, l | 0 <= i < k <= l < |log| && ChangesPrev(log, k)
        ensures log[i].id != log[l].id
      {
        assert ChangesPrev(more, k);
      }
    }
  }

  // ---------- A preempted sweep is followed by an intake ----------

  /** Once the prev has changed, an earlier job id does not come back. */
  ghost predicate NeverReturns(log: seq<Note>) {
    forall i, k, l :: 0 <= i < k <= l < |log| && ChangesPrev(log, k) ==> log[i].id != log[l].id
  }

  /** No sweep runs between a preempted one and the next intake. */
  ghost predicate SweepIsOwed(s: State) {
    s.preempted ==> !s.miner.Sweeping?
  }

  lemma StepKeepsSweepOwed(s: State, e: Event)
    requires Inv(s) && NeverReturns(s.log) && SweepIsOwed(s) && Step(s, e).Some?
    ensures SweepIsOwed(Step(s, e).value)
  {
    if e.Check? && s.preempted {
      var k :| s.readAt <= k < |s.log| && ChangesPrev(s.log, k);
      assert s.log[s.readAt - 1].id != s.log[|s.log| - 1].id;
    }
  }

  lemma {:induction false} PreemptionLeadsToIntake(events: seq<Event>)
    requires Exec(START, events).Some? && NeverReturns(Exec(START, events).value.log)
    ensures SweepIsOwed(Exec(START, events).value)
  {
    hide Inv, NeverReturns, IdFixesPrev, Step, SweepIsOwed;
    if events == [] {
      NoSweepAtStart();
    } else {
      var before := Exec(START, events[..|events| - 1]).value;
      LogGrows(before, events[|events| - 1]);
      PreemptionLeadsToIntake(events[..|events| - 1]);
      RunKeepsInv(events[..|events| - 1]);
      StepKeepsSweepOwed(before, events[|events| - 1]);
    }
  }

  // ---------- Both conditions are exact ----------

  lemma {:induction false} ExecAppend(s: State, a: seq<Event>, b: seq<Event>)
    requires Exec(s, a).Some?
    ensures Exec(s, a + b) == Exec(Exec(s, a).value, b)
  {
    if b == [] {
      assert a + b == a;
    } else {
      ExecAppend(s, a, b[..|b| - 1]);
      assert (a + b)[..|a + b| - 1] == a + b[..|b| - 1];
    }
  }

  lemma ExecOne(s: State, a: seq<Event>, e: Event)
    requires Exec(s, a).Some?
    ensures Exec(s, a + [e]) == Step(Exec(s, a).value, e)
  {
    assert (a + [e])[..|a|] == a;
  }

  /** The reader publishes these notes, one after the other. */
  function PublishEvents(notes: seq<Note>): seq<Event> {
    if notes == [] then [] else PublishEvents(notes[..|notes| - 1]) + [Store(notes[|notes| - 1])] + [Raise]
  }

  lemma {:induction false} PublishRun(s: State, notes: seq<Note>)
    requires Inv(s) && s.reader.Waiting?
    ensures Exec(s, PublishEvents(notes)).Some?
    ensures var r := Exec(s, PublishEvents(notes)).value;
            && Inv(r) && r.reader.Waiting? && r.log == s.log + notes
            && r.miner == s.miner && r.readAt == s.readAt && r.preempted == s.preempted
            && (s.flag || ChangedSince(r.log, |s.log|) ==> r.flag)
  {
    hide Inv, Step, ChangedSince;
    if notes == [] {
      assert s.log + notes == s.log;
      NothingSince(s.log);
    } else {
      var k := |notes| - 1;
      PublishRun(s, notes[..k]);
      var m := Exec(s, PublishEvents(notes[..k])).value;
      PublishOne(m, notes[k], |s.log|);
      ExecOne(s, PublishEvents(notes[..k]), Store(notes[k]));
      ExecOne(s, PublishEvents(notes[..k]) + [Store(notes[k])], Raise);
      assert s.log + notes[..k] + [notes[k]] == s.log + notes;
    }
  }

  lemma NothingSince(log: seq<Note>)
    ensures !ChangedSince(log, |log|)
  {
  }

  lemma PublishOne(m: State, n: Note, from: nat)
    requires Inv(m) && m.reader.Waiting? && from <= |m.log|
    ensures Step(m, Store(n)).Some? && Step(Step(m, Store(n)).value, Raise).Some?
    ensures var r := Step(Step(m, Store(n)).value, Raise).value;
            && Inv(r) && r.reader.Waiting? && r.log == m.log + [n]
            && r.miner == m.miner && r.readAt == m.readAt && r.preempted == m.preempted
            && (m.flag ==> r.flag)
            && (ChangedSince(r.log, from) ==> ChangedSince(m.log, from) || r.flag)
  {
    StepKeepsInv(m, Store(n));
    var q := Step(m, Store(n)).value;
    StepKeepsInv(q, Raise);
    if ChangedSince(q.log, from) && !q.reader.prevChanged {
      var k :| from <= k < |q.log| && ChangesPrev(q.log, k);
      assert ChangesPrev(m.log, k);
    }
  }

  /** Some run publishes `log` and has the miner read its last notify. */
  lemma ReadRun(log: seq<Note>) returns (events: seq<Event>)
    requires log != []
    ensures Exec(START, events).Some?
    ensures var s := Exec(START, events).value;
            Inv(s) && s.reader.Waiting? && s.log == log && s.miner == Clearing(log[|log| - 1])
  {
    StartInv();
    PublishRun(START, log);
    assert START.log + log == log;
    events := PublishEvents(log) + [Read(true)];
    ExecOne(START, PublishEvents(log), Read(true));
    StepKeepsInv(Exec(START, PublishEvents(log)).value, Read(true));
  }

  /** Clearing the flag and then seeing one's own id starts a sweep. */
  lemma ClearAndCheck(s: State)
    requires Inv(s) && s.reader.Waiting? && s.miner.Clearing? && s.log[|s.log| - 1].id == s.miner.work.id
    ensures Step(s, Clear).Some? && Step(Step(s, Clear).value, Check).Some?
    ensures var r := Step(Step(s, Clear).value, Check).value;
            Inv(r) && r == s.(flag := false, miner := Sweeping(s.miner.work))
  {
    hide ChangedSince;
    StepKeepsInv(s, Clear);
    StepKeepsInv(Step(s, Clear).value, Check);
  }

  /** The miner reads `log[i]`, and the rest of `log` is published before it clears the flag. */
  lemma LateClearRun(log: seq<Note>, i: nat) returns (events: seq<Event>)
    requires i < |log| && log[i].id == log[|log| - 1].id
    ensures Exec(START, events).Some?
    ensures var s := Exec(START, events).value;
            Inv(s) && s.reader.Waiting? && s.log == log && s.miner == Sweeping(log[i]) && !s.flag
  {
    hide Inv, Step, ChangedSince;
    var early := ReadRun(log[..i + 1]);
    var rest := PublishEvents(log[i + 1..]);
    PublishRun(Exec(START, early).value, log[i + 1..]);
    assert log[..i + 1] + log[i + 1..] == log;
    ExecAppend(START, early, rest);
    ClearAndCheck(Exec(START, early + rest).value);
    ExecOne(START, early + rest, Clear);
    ExecOne(START, early + rest + [Clear], Check);
    events := early + rest + [Clear] + [Check];
  }

  /** A sweep stopped by the flag is resumed when the slot shows its id again. */
  lemma StopAndCheck(s: State)
    requires Inv(s) && s.reader.Waiting? && s.miner.Sweeping? && s.flag && s.log[|s.log| - 1].id == s.miner.work.id
    ensures Step(s, EndSweep(true)).Some? && Step(Step(s, EndSweep(true)).value, Check).Some?
    ensures Step(Step(s, EndSweep(true)).value, Check).value == s.(preempted := true)
  {
    hide ChangedSince;
  }

  /** The miner sweeps `log[i]` while the rest of `log` is published, stops on the flag, and looks again. */
  lemma SweepAgainRun(log: seq<Note>, i: nat, k: nat) returns (events: seq<Event>)
    requires i < k < |log| && ChangesPrev(log, k) && log[i].id == log[|log| - 1].id
    ensures Exec(START, events).Some?
    ensures var s := Exec(START, events).value; s.log == log && s.preempted && s.miner.Sweeping?
  {
    hide Inv, Step;
    var early := LateClearRun(log[..i + 1], i);
    var rest := PublishEvents(log[i + 1..]);
    PublishRun(Exec(START, early).value, log[i + 1..]);
    assert log[..i + 1] + log[i + 1..] == log;
    assert ChangedSince(log, i + 1);
    ExecAppend(START, early, rest);
    var s := Exec(START, early + rest).value;
    StopAndCheck(s);
    ExecOne(START, early + rest, EndSweep(true));
    ExecOne(START, early + rest + [EndSweep(true)], Check);
    events := early + rest + [EndSweep(true)] + [Check];
  }

  /** Sweeps are fresh in every run over the notifies of `log` exactly when equal ids mean equal prevs. */
  lemma FreshIffIdsFixPrevs(log: seq<Note>)
    ensures (forall events :: Exec(START, events).Some? && Exec(START, events).value.log <= log
                              ==> Fresh(Exec(START, events).value))
            <==> IdFixesPrev(log)
  {
    hide Step, Fresh, Published;
    if IdFixesPrev(log) {
      forall events | Exec(START, events).Some? && Exec(START, events).value.log <= log
        ensures Fresh(Exec(START, events).value)
      {
        SweepsAreFresh(events);
      }
    } else {
      var i, k :| 0 <= i < |log| && 0 <= k < |log| && log[i].id == log[k].id && log[i].prev != log[k].prev;
      var a, b := if i < k then i else k, if i < k then k else i;
      var events := LateClearRun(log[..b + 1], a);
      StaleUnflagged(Exec(START, events).value);
    }
  }

  lemma StaleUnflagged(s: State)
    requires Inv(s) && s.reader.Waiting? && s.miner.Sweeping? && !s.flag
    requires s.miner.work.prev != s.log[|s.log| - 1].prev
    ensures !Fresh(s)
  {
  }

  /** Every preempted sweep is followed by an intake, in every run, exactly when no id returns after a prev change. */
  lemma IntakeIffIdsNeverReturn(log: seq<Note>)
    ensures (forall events :: Exec(START, events).Some? && Exec(START, events).value.log <= log
                              ==> SweepIsOwed(Exec(START, events).value))
            <==> NeverReturns(log)
  {
    hide Step;
    if NeverReturns(log) {
      forall events | Exec(START, events).Some? && Exec(START, events).value.log <= log
        ensures SweepIsOwed(Exec(START, events).value)
      {
        NeverReturnsPrefix(Exec(START, events).value.log, log);
        PreemptionLeadsToIntake(events);
      }
    } else {
      var i, k, l :| 0 <= i < k <= l < |log| && ChangesPrev(log, k) && log[i].id == log[l].id;
      assert ChangesPrev(log[..l + 1], k);
      var events := SweepAgainRun(log[..l + 1], i, k);
      assert !SweepIsOwed(Exec(START, events).value);
    }
  }

  lemma NeverReturnsPrefix(a: seq<Note>, b: seq<Note>)
    requires a <= b && NeverReturns(b)
    ensures NeverReturns(a)
  {
    forall i, k, l | 0 <= i < k <= l < |a| && ChangesPrev(a, k)
      ensures a[i].id != a[l].id
    {
      assert ChangesPrev(b, k);
    }
  }
}
