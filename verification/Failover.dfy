/** Endpoint rotation, the failback clock, and the dial loop that drives both. */
module Failover {
  import opened Words
  import opened Arithmetic

  // ---------- Endpoints ----------

  /** `EndpointList`'s selection over `count` endpoints; index 0 is the primary. */
  datatype Endpoints = Endpoints(count: nat, current: nat, lastFailbackMs: nat)

  ghost predicate ValidEndpoints(e: Endpoints) {
    e.current < e.count
  }

  function Advanced(e: Endpoints): Endpoints {
    if e.current + 1 < e.count then e.(current := e.current + 1) else e.(current := 0)
  }

  /** On a backup, the primary is due again: its clock is running and the interval is over. */
  predicate FailbackDue(e: Endpoints, now: nat, interval: nat) {
    e.current != 0 && e.lastFailbackMs != 0 && SatSub(now, e.lastFailbackMs) >= interval
  }

  function FailedBack(e: Endpoints, now: nat, interval: nat): Endpoints {
    if FailbackDue(e, now, interval) then e.(current := 0, lastFailbackMs := now)
    else if e.current == 0 || e.lastFailbackMs == 0 then e.(lastFailbackMs := now)
    else e
  }

  class EndpointList {
    const all: seq<string>
    var current: nat
    var lastFailbackMs: nat

    constructor (all: seq<string>)
      requires all != []
      ensures this.all == all && Valid() && View() == Endpoints(|all|, 0, 0)
    {
      this.all := all;
      current, lastFailbackMs := 0, 0;
    }

    ghost predicate Valid()
      reads this
    {
      current < |all|
    }

    ghost function View(): Endpoints
      reads this
    {
      Endpoints(|all|, current, lastFailbackMs)
    }

    method Advance() returns (endpoint: string)
      requires Valid()
      modifies `current
      ensures Valid() && View() == Advanced(old(View())) && endpoint == all[current]
      ensures |all| == 1 ==> View() == old(View())
    {
      if |all| > 1 {
        current := (current + 1) % |all|;
      }
      return all[current];
    }

    method MaybeFailback(now: nat, interval: nat) returns (failedBack: bool)
      requires Valid()
      modifies this
      ensures Valid() && View() == FailedBack(old(View()), now, interval)
      ensures failedBack == FailbackDue(old(View()), now, interval)
    {
      if current == 0 {
        lastFailbackMs := now;
        return false;
      }
      if lastFailbackMs == 0 {
        lastFailbackMs := now;
        return false;
      }
      if SatSub(now, lastFailbackMs) >= interval {
        current := 0;
        lastFailbackMs := now;
        return true;
      }
      return false;
    }

    /** `reconnect`: dial until a handshake succeeds; `attempts` ends where shutdown stops the loop. */
    method Reconnect(attempts: seq<Attempt>, interval: nat, backoff0: nat)
      returns (dialed: seq<nat>, connected: bool, backoff: nat, slept: seq<nat>)
      requires Valid() && BACKOFF_MIN <= backoff0 <= BACKOFF_MAX
      modifies this
      ensures Valid() && dialed == Dials(old(View()), attempts, interval)
      ensures connected == exists i :: 0 <= i < |attempts| && attempts[i].ok
      ensures View() == AfterDials(old(View()), attempts, interval)
      ensures backoff == if connected then BACKOFF_MIN else Delay(backoff0, |attempts|)
      ensures |slept| == |dialed| && forall i :: 0 <= i < |slept| ==> slept[i] == Delay(backoff0, i)
    {
      hide FailedBack, Advanced, Delay, Dials, AfterDials;
      dialed, connected, backoff, slept := [], false, backoff0, [];
      FirstDelay(backoff0);
      ghost var e0 := View();
      assert attempts[0..] == attempts;
      for i := 0 to |attempts|
        invariant Valid() && !connected && backoff == Delay(backoff0, i)
        invariant |slept| == |dialed| == i && forall k :: 0 <= k < i ==> slept[k] == Delay(backoff0, k)
        invariant forall k :: 0 <= k < i ==> !attempts[k].ok
        invariant Dials(e0, attempts, interval) == dialed + Dials(View(), attempts[i..], interval)
        invariant AfterDials(e0, attempts, interval) == AfterDials(View(), attempts[i..], interval)
      {
        DialNext(View(), attempts, i, interval);
        slept := slept + [backoff];
        var _ := MaybeFailback(attempts[i].at, interval);
        dialed := dialed + [current];
        if attempts[i].ok {
          return dialed, true, BACKOFF_MIN, slept;
        }
        var _ := Advance();
        NextDelay(backoff0, i);
        backoff := Min(backoff * 2, BACKOFF_MAX);
      }
      NoMoreDials(View(), attempts, interval);
    }
  }

  const BACKOFF_MIN: nat := 1_000
  const BACKOFF_MAX: nat := 30_000

  /** The sleep before dial `n` of a reconnect: doubled after every failure, up to the cap. */
  function Delay(first: nat, n: nat): nat {
    Min(first * Pow2(n), BACKOFF_MAX)
  }

  lemma FirstDelay(first: nat)
    requires first <= BACKOFF_MAX
    ensures Delay(first, 0) == first
  {
  }

  lemma NextDelay(first: nat, n: nat)
    ensures Delay(first, n + 1) == Min(Delay(first, n) * 2, BACKOFF_MAX)
  {
    assert first * Pow2(n + 1) == first * Pow2(n) * 2;
  }

  /** One dial: when its failback check runs, and whether the handshake succeeds. */
  datatype Attempt = Attempt(at: nat, ok: bool)

  /** The endpoints a reconnect dials, up to and including the first that answers. */
  function Dials(e: Endpoints, attempts: seq<Attempt>, interval: nat): seq<nat>
    decreases |attempts|
  {
    if attempts == [] then []
    else
      var f := FailedBack(e, attempts[0].at, interval);
      [f.current] + if attempts[0].ok then [] else Dials(Advanced(f), attempts[1..], interval)
  }

  function AfterDials(e: Endpoints, attempts: seq<Attempt>, interval: nat): Endpoints
    decreases |attempts|
  {
    if attempts == [] then e
    else
      var f := FailedBack(e, attempts[0].at, interval);
      if attempts[0].ok then f else AfterDials(Advanced(f), attempts[1..], interval)
  }

  lemma DialNext(e: Endpoints, attempts: seq<Attempt>, i: nat, interval: nat)
    requires i < |attempts|
    ensures var f := FailedBack(e, attempts[i].at, interval);
            && Dials(e, attempts[i..], interval)
               == [f.current] + (if attempts[i].ok then [] else Dials(Advanced(f), attempts[i + 1..], interval))
            && AfterDials(e, attempts[i..], interval)
               == if attempts[i].ok then f else AfterDials(Advanced(f), attempts[i + 1..], interval)
  {
    hide FailedBack, Advanced;
    assert attempts[i..][1..] == attempts[i + 1..];
  }

  lemma NoMoreDials(e: Endpoints, attempts: seq<Attempt>, interval: nat)
    ensures Dials(e, attempts[|attempts|..], interval) == [] && AfterDials(e, attempts[|attempts|..], interval) == e
  {
  }

  /** The selection after one attempt, of this reconnect or of a later one. */
  function AfterAttempt(e: Endpoints, a: Attempt, interval: nat): Endpoints {
    var f := FailedBack(e, a.at, interval);
    if a.ok then f else Advanced(f)
  }

  /** None of these attempts falls back to the primary, however they are spread over reconnects. */
  ghost predicate NoFailback(e: Endpoints, attempts: seq<Attempt>, interval: nat)
    decreases |attempts|
  {
    attempts != [] ==>
      && !FailbackDue(e, attempts[0].at, interval)
      && NoFailback(AfterAttempt(e, attempts[0], interval), attempts[1..], interval)
  }

  ghost predicate AllFail(attempts: seq<Attempt>) {
    forall i :: 0 <= i < |attempts| ==> !attempts[i].ok
  }

  /** `steps` endpoints after `current`, wrapping. */
  function After(current: nat, steps: nat, count: nat): nat
    requires current < count && steps <= count
  {
    if current + steps < count then current + steps else current + steps - count
  }

  lemma {:induction false} FailedDialsRotate(e: Endpoints, attempts: seq<Attempt>, interval: nat)
    requires ValidEndpoints(e) && |attempts| <= e.count && AllFail(attempts) && NoFailback(e, attempts, interval)
    ensures var d := Dials(e, attempts, interval);
            |d| == |attempts| && forall i :: 0 <= i < |d| ==> d[i] == After(e.current, i, e.count)
    decreases |attempts|
  {
    if attempts != [] {
      FailedDialsRotate(AfterAttempt(e, attempts[0], interval), attempts[1..], interval);
    }
  }

  /** As many failed dials as there are endpoints, without a failback, try each endpoint exactly once. */
  lemma EachEndpointOnce(e: Endpoints, attempts: seq<Attempt>, interval: nat, x: nat)
    requires ValidEndpoints(e) && |attempts| == e.count && AllFail(attempts) && NoFailback(e, attempts, interval)
    requires x < e.count
    ensures var d := Dials(e, attempts, interval);
            && |d| == e.count
            && (exists i :: 0 <= i < |d| && d[i] == x)
            && (forall i, k :: 0 <= i < |d| && 0 <= k < |d| && d[i] == d[k] ==> i == k)
  {
    FailedDialsRotate(e, attempts, interval);
    var i := if x >= e.current then x - e.current else x + e.count - e.current;
    assert Dials(e, attempts, interval)[i] == x;
  }

  // ---------- How long a failover holds ----------

  /** All attempts happen in order within `interval` of `from`. */
  ghost predicate Within(attempts: seq<Attempt>, from: nat, interval: nat) {
    && (forall i :: 0 <= i < |attempts| ==> from <= attempts[i].at < from + interval)
    && forall i, k :: 0 <= i <= k < |attempts| ==> attempts[i].at <= attempts[k].at
  }

  /** A clock started at or after `from` lets no attempt within an interval of `from` fall back, answered or not. */
  lemma {:induction false} RunningClockHolds(e: Endpoints, attempts: seq<Attempt>, from: nat, interval: nat)
    requires 0 < from <= e.lastFailbackMs && Within(attempts, from, interval)
    ensures NoFailback(e, attempts, interval)
    decreases |attempts|
  {
    if attempts != [] {
      RunningClockHolds(AfterAttempt(e, attempts[0], interval), attempts[1..], from, interval);
    }
  }

  /** A stopped clock is started by the first attempt and holds for a full interval from there. */
  lemma FirstFailoverHolds(e: Endpoints, attempts: seq<Attempt>, interval: nat)
    requires e.lastFailbackMs == 0 && attempts != [] && attempts[0].at > 0
    requires Within(attempts, attempts[0].at, interval)
    ensures NoFailback(e, attempts, interval)
  {
    RunningClockHolds(AfterAttempt(e, attempts[0], interval), attempts[1..], attempts[0].at, interval);
  }

  /**
   A deliberate failover to a backup, first dialed at `t0`, is safe from failback for a full interval, over all later
   attempts, answered or not, exactly when the failback clock was stopped or not started before `t0`. A clock that is
   running, however young, cuts the interval short by its age.
   */
  lemma NoFailbackIff(e: Endpoints, t0: nat, interval: nat)
    requires Advanced(e).current != 0 && t0 > 0 && interval > 0
    ensures (forall attempts: seq<Attempt> :: attempts != [] && attempts[0].at == t0 && Within(attempts, t0, interval)
                                ==> NoFailback(Advanced(e), attempts, interval))
            <==> e.lastFailbackMs == 0 || t0 <= e.lastFailbackMs
  {
    if e.lastFailbackMs == 0 || t0 <= e.lastFailbackMs {
      forall attempts: seq<Attempt> | attempts != [] && attempts[0].at == t0 && Within(attempts, t0, interval)
        ensures NoFailback(Advanced(e), attempts, interval)
      {
        if e.lastFailbackMs == 0 {
          FirstFailoverHolds(Advanced(e), attempts, interval);
        } else {
          RunningClockHolds(Advanced(e), attempts, t0, interval);
        }
      }
    } else {
      var due := if e.lastFailbackMs + interval <= t0 then t0 else e.lastFailbackMs + interval;
      var attempts := [Attempt(t0, true), Attempt(due, true)];
      assert Within(attempts, t0, interval);
      assert attempts[1..] == [Attempt(due, true)];
      assert !NoFailback(Advanced(e), attempts, interval);
    }
  }

  /** The same for the backup's tenure: answered at `t0`, it is still selected by every redial of the interval. */
  lemma FailoverHoldsIff(e: Endpoints, t0: nat, interval: nat)
    requires Advanced(e).current != 0 && t0 > 0 && interval > 0
    ensures (forall t :: t0 <= t < t0 + interval ==>
               FailedBack(FailedBack(Advanced(e), t0, interval), t, interval).current != 0)
            <==> e.lastFailbackMs == 0 || t0 <= e.lastFailbackMs
  {
    if e.lastFailbackMs != 0 && e.lastFailbackMs < t0 {
      var due := if e.lastFailbackMs + interval <= t0 then t0 else e.lastFailbackMs + interval;
      assert FailedBack(FailedBack(Advanced(e), t0, interval), due, interval).current == 0;
    }
  }

  /** From one backup to the next the clock is always running: dialing the first one started it. */
  lemma SecondFailoverIsCutShort(e: Endpoints, a: Attempt, t0: nat, interval: nat) returns (attempts: seq<Attempt>)
    requires 0 < a.at < t0 && e.lastFailbackMs <= a.at && interval > 0
    requires AfterAttempt(e, a, interval).current != 0 && Advanced(AfterAttempt(e, a, interval)).current != 0
    ensures attempts != [] && attempts[0].at == t0 && Within(attempts, t0, interval)
    ensures !NoFailback(Advanced(AfterAttempt(e, a, interval)), attempts, interval)
  {
    var b := AfterAttempt(e, a, interval);
    NoFailbackIff(b, t0, interval);
    assert b.lastFailbackMs != 0 && b.lastFailbackMs < t0;
    attempts :| attempts != [] && attempts[0].at == t0 && Within(attempts, t0, interval)
                && !NoFailback(Advanced(b), attempts, interval);
  }

  /** Every dial of the primary, answered or not, failback or not, starts the clock at that moment. */
  lemma PrimaryDialStartsTheClock(e: Endpoints, a: Attempt, interval: nat)
    requires Dials(e, [a], interval) == [0]
    ensures AfterAttempt(e, a, interval).lastFailbackMs == a.at
  {
    OneDial(e, a, interval);
  }

  lemma OneDial(e: Endpoints, a: Attempt, interval: nat)
    ensures Dials(e, [a], interval) == [FailedBack(e, a.at, interval).current]
  {
    assert [a][1..] == [];
  }

  /** The endpoint tried after the primary was dialed: the next one, at once or when its link is given up later. */
  function LeftThePrimary(e: Endpoints, a: Attempt, interval: nat): Endpoints {
    var after := AfterAttempt(e, a, interval);
    if a.ok then Advanced(after) else after
  }

  /** On a backup entered from the primary, an attempt goes back exactly from an interval after the primary's dial. */
  lemma FailbackTimeIff(e: Endpoints, a: Attempt, t: nat, interval: nat)
    requires Dials(e, [a], interval) == [0] && 0 < a.at <= t && LeftThePrimary(e, a, interval).current != 0
    ensures Dials(LeftThePrimary(e, a, interval), [Attempt(t, true)], interval) == [0] <==> t >= a.at + interval
  {
    PrimaryDialStartsTheClock(e, a, interval);
    OneDial(LeftThePrimary(e, a, interval), Attempt(t, true), interval);
  }

  /** A clock started at 1 s: the backup answers at 901 s and is left again at 1801 s, after half its 30 minutes. */
  lemma YoungClockCutsTheFailoverShort()
    ensures var e := Advanced(Endpoints(2, 0, 1_000));
            && Dials(e, [Attempt(901_000, true)], 1_800_000) == [1]
            && Dials(AfterDials(e, [Attempt(901_000, true)], 1_800_000), [Attempt(1_801_000, true)], 1_800_000) == [0]
  {
  }

  /** With three endpoints it can happen inside one reconnect: the second dial goes back to the primary. */
  lemma YoungClockCutsTheRotationShort()
    ensures var attempts := [Attempt(901_000, false), Attempt(1_801_000, true)];
            && Within(attempts, 901_000, 1_800_000)
            && Dials(Advanced(Endpoints(3, 0, 1_000)), attempts, 1_800_000) == [1, 0]
  {
    assert [Attempt(901_000, false), Attempt(1_801_000, true)][1..] == [Attempt(1_801_000, true)];
  }
}
