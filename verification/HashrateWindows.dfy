/** The rolling hashrate windows: a buffer pruned on every record answers like the full history. */
module HashrateWindows {
  import opened Words

  datatype Sample = Sample(at: nat, ghs: real)

  const WINDOW_15M: nat := 900_000
  const WINDOW_60S: nat := 60_000
  const WINDOW_10S: nat := 10_000

  /** The samples no older than `cutoff`, in order. */
  function Since(samples: seq<Sample>, cutoff: nat): (kept: seq<Sample>)
    ensures forall s :: s in kept <==> s in samples && s.at >= cutoff
  {
    if samples == [] then []
    else
      var k := |samples| - 1;
      Since(samples[..k], cutoff) + if samples[k].at >= cutoff then [samples[k]] else []
  }

  function Sum(samples: seq<Sample>): real {
    if samples == [] then 0.0 else Sum(samples[..|samples| - 1]) + samples[|samples| - 1].ghs
  }

  function Mean(samples: seq<Sample>): real {
    if samples == [] then 0.0 else Sum(samples) / |samples| as real
  }

  /** The buffer after recording a history. */
  function Pruned(history: seq<Sample>): seq<Sample> {
    if history == [] then []
    else
      var last := history[|history| - 1];
      Since(Pruned(history[..|history| - 1]) + [last], SatSub(last.at, WINDOW_15M))
  }

  lemma {:induction false} SinceAppend(a: seq<Sample>, b: seq<Sample>, cutoff: nat)
    ensures Since(a + b, cutoff) == Since(a, cutoff) + Since(b, cutoff)
  {
    if b == [] {
      assert a + b == a;
    } else {
      var k := |b| - 1;
      SinceAppend(a, b[..k], cutoff);
      assert (a + b)[..|a + b| - 1] == a + b[..k];
    }
  }

  /** Filtering twice is filtering by the later cutoff. */
  lemma {:induction false} SinceTwice(samples: seq<Sample>, early: nat, late: nat)
    requires early <= late
    ensures Since(Since(samples, early), late) == Since(samples, late)
  {
    if samples != [] {
      var k := |samples| - 1;
      SinceTwice(samples[..k], early, late);
      var tail := if samples[k].at >= early then [samples[k]] else [];
      SinceAppend(Since(samples[..k], early), tail, late);
      assert tail != [] ==> Since(tail, late) == if samples[k].at >= late then [samples[k]] else [] by {
        assert [samples[k]][..0] == [];
      }
    }
  }

  lemma SinceNext(samples: seq<Sample>, i: nat, cutoff: nat)
    requires i < |samples|
    ensures Since(samples[..i + 1], cutoff)
            == if samples[i].at >= cutoff then Since(samples[..i], cutoff) + [samples[i]]
               else Since(samples[..i], cutoff)
  {
    assert samples[..i + 1][..i] == samples[..i];
  }

  /** Every sample from `cutoff` on is within the horizon of every record after it. */
  ghost predicate Lossless(history: seq<Sample>, cutoff: nat) {
    forall i, k :: 0 <= i < k < |history| && history[i].at >= cutoff ==>
      history[i].at >= SatSub(history[k].at, WINDOW_15M)
  }

  lemma LosslessNext(history: seq<Sample>, cutoff: nat)
    requires history != []
    ensures var before, horizon := history[..|history| - 1], SatSub(history[|history| - 1].at, WINDOW_15M);
            Lossless(history, cutoff) <==>
              Lossless(before, cutoff) && forall s :: s in before && s.at >= cutoff ==> s.at >= horizon
  {
    var k := |history| - 1;
    var before := history[..k];
    assert forall i :: 0 <= i < k ==> before[i] == history[i];
    if Lossless(history, cutoff) {
      forall s | s in before && s.at >= cutoff
        ensures s.at >= SatSub(history[k].at, WINDOW_15M)
      {
        var i :| 0 <= i < k && before[i] == s;
      }
    }
  }

  lemma {:induction false} SinceSame(samples: seq<Sample>, early: nat, late: nat)
    requires early <= late
    ensures Since(samples, early) == Since(samples, late)
            <==> forall s :: s in samples && s.at >= early ==> s.at >= late
  {
    if samples != [] {
      var k := |samples| - 1;
      SinceSame(samples[..k], early, late);
      if forall s :: s in samples && s.at >= early ==> s.at >= late {
        assert forall s :: s in samples[..k] ==> s in samples;
      } else {
        var s :| s in samples && s.at >= early && s.at < late;
        assert s in Since(samples, early) && s !in Since(samples, late);
      }
    }
  }

  /** Any window, queried at any time, sees the full history exactly when a later record pruned no sample of it. */
  lemma {:induction false} SeesTheHistoryIff(history: seq<Sample>, cutoff: nat)
    ensures Since(Pruned(history), cutoff) == Since(history, cutoff) <==> Lossless(history, cutoff)
  {
    if history != [] {
      var k := |history| - 1;
      var before, last := history[..k], history[k];
      var horizon := SatSub(last.at, WINDOW_15M);
      var late := if cutoff <= horizon then horizon else cutoff;
      assert history == before + [last];
      LosslessNext(history, cutoff);
      LastIsKept(before, last, cutoff);
      hide Since, Pruned, Lossless;
      SeesTheHistoryIff(before, late);
      SinceSame(before, cutoff, late);
      LosslessLater(before, cutoff, late);
      SinceStart(Pruned(before), before, cutoff, late);
    }
  }

  /** The last record survives its own pruning, so what remains to compare is what came before it. */
  lemma LastIsKept(before: seq<Sample>, last: Sample, cutoff: nat)
    ensures var late := if cutoff <= SatSub(last.at, WINDOW_15M) then SatSub(last.at, WINDOW_15M) else cutoff;
            Since(Pruned(before + [last]), cutoff) == Since(before + [last], cutoff)
            <==> Since(Pruned(before), late) == Since(before, cutoff)
  {
    var horizon := SatSub(last.at, WINDOW_15M);
    var late := if cutoff <= horizon then horizon else cutoff;
    var all := before + [last];
    assert all[..|before|] == before;
    SinceMax(Pruned(before) + [last], horizon, cutoff);
    SinceAppend(Pruned(before), [last], late);
    SinceAppend(before, [last], cutoff);
    SinceOne(last, late);
    SinceOne(last, cutoff);
    hide Since;
    TailCancels(Since(Pruned(before), late), Since(before, cutoff), if last.at >= cutoff then [last] else []);
  }

  lemma SinceOne(s: Sample, cutoff: nat)
    ensures Since([s], cutoff) == if s.at >= cutoff then [s] else []
  {
    assert [s][..0] == [];
  }

  lemma TailCancels(a: seq<Sample>, b: seq<Sample>, tail: seq<Sample>)
    ensures a + tail == b + tail <==> a == b
  {
    if a + tail == b + tail {
      assert a == (a + tail)[..|a|] && b == (b + tail)[..|b|];
    }
  }

  /** Two filters in either order are the later one. */
  lemma SinceMax(samples: seq<Sample>, c1: nat, c2: nat)
    ensures Since(Since(samples, c1), c2) == Since(samples, if c1 <= c2 then c2 else c1)
  {
    if c1 <= c2 {
      SinceTwice(samples, c1, c2);
    } else {
      SinceSame(Since(samples, c1), c2, c1);
      SinceTwice(samples, c1, c1);
    }
  }

  lemma LosslessLater(history: seq<Sample>, early: nat, late: nat)
    requires early <= late
    ensures Lossless(history, early) ==> Lossless(history, late)
    ensures Lossless(history, late) && (forall s :: s in history && s.at >= early ==> s.at >= late)
            ==> Lossless(history, early)
  {
  }

  /** If a later filter of the buffer gives an earlier filter of the history, nothing lies between the two cutoffs. */
  lemma SinceStart(buffer: seq<Sample>, history: seq<Sample>, early: nat, late: nat)
    requires early <= late
    ensures Since(buffer, late) == Since(history, early) ==> forall s :: s in history && s.at >= early ==> s.at >= late
  {
    if Since(buffer, late) == Since(history, early) {
      forall s | s in history && s.at >= early
        ensures s.at >= late
      {
        assert s in Since(history, early);
      }
    }
  }

  /** All of a history was recorded no later than `now`. */
  ghost predicate RecordedBy(history: seq<Sample>, now: nat) {
    forall s :: s in history ==> s.at <= now
  }

  /** Hence every window up to 15 minutes sees exactly the samples ever recorded in it, and has their mean. */
  lemma WindowsSeeTheHistory(history: seq<Sample>, now: nat, span: nat)
    requires RecordedBy(history, now) && span <= WINDOW_15M
    ensures Since(Pruned(history), SatSub(now, span)) == Since(history, SatSub(now, span))
    ensures Mean(Since(Pruned(history), SatSub(now, span))) == Mean(Since(history, SatSub(now, span)))
  {
    SeesTheHistoryIff(history, SatSub(now, span));
    assert Lossless(history, SatSub(now, span));
  }

  /** The buffer never holds a sample older than the horizon of the last record. */
  lemma BufferIsBounded(history: seq<Sample>)
    requires history != []
    ensures forall s :: s in Pruned(history) ==> s in history && s.at + WINDOW_15M >= history[|history| - 1].at
  {
    PrunedIsHistory(history);
  }

  lemma {:induction false} PrunedIsHistory(history: seq<Sample>)
    ensures forall s :: s in Pruned(history) ==> s in history
  {
    if history != [] {
      PrunedIsHistory(history[..|history| - 1]);
    }
  }

  class Windows {
    var samples: seq<Sample>
    ghost var history: seq<Sample>

    ghost predicate Valid()
      reads this
    {
      samples == Pruned(history)
    }

    constructor ()
      ensures Valid() && history == []
    {
      samples, history := [], [];
    }

    /** `record`: push, then drop what is older than the horizon. */
    method Record(ghs: real, now: nat)
      requires Valid()
      modifies this
      ensures Valid() && history == old(history) + [Sample(now, ghs)]
    {
      history := history + [Sample(now, ghs)];
      assert history[..|history| - 1] == old(history);
      samples := samples + [Sample(now, ghs)];
      var cutoff := SatSub(now, WINDOW_15M);
      samples := Since(samples, cutoff);
    }

    /** The fold of `window_avg`: sum and number of the samples in the window, in one pass over the buffer. */
    method SumSince(cutoff: nat) returns (sum: real, n: nat)
      ensures sum == Sum(Since(samples, cutoff)) && n == |Since(samples, cutoff)|
    {
      sum, n := 0.0, 0;
      assert Since([], cutoff) == [] && Sum([]) == 0.0;
      hide Since, Sum;
      for i := 0 to |samples|
        invariant sum == Sum(Since(samples[..i], cutoff)) && n == |Since(samples[..i], cutoff)|
      {
        SinceNext(samples, i, cutoff);
        if samples[i].at >= cutoff {
          SumAppend(Since(samples[..i], cutoff), samples[i]);
          sum, n := sum + samples[i].ghs, n + 1;
        }
      }
      assert samples[..|samples|] == samples;
    }

    /** `window_avg`. */
    method WindowAverage(now: nat, span: nat) returns (mean: real)
      requires Valid() && span <= WINDOW_15M && RecordedBy(history, now)
      ensures mean == Mean(Since(history, SatSub(now, span)))
      ensures mean * |Since(history, SatSub(now, span))| as real == Sum(Since(history, SatSub(now, span)))
    {
      hide Since, Sum, Pruned, RecordedBy;
      var sum, n := SumSince(SatSub(now, span));
      WindowsSeeTheHistory(history, now, span);
      assert samples == Pruned(history);
      mean := if n == 0 then 0.0 else sum / n as real;
      SumOfNone(Since(history, SatSub(now, span)));
    }

    /** `windows`: for nondecreasing clocks all three means are those of the full history. */
    method Means(now: nat) returns (tenSeconds: real, minute: real, quarter: real)
      requires Valid() && RecordedBy(history, now)
      ensures tenSeconds == Mean(Since(history, SatSub(now, 10_000)))
      ensures minute == Mean(Since(history, SatSub(now, 60_000)))
      ensures quarter == Mean(Since(history, SatSub(now, 900_000)))
    {
      tenSeconds := WindowAverage(now, WINDOW_10S);
      minute := WindowAverage(now, WINDOW_60S);
      quarter := WindowAverage(now, WINDOW_15M);
    }
  }

  lemma SumOfNone(samples: seq<Sample>)
    ensures samples == [] ==> Sum(samples) == 0.0
  {
  }

  lemma SumAppend(samples: seq<Sample>, s: Sample)
    ensures Sum(samples + [s]) == Sum(samples) + s.ghs
  {
    assert (samples + [s])[..|samples|] == samples;
  }
}
