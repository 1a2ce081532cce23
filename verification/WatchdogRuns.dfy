/** What the log and the dumps of the watchdog mean, said of the polls alone. */
module WatchdogRuns {
  import opened Wrappers
  import opened Watchdog

  // ----- stall records -----

  /** The polls the tracker sees: those of a wedged main thread are left to the hard dump. */
  function Seen(samples: seq<Sample>): seq<Sample> {
    if samples == [] then []
    else
      var last := samples[|samples| - 1];
      if IsWedged(last) then Seen(samples[..|samples| - 1]) else Seen(samples[..|samples| - 1]) + [last]
  }

  function FeedAll(threshold: real, samples: seq<Sample>): Tracker {
    if samples == [] then NewTracker(threshold)
    else Feed(FeedAll(threshold, samples[..|samples| - 1]), samples[|samples| - 1]).0
  }

  /** How many of the last polls lie above the threshold without a gap. */
  function RunLength(threshold: real, samples: seq<Sample>): (n: nat)
    ensures n <= |samples|
    ensures forall i :: |samples| - n <= i < |samples| ==> samples[i].age > threshold
    ensures n < |samples| ==> samples[|samples| - n - 1].age <= threshold
  {
    if samples == [] || samples[|samples| - 1].age <= threshold then 0
    else 1 + RunLength(threshold, samples[..|samples| - 1])
  }

  /** The stall that was going on after these polls: the maximal run above the threshold at their end. */
  function CurrentRun(threshold: real, samples: seq<Sample>): seq<Sample> {
    samples[|samples| - RunLength(threshold, samples)..]
  }

  function PeakOf(run: seq<Sample>): real {
    if run == [] then 0.0 else MaxReal(PeakOf(run[..|run| - 1]), run[|run| - 1].age)
  }

  function GapOf(run: seq<Sample>): real {
    if run == [] then 0.0 else MaxReal(GapOf(run[..|run| - 1]), run[|run| - 1].gap)
  }

  predicate SpawnedDuring(run: seq<Sample>) {
    exists s :: s in run && s.spawning
  }

  /** The ages at which a stack was taken during a run: its first readable poll, then at each doubling. */
  function SnapshotAges(run: seq<Sample>): seq<real> {
    if run == [] then []
    else
      var before, s := SnapshotAges(run[..|run| - 1]), run[|run| - 1];
      if s.frames && (before == [] || s.age >= before[|before| - 1] * 2.0) then before + [s.age] else before
  }

  lemma RunStep(threshold: real, samples: seq<Sample>, s: Sample)
    ensures CurrentRun(threshold, samples + [s]) ==
      if s.age > threshold then CurrentRun(threshold, samples) + [s] else []
  {
    var all := samples + [s];
    assert all[..|all| - 1] == samples;
  }

  /** The tracker holds just what its description says of the current run. */
  ghost predicate Tracks(t: Tracker, threshold: real, run: seq<Sample>) {
    && t.threshold == threshold
    && (t.active <==> run != [])
    && t.peak == PeakOf(run) && t.maxGap == GapOf(run)
    && (t.sawSpawn <==> SpawnedDuring(run))
    && var ages := SnapshotAges(run);
       t.stackAge == if ages == [] then None else Some(ages[|ages| - 1])
  }

  lemma SpawnStep(run: seq<Sample>, s: Sample)
    ensures SpawnedDuring(run + [s]) <==> SpawnedDuring(run) || s.spawning
  {
    if SpawnedDuring(run) {
      var u :| u in run && u.spawning;
      assert u in run + [s];
    }
    if s.spawning {
      assert s in run + [s];
    }
  }

  lemma FeedTracks(t: Tracker, threshold: real, run: seq<Sample>, s: Sample)
    requires Tracks(t, threshold, run)
    ensures Tracks(Feed(t, s).0, threshold, if s.age > threshold then run + [s] else [])
  {
    if s.age > threshold {
      var longer := run + [s];
      assert longer[..|longer| - 1] == run;
      SpawnStep(run, s);
    }
  }

  lemma {:induction false} TrackerTracks(threshold: real, samples: seq<Sample>)
    ensures Tracks(FeedAll(threshold, samples), threshold, CurrentRun(threshold, samples))
    decreases |samples|
  {
    if samples != [] {
      var front, s := samples[..|samples| - 1], samples[|samples| - 1];
      assert samples == front + [s];
      TrackerTracks(threshold, front);
      RunStep(threshold, front, s);
      FeedTracks(FeedAll(threshold, front), threshold, CurrentRun(threshold, front), s);
    }
  }

  /**
   A record is logged exactly at a poll that ends a run above the threshold, and describes that whole run and
   no other poll: its peak, its largest gap and whether a pane was being spawned at any time in it.
   */
  lemma RecordsAreRuns(threshold: real, samples: seq<Sample>, s: Sample)
    ensures var record := Feed(FeedAll(threshold, samples), s).1;
      var run := CurrentRun(threshold, samples);
      && (record.Some? <==> s.age <= threshold && run != [])
      && (record.Some? ==>
            && record.value.peak == PeakOf(run) && record.value.gap == GapOf(run)
            && record.value.spawning == SpawnedDuring(run) && record.value.stack == (SnapshotAges(run) != [])
            && (record.value.wholeProcess <==>
                  GapOf(run) > 0.0 && (GapOf(run) >= 2.0 || 10.0 * GapOf(run) >= 8.0 * PeakOf(run))))
  {
    TrackerTracks(threshold, samples);
  }

  /** The peak of a run is the largest of its ages. */
  lemma {:induction false} PeakIsMaximum(run: seq<Sample>)
    requires run != [] && forall s :: s in run ==> s.age >= 0.0
    ensures exists s :: s in run && s.age == PeakOf(run)
    ensures forall s :: s in run ==> s.age <= PeakOf(run)
    decreases |run|
  {
    var front, last := run[..|run| - 1], run[|run| - 1];
    assert run == front + [last];
    assert last in run;
    if front != [] {
      PeakIsMaximum(front);
      var m :| m in front && m.age == PeakOf(front);
      assert m in run;
    }
  }

  // ----- snapshots of a run -----

  /** The age a, doubled k times. */
  function Doubled(a: real, k: nat): real {
    if k == 0 then a else 2.0 * Doubled(a, k - 1)
  }

  lemma {:induction false} SnapshotsBelowPeak(run: seq<Sample>, k: nat)
    requires k < |SnapshotAges(run)|
    ensures SnapshotAges(run)[k] <= PeakOf(run)
    decreases |run|
  {
    if k < |SnapshotAges(run[..|run| - 1])| {
      SnapshotsBelowPeak(run[..|run| - 1], k);
    }
  }

  /** The k-th later snapshot of a run is beyond the threshold doubled k times. */
  lemma {:induction false} SnapshotsDouble(threshold: real, run: seq<Sample>, k: nat)
    requires threshold >= 0.0 && forall s :: s in run ==> s.age > threshold
    requires k < |SnapshotAges(run)|
    ensures SnapshotAges(run)[k] > Doubled(threshold, k)
    decreases |run|
  {
    var front, last := run[..|run| - 1], run[|run| - 1];
    assert last in run;
    var before := SnapshotAges(front);
    assert forall s :: s in front ==> s in run;
    if k < |before| {
      SnapshotsDouble(threshold, front, k);
    } else if k > 0 {
      SnapshotsDouble(threshold, front, k - 1);
      assert SnapshotAges(run) == before + [last.age] && k == |before|;
    }
  }

  /** A run with n snapshots has risen beyond 2^(n-1) thresholds: their number is logarithmic in the peak. */
  lemma SnapshotsAreLogarithmic(threshold: real, samples: seq<Sample>)
    requires threshold >= 0.0
    ensures var run := CurrentRun(threshold, samples);
      var n := |SnapshotAges(run)|;
      n > 0 ==> Doubled(threshold, n - 1) < PeakOf(run)
  {
    var run := CurrentRun(threshold, samples);
    var n := |SnapshotAges(run)|;
    if n > 0 {
      forall s | s in run
        ensures s.age > threshold
      {
        var i :| 0 <= i < |run| && run[i] == s;
      }
      SnapshotsDouble(threshold, run, n - 1);
      SnapshotsBelowPeak(run, n - 1);
    }
  }

  // ----- the loop -----

  /** The loop feeds the tracker every poll but those of a wedge. */
  lemma {:induction false} LoopTracks(l: Loop, threshold: real, samples: seq<Sample>)
    requires l.tracker == NewTracker(threshold)
    ensures After(l, samples).tracker == FeedAll(threshold, Seen(samples))
    decreases |samples|
  {
    if samples != [] {
      var front, s := samples[..|samples| - 1], samples[|samples| - 1];
      LoopTracks(l, threshold, front);
      if !IsWedged(s) {
        assert (Seen(front) + [s])[..|Seen(front)|] == Seen(front);
      }
    }
  }

  /** A poll since which every poll was at or above the soft limit, none having reset the episode. */
  predicate SoftDumpedSince(limit: real, samples: seq<Sample>) {
    if samples == [] then false
    else
      var s := samples[|samples| - 1];
      if IsWedged(s) then SoftDumpedSince(limit, samples[..|samples| - 1]) else s.age > limit
  }

  /** Some poll of the wedge at the end ran on time. */
  predicate OnTimeInWedge(samples: seq<Sample>) {
    samples != [] && IsWedged(samples[|samples| - 1])
    && (samples[|samples| - 1].gap < WEDGE_MAX_GAP || OnTimeInWedge(samples[..|samples| - 1]))
  }

  lemma {:induction false} LoopFlags(l: Loop, samples: seq<Sample>)
    requires !l.softDumped && !l.hardDumped && !l.wedgeLogged
    ensures var a := After(l, samples);
      && a.softLimit == l.softLimit
      && (a.softDumped <==> SoftDumpedSince(l.softLimit, samples))
      && (a.hardDumped <==> samples != [] && IsWedged(samples[|samples| - 1]))
      && (a.wedgeLogged <==> OnTimeInWedge(samples))
    decreases |samples|
  {
    if samples != [] {
      LoopFlags(l, samples[..|samples| - 1]);
    }
  }

  /**
   One dump and at most one log line for each wedge: the dump at its first poll, the line at its first poll that
   ran on time; and one dump for each soft stall, at its first poll that is not already a wedge.
   */
  lemma OneDumpEach(threshold: real, softLimit: real, start: real, samples: seq<Sample>, i: nat)
    requires i < |samples|
    ensures var o := At(NewLoop(threshold, softLimit, start), samples, i);
      && (o.hardDump <==> IsWedged(samples[i]) && (i == 0 || !IsWedged(samples[i - 1])))
      && (o.wedge <==> IsWedged(samples[i]) && samples[i].gap < WEDGE_MAX_GAP && !OnTimeInWedge(samples[..i]))
      && (o.softDump <==>
            !IsWedged(samples[i]) && samples[i].age > softLimit && !SoftDumpedSince(softLimit, samples[..i]))
  {
    LoopFlags(NewLoop(threshold, softLimit, start), samples[..i]);
  }

  /** When the switch was last pushed back, or the loop began. */
  function LastPush(l: Loop, samples: seq<Sample>): real {
    if samples == [] then l.lastRearm
    else
      var s := samples[|samples| - 1];
      var last := LastPush(l, samples[..|samples| - 1]);
      if s.age < l.softLimit && s.now - last >= 60.0 then s.now else last
  }

  lemma {:induction false} LastPushKept(l: Loop, samples: seq<Sample>)
    ensures After(l, samples).lastRearm == LastPush(l, samples) && After(l, samples).softLimit == l.softLimit
  {
    if samples != [] {
      LastPushKept(l, samples[..|samples| - 1]);
    }
  }

  /** The switch is pushed back at every poll at which the main thread is well and the last push is a minute ago. */
  lemma RearmedExactly(l: Loop, samples: seq<Sample>, i: nat)
    requires i < |samples|
    ensures At(l, samples, i).rearmed <==>
      samples[i].age < l.softLimit && samples[i].now - LastPush(l, samples[..i]) >= 60.0
  {
    LastPushKept(l, samples[..i]);
  }

  /** A wedge is a heartbeat more than thirty seconds old, which goes unlogged while the loop itself overslept five. */
  lemma WedgeExactly(threshold: real, softLimit: real, start: real, samples: seq<Sample>, i: nat)
    requires i < |samples|
    ensures var o := At(NewLoop(threshold, softLimit, start), samples, i);
      && (o.hardDump <==> samples[i].age > 30.0 && (i == 0 || samples[i - 1].age <= 30.0))
      && (o.wedge ==> samples[i].age > 30.0 && samples[i].gap < 5.0)
      && (o.softDump ==> softLimit < samples[i].age <= 30.0)
  {
    OneDumpEach(threshold, softLimit, start, samples, i);
  }

  /** The switch is pushed back only while the main thread is well, and at most once a minute. */
  lemma RearmsAreSpaced(l: Loop, samples: seq<Sample>, i: nat, j: nat)
    requires i < j < |samples|
    requires forall m, n :: 0 <= m < n < |samples| ==> samples[m].now <= samples[n].now
    requires At(l, samples, i).rearmed && At(l, samples, j).rearmed
    ensures samples[j].now - samples[i].now >= REARM_INTERVAL && samples[j].age < l.softLimit
  {
    LastRearmKept(l, samples, i, j);
  }

  lemma {:induction false} LastRearmKept(l: Loop, samples: seq<Sample>, i: nat, j: nat)
    requires i < j < |samples| && At(l, samples, i).rearmed
    requires forall m, n :: 0 <= m < n < |samples| ==> samples[m].now <= samples[n].now
    ensures After(l, samples[..j]).lastRearm >= samples[i].now && After(l, samples[..j]).softLimit == l.softLimit
    decreases j
  {
    assert samples[..j][..j - 1] == samples[..j - 1];
    if j > i + 1 {
      LastRearmKept(l, samples, i, j - 1);
    } else {
      SoftLimitKept(l, samples[..i]);
    }
  }

  lemma {:induction false} SoftLimitKept(l: Loop, samples: seq<Sample>)
    ensures After(l, samples).softLimit == l.softLimit
    decreases |samples|
  {
    if samples != [] {
      SoftLimitKept(l, samples[..|samples| - 1]);
    }
  }
}
