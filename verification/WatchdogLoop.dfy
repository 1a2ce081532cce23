/**
 The tracker and the loop as objects, updated poll by poll. run lists the polls of the stall that is going on;
 Valid says that the tracker's fields measure it.
 */
module WatchdogLoop {
  import opened Wrappers
  import opened W = Watchdog
  import opened R = WatchdogRuns

  class StallTracker {
    const threshold: real
    var active: bool
    var peak: real
    var sawSpawn: bool
    var maxGap: real
    var stackAge: Option<real>
    ghost var run: seq<Sample>

    function Contents(): Tracker
      reads this
    {
      Tracker(threshold, active, peak, sawSpawn, maxGap, stackAge)
    }

    ghost predicate Valid()
      reads this
    {
      && (active <==> run != [])
      && peak == PeakOf(run) && maxGap == GapOf(run) && (sawSpawn <==> SpawnedDuring(run))
    }

    constructor (threshold: real)
      ensures Contents() == NewTracker(threshold)
      ensures Valid() && run == []
    {
      run := [];
      this.threshold := threshold;
      active, peak, sawSpawn, maxGap, stackAge := false, 0.0, false, 0.0, None;
    }

    static lemma Longer(run: seq<Sample>, s: Sample)
      ensures PeakOf(run + [s]) == MaxReal(PeakOf(run), s.age) && GapOf(run + [s]) == MaxReal(GapOf(run), s.gap)
      ensures SpawnedDuring(run + [s]) <==> SpawnedDuring(run) || s.spawning
    {
      assert (run + [s])[..|run|] == run;
      SpawnStep(run, s);
    }

    method Update(s: Sample) returns (r: Option<Record>)
      requires Valid()
      modifies this
      ensures (Contents(), r) == W.Update(old(Contents()), s)
      ensures Valid() && run == if s.age > threshold then old(run) + [s] else []
      ensures r.Some? <==> s.age <= threshold && old(run) != []
      ensures r.Some? ==> r.value.peak == PeakOf(old(run)) && r.value.gap == GapOf(old(run))
                          && (r.value.spawning <==> SpawnedDuring(old(run)))
    {
      run := if s.age > threshold then run + [s] else [];
      Longer(old(run), s);
      if s.age > threshold {
        active := true;
        peak := MaxReal(peak, s.age);
        maxGap := MaxReal(maxGap, s.gap);
        sawSpawn := sawSpawn || s.spawning;
        return None;
      }
      if active {
        r := Some(Record(peak, sawSpawn, maxGap, PausedProcess(maxGap, peak), stackAge.Some?));
        maxGap := 0.0;
        active, peak, sawSpawn, stackAge := false, 0.0, false, None;
        return;
      }
      return None;
    }

    method RecordStack(age: real)
      modifies this`stackAge
      ensures Contents() == old(Contents()).(stackAge := Some(age))
    {
      stackAge := Some(age);
    }

    /** What the loop does with a poll that is no wedge: a snapshot if it is time for one, then the update. */
    method Feed(s: Sample) returns (r: Option<Record>)
      requires Valid()
      modifies this
      ensures (Contents(), r) == W.Feed(old(Contents()), s)
      ensures Valid() && run == if s.age > threshold then old(run) + [s] else []
    {
      if ShouldSnapshot(Contents(), s.age) {
        if s.frames {
          RecordStack(s.age);
        }
      }
      r := Update(s);
    }
  }

  /** The variables of the loop; the tracker is one of them. */
  class Watch {
    const tracker: StallTracker
    const softLimit: real
    var softDumped: bool
    var hardDumped: bool
    var wedgeLogged: bool
    var lastRearm: real

    function Contents(): Loop
      reads this, tracker
    {
      Loop(tracker.Contents(), softLimit, softDumped, hardDumped, wedgeLogged, lastRearm)
    }

    constructor (threshold: real, softLimit: real, now: real)
      ensures Contents() == NewLoop(threshold, softLimit, now) && fresh(tracker) && tracker.Valid()
    {
      tracker := new StallTracker(threshold);
      this.softLimit := softLimit;
      softDumped, hardDumped, wedgeLogged, lastRearm := false, false, false, now;
    }

    /** A soft stall is dumped once, until the heartbeat is back. */
    method SoftStall(age: real) returns (dump: bool)
      modifies this`softDumped
      ensures dump <==> age > softLimit && !old(softDumped)
      ensures softDumped <==> age > softLimit
    {
      dump := false;
      if age > softLimit && !softDumped {
        dump := true;
        softDumped := true;
      } else if age <= softLimit {
        softDumped := false;
      }
    }

    /** A wedge is dumped once, and logged once at a poll that ran on time. */
    method Wedge(s: Sample) returns (dump: bool, log: bool)
      modifies this`hardDumped, this`wedgeLogged
      ensures dump <==> IsWedged(s) && !old(hardDumped)
      ensures log <==> IsWedged(s) && !old(wedgeLogged) && s.gap < WEDGE_MAX_GAP
      ensures hardDumped <==> IsWedged(s)
      ensures wedgeLogged <==> IsWedged(s) && (old(wedgeLogged) || s.gap < WEDGE_MAX_GAP)
    {
      dump, log := false, false;
      if IsWedged(s) {
        if !hardDumped {
          dump := true;
          hardDumped := true;
        }
        if !wedgeLogged && s.gap < WEDGE_MAX_GAP {
          wedgeLogged := true;
          log := true;
        }
      } else {
        hardDumped := false;
        wedgeLogged := false;
      }
    }

    /** One turn of the loop. */
    method Poll(s: Sample) returns (o: Output)
      requires tracker.Valid()
      modifies this, tracker
      ensures (Contents(), o) == Turn(old(Contents()), s)
      ensures tracker.Valid()
    {
      var rearmed := s.age < softLimit && s.now - lastRearm >= REARM_INTERVAL;
      if rearmed {
        lastRearm := s.now;
      }
      var softDump, record := false, None;
      if !IsWedged(s) {
        softDump := SoftStall(s.age);
        record := tracker.Feed(s);
      }
      var hardDump, wedge := Wedge(s);
      o := Output(rearmed, softDump, record, hardDump, wedge);
    }
  }
}
