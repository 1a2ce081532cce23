/** What the guards keep over every sequence of boots, of any versions, on any layouts, with any saves failing. */
module BootGuardRuns {
  import opened Wrappers
  import opened BootGuard

  function After(start: Disk, boots: seq<Boot>): Disk {
    if boots == [] then start else Next(After(start, boots[..|boots| - 1]), boots[|boots| - 1])
  }

  function Before(start: Disk, boots: seq<Boot>, n: nat): Disk
    requires n <= |boots|
  {
    After(start, boots[..n])
  }

  const MARKER := "version-marker"
  const PROMOTE := "promote-v2-root"

  /** The pass ran the step that moves the data, after which the engine writes the version marker once more. */
  ghost predicate Promotes(b: Boot) {
    exists p :: p in b.reports && p.step == PROMOTE
  }

  /** The engine's contract: it leaves the skipped steps alone, but for the marker it writes after moving the data. */
  ghost predicate Honest(d: Disk, b: Boot) {
    forall r :: r in b.reports && r.step in Skipped(d, b) ==> r.step == MARKER && Promotes(b)
  }

  ghost predicate IsRun(start: Disk, boots: seq<Boot>) {
    forall n :: 0 <= n < |boots| ==> Honest(Before(start, boots, n), boots[n])
  }

  function GuardOf(d: Disk, step: string): Option<string> {
    if step in d.rolledBackSteps then Some(d.rolledBackSteps[step]) else None
  }

  /** Boot n rolled the step back and could write that down. */
  ghost predicate Remembered(boots: seq<Boot>, n: nat, step: string)
    requires n < |boots|
  {
    RollsBack(boots[n], step) && boots[n].guardSaved
  }

  /** Boot n ran the whole ladder and replaced the state file. */
  ghost predicate Replaced(start: Disk, boots: seq<Boot>, n: nat)
    requires n < |boots|
  {
    RunsLadder(Before(start, boots, n), boots[n]) && boots[n].guardSaved
  }

  /** Exactly the hard failures are rolled back. */
  lemma {:induction false} RolledBackExactly(b: Boot, reports: seq<Report>, step: string)
    ensures step in RolledBack(b, reports) <==> exists r :: r in reports && r.step == step && Hard(b, r)
  {
    if reports != [] {
      var front, last := reports[..|reports| - 1], reports[|reports| - 1];
      RolledBackExactly(b, front, step);
      assert reports == front + [last];
    }
  }

  lemma BeforeNext(start: Disk, boots: seq<Boot>, n: nat)
    requires n < |boots|
    ensures Before(start, boots, n + 1) == Next(Before(start, boots, n), boots[n])
  {
    assert boots[..n + 1][..n] == boots[..n];
  }

  lemma GuardStep(start: Disk, boots: seq<Boot>, n: nat, step: string)
    requires n < |boots|
    ensures GuardOf(Before(start, boots, n + 1), step) ==
            if Replaced(start, boots, n) then None
            else if Remembered(boots, n, step) then Some(boots[n].version)
            else GuardOf(Before(start, boots, n), step)
  {
    BeforeNext(start, boots, n);
  }

  /**
   The guard of a step computed from the history: the version that last rolled it back since the file was
   replaced.
   */
  ghost function LastRollback(start: Disk, boots: seq<Boot>, n: nat, step: string): Option<string>
    requires n <= |boots|
  {
    if n == 0 then GuardOf(start, step)
    else if Replaced(start, boots, n - 1) then None
    else if Remembered(boots, n - 1, step) then Some(boots[n - 1].version)
    else LastRollback(start, boots, n - 1, step)
  }

  /** A step is skipped in a boot exactly if the running version is the one that last rolled it back. */
  lemma SkippedExactly(start: Disk, boots: seq<Boot>, n: nat, step: string)
    requires n < |boots|
    ensures step in Skipped(Before(start, boots, n), boots[n]) <==>
            LastRollback(start, boots, n, step) == Some(boots[n].version)
  {
    GuardIsLastRollback(start, boots, n, step);
  }

  lemma {:induction false} GuardIsLastRollback(start: Disk, boots: seq<Boot>, n: nat, step: string)
    requires n <= |boots|
    ensures GuardOf(Before(start, boots, n), step) == LastRollback(start, boots, n, step)
  {
    if n > 0 {
      GuardIsLastRollback(start, boots, n - 1, step);
      GuardStep(start, boots, n - 1, step);
    }
  }

  /** A remembered rollback guards the step until another version rolls it back or the file is replaced. */
  lemma {:induction false} GuardHolds(start: Disk, boots: seq<Boot>, i: nat, n: nat, step: string)
    requires i < n <= |boots| && Remembered(boots, i, step)
    requires forall k :: i < k < n ==> !Replaced(start, boots, k)
    requires forall k :: i < k < n && Remembered(boots, k, step) ==> boots[k].version == boots[i].version
    ensures GuardOf(Before(start, boots, n), step) == Some(boots[i].version)
    decreases n
  {
    GuardStep(start, boots, n - 1, step);
    if i < n - 1 {
      GuardHolds(start, boots, i, n - 1, step);
    } else {
      assert !RunsLadder(Before(start, boots, i), boots[i]);
    }
  }

  /**
   A version rolls a step back in two boots only if, in between, another version rolled it back and remembered it
   or a run of the whole ladder replaced the state file, or if it is the marker written after moving the data.
   */
  lemma RolledBackAgain(start: Disk, boots: seq<Boot>, i: nat, j: nat, step: string)
    requires IsRun(start, boots) && i < j < |boots| && Remembered(boots, i, step)
    requires RollsBack(boots[j], step) && boots[j].version == boots[i].version
    ensures (step == MARKER && Promotes(boots[j])) || exists k :: (i < k < j &&
      (Replaced(start, boots, k) || (Remembered(boots, k, step) && boots[k].version != boots[i].version)))
  {
    assert Honest(Before(start, boots, j), boots[j]);
    RolledBackExactly(boots[j], boots[j].reports, step);
    if forall k :: i < k < j ==>
      !Replaced(start, boots, k) && (Remembered(boots, k, step) ==> boots[k].version == boots[i].version)
    {
      GuardHolds(start, boots, i, j, step);
    }
  }

  /**
   On a promoted layout, boots of one version whose saves succeed roll a step back in at most one of them,
   the marker written after moving the data excepted.
   */
  lemma OncePerVersion(start: Disk, boots: seq<Boot>, i: nat, j: nat, step: string)
    requires IsRun(start, boots) && i < j < |boots|
    requires forall k :: i <= k <= j ==>
      boots[k].version == boots[i].version && boots[k].layout == Promoted && boots[k].guardSaved
    ensures RollsBack(boots[i], step) && RollsBack(boots[j], step) ==> step == MARKER && Promotes(boots[j])
  {
    if RollsBack(boots[i], step) && RollsBack(boots[j], step) {
      RolledBackAgain(start, boots, i, j, step);
    }
  }

  /** The exception is real: a boot that moves data writes the marker, although it is to be skipped. */
  lemma MarkerRolledBackAgain(version: string)
    ensures var fails, moved := Report(MARKER, false, false, ""), Report(PROMOTE, true, false, "");
      var first := Boot(version, true, Promoted, false, true, {}, [fails, moved, fails], true, true, true);
      var boots := [first, first.(appliedBefore := {PROMOTE}, reports := [moved, fails])];
      IsRun(EMPTY_DISK, boots) && RollsBack(boots[0], MARKER) && RollsBack(boots[1], MARKER)
  {
    var fails, moved := Report(MARKER, false, false, ""), Report(PROMOTE, true, false, "");
    var first := Boot(version, true, Promoted, false, true, {}, [fails, moved, fails], true, true, true);
    var boots := [first, first.(appliedBefore := {PROMOTE}, reports := [moved, fails])];
    assert Before(EMPTY_DISK, boots, 0) == EMPTY_DISK;
    assert boots[0].reports[0] == fails && boots[0].reports[1] == moved;
    assert boots[1].reports[0] == moved && boots[1].reports[1] == fails;
    RolledBackExactly(boots[0], boots[0].reports, MARKER);
    RolledBackExactly(boots[1], boots[1].reports, MARKER);
    BeforeNext(EMPTY_DISK, boots, 0);
    forall s | s in Skipped(Before(EMPTY_DISK, boots, 1), boots[1])
      ensures s == MARKER
    {
      RolledBackExactly(boots[0], boots[0].reports, s);
    }
    assert Promotes(boots[0]) && Promotes(boots[1]);
  }

  /** A hard failure of the step among the reports. */
  ghost predicate FailsHard(b: Boot, r: Report, step: string) {
    r.step == step && Hard(b, r)
  }

  ghost predicate FailsTwice(b: Boot, reports: seq<Report>, step: string) {
    exists i, j :: 0 <= i < j < |reports| && FailsHard(b, reports[i], step) && FailsHard(b, reports[j], step)
  }

  lemma FailsTwiceStep(b: Boot, front: seq<Report>, r: Report, step: string)
    ensures FailsTwice(b, front + [r], step) <==>
      FailsTwice(b, front, step) || (FailsHard(b, r, step) && exists q :: q in front && FailsHard(b, q, step))
  {
    var all := front + [r];
    assert forall i :: 0 <= i < |front| ==> all[i] == front[i];
    if FailsTwice(b, front, step) {
      var i, j :| 0 <= i < j < |front| && FailsHard(b, front[i], step) && FailsHard(b, front[j], step);
      assert FailsHard(b, all[i], step) && FailsHard(b, all[j], step);
    }
    if q :| q in front && FailsHard(b, q, step) {
      var i :| 0 <= i < |front| && front[i] == q;
      assert FailsHard(b, all[i], step) && all[|front|] == r;
    }
  }

  lemma RollbacksStep(b: Boot, front: seq<Report>, r: Report, step: string)
    ensures multiset(RolledBack(b, front + [r]))[step] ==
      multiset(RolledBack(b, front))[step] + if FailsHard(b, r, step) then 1 else 0
  {
    assert (front + [r])[..|front|] == front;
    var own := if Hard(b, r) then [r.step] else [];
    assert RolledBack(b, front + [r]) == RolledBack(b, front) + own;
  }

  /** Within one boot a step is rolled back more than once if and only if two of its reports are hard failures. */
  lemma {:induction false} TwiceInOneBoot(b: Boot, reports: seq<Report>, step: string)
    ensures multiset(RolledBack(b, reports))[step] >= 2 <==> FailsTwice(b, reports, step)
  {
    if reports != [] {
      var front, last := reports[..|reports| - 1], reports[|reports| - 1];
      assert reports == front + [last];
      TwiceInOneBoot(b, front, step);
      RolledBackExactly(b, front, step);
      RollbacksStep(b, front, last, step);
      FailsTwiceStep(b, front, last, step);
      assert step in RolledBack(b, front) <==> multiset(RolledBack(b, front))[step] >= 1;
    }
  }

  /**
   A step of which every report went through, was of a step applied before, or only waits for its clean-up, is not
   rolled back and not guarded: the next boot of the version tries it again, unless it was guarded already.
   */
  lemma SparedStepIsRetried(start: Disk, boots: seq<Boot>, n: nat, step: string)
    requires IsRun(start, boots) && n + 1 < |boots| && boots[n + 1].version == boots[n].version
    requires RunsPending(boots[n]) && exists r :: r in boots[n].reports && r.step == step
    requires forall r :: r in boots[n].reports && r.step == step ==>
      r.ok || r.step in boots[n].appliedBefore || r.cleanupPending
    ensures !RollsBack(boots[n], step)
    ensures step in Skipped(Before(start, boots, n + 1), boots[n + 1]) ==>
      step in Skipped(Before(start, boots, n), boots[n]) && step == MARKER && Promotes(boots[n])
  {
    RolledBackExactly(boots[n], boots[n].reports, step);
    GuardStep(start, boots, n, step);
    assert Honest(Before(start, boots, n), boots[n]);
  }

  /** A v1 machine walks the ladder at most once in a version that rolled it back, whatever other boots do. */
  lemma {:induction false} LadderOncePerVersion(start: Disk, boots: seq<Boot>, i: nat, j: nat)
    requires i < j < |boots|
    requires RollsBackLadder(Before(start, boots, i), boots[i]) && boots[i].guardSaved
    requires forall k :: i < k <= j ==> boots[k].version == boots[i].version
    ensures !RunsLadder(Before(start, boots, j), boots[j])
    ensures Before(start, boots, j).rolledBackFor == Some(boots[i].version)
    decreases j
  {
    BeforeNext(start, boots, j - 1);
    if i < j - 1 {
      LadderOncePerVersion(start, boots, i, j - 1);
    }
  }

  /** What the journal of applied steps holds at the next boot, as far as this boot decides it. */
  ghost predicate Journaled(d: Disk, b: Boot, next: Boot, ladder: set<string>) {
    && (RunsPending(b) ==>
          next.appliedBefore ==
          b.appliedBefore + (set r | r in b.reports && r.ok :: r.step) - (set s | s in RolledBack(b, b.reports)))
    && (RunsLadder(d, b) && b.ladderOk ==> ladder <= next.appliedBefore)
    && (RunsLadder(d, b) && !b.ladderOk ==> next.appliedBefore <= b.appliedBefore + ladder)
  }

  /** After a run of the ladder that went through, the next boot rolls none of its steps back. */
  lemma GoodLadderSpares(d: Disk, b: Boot, next: Boot, ladder: set<string>, step: string)
    requires Journaled(d, b, next, ladder) && RunsLadder(d, b) && b.ladderOk && step in ladder
    ensures !RollsBack(next, step)
  {
    RolledBackExactly(next, next.reports, step);
  }

  /**
   The other escape is real: the run of the ladder that fails, and is not undone completely, replaces the file
   and with it the guard of a step that this version has rolled back.
   */
  lemma LadderRunForgetsGuard(version: string, step: string, ladder: set<string>)
    requires step in ladder
    ensures var fails := Report(step, false, false, "");
      var failing := Boot(version, true, Promoted, false, true, {}, [fails], false, true, true);
      var boots := [failing, failing.(layout := V1, reports := []), failing];
      && IsRun(EMPTY_DISK, boots) && RollsBack(boots[0], step) && RollsBack(boots[2], step)
      && Journaled(EMPTY_DISK, boots[0], boots[1], ladder)
      && RollsBackLadder(Before(EMPTY_DISK, boots, 1), boots[1])
      && Journaled(Before(EMPTY_DISK, boots, 1), boots[1], boots[2], ladder)
  {
    var failing := Boot(version, true, Promoted, false, true, {}, [Report(step, false, false, "")], false, true, true);
    var boots := [failing, failing.(layout := V1, reports := []), failing];
    RolledBackExactly(failing, failing.reports, step);
    assert failing.reports[0] in failing.reports;
    assert (set r | r in failing.reports && r.ok :: r.step) == {};
    BeforeNext(EMPTY_DISK, boots, 0);
    BeforeNext(EMPTY_DISK, boots, 1);
    assert boots[1].layout == V1 && Before(EMPTY_DISK, boots, 1).rolledBackFor == None;
    assert Before(EMPTY_DISK, boots, 2).rolledBackSteps == map[];
  }

  // ----- one boot -----

  /** A pending pass rolls a step back exactly if it was never applied and a report says it failed, save in clean-up. */
  lemma RollsBackExactly(b: Boot, step: string)
    ensures RollsBack(b, step) <==>
      && b.enabled && b.layout == Promoted && (b.hasRoom || !b.copyWork)
      && exists r :: r in b.reports && r.step == step && !r.ok && step !in b.appliedBefore && !r.cleanupPending
  {
    RolledBackExactly(b, b.reports, step);
  }

  /** The last report of a step that failed although it was applied before. */
  ghost predicate LastStale(b: Boot, reports: seq<Report>, step: string, i: nat) {
    && i < |reports| && reports[i].step == step && !reports[i].ok && step in b.appliedBefore
    && forall j :: i < j < |reports| ==> !(reports[j].step == step && !reports[j].ok)
  }

  ghost predicate AnyStale(b: Boot, reports: seq<Report>, step: string) {
    exists r :: r in reports && r.step == step && !r.ok && step in b.appliedBefore
  }

  function Shortened(summary: string): string {
    if |summary| <= 200 then summary else summary[..200]
  }

  lemma {:induction false} NotedExactly(stale: map<string, string>, b: Boot, reports: seq<Report>, step: string)
    ensures var noted := Noted(stale, b, reports);
      && (step in noted <==> step in stale || AnyStale(b, reports, step))
      && (!AnyStale(b, reports, step) && step in stale ==> noted[step] == stale[step])
  {
    if reports != [] {
      var front, last := reports[..|reports| - 1], reports[|reports| - 1];
      assert reports == front + [last];
      NotedExactly(stale, b, front, step);
    }
  }

  lemma {:induction false} NotedSummary(stale: map<string, string>, b: Boot, reports: seq<Report>, step: string, i: nat)
    requires LastStale(b, reports, step, i)
    ensures step in Noted(stale, b, reports) && Noted(stale, b, reports)[step] == Shortened(reports[i].summary)
  {
    var n := |reports| - 1;
    if i < n {
      NotedSummary(stale, b, reports[..n], step, i);
      assert !(reports[n].step == step && !reports[n].ok);
    }
  }

  /** A step that failed although it was applied before is noted for the doctor; nothing else is noted. */
  lemma StaleExactly(d: Disk, b: Boot, step: string)
    requires RunsPending(b) && b.staleSaved
    ensures var after := Next(d, b).staleSteps;
      && (step in after <==> step in d.staleSteps || AnyStale(b, b.reports, step))
      && (!AnyStale(b, b.reports, step) && step in after ==> after[step] == d.staleSteps[step])
  {
    NotedExactly(d.staleSteps, b, b.reports, step);
  }

  /** It is noted with the summary of its last failed report, cut to 200 characters. */
  lemma StaleSummary(d: Disk, b: Boot, step: string, i: nat)
    requires RunsPending(b) && b.staleSaved && LastStale(b, b.reports, step, i)
    ensures var after := Next(d, b).staleSteps;
      step in after && after[step] == Shortened(b.reports[i].summary)
  {
    NotedSummary(d.staleSteps, b, b.reports, step, i);
  }

  /** A run of the ladder leaves nothing in the file but how it went for this version. */
  lemma LadderLeaves(d: Disk, b: Boot)
    requires RunsLadder(d, b) && b.guardSaved
    ensures var after := Next(d, b);
      && after.rolledBackSteps == map[] && after.staleSteps == map[]
      && after.rolledBackFor == (if b.ladderOk then None else Some(b.version))
      && after.appliedVersion == (if b.ladderOk then Some(b.version) else None)
  {
  }
}
