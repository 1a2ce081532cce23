/**
 The files within the entries of a step, as the events count them, over every order in which an engine reports
 them.
 */
module MigrationFiles {
  import opened Wrappers
  import opened MigrationProgress

  /** The engine counts up to its own total. */
  ghost predicate EngineCounts(callbacks: seq<Callback>) {
    forall c :: c in callbacks && c.FileProgress? ==> 0 <= c.filesDone <= c.filesTotal
  }

  /** Within a step the number of finished files never falls, and never exceeds the number shown as total. */
  ghost predicate FilesClimb(events: seq<Event>) {
    && (forall i, j :: 0 <= i < j < |events| && events[i].filesDone.Some? && events[j].filesDone.Some? ==>
          (events[i].step == events[j].step ==> events[i].filesDone.value <= events[j].filesDone.value))
    && (forall i :: 0 <= i < |events| && events[i].filesDone.Some? ==>
          events[i].filesTotal.Some? && events[i].filesDone.value <= events[i].filesTotal.value)
  }

  /** The count of a step last shown. */
  function Shown(s: Stream, step: Step): int {
    BaseOf(s, step) + LastFiles(s, step).done
  }

  ghost predicate FilesInv(s: Stream) {
    && FilesClimb(s.events)
    && (forall step :: 0 <= LastFiles(s, step).done <= LastFiles(s, step).total)
    && (forall i :: 0 <= i < |s.events| && s.events[i].filesDone.Some? ==>
          s.events[i].step.Some? && s.events[i].filesDone.value <= Shown(s, s.events[i].step.value))
  }

  /** Any callback but one about files sends at most one event, without files. */
  lemma OtherEvents(p: Plan, s: Stream, c: Callback)
    requires !c.FileProgress?
    ensures Untouched(s, On(p, s, c))
  {
    var s' := On(p, s, c);
    if s'.events != s.events {
      var e := s'.events[|s.events|];
      assert s'.events == s.events + [e] && e.filesDone.None? && e.filesTotal.None?;
    }
  }

  /** One more event about the files of a step keeps the promise if its count is no lower than the last shown. */
  lemma FilesAppend(s: Stream, s': Stream, e: Event, step: Step)
    requires FilesInv(s) && s'.events == s.events + [e]
    requires e.step == Some(step) && e.filesDone == Some(Shown(s', step)) && Shown(s, step) <= Shown(s', step)
    requires e.filesTotal.Some? && e.filesDone.value <= e.filesTotal.value
    requires 0 <= LastFiles(s', step).done <= LastFiles(s', step).total
    requires forall t :: t != step ==> Shown(s', t) == Shown(s, t) && LastFiles(s', t) == LastFiles(s, t)
    ensures FilesInv(s')
  {
  }

  lemma NotedFiles(s: Stream, step: Step, filesDone: int, filesTotal: int)
    requires forall t :: 0 <= LastFiles(s, t).done <= LastFiles(s, t).total
    requires 0 <= filesDone <= filesTotal
    ensures var s' := OnFileProgress(s, step, filesDone, filesTotal);
      && Shown(s', step) == BaseOf(s', step) + filesDone >= Shown(s, step)
      && LastFiles(s', step) == Files(filesDone, filesTotal)
      && forall t :: t != step ==> Shown(s', t) == Shown(s, t) && LastFiles(s', t) == LastFiles(s, t)
  {
  }

  lemma OtherFiles(p: Plan, s: Stream, c: Callback)
    requires FilesInv(s) && !c.FileProgress?
    ensures FilesInv(On(p, s, c))
  {
    OtherEvents(p, s, c);
    FilesUntouched(s, On(p, s, c));
  }

  ghost predicate Untouched(s: Stream, s': Stream) {
    && s'.filesLast == s.filesLast && s'.filesBase == s.filesBase
    && (s'.events == s.events
        || exists e :: (s'.events == s.events + [e] && e.filesDone.None? && e.filesTotal.None?))
  }

  lemma FilesUntouched(s: Stream, s': Stream)
    requires FilesInv(s) && Untouched(s, s')
    ensures FilesInv(s')
  {
    assert forall step :: Shown(s', step) == Shown(s, step) && LastFiles(s', step) == LastFiles(s, step);
  }

  lemma TotalsUntouched(s: Stream, s': Stream)
    requires TotalsInv(s) && Untouched(s, s')
    ensures TotalsInv(s')
  {
    assert forall step :: TotalShown(s', step) == TotalShown(s, step);
  }

  lemma FilesStep(p: Plan, s: Stream, c: Callback)
    requires FilesInv(s)
    requires c.FileProgress? ==> 0 <= c.filesDone <= c.filesTotal
    ensures FilesInv(On(p, s, c))
  {
    var s' := On(p, s, c);
    if c.FileProgress? {
      var e := s'.events[|s.events|];
      NotedFiles(s, c.step, c.filesDone, c.filesTotal);
      FilesAppend(s, s', e, c.step);
    } else {
      OtherFiles(p, s, c);
    }
  }

  lemma {:induction false} FilesNeverFall(p: Plan, callbacks: seq<Callback>)
    requires EngineCounts(callbacks)
    ensures FilesInv(Run(p, callbacks))
    ensures FilesClimb(Run(p, callbacks).events)
    decreases |callbacks|
  {
    if callbacks != [] {
      var front, c := callbacks[..|callbacks| - 1], callbacks[|callbacks| - 1];
      assert callbacks == front + [c];
      FilesNeverFall(p, front);
      FilesStep(p, Run(p, front), c);
    }
  }

  // ----- the totals -----

  /** One way through the files of an entry, to copy or to verify them: the counts reported, up to the total. */
  datatype Pass = Pass(total: nat, counts: seq<nat>)

  /** Counts go up and the last one is the total; the report between copying and verifying is a pass of its own. */
  ghost predicate Complete(p: Pass) {
    && p.counts != [] && p.counts[|p.counts| - 1] == p.total
    && forall i, j :: 0 <= i < j < |p.counts| ==> p.counts[i] < p.counts[j]
  }

  function ReportsOf(p: Pass): (r: seq<Files>)
    ensures |r| == |p.counts| && forall i :: 0 <= i < |r| ==> r[i] == Files(p.counts[i], p.total)
  {
    seq(|p.counts|, i requires 0 <= i < |p.counts| => Files(p.counts[i], p.total))
  }

  function Reports(passes: seq<Pass>): seq<Files> {
    if passes == [] then [] else Reports(passes[..|passes| - 1]) + ReportsOf(passes[|passes| - 1])
  }

  /** What a sequence of callbacks reports about the files of one step. */
  function FileReports(callbacks: seq<Callback>, step: Step): seq<Files> {
    if callbacks == [] then []
    else
      var c := callbacks[|callbacks| - 1];
      FileReports(callbacks[..|callbacks| - 1], step)
      + if c.FileProgress? && c.step == step then [Files(c.filesDone, c.filesTotal)] else []
  }

  ghost predicate ReportsPasses(reports: seq<Files>, passes: seq<Pass>) {
    (forall p :: p in passes ==> Complete(p)) && reports <= Reports(passes)
  }

  /** The engine's protocol: each step reports pass after pass, and stops anywhere when an entry fails. */
  ghost predicate Protocol(callbacks: seq<Callback>) {
    forall step :: exists passes :: ReportsPasses(FileReports(callbacks, step), passes)
  }

  /** A report that may follow another: within its pass, or in a new one if the other ended its own. */
  predicate Continues(a: Files, b: Files) {
    0 <= b.done <= b.total && (a.done == a.total || (b.total == a.total && a.done < b.done))
  }

  /** The report before the i-th of a step. */
  function Prior(reports: seq<Files>, i: nat): Files
    requires i <= |reports|
  {
    if i == 0 then Files(0, 0) else reports[i - 1]
  }

  ghost predicate Orderly(reports: seq<Files>) {
    forall i :: 0 <= i < |reports| ==> Continues(Prior(reports, i), reports[i])
  }

  lemma OrderlyAppend(a: seq<Files>, b: seq<Files>)
    requires Orderly(a) && Prior(a, |a|).done == Prior(a, |a|).total
    requires forall i :: 0 <= i < |b| ==> 0 <= b[i].done <= b[i].total && (i > 0 ==> Continues(Prior(b, i), b[i]))
    ensures Orderly(a + b)
  {
    forall i | 0 <= i < |a + b|
      ensures Continues(Prior(a + b, i), (a + b)[i])
    {
      if i < |a| {
        assert Prior(a + b, i) == Prior(a, i);
      } else if i > |a| {
        assert Prior(a + b, i) == Prior(b, i - |a|);
      }
    }
  }

  lemma {:induction false} PassesAreOrderly(passes: seq<Pass>)
    requires forall p :: p in passes ==> Complete(p)
    ensures var r := Reports(passes); Orderly(r) && Prior(r, |r|).done == Prior(r, |r|).total
  {
    if passes != [] {
      var front, last := passes[..|passes| - 1], passes[|passes| - 1];
      assert last in passes && forall p :: p in front ==> p in passes;
      PassesAreOrderly(front);
      var own := ReportsOf(last);
      forall i | 0 <= i < |own|
        ensures 0 <= own[i].done <= own[i].total && (i > 0 ==> Continues(Prior(own, i), own[i]))
      {
        CountBelowTotal(last, i);
      }
      OrderlyAppend(Reports(front), own);
    }
  }

  lemma CountBelowTotal(p: Pass, k: nat)
    requires Complete(p) && k < |p.counts|
    ensures p.counts[k] <= p.total
  {
  }

  /** The total of a step last shown. */
  function TotalShown(s: Stream, step: Step): int {
    BaseOf(s, step) + LastFiles(s, step).total
  }

  /** Within a step the total number of files never falls. */
  ghost predicate TotalsClimb(events: seq<Event>) {
    forall i, j :: 0 <= i < j < |events| && events[i].filesTotal.Some? && events[j].filesTotal.Some? ==>
      (events[i].step == events[j].step ==> events[i].filesTotal.value <= events[j].filesTotal.value)
  }

  ghost predicate TotalsInv(s: Stream) {
    && TotalsClimb(s.events)
    && (forall i :: 0 <= i < |s.events| && s.events[i].filesTotal.Some? ==>
          s.events[i].step.Some? && s.events[i].filesTotal.value <= TotalShown(s, s.events[i].step.value))
  }

  lemma TotalsAppend(s: Stream, s': Stream, e: Event, step: Step)
    requires TotalsInv(s) && s'.events == s.events + [e]
    requires e.step == Some(step) && e.filesTotal == Some(TotalShown(s', step))
      && TotalShown(s, step) <= TotalShown(s', step)
    requires forall t :: t != step ==> TotalShown(s', t) == TotalShown(s, t)
    ensures TotalsInv(s')
  {
  }

  lemma TotalNoted(s: Stream, step: Step, filesDone: int, filesTotal: int)
    requires Continues(LastFiles(s, step), Files(filesDone, filesTotal))
    ensures var s' := OnFileProgress(s, step, filesDone, filesTotal);
      && TotalShown(s', step) == BaseOf(s', step) + filesTotal >= TotalShown(s, step)
      && LastFiles(s', step) == Files(filesDone, filesTotal)
      && forall t :: t != step ==> TotalShown(s', t) == TotalShown(s, t) && LastFiles(s', t) == LastFiles(s, t)
  {
  }

  /** The report last noted for a step is the last one the engine made. */
  ghost predicate NotesLast(s: Stream, callbacks: seq<Callback>) {
    forall step :: LastFiles(s, step) == Prior(FileReports(callbacks, step), |FileReports(callbacks, step)|)
  }

  lemma ReportsStep(front: seq<Callback>, c: Callback, step: Step)
    ensures FileReports(front + [c], step) == FileReports(front, step) +
      if c.FileProgress? && c.step == step then [Files(c.filesDone, c.filesTotal)] else []
  {
    assert (front + [c])[..|front|] == front;
  }

  lemma NotesStep(p: Plan, s: Stream, front: seq<Callback>, c: Callback, step: Step)
    requires NotesLast(s, front)
    ensures var r := FileReports(front + [c], step); LastFiles(On(p, s, c), step) == Prior(r, |r|)
  {
    ReportsStep(front, c, step);
    var r := FileReports(front, step);
    assert LastFiles(s, step) == Prior(r, |r|);
    if !c.FileProgress? {
      OtherEvents(p, s, c);
    }
  }

  lemma TotalsStep(p: Plan, s: Stream, front: seq<Callback>, c: Callback)
    requires TotalsInv(s) && NotesLast(s, front)
    requires forall step :: Orderly(FileReports(front + [c], step))
    ensures TotalsInv(On(p, s, c))
  {
    if c.FileProgress? {
      var before, r := FileReports(front, c.step), FileReports(front + [c], c.step);
      ReportsStep(front, c, c.step);
      assert Prior(r, |before|) == Prior(before, |before|) == LastFiles(s, c.step);
      assert Continues(Prior(r, |before|), r[|before|]);
      TotalNoted(s, c.step, c.filesDone, c.filesTotal);
      var s' := On(p, s, c);
      TotalsAppend(s, s', s'.events[|s.events|], c.step);
    } else {
      OtherTotals(p, s, c);
    }
  }

  lemma OtherTotals(p: Plan, s: Stream, c: Callback)
    requires TotalsInv(s) && !c.FileProgress?
    ensures TotalsInv(On(p, s, c)) && On(p, s, c).filesLast == s.filesLast
  {
    OtherEvents(p, s, c);
    TotalsUntouched(s, On(p, s, c));
  }

  lemma {:induction false} TotalsHold(p: Plan, callbacks: seq<Callback>)
    requires forall step :: Orderly(FileReports(callbacks, step))
    ensures TotalsInv(Run(p, callbacks)) && NotesLast(Run(p, callbacks), callbacks)
  {
    if callbacks != [] {
      var front, c := callbacks[..|callbacks| - 1], callbacks[|callbacks| - 1];
      assert callbacks == front + [c];
      forall step
        ensures Orderly(FileReports(front, step))
      {
        OrderlyFront(front, c, step);
      }
      TotalsHold(p, front);
      var before := Run(p, front);
      assert Run(p, callbacks) == On(p, before, c);
      TotalsStep(p, before, front, c);
      forall step
        ensures LastFiles(On(p, before, c), step) == Prior(FileReports(callbacks, step), |FileReports(callbacks, step)|)
      {
        NotesStep(p, before, front, c, step);
      }
    }
  }

  lemma OrderlyFront(front: seq<Callback>, c: Callback, step: Step)
    requires Orderly(FileReports(front + [c], step))
    ensures Orderly(FileReports(front, step))
  {
    ReportsStep(front, c, step);
    OrderlyPrefix(FileReports(front, step), FileReports(front + [c], step));
  }

  /**
   For every sequence of callbacks in which the engine keeps its protocol, the number of files done and the total
   shown with it never fall within a step, across all its entries and their passes, however steps are interleaved.
   */
  lemma TotalsNeverFall(p: Plan, callbacks: seq<Callback>)
    requires Protocol(callbacks)
    ensures TotalsClimb(Run(p, callbacks).events) && FilesClimb(Run(p, callbacks).events)
  {
    forall step
      ensures Orderly(FileReports(callbacks, step))
    {
      var passes :| ReportsPasses(FileReports(callbacks, step), passes);
      PassesAreOrderly(passes);
      OrderlyPrefix(FileReports(callbacks, step), Reports(passes));
    }
    TotalsHold(p, callbacks);
    OrderlyCounts(callbacks);
    FilesNeverFall(p, callbacks);
  }

  lemma OrderlyPrefix(a: seq<Files>, b: seq<Files>)
    requires a <= b && Orderly(b)
    ensures Orderly(a)
  {
    forall i | 0 <= i < |a|
      ensures Continues(Prior(a, i), a[i])
    {
      assert Continues(Prior(b, i), b[i]);
    }
  }

  lemma {:induction false} OrderlyCounts(callbacks: seq<Callback>)
    requires forall step :: Orderly(FileReports(callbacks, step))
    ensures EngineCounts(callbacks)
  {
    if callbacks != [] {
      var front, c := callbacks[..|callbacks| - 1], callbacks[|callbacks| - 1];
      assert callbacks == front + [c];
      forall step
        ensures Orderly(FileReports(front, step))
      {
        OrderlyFront(front, c, step);
      }
      OrderlyCounts(front);
      if c.FileProgress? {
        var r := FileReports(callbacks, c.step);
        ReportsStep(front, c, c.step);
        assert Continues(Prior(r, |r| - 1), r[|r| - 1]) && r[|r| - 1] == Files(c.filesDone, c.filesTotal);
      }
    }
  }

  // ----- what the counts are -----

  /** The totals that were banked: of every report after which the count fell. */
  function Banked(reports: seq<Files>): int {
    if |reports| < 2 then 0
    else
      var last, prior := reports[|reports| - 1], reports[|reports| - 2];
      Banked(reports[..|reports| - 1]) + if last.done < prior.done then prior.total else 0
  }

  ghost predicate BanksTotals(s: Stream, callbacks: seq<Callback>, step: Step) {
    var r := FileReports(callbacks, step);
    BaseOf(s, step) == Banked(r) && LastFiles(s, step) == Prior(r, |r|)
  }

  ghost predicate NoNegatives(callbacks: seq<Callback>) {
    forall c :: c in callbacks && c.FileProgress? ==> 0 <= c.filesDone
  }

  lemma BankedStep(r: seq<Files>, f: Files)
    ensures Banked(r + [f]) ==
      Banked(r) + if r != [] && f.done < Prior(r, |r|).done then Prior(r, |r|).total else 0
  {
    var longer := r + [f];
    assert longer[..|r|] == r;
  }

  /** What an event about files does to the counts of a step. */
  lemma FilesBooked(s: Stream, own: Step, filesDone: int, filesTotal: int, step: Step)
    ensures var s' := OnFileProgress(s, own, filesDone, filesTotal);
      if own == step
      then LastFiles(s', step) == Files(filesDone, filesTotal) && BaseOf(s', step) == NextBase(s, step, filesDone)
      else LastFiles(s', step) == LastFiles(s, step) && BaseOf(s', step) == BaseOf(s, step)
  {
  }

  lemma BanksStep(p: Plan, s: Stream, front: seq<Callback>, c: Callback, step: Step)
    requires BanksTotals(s, front, step) && (c.FileProgress? ==> 0 <= c.filesDone)
    ensures BanksTotals(On(p, s, c), front + [c], step)
  {
    var r := FileReports(front, step);
    ReportsStep(front, c, step);
    if c.FileProgress? {
      FilesBooked(s, c.step, c.filesDone, c.filesTotal, step);
      BankedStep(r, Files(c.filesDone, c.filesTotal));
    } else {
      OtherEvents(p, s, c);
    }
    if !(c.FileProgress? && c.step == step) {
      assert FileReports(front + [c], step) == r;
    }
  }

  /** After every sequence of callbacks the base of a step is what was banked of its reports. */
  lemma {:induction false} BaseIsBanked(p: Plan, callbacks: seq<Callback>, step: Step)
    requires NoNegatives(callbacks)
    ensures BanksTotals(Run(p, callbacks), callbacks, step)
  {
    if callbacks != [] {
      var front, c := callbacks[..|callbacks| - 1], callbacks[|callbacks| - 1];
      assert callbacks == front + [c] && c in callbacks && forall x :: x in front ==> x in callbacks;
      BaseIsBanked(p, front, step);
      BanksStep(p, Run(p, front), front, c, step);
    } else {
      assert BaseOf(Open(p), step) == 0 && LastFiles(Open(p), step) == Files(0, 0);
    }
  }

  /** The event shows these files on top of what was banked of the reports. */
  ghost predicate ShowsFiles(events: seq<Event>, after: seq<Event>, reports: seq<Files>, done: int, total: int) {
    && |after| == |events| + 1
    && after[|events|].filesDone == Some(Banked(reports) + done)
    && after[|events|].filesTotal == Some(Banked(reports) + total)
  }

  lemma FilesAreShown(s: Stream, step: Step, done: int, total: int, reports: seq<Files>)
    requires BaseOf(OnFileProgress(s, step, done, total), step) == Banked(reports)
    ensures ShowsFiles(s.events, OnFileProgress(s, step, done, total).events, reports, done, total)
  {
  }

  /** Hence an event about files shows what was banked of the reports of its step, and the report itself on top. */
  lemma FilesShownExactly(p: Plan, callbacks: seq<Callback>, c: Callback)
    requires c.FileProgress? && 0 <= c.filesDone && NoNegatives(callbacks)
    ensures ShowsFiles(Run(p, callbacks).events, On(p, Run(p, callbacks), c).events,
                       FileReports(callbacks + [c], c.step), c.filesDone, c.filesTotal)
  {
    BaseIsBanked(p, callbacks, c.step);
    BanksStep(p, Run(p, callbacks), callbacks, c, c.step);
    FilesAreShown(Run(p, callbacks), c.step, c.filesDone, c.filesTotal, FileReports(callbacks + [c], c.step));
  }

  function SumOfTotals(passes: seq<Pass>): nat {
    if passes == [] then 0 else SumOfTotals(passes[..|passes| - 1]) + passes[|passes| - 1].total
  }

  function First(p: Pass): nat {
    if p.counts == [] then 0 else p.counts[0]
  }

  /** The next pass starts below the total of this one, so that it is seen to be another. */
  predicate FallsAfter(passes: seq<Pass>, i: nat)
    requires i + 1 < |passes|
  {
    First(passes[i + 1]) < passes[i].total
  }

  /** The totals of the passes that are seen to end before the last. */
  function SeenToEnd(passes: seq<Pass>): nat {
    if |passes| < 2 then 0
    else
      var n := |passes| - 2;
      SeenToEnd(passes[..n + 1]) + if FallsAfter(passes, n) then passes[n].total else 0
  }

  lemma {:induction false} ClimbBanksNothing(before: seq<Files>, p: Pass, n: nat)
    requires Complete(p) && before != [] && 0 < n <= |p.counts|
    ensures var last := before[|before| - 1];
      Banked(before + ReportsOf(p)[..n]) == Banked(before) + if p.counts[0] < last.done then last.total else 0
    decreases n
  {
    var r := before + ReportsOf(p)[..n];
    if n == 1 {
      assert r[..|r| - 1] == before;
    } else {
      ClimbBanksNothing(before, p, n - 1);
      assert r[..|r| - 1] == before + ReportsOf(p)[..n - 1];
      assert p.counts[n - 2] < p.counts[n - 1];
    }
  }

  lemma {:induction false} OnePassBanksNothing(p: Pass, n: nat)
    requires Complete(p) && 0 < n <= |p.counts|
    ensures Banked(ReportsOf(p)[..n]) == 0
  {
    var r := ReportsOf(p)[..n];
    if n > 1 {
      OnePassBanksNothing(p, n - 1);
      assert r[..|r| - 1] == ReportsOf(p)[..n - 1];
      assert p.counts[n - 2] < p.counts[n - 1];
    }
  }

  ghost predicate Banks(passes: seq<Pass>) {
    && passes != [] && Reports(passes) != []
    && var (r, total) := (Reports(passes), passes[|passes| - 1].total);
       r[|r| - 1] == Files(total, total) && Banked(r) == SeenToEnd(passes)
  }

  /** In the middle of the next pass. */
  lemma OneMorePass(front: seq<Pass>, last: Pass, n: nat)
    requires Banks(front) && Complete(last) && 0 < n <= |last.counts|
    ensures Banked(Reports(front) + ReportsOf(last)[..n]) == SeenToEnd(front + [last])
  {
    ClimbBanksNothing(Reports(front), last, n);
    var passes := front + [last];
    assert passes[..|front|] == front && passes[|front| - 1] == front[|front| - 1];
  }

  lemma WholePass(front: seq<Pass>, last: Pass)
    requires Banks(front) && Complete(last)
    ensures Banks(front + [last])
  {
    var passes := front + [last];
    OneMorePass(front, last, |last.counts|);
    assert ReportsOf(last)[..|last.counts|] == ReportsOf(last);
    assert passes[..|front|] == front && passes[|front|] == last;
    assert Reports(passes) == Reports(front) + ReportsOf(last);
  }

  lemma FirstPass(p: Pass)
    requires Complete(p)
    ensures Banks([p])
  {
    OnePassBanksNothing(p, |p.counts|);
    assert ReportsOf(p)[..|p.counts|] == ReportsOf(p);
    assert [p][..0] == [] && Reports([p]) == ReportsOf(p);
  }

  lemma {:induction false} PassesBank(passes: seq<Pass>)
    requires passes != [] && forall p :: p in passes ==> Complete(p)
    ensures Banks(passes)
    decreases |passes|
  {
    var front, last := passes[..|passes| - 1], passes[|passes| - 1];
    assert passes == front + [last] && last in passes;
    if front == [] {
      FirstPass(last);
    } else {
      assert forall p :: p in front ==> p in passes;
      PassesBank(front);
      WholePass(front, last);
    }
  }

  /** All totals but the last are seen exactly if every pass over some files is followed by one that starts below. */
  lemma {:induction false} AllSeenExactly(passes: seq<Pass>)
    requires passes != []
    ensures SeenToEnd(passes) <= SumOfTotals(passes[..|passes| - 1])
    ensures SeenToEnd(passes) == SumOfTotals(passes[..|passes| - 1]) <==>
      forall i :: 0 <= i && i + 1 < |passes| ==> FallsAfter(passes, i) || passes[i].total == 0
    decreases |passes|
  {
    var n := |passes| - 1;
    if n > 0 {
      var front := passes[..n];
      AllSeenExactly(front);
      assert front[..n - 1] == passes[..n - 1];
      assert forall i :: 0 <= i && i + 1 < n ==> (FallsAfter(passes, i) <==> FallsAfter(front, i));
      assert FallsAfter(passes, n - 1) <==> First(passes[n]) < passes[n - 1].total;
      assert (forall i :: 0 <= i && i + 1 < |passes| ==> FallsAfter(passes, i) || passes[i].total == 0) <==>
        (forall i :: 0 <= i && i + 1 < n ==> FallsAfter(front, i) || front[i].total == 0)
        && (FallsAfter(passes, n - 1) || passes[n - 1].total == 0);
    }
  }

  /**
   In the middle of pass n of a step, the events show the files of all passes before it if and only if every pass over
   some files is followed by one that starts below its total; otherwise they show less.
   */
  lemma PassesAddUpExactly(p: Plan, callbacks: seq<Callback>, c: Callback, before: seq<Pass>, last: Pass, n: nat)
    requires c.FileProgress? && NoNegatives(callbacks)
    requires before != [] && Complete(last) && (forall q :: q in before ==> Complete(q)) && 0 < n <= |last.counts|
    requires FileReports(callbacks + [c], c.step) == Reports(before) + ReportsOf(last)[..n]
    ensures var (k, passes) := (|Run(p, callbacks).events|, before + [last]);
      var e := On(p, Run(p, callbacks), c).events[k];
      && e.filesDone.Some? && e.filesDone.value <= SumOfTotals(before) + last.counts[n - 1]
      && (e.filesDone.value == SumOfTotals(before) + last.counts[n - 1] <==>
            forall i :: 0 <= i && i + 1 < |passes| ==> FallsAfter(passes, i) || passes[i].total == 0)
  {
    var passes := before + [last];
    PassesBank(before);
    OneMorePass(before, last, n);
    assert passes[..|passes| - 1] == before;
    AllSeenExactly(passes);
    LastReport(callbacks, c, Reports(before), last, n);
    FilesShownExactly(p, callbacks, c);
  }

  lemma LastReport(callbacks: seq<Callback>, c: Callback, before: seq<Files>, last: Pass, n: nat)
    requires c.FileProgress? && 0 < n <= |last.counts|
    requires FileReports(callbacks + [c], c.step) == before + ReportsOf(last)[..n]
    ensures c.filesDone == last.counts[n - 1]
  {
    ReportsStep(callbacks, c, c.step);
    var r := before + ReportsOf(last)[..n];
    assert r[|r| - 1] == ReportsOf(last)[n - 1] == Files(last.counts[n - 1], last.total);
  }
}
