/** What the percentage and the fields of an event say, in terms of the work that was planned and counted. */
module MigrationPercent {
  import opened Wrappers
  import opened MigrationProgress
  import opened MigrationProgressRuns

  /** The work of the phases before this one; the third has none of its own. */
  function Behind(t: Totals, phase: int): nat {
    (if phase > 1 then t.backup else 0) + (if phase > 2 then t.promote else 0) + (if phase > 4 then t.archive else 0)
  }

  /** The work of the phase itself that is counted, no more than was planned. */
  function Inside(t: Totals, phase: int, done: Option<nat>): nat {
    if done.None? then 0
    else if phase == 1 then Least(done.value, t.backup)
    else if phase == 2 then Least(done.value, t.promote)
    else if phase == 4 then Least(done.value, t.archive)
    else 0
  }

  function Least(a: nat, b: nat): nat {
    if a < b then a else b
  }

  /** The share of all work, in percent; it stops at 99 until the last phase. */
  function Share(t: Totals, phase: int, done: Option<nat>): real
    requires Positive(t)
  {
    var all := t.backup + t.promote + t.archive;
    var part := 100.0 * (Behind(t, phase) + Inside(t, phase, done)) as real / all as real;
    if part > 99.0 then 99.0 else part
  }

  lemma PercentIsShare(t: Totals, phase: int, done: Option<nat>)
    requires Positive(t) && phase < 5
    ensures Percent(t, t.Sum(), phase, done) == Share(t, phase, done)
  {
    assert OverallDone(t, phase, done) == Behind(t, phase) + Inside(t, phase, done);
  }

  /** The highest percentage so far is one that was shown, or none was above zero. */
  ghost predicate PeakWasShown(s: Stream) {
    s.maxPercent == 0.0 || exists i :: 0 <= i < |s.events| && s.events[i].percent == s.maxPercent
  }

  lemma EmitKeepsPeak(s: Stream, phase: int, done: Option<nat>, given: Option<nat>,
                      step: Option<Step>, filesDone: Option<int>, filesTotal: Option<int>)
    requires PeakWasShown(s)
    ensures PeakWasShown(Emit(s, phase, done, given, step, filesDone, filesTotal))
  {
    var s' := Emit(s, phase, done, given, step, filesDone, filesTotal);
    assert s'.events[|s.events|].percent == s'.maxPercent;
  }

  lemma OnKeepsPeak(p: Plan, s: Stream, c: Callback)
    requires PeakWasShown(s)
    ensures PeakWasShown(On(p, s, c))
  {
    match c
    case Entry(step, name) =>
      var t := Counted(p, s, step, name);
      EmitKeepsPeak(t, PhaseOf(step), Some(DoneOf(t, step)), Some(t.totals.Get(PhaseOf(step))), Some(step), None, None);
    case FileProgress(step, filesDone, filesTotal) =>
      var t := FilesNoted(s, step, filesDone, filesTotal);
      EmitKeepsPeak(t, PhaseOf(step), Some(DoneOf(t, step)), Some(t.totals.Get(PhaseOf(step))), Some(step),
                    Some(BaseOf(t, step) + filesDone), Some(BaseOf(t, step) + filesTotal));
    case ValidateStep(step) =>
      if IsDomain(step) {
        EmitKeepsPeak(s, 3, Some(step.position), Some(if p.verifySteps > 0 then p.verifySteps else LADDER_LENGTH),
                      Some(step), None, None);
      }
    case Text(validating) =>
      EmitKeepsPeak(s, if validating then 3 else s.phase, None, None, None, None, None);
  }

  lemma {:induction false} RunKeepsPeak(p: Plan, callbacks: seq<Callback>)
    ensures PeakWasShown(Run(p, callbacks))
  {
    if callbacks == [] {
      EmitKeepsPeak(Start(p), 1, Some(0), Some(Planned(p).backup), None, None, None);
    } else {
      var front, c := callbacks[..|callbacks| - 1], callbacks[|callbacks| - 1];
      RunKeepsPeak(p, front);
      OnKeepsPeak(p, Run(p, front), c);
    }
  }

  /** An event before the last phase shows its share of the work, or what an earlier one showed if that was more. */
  ghost predicate ShowsShare(before: seq<Event>, e: Event, totals: Totals)
    requires Positive(totals)
  {
    var share := Share(totals, e.phase, e.done);
    && e.percent >= share
    && (e.percent == share || exists i :: 0 <= i < |before| && before[i].percent == e.percent)
    && forall i :: 0 <= i < |before| ==> before[i].percent <= e.percent
  }

  /** One event is sent: of this phase or the highest so far, with this count, showing its share. */
  ghost predicate Answers(s: Stream, s': Stream, phase: int, count: Option<nat>) {
    && Positive(s'.totals) && |s'.events| == |s.events| + 1 && s'.events[..|s.events|] == s.events
    && var e := s'.events[|s.events|];
       && e.phase == (if phase > s.maxPhase then phase else s.maxPhase) && e.done == count
       && ShowsShare(s.events, e, s'.totals)
  }

  lemma EmitShows(s: Stream, phase: int, done: Option<nat>, given: Option<nat>,
                  step: Option<Step>, filesDone: Option<int>, filesTotal: Option<int>)
    requires Inv(s) && PeakWasShown(s) && 1 <= Max(phase, s.maxPhase) < 5
    requires done.Some? ==> given.Some? && given.value > 0
    ensures var s' := Emit(s, phase, done, given, step, filesDone, filesTotal);
      && Answers(s, s', phase, done)
      && var e := s'.events[|s.events|];
         && e.step == step && e.filesDone == filesDone && e.filesTotal == filesTotal
         && (given.None? ==> e.total == if e.phase == 3 then None else Some(s.totals.Get(e.phase)))
         && (given.Some? && given.value > 0 ==>
               e.total == Some(if done.Some? && done.value > given.value then done.value else given.value))
  {
    EmitKeeps(s, phase, done, given, step, filesDone, filesTotal);
    var s' := Emit(s, phase, done, given, step, filesDone, filesTotal);
    PercentIsShare(s'.totals, s'.phase, done);
    ShareIsNotNegative(s'.totals, s'.phase, done);
  }

  lemma ShareIsNotNegative(t: Totals, phase: int, done: Option<nat>)
    requires Positive(t)
    ensures Share(t, phase, done) >= 0.0
  {
    ShareBounds(Least(Behind(t, phase) + Inside(t, phase, done), t.Sum()), t.Sum());
    WithinAll(t, phase, done);
  }

  lemma WithinAll(t: Totals, phase: int, done: Option<nat>)
    ensures Behind(t, phase) + Inside(t, phase, done) <= t.Sum()
  {
  }

  // ----- the events of callbacks -----

  /** The phase a callback belongs to, if it sends an event. */
  function PhaseOfCallback(c: Callback, current: int): int {
    match c
    case Entry(step, _) => PhaseOfStep(step)
    case FileProgress(step, _, _) => PhaseOfStep(step)
    case ValidateStep(_) => 3
    case Text(validating) => if validating then 3 else current
  }

  /** The backup is the first phase, archiving the fourth, and every other step belongs to the second. */
  function PhaseOfStep(s: Step): int {
    match s
    case PreMigrateBackup => 1
    case ArchiveV1Legacy => 4
    case VersionMarker => 2
    case PromoteV2Root => 2
    case Domain(_) => 2
  }

  /** A step that is validated in the third phase sends an event then; every other callback always does. */
  predicate Speaks(c: Callback) {
    c.ValidateStep? ==> c.step.Domain? && 4 <= c.step.position <= 11
  }

  /** What a callback counts: an entry or its files the counter of the step, a validation the place of its step. */
  ghost function CountOfCallback(p: Plan, callbacks: seq<Callback>, c: Callback): Option<nat> {
    match c
    case Entry(step, _) => Some(CountOf(p, callbacks + [c], step))
    case FileProgress(step, _, _) => Some(CountOf(p, callbacks, step))
    case ValidateStep(step) => if step.Domain? && step.position >= 0 then Some(step.position) else None
    case Text(_) => None
  }

  /**
   Every callback of every run that speaks before the last phase sends one event: of its phase or the highest so far,
   with the count computed from the history, showing its share of the work unless an earlier one showed more.
   */
  lemma CallbackShows(p: Plan, callbacks: seq<Callback>, c: Callback)
    requires Speaks(c) && Run(p, callbacks).maxPhase < 5
    ensures var s := Run(p, callbacks);
      Answers(s, On(p, s, c), PhaseOfCallback(c, s.phase), CountOfCallback(p, callbacks, c))
  {
    var s := Run(p, callbacks);
    RunKeeps(p, callbacks);
    RunKeepsPeak(p, callbacks);
    match c
    case Entry(step, name) =>
      EntryShows(p, s, step, name);
      CountersRefine(p, callbacks + [c], step);
      assert (callbacks + [c])[..|callbacks|] == callbacks && Run(p, callbacks + [c]) == On(p, s, c);
    case FileProgress(step, filesDone, filesTotal) =>
      FilesShow(s, step, filesDone, filesTotal);
      CountersRefine(p, callbacks, step);
    case ValidateStep(step) =>
      EmitShows(s, 3, Some(step.position), Some(if p.verifySteps > 0 then p.verifySteps else LADDER_LENGTH), Some(step),
                None, None);
    case Text(validating) =>
      EmitShows(s, if validating then 3 else s.phase, None, None, None, None, None);
  }

  /** The bookkeeping of a callback does not change what its event answers. */
  lemma StepShows(s: Stream, t: Stream, step: Step, filesDone: Option<int>, filesTotal: Option<int>)
    requires Inv(s) && PeakWasShown(s) && SameStream(s, t) && s.maxPhase < 5
    ensures Answers(s, Emit(t, PhaseOf(step), Some(DoneOf(t, step)), Some(t.totals.Get(PhaseOf(step))), Some(step),
                            filesDone, filesTotal),
                    PhaseOfStep(step), Some(DoneOf(t, step)))
  {
    BookkeepingKeeps(s, t);
    EmitShows(t, PhaseOf(step), Some(DoneOf(t, step)), Some(t.totals.Get(PhaseOf(step))), Some(step),
              filesDone, filesTotal);
  }

  lemma EntryShows(p: Plan, s: Stream, step: Step, name: string)
    requires Inv(s) && PeakWasShown(s) && s.maxPhase < 5
    ensures Answers(s, OnEntry(p, s, step, name), PhaseOfStep(step), Some(DoneOf(OnEntry(p, s, step, name), step)))
  {
    StepShows(s, Counted(p, s, step, name), step, None, None);
  }

  lemma FilesShow(s: Stream, step: Step, filesDone: int, filesTotal: int)
    requires Inv(s) && PeakWasShown(s) && s.maxPhase < 5
    ensures Answers(s, OnFileProgress(s, step, filesDone, filesTotal), PhaseOfStep(step), Some(DoneOf(s, step)))
  {
    var t := FilesNoted(s, step, filesDone, filesTotal);
    StepShows(s, t, step, Some(BaseOf(t, step) + filesDone), Some(BaseOf(t, step) + filesTotal));
  }

  // ----- more work shows more -----

  lemma DivideMore(a: real, b: real, c: real)
    requires a < b && c > 0.0
    ensures a / c < b / c
  {
  }

  lemma ShareGrows(t: Totals, phase: int, a: nat, b: nat)
    requires Positive(t) && t.Has(phase) && a < b <= t.Get(phase)
    ensures Share(t, phase, Some(a)) < Share(t, phase, Some(b)) || Share(t, phase, Some(a)) == 99.0
    ensures Share(t, phase, Some(a)) <= Share(t, phase, Some(b))
  {
    var all := (t.backup + t.promote + t.archive) as real;
    var x, y := Behind(t, phase) + Inside(t, phase, Some(a)), Behind(t, phase) + Inside(t, phase, Some(b));
    assert x < y;
    DivideMore(100.0 * x as real, 100.0 * y as real, all);
  }

  /** In the same phase and plan a larger count never shows less, and shows more if the smaller one was below 99. */
  lemma MoreWorkShowsMore(s: Stream, step: Step, a: nat, b: nat)
    requires Inv(s) && s.maxPhase <= PhaseOf(step) && a < b <= s.totals.Get(PhaseOf(step))
    ensures var total := Some(s.totals.Get(PhaseOf(step)));
      var less := Emit(s, PhaseOf(step), Some(a), total, Some(step), None, None);
      var more := Emit(s, PhaseOf(step), Some(b), total, Some(step), None, None);
      && less.maxPercent <= more.maxPercent
      && (s.maxPercent <= Share(s.totals, PhaseOf(step), Some(a)) < 99.0 ==> less.maxPercent < more.maxPercent)
  {
    ShareGrows(s.totals, PhaseOf(step), a, b);
    PercentIsShare(s.totals, PhaseOf(step), Some(a));
    PercentIsShare(s.totals, PhaseOf(step), Some(b));
  }

  // ----- the plan -----

  /** What a name weighs in the backup: its files in the last row of the plan that has it. */
  lemma PlannedSum(p: Plan, rows: seq<Row>, names: set<string>)
    requires p.backup == rows && names == Names(rows)
    ensures SumOf(p, PreMigrateBackup, names) == PlannedFiles(rows)
  {
    PlannedFrom(p, rows, 0);
    assert rows[0..] == rows;
  }

  lemma NamesShrink(rows: seq<Row>, i: nat, n: nat)
    requires i < n < |rows| && rows[i].name !in Names(rows[i + 1..])
    ensures rows[..n][i].name !in Names(rows[..n][i + 1..])
  {
    var shorter, longer := rows[..n][i + 1..], rows[i + 1..];
    forall j | 0 <= j < |shorter|
      ensures shorter[j].name != rows[i].name
    {
      assert shorter[j] == longer[j] && longer[j] in longer;
    }
  }

  lemma {:induction false} LastRowCounts(rows: seq<Row>, i: nat)
    requires i < |rows| && rows[i].name !in Names(rows[i + 1..])
    ensures FilesOf(rows, rows[i].name) == rows[i].files
  {
    var n := |rows| - 1;
    if i < n {
      assert rows[n] in rows[i + 1..];
      NamesShrink(rows, i, n);
      LastRowCounts(rows[..n], i);
    }
  }

  lemma {:induction false} PlannedFrom(p: Plan, rows: seq<Row>, i: nat)
    requires p.backup == rows && i <= |rows|
    ensures SumOf(p, PreMigrateBackup, Names(rows[i..])) == PlannedFiles(rows[i..])
    decreases |rows| - i
  {
    if i < |rows| {
      var rest := rows[i + 1..];
      PlannedFrom(p, rows, i + 1);
      assert rows[i..] == [rows[i]] + rest;
      assert Names(rows[i..]) == {rows[i].name} + Names(rest);
      if rows[i].name !in Names(rest) {
        LastRowCounts(rows, i);
        SumWithout(p, PreMigrateBackup, Names(rows[i..]), rows[i].name);
        assert Names(rows[i..]) - {rows[i].name} == Names(rest);
      } else {
        assert Names(rows[i..]) == Names(rest);
      }
    } else {
      assert Names(rows[i..]) == {};
    }
  }

  /** Once exactly the planned entries were reported, the counter of the backup is the planned number of files. */
  lemma BackupCompletes(p: Plan, callbacks: seq<Callback>)
    requires NamesOf(callbacks, PreMigrateBackup) == Names(p.backup)
    ensures DoneOf(Run(p, callbacks), PreMigrateBackup) == PlannedFiles(p.backup)
  {
    CounterIsSumOfNames(p, callbacks, PreMigrateBackup);
    PlannedSum(p, p.backup, Names(p.backup));
  }

  /** An entry the plan does not know counts as one file. */
  lemma {:induction false} UnplannedCountsOne(rows: seq<Row>, name: string)
    requires name !in Names(rows)
    ensures FilesOf(rows, name) == 1
  {
    if rows != [] {
      var front, last := rows[..|rows| - 1], rows[|rows| - 1];
      assert last in rows && forall r :: r in front ==> r in rows;
      UnplannedCountsOne(front, name);
    }
  }

  /** A migration ends with one more event, of the last phase, and that shows all. */
  lemma EndsWithAll(p: Plan, callbacks: seq<Callback>)
    ensures var (run, all) := (Run(p, callbacks).events, Migration(p, callbacks).events);
      && |all| == |run| + 1 && all[..|run|] == run
      && all[|run|].percent == 100.0 && all[|run|].phase == 5
  {
    RunKeeps(p, callbacks);
  }

  /** A run starts with the plan: what there is to back up, to promote and to archive, at least one of each. */
  lemma StartsWithPlan(p: Plan)
    ensures var t := Run(p, []).totals;
      && t.backup == (if PlannedFiles(p.backup) == 0 then 1 else PlannedFiles(p.backup))
      && t.promote == (if p.promoteItems == 0 then 1 else p.promoteItems)
      && t.archive == (if p.archiveItems == 0 then 1 else p.archiveItems)
  {
  }

  /** A backup of two entries of fifty files. */
  function TwoEntries(a: string, b: string): Plan {
    Plan([Row(a, 50), Row(b, 50)], 1, 1, 0)
  }

  lemma TwoEntriesPlanned(a: string, b: string)
    requires a != b
    ensures var rows := TwoEntries(a, b).backup; PlannedFiles(rows) == 100 && FilesOf(rows, a) == 50
  {
    var rows := TwoEntries(a, b).backup;
    assert rows[1..] == [Row(b, 50)] && rows[..1] == [Row(a, 50)];
    assert [Row(b, 50)][1..] == [] && Names([]) == {};
    assert PlannedFiles([Row(b, 50)]) == 50;
    assert a !in Names([Row(b, 50)]);
  }

  lemma FirstCount(p: Plan, name: string)
    ensures CountOf(p, [Entry(PreMigrateBackup, name)], PreMigrateBackup) == FilesOf(p.backup, name)
  {
    var c := Entry(PreMigrateBackup, name);
    assert [c][..0] == [] && NamesOf([], PreMigrateBackup) == {};
  }

  /** Half of a hundred files backed up, with one item to promote and one to archive, shows 50 of 102 parts. */
  lemma HalfOfTheBackup(a: string, b: string)
    requires a != b
    ensures var events := Run(TwoEntries(a, b), [Entry(PreMigrateBackup, a)]).events;
      |events| == 2 && events[1].percent == 5000.0 / 102.0
  {
    var p, c := TwoEntries(a, b), Entry(PreMigrateBackup, a);
    var s := Run(p, []);
    TwoEntriesPlanned(a, b);
    StartsWithPlan(p);
    FirstCount(p, a);
    CallbackShows(p, [], c);
    assert [] + [c] == [c] && [c][..0] == [];
    var s' := On(p, s, c);
    assert Run(p, [c]) == s';
    assert s'.totals == Totals(100, 1, 1);
    assert s.events[0].percent == 0.0;
    assert Share(s'.totals, 1, Some(50)) == 5000.0 / 102.0;
  }
}
