/**
 The progress stream of a migration run: the engine's callbacks arrive in no fixed order, repeat names and outgrow
 the plan, and each of them becomes one event for the boot window.
 */
module MigrationProgress {
  import opened Wrappers

  /** A step of the migration ladder; the eight domain steps are told apart by their position, 4 to 11. */
  datatype Step = PreMigrateBackup | VersionMarker | PromoteV2Root | Domain(position: int) | ArchiveV1Legacy

  const LADDER_LENGTH := 12

  predicate IsDomain(s: Step) {
    s.Domain? && 4 <= s.position <= 11
  }

  function PhaseOf(s: Step): int {
    if s.PreMigrateBackup? then 1 else if s.ArchiveV1Legacy? then 4 else 2
  }

  /** One row of the backup plan: the name of an entry and its number of files. */
  datatype Row = Row(name: string, files: nat)

  datatype Plan = Plan(backup: seq<Row>, promoteItems: nat, archiveItems: nat, verifySteps: nat)

  /** The files planned for a name: the last row of that name counts, an unknown name counts one. */
  function FilesOf(rows: seq<Row>, name: string): nat {
    if rows == [] then 1
    else if rows[|rows| - 1].name == name then rows[|rows| - 1].files
    else FilesOf(rows[..|rows| - 1], name)
  }

  function Names(rows: seq<Row>): set<string> {
    set r | r in rows :: r.name
  }

  /** All files of the plan, each name once. */
  function PlannedFiles(rows: seq<Row>): nat {
    if rows == [] then 0
    else PlannedFiles(rows[1..]) + if rows[0].name in Names(rows[1..]) then 0 else rows[0].files
  }

  datatype Totals = Totals(backup: nat, promote: nat, archive: nat)
  {
    function Sum(): nat {
      backup + promote + archive
    }

    predicate Has(phase: int) {
      phase == 1 || phase == 2 || phase == 4
    }

    function Get(phase: int): nat
      requires Has(phase)
    {
      if phase == 1 then backup else if phase == 2 then promote else archive
    }

    function Set(phase: int, n: nat): Totals
      requires Has(phase)
    {
      if phase == 1 then this.(backup := n) else if phase == 2 then this.(promote := n) else this.(archive := n)
    }
  }

  function AtLeastOne(n: nat): nat {
    if n < 1 then 1 else n
  }

  function Planned(p: Plan): Totals {
    Totals(AtLeastOne(PlannedFiles(p.backup)), AtLeastOne(p.promoteItems), AtLeastOne(p.archiveItems))
  }

  /** filesDone and filesTotal are set on events within one large entry only. */
  datatype Event = Event(phase: int, done: Option<nat>, total: Option<nat>, percent: real,
                         step: Option<Step>, filesDone: Option<int>, filesTotal: Option<int>)

  datatype Files = Files(done: int, total: int)

  /** The variables the callbacks share, and the events they have sent. */
  datatype Stream = Stream(
    totals: Totals, grandTotal: int, phase: int, maxPhase: int, maxPercent: real,
    stepDone: map<Step, nat>, stepSeen: map<Step, set<string>>,
    filesLast: map<Step, Files>, filesBase: map<Step, int>,
    events: seq<Event>)

  function Start(p: Plan): Stream {
    Stream(Planned(p), Planned(p).Sum(), 0, 0, 0.0, map[], map[], map[], map[], [])
  }

  function Max(a: int, b: int): int {
    if a < b then b else a
  }

  function MinReal(a: real, b: real): real {
    if b < a then b else a
  }

  /** How much of the plan lies behind an event of this phase. */
  function OverallDone(t: Totals, phase: int, done: Option<nat>): nat {
    PhaseShare(t, 1, phase, done) + PhaseShare(t, 2, phase, done) + PhaseShare(t, 4, phase, done)
  }

  function PhaseShare(t: Totals, p: int, phase: int, done: Option<nat>): nat
    requires t.Has(p)
  {
    if p < phase then t.Get(p)
    else if p == phase && done.Some? then (if done.value < t.Get(p) then done.value else t.Get(p))
    else 0
  }

  /** An event counts more than was planned for it. */
  predicate Outgrows(done: Option<nat>, total: Option<nat>) {
    done.Some? && total.Some? && total.value > 0 && done.value > total.value
  }

  function ShownTotal(done: Option<nat>, total: Option<nat>): Option<nat> {
    if Outgrows(done, total) then done else total
  }

  function Percent(t: Totals, grandTotal: int, phase: int, done: Option<nat>): real {
    if phase >= 5 then 100.0
    else MinReal(99.0, 100.0 * OverallDone(t, phase, done) as real / Divisor(grandTotal) as real)
  }

  /** The grand total, which the invariant shows to be positive. */
  function Divisor(grandTotal: int): (d: int)
    ensures d > 0 && (grandTotal > 0 ==> d == grandTotal)
  {
    if grandTotal > 0 then grandTotal else 1
  }

  function Emit(s: Stream, rawPhase: int, done: Option<nat>, given: Option<nat>,
                step: Option<Step>, filesDone: Option<int>, filesTotal: Option<int>): Stream
  {
    var phase := Max(rawPhase, s.maxPhase);
    var total := if given.Some? then given else if s.totals.Has(phase) then Some(s.totals.Get(phase)) else None;
    var grows := Outgrows(done, total) && s.totals.Has(phase);
    var grandTotal := if grows then s.grandTotal + (done.value - s.totals.Get(phase)) else s.grandTotal;
    var totals := if grows then s.totals.Set(phase, done.value) else s.totals;
    var percent := MaxReal(Percent(totals, grandTotal, phase, done), s.maxPercent);
    s.(totals := totals, grandTotal := grandTotal, phase := phase, maxPhase := phase, maxPercent := percent,
       events := s.events + [Event(phase, done, ShownTotal(done, total), percent, step, filesDone, filesTotal)])
  }

  datatype Callback =
    | Entry(step: Step, name: string)
    | FileProgress(step: Step, filesDone: int, filesTotal: int)
    | ValidateStep(step: Step)
    | Text(validating: bool)

  function Seen(s: Stream, step: Step): set<string> {
    if step in s.stepSeen then s.stepSeen[step] else {}
  }

  function DoneOf(s: Stream, step: Step): nat {
    if step in s.stepDone then s.stepDone[step] else 0
  }

  /** What an entry adds to the counter of its step: its files during the backup, one otherwise. */
  function Weight(p: Plan, step: Step, name: string): nat {
    if PhaseOf(step) == 1 then FilesOf(p.backup, name) else 1
  }

  /** A name counts once for its step, however often it is reported. */
  function Counted(p: Plan, s: Stream, step: Step, name: string): Stream {
    if name in Seen(s, step) then s.(stepSeen := s.stepSeen[step := Seen(s, step)])
    else s.(stepSeen := s.stepSeen[step := Seen(s, step) + {name}],
            stepDone := s.stepDone[step := DoneOf(s, step) + Weight(p, step, name)])
  }

  function OnEntry(p: Plan, s: Stream, step: Step, name: string): Stream {
    var counted := Counted(p, s, step, name);
    Emit(counted, PhaseOf(step), Some(DoneOf(counted, step)), Some(counted.totals.Get(PhaseOf(step))),
         Some(step), None, None)
  }

  function LastFiles(s: Stream, step: Step): Files {
    if step in s.filesLast then s.filesLast[step] else Files(0, 0)
  }

  function BaseOf(s: Stream, step: Step): int {
    if step in s.filesBase then s.filesBase[step] else 0
  }

  /** The files of the entries finished before the current one: a count that falls marks the next entry. */
  function NextBase(s: Stream, step: Step, filesDone: int): int {
    BaseOf(s, step) + if filesDone < LastFiles(s, step).done then LastFiles(s, step).total else 0
  }

  function FilesNoted(s: Stream, step: Step, filesDone: int, filesTotal: int): Stream {
    s.(filesBase :=
         if filesDone < LastFiles(s, step).done then s.filesBase[step := NextBase(s, step, filesDone)] else s.filesBase,
       filesLast := s.filesLast[step := Files(filesDone, filesTotal)])
  }

  function OnFileProgress(s: Stream, step: Step, filesDone: int, filesTotal: int): Stream {
    var noted := FilesNoted(s, step, filesDone, filesTotal);
    var base := BaseOf(noted, step);
    Emit(noted, PhaseOf(step), Some(DoneOf(noted, step)), Some(noted.totals.Get(PhaseOf(step))),
         Some(step), Some(base + filesDone), Some(base + filesTotal))
  }

  function OnValidateStep(p: Plan, s: Stream, step: Step): Stream {
    if !IsDomain(step) then s
    else Emit(s, 3, Some(step.position), Some(if p.verifySteps > 0 then p.verifySteps else LADDER_LENGTH),
              Some(step), None, None)
  }

  function OnText(s: Stream, validating: bool): Stream {
    Emit(s, if validating then 3 else s.phase, None, None, None, None, None)
  }

  function On(p: Plan, s: Stream, c: Callback): Stream {
    match c
    case Entry(step, name) => OnEntry(p, s, step, name)
    case FileProgress(step, filesDone, filesTotal) => OnFileProgress(s, step, filesDone, filesTotal)
    case ValidateStep(step) => OnValidateStep(p, s, step)
    case Text(validating) => OnText(s, validating)
  }

  /** The first event of a run. */
  function Open(p: Plan): Stream {
    Emit(Start(p), 1, Some(0), Some(Planned(p).backup), None, None, None)
  }

  function Run(p: Plan, callbacks: seq<Callback>): Stream {
    if callbacks == [] then Open(p)
    else On(p, Run(p, callbacks[..|callbacks| - 1]), callbacks[|callbacks| - 1])
  }

  /** A whole migration: the opening event, the callbacks, the closing event. */
  function Migration(p: Plan, callbacks: seq<Callback>): Stream {
    Emit(Run(p, callbacks), 5, None, None, None, None, None)
  }
}
