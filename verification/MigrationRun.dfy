/**
 The callbacks as the source writes them: closures over shared variables, here the fields of one object. history
 lists the callbacks so far; after each of them the object promises what the boot window relies on.
 */
module MigrationRun {
  import opened Wrappers
  import opened M = MigrationProgress
  import opened P = MigrationProgressRuns
  import opened F = MigrationFiles

  class Runner {
    const plan: Plan
    var totals: Totals
    var grandTotal: int
    var phase: int
    var maxPhase: int
    var maxPercent: real
    var stepDone: map<Step, nat>
    var stepSeen: map<Step, set<string>>
    var filesLast: map<Step, Files>
    var filesBase: map<Step, int>
    var events: seq<Event>
    ghost var history: seq<Callback>

    function Contents(): Stream
      reads this
    {
      Stream(totals, grandTotal, phase, maxPhase, maxPercent, stepDone, stepSeen, filesLast, filesBase, events)
    }

    ghost predicate Valid()
      reads this
    {
      Contents() == M.Run(plan, history)
    }

    /** What the events sent so far promise: they rise, stay within their totals, and the totals add up. */
    ghost predicate Sound()
      reads this
    {
      Monotone(events) && WithinTotals(events) && grandTotal == totals.Sum()
    }

    constructor (p: Plan)
      ensures plan == p && Contents() == M.Start(p) && history == []
    {
      plan := p;
      history := [];
      totals, grandTotal := Planned(p), Planned(p).Sum();
      phase, maxPhase, maxPercent := 0, 0, 0.0;
      stepDone, stepSeen, filesLast, filesBase, events := map[], map[], map[], map[], [];
    }

    /** The opening event. */
    method Begin()
      requires Contents() == M.Start(plan) && history == []
      modifies this
      ensures Valid() && history == [] && Sound() && |events| == 1
    {
      Emit(1, Some(0), Some(totals.backup), None, None, None);
      RunKeeps(plan, []);
    }

    /** The callback is part of the history. */
    ghost method Record(c: Callback)
      requires Contents() == M.On(plan, M.Run(plan, history), c)
      modifies this`history
      ensures Valid() && history == old(history) + [c] && Sound()
    {
      assert (history + [c])[..|history|] == history;
      history := history + [c];
      RunKeeps(plan, history);
    }

    method Enter(p: int, done: Option<nat>, total: Option<nat>)
      modifies this`phase, this`maxPhase, this`totals, this`grandTotal
      ensures phase == maxPhase == p
      ensures if Outgrows(done, total) && totals.Has(p)
              then totals == old(totals).Set(p, done.value)
                   && grandTotal == old(grandTotal) + (done.value - old(totals).Get(p))
              else totals == old(totals) && grandTotal == old(grandTotal)
    {
      maxPhase := p;
      if phase != p {
        phase := p;
      }
      if Outgrows(done, total) && totals.Has(p) {
        grandTotal := grandTotal + (done.value - totals.Get(p));
        totals := totals.Set(p, done.value);
      }
    }

    method Send(done: Option<nat>, total: Option<nat>, step: Option<Step>, filesDone: Option<int>,
      filesTotal: Option<int>)
      modifies this`maxPercent, this`events
      ensures maxPercent == MaxReal(Percent(totals, grandTotal, phase, done), old(maxPercent))
      ensures events == old(events) + [Event(phase, done, total, maxPercent, step, filesDone, filesTotal)]
    {
      var percent := MaxReal(Percent(totals, grandTotal, phase, done), maxPercent);
      maxPercent := percent;
      events := events + [Event(phase, done, total, percent, step, filesDone, filesTotal)];
    }

    /** One more event; the earlier ones stay. */
    method Emit(rawPhase: int, done: Option<nat>, given: Option<nat>, step: Option<Step>,
                filesDone: Option<int>, filesTotal: Option<int>)
      modifies this`totals, this`grandTotal, this`phase, this`maxPhase, this`maxPercent, this`events
      ensures Contents() == M.Emit(old(Contents()), rawPhase, done, given, step, filesDone, filesTotal)
      ensures old(events) <= events && |events| == |old(events)| + 1
      ensures events[|events| - 1].done == done
    {
      var p := Max(rawPhase, maxPhase);
      var total := given;
      if total.None? && totals.Has(p) {
        total := Some(totals.Get(p));
      }
      Enter(p, done, total);
      if Outgrows(done, total) {
        total := done;
      }
      Send(done, total, step, filesDone, filesTotal);
    }

    method Count(step: Step, name: string)
      modifies this`stepSeen, this`stepDone
      ensures Contents() == Counted(plan, old(Contents()), step, name)
    {
      var seen := if step in stepSeen then stepSeen[step] else {};
      if name !in seen {
        seen := seen + {name};
        var soFar := if step in stepDone then stepDone[step] else 0;
        stepDone := stepDone[step := soFar + (if PhaseOf(step) == 1 then FilesOf(plan.backup, name) else 1)];
      }
      stepSeen := stepSeen[step := seen];
    }

    /** The event of an entry, with the counter as it then is. */
    method SendEntry(step: Step, name: string)
      modifies this`totals, this`grandTotal, this`phase, this`maxPhase, this`maxPercent, this`events, this`stepSeen,
        this`stepDone
      ensures Contents() == M.OnEntry(plan, old(Contents()), step, name)
      ensures old(events) <= events && |events| == |old(events)| + 1
      ensures events[|events| - 1].done == Some(DoneOf(Contents(), step))
    {
      Count(step, name);
      Emit(PhaseOf(step), Some(DoneOf(Contents(), step)), Some(totals.Get(PhaseOf(step))), Some(step), None, None);
    }

    method OnEntry(step: Step, name: string)
      requires Valid()
      modifies this
      ensures Valid() && history == old(history) + [Entry(step, name)] && Sound()
      ensures old(events) <= events && |events| == |old(events)| + 1
      ensures DoneOf(Contents(), step) == SumOf(plan, step, NamesOf(history, step))
      ensures events[|events| - 1].done == Some(DoneOf(Contents(), step))
    {
      SendEntry(step, name);
      Record(Entry(step, name));
      CounterIsSumOfNames(plan, history, step);
    }

    method NoteFiles(step: Step, filesDone: int, filesTotal: int)
      modifies this`filesBase, this`filesLast
      ensures Contents() == FilesNoted(old(Contents()), step, filesDone, filesTotal)
    {
      var last := if step in filesLast then filesLast[step] else Files(0, 0);
      if filesDone < last.done {
        var soFar := if step in filesBase then filesBase[step] else 0;
        filesBase := filesBase[step := soFar + last.total];
      }
      filesLast := filesLast[step := Files(filesDone, filesTotal)];
    }

    /** The event of a report about files, with the files of the entries before added. */
    method SendFiles(step: Step, filesDone: int, filesTotal: int)
      modifies this`totals, this`grandTotal, this`phase, this`maxPhase, this`maxPercent, this`events, this`filesBase,
        this`filesLast
      ensures Contents() == M.OnFileProgress(old(Contents()), step, filesDone, filesTotal)
      ensures old(events) <= events && |events| == |old(events)| + 1
    {
      NoteFiles(step, filesDone, filesTotal);
      var base := BaseOf(Contents(), step);
      var counted := DoneOf(Contents(), step);
      Emit(PhaseOf(step), Some(counted), Some(totals.Get(PhaseOf(step))), Some(step), Some(base + filesDone),
        Some(base + filesTotal));
    }

    method OnFileProgress(step: Step, filesDone: int, filesTotal: int)
      requires Valid()
      modifies this
      ensures Valid() && history == old(history) + [FileProgress(step, filesDone, filesTotal)] && Sound()
      ensures old(events) <= events && |events| == |old(events)| + 1
      ensures stepDone == old(stepDone) && stepSeen == old(stepSeen)
      ensures Protocol(history) ==> FilesClimb(events) && TotalsClimb(events)
    {
      SendFiles(step, filesDone, filesTotal);
      Record(FileProgress(step, filesDone, filesTotal));
      if Protocol(history) {
        TotalsNeverFall(plan, history);
      }
    }

    method OnValidateStep(step: Step)
      requires Valid()
      modifies this
      ensures Valid() && history == old(history) + [ValidateStep(step)] && Sound()
      ensures old(events) <= events && (events == old(events) <==> !IsDomain(step))
      ensures stepDone == old(stepDone) && stepSeen == old(stepSeen)
    {
      if !IsDomain(step) {
        Record(ValidateStep(step));
        return;
      }
      var verifyTotal := if plan.verifySteps > 0 then plan.verifySteps else LADDER_LENGTH;
      Emit(3, Some(step.position), Some(verifyTotal), Some(step), None, None);
      Record(ValidateStep(step));
    }

    method SendText(validating: bool)
      modifies this`totals, this`grandTotal, this`phase, this`maxPhase, this`maxPercent, this`events
      ensures Contents() == M.OnText(old(Contents()), validating)
      ensures old(events) <= events && |events| == |old(events)| + 1
    {
      if validating {
        Emit(3, None, None, None, None, None);
      } else {
        Emit(phase, None, None, None, None, None);
      }
    }

    method OnText(validating: bool)
      requires Valid()
      modifies this
      ensures Valid() && history == old(history) + [Text(validating)] && Sound()
      ensures old(events) <= events && |events| == |old(events)| + 1
      ensures stepDone == old(stepDone) && stepSeen == old(stepSeen)
    {
      SendText(validating);
      Record(Text(validating));
    }
  }
}
