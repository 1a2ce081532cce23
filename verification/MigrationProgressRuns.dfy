/** What the boot window may rely on, over every sequence of callbacks. */
module MigrationProgressRuns {
  import opened Wrappers
  import opened MigrationProgress

  ghost predicate Positive(t: Totals) {
    t.backup >= 1 && t.promote >= 1 && t.archive >= 1
  }

  /** The promise of the events sent so far. */
  ghost predicate Monotone(events: seq<Event>) {
    && (forall i, j :: 0 <= i < j < |events| ==>
          events[i].phase <= events[j].phase && events[i].percent <= events[j].percent)
    && (forall i :: 0 <= i < |events| ==>
          && 0.0 <= events[i].percent <= 100.0
          && (events[i].percent == 100.0 <==> events[i].phase >= 5)
          && 1 <= events[i].phase <= 5)
  }

  ghost predicate WithinTotals(events: seq<Event>) {
    forall i :: 0 <= i < |events| && events[i].done.Some? ==>
      events[i].total.Some? && events[i].done.value <= events[i].total.value
  }

  ghost predicate Inv(s: Stream) {
    && Positive(s.totals)
    && s.grandTotal == s.totals.Sum()
    && s.phase == s.maxPhase && 0 <= s.maxPhase <= 5
    && 0.0 <= s.maxPercent <= 100.0 && (s.maxPhase < 5 ==> s.maxPercent <= 99.0)
    && (forall i :: 0 <= i < |s.events| ==> s.events[i].phase <= s.maxPhase && s.events[i].percent <= s.maxPercent)
    && Monotone(s.events) && WithinTotals(s.events)
  }

  lemma OverallWithin(t: Totals, phase: int, done: Option<nat>)
    ensures OverallDone(t, phase, done) <= t.Sum()
  {
  }

  lemma ShareBounds(part: nat, whole: nat)
    requires part <= whole && whole > 0
    ensures 0.0 <= 100.0 * part as real / whole as real <= 100.0
  {
  }

  /** A percentage is at most 99 before the last phase and 100 in it. */
  lemma PercentBounds(t: Totals, phase: int, done: Option<nat>)
    requires Positive(t)
    ensures var percent := Percent(t, t.Sum(), phase, done);
      0.0 <= percent && if phase >= 5 then percent == 100.0 else percent <= 99.0
  {
    OverallWithin(t, phase, done);
    ShareBounds(OverallDone(t, phase, done), t.Sum());
  }

  /** One more event of a phase and percentage no lower than any before. */
  lemma AppendKeeps(events: seq<Event>, e: Event)
    requires Monotone(events) && WithinTotals(events)
    requires forall i :: 0 <= i < |events| ==> events[i].phase <= e.phase && events[i].percent <= e.percent
    requires 0.0 <= e.percent <= 100.0 && (e.percent == 100.0 <==> e.phase >= 5) && 1 <= e.phase <= 5
    requires e.done.Some? ==> e.total.Some? && e.done.value <= e.total.value
    ensures Monotone(events + [e]) && WithinTotals(events + [e])
  {
  }

  /** What every event sent keeps; a done count must come with a positive total. */
  lemma EmitKeeps(s: Stream, phase: int, done: Option<nat>, given: Option<nat>,
                                     step: Option<Step>, filesDone: Option<int>, filesTotal: Option<int>)
    requires Inv(s) && 1 <= Max(phase, s.maxPhase) && phase <= 5
    requires done.Some? ==> given.Some? && given.value > 0
    ensures Inv(Emit(s, phase, done, given, step, filesDone, filesTotal))
    ensures Emit(s, phase, done, given, step, filesDone, filesTotal).maxPhase == Max(phase, s.maxPhase)
  {
    var s' := Emit(s, phase, done, given, step, filesDone, filesTotal);
    var e := s'.events[|s.events|];
    assert s'.events == s.events + [e];
    assert Positive(s'.totals) && s'.grandTotal == s'.totals.Sum();
    PercentBounds(s'.totals, s'.phase, done);
    AppendKeeps(s.events, e);
  }

  /** The bookkeeping of entries and files does not touch what the events are made from. */
  ghost predicate SameStream(s: Stream, t: Stream) {
    t == s.(stepDone := t.stepDone, stepSeen := t.stepSeen, filesLast := t.filesLast, filesBase := t.filesBase)
  }

  lemma BookkeepingKeeps(s: Stream, t: Stream)
    requires Inv(s) && SameStream(s, t)
    ensures Inv(t) && t.maxPhase == s.maxPhase
  {
  }

  /** An event that repeats the counter of a step. */
  lemma StepEventKeeps(s: Stream, step: Step, filesDone: Option<int>, filesTotal: Option<int>, s': Stream)
    requires Inv(s)
    requires s' == Emit(s, PhaseOf(step), Some(DoneOf(s, step)), Some(s.totals.Get(PhaseOf(step))), Some(step),
      filesDone, filesTotal)
    ensures Inv(s') && s'.maxPhase >= 1
  {
    EmitKeeps(s, PhaseOf(step), Some(DoneOf(s, step)), Some(s.totals.Get(PhaseOf(step))), Some(step), filesDone,
      filesTotal);
  }

  lemma EntryKeeps(p: Plan, s: Stream, step: Step, name: string)
    requires Inv(s)
    ensures Inv(OnEntry(p, s, step, name)) && OnEntry(p, s, step, name).maxPhase >= 1
  {
    var counted := Counted(p, s, step, name);
    BookkeepingKeeps(s, counted);
    StepEventKeeps(counted, step, None, None, OnEntry(p, s, step, name));
  }

  lemma NotedSame(s: Stream, step: Step, filesDone: int, filesTotal: int)
    ensures SameStream(s, FilesNoted(s, step, filesDone, filesTotal))
  {
  }

  lemma FileProgressKeeps(s: Stream, step: Step, filesDone: int, filesTotal: int)
    requires Inv(s)
    ensures Inv(OnFileProgress(s, step, filesDone, filesTotal))
      && OnFileProgress(s, step, filesDone, filesTotal).maxPhase >= 1
  {
    var noted := FilesNoted(s, step, filesDone, filesTotal);
    NotedSame(s, step, filesDone, filesTotal);
    BookkeepingKeeps(s, noted);
    var base := BaseOf(noted, step);
    StepEventKeeps(noted, step, Some(base + filesDone), Some(base + filesTotal),
      OnFileProgress(s, step, filesDone, filesTotal));
  }

  lemma OnKeeps(p: Plan, s: Stream, c: Callback)
    requires Inv(s) && s.maxPhase >= 1
    ensures Inv(On(p, s, c)) && On(p, s, c).maxPhase >= 1
  {
    match c
    case Entry(step, name) => EntryKeeps(p, s, step, name);
    case FileProgress(step, filesDone, filesTotal) => FileProgressKeeps(s, step, filesDone, filesTotal);
    case ValidateStep(step) =>
      if IsDomain(step) {
        EmitKeeps(s, 3, Some(step.position), Some(if p.verifySteps > 0 then p.verifySteps else LADDER_LENGTH),
                  Some(step), None, None);
      }
    case Text(validating) =>
      EmitKeeps(s, if validating then 3 else s.phase, None, None, None, None, None);
  }

  lemma {:induction false} RunKeeps(p: Plan, callbacks: seq<Callback>)
    ensures Inv(Run(p, callbacks)) && Run(p, callbacks).maxPhase >= 1
    decreases |callbacks|
  {
    if callbacks == [] {
      EmitKeeps(Start(p), 1, Some(0), Some(Planned(p).backup), None, None, None);
    } else {
      RunKeeps(p, callbacks[..|callbacks| - 1]);
      OnKeeps(p, Run(p, callbacks[..|callbacks| - 1]), callbacks[|callbacks| - 1]);
    }
  }

  /**
   The events of a whole migration: phases and percentages never fall, percentages lie in 0..100 and are 100 just
   in the last phase, no count exceeds its total, and the grand total is the sum of the phase totals at the end
   as after every callback.
   */
  lemma StreamIsMonotone(p: Plan, callbacks: seq<Callback>)
    ensures Monotone(Migration(p, callbacks).events) && WithinTotals(Migration(p, callbacks).events)
    ensures Run(p, callbacks).grandTotal == Run(p, callbacks).totals.Sum()
    ensures Migration(p, callbacks).grandTotal == Migration(p, callbacks).totals.Sum()
  {
    RunKeeps(p, callbacks);
    EmitKeeps(Run(p, callbacks), 5, None, None, None, None, None);
  }

  // ----- the counters of the steps -----

  /** The names an engine reported for a step. */
  ghost function NamesOf(callbacks: seq<Callback>, step: Step): set<string> {
    set c | c in callbacks && c.Entry? && c.step == step :: c.name
  }

  /** The counter of a step computed from the history: each name counts when it first occurs. */
  ghost function CountOf(p: Plan, callbacks: seq<Callback>, step: Step): nat {
    if callbacks == [] then 0
    else
      var front, c := callbacks[..|callbacks| - 1], callbacks[|callbacks| - 1];
      CountOf(p, front, step)
      + if c.Entry? && c.step == step && c.name !in NamesOf(front, step) then Weight(p, step, c.name) else 0
  }

  ghost predicate SameCounters(s: Stream, t: Stream) {
    s.stepSeen == t.stepSeen && s.stepDone == t.stepDone
  }

  lemma SameSeen(s: Stream, t: Stream, step: Step)
    requires SameCounters(s, t)
    ensures Seen(s, step) == Seen(t, step) && DoneOf(s, step) == DoneOf(t, step)
  {
  }

  /** Only an entry touches the counters. */
  lemma CountersTouched(p: Plan, s: Stream, c: Callback)
    ensures SameCounters(if c.Entry? then Counted(p, s, c.step, c.name) else s, On(p, s, c))
  {
  }

  lemma CountedOnce(p: Plan, s: Stream, c: Step, name: string, step: Step)
    ensures var t := Counted(p, s, c, name);
      && Seen(t, step) == Seen(s, step) + (if c == step then {name} else {})
      && DoneOf(t, step) == DoneOf(s, step) + if c == step && name !in Seen(s, step) then Weight(p, step, name) else 0
  {
    if c == step && name in Seen(s, step) {
      assert Seen(s, step) + {name} == Seen(s, step);
    }
  }

  /** A callback touches the counter of its own step only, and only with a name not seen before. */
  lemma OnCounters(p: Plan, s: Stream, c: Callback, step: Step)
    ensures c.Entry? && c.step == step ==>
      && Seen(On(p, s, c), step) == Seen(s, step) + {c.name}
      && DoneOf(On(p, s, c), step) == DoneOf(s, step) + if c.name in Seen(s, step) then 0 else Weight(p, step, c.name)
    ensures !(c.Entry? && c.step == step) ==>
      Seen(On(p, s, c), step) == Seen(s, step) && DoneOf(On(p, s, c), step) == DoneOf(s, step)
  {
    CountersTouched(p, s, c);
    SameSeen(if c.Entry? then Counted(p, s, c.step, c.name) else s, On(p, s, c), step);
    if c.Entry? {
      CountedOnce(p, s, c.step, c.name, step);
    }
  }

  lemma NamesStep(front: seq<Callback>, c: Callback, step: Step)
    ensures NamesOf(front + [c], step) == NamesOf(front, step) + if c.Entry? && c.step == step then {c.name} else {}
  {
  }

  lemma CountersStep(p: Plan, s: Stream, front: seq<Callback>, c: Callback, step: Step)
    requires Seen(s, step) == NamesOf(front, step) && DoneOf(s, step) == CountOf(p, front, step)
    ensures Seen(On(p, s, c), step) == NamesOf(front + [c], step)
    ensures DoneOf(On(p, s, c), step) == CountOf(p, front + [c], step)
  {
    NamesStep(front, c, step);
    OnCounters(p, s, c, step);
    assert (front + [c])[..|front|] == front;
  }

  /** The counters of the stream are the names reported so far and the counts computed from the history. */
  lemma {:induction false} CountersRefine(p: Plan, callbacks: seq<Callback>, step: Step)
    ensures Seen(Run(p, callbacks), step) == NamesOf(callbacks, step)
    ensures DoneOf(Run(p, callbacks), step) == CountOf(p, callbacks, step)
    decreases |callbacks|
  {
    if callbacks != [] {
      var front, c := callbacks[..|callbacks| - 1], callbacks[|callbacks| - 1];
      CountersRefine(p, front, step);
      var before := Run(p, front);
      assert callbacks == front + [c] && Run(p, callbacks) == On(p, before, c);
      CountersStep(p, before, front, c, step);
    } else {
      assert SameCounters(Start(p), Open(p));
    }
  }

  /** The total weight of a set of names. */
  ghost function SumOf(p: Plan, step: Step, names: set<string>): nat {
    if names == {} then 0
    else
      var n :| n in names;
      Weight(p, step, n) + SumOf(p, step, names - {n})
  }

  lemma {:induction false} SumWithout(p: Plan, step: Step, names: set<string>, n: string)
    requires n in names
    ensures SumOf(p, step, names) == Weight(p, step, n) + SumOf(p, step, names - {n})
    decreases |names|
  {
    var m :| m in names && SumOf(p, step, names) == Weight(p, step, m) + SumOf(p, step, names - {m});
    if m != n {
      SumWithout(p, step, names - {m}, n);
      assert names - {m} - {n} == names - {n} - {m};
      SumWithout(p, step, names - {n}, m);
    }
  }

  /** A counter does not depend on the order or the repetition of the callbacks: only on the set of names. */
  lemma CounterIsSumOfNames(p: Plan, callbacks: seq<Callback>, step: Step)
    ensures DoneOf(Run(p, callbacks), step) == SumOf(p, step, NamesOf(callbacks, step))
  {
    CountersRefine(p, callbacks, step);
    CountIsSum(p, callbacks, step);
  }

  lemma {:induction false} CountIsSum(p: Plan, callbacks: seq<Callback>, step: Step)
    ensures CountOf(p, callbacks, step) == SumOf(p, step, NamesOf(callbacks, step))
    decreases |callbacks|
  {
    if callbacks != [] {
      var front, c := callbacks[..|callbacks| - 1], callbacks[|callbacks| - 1];
      CountIsSum(p, front, step);
      assert callbacks == front + [c];
      var names := NamesOf(callbacks, step);
      assert names == NamesOf(front, step) + if c.Entry? && c.step == step then {c.name} else {};
      if c.Entry? && c.step == step && c.name !in NamesOf(front, step) {
        SumWithout(p, step, names, c.name);
        assert names - {c.name} == NamesOf(front, step);
      } else {
        assert names == NamesOf(front, step);
      }
    }
  }
}
