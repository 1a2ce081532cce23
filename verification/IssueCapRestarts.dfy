/** When a process may end: the condition on unsaved grants under which the cap survives a restart, and only then. */
module IssueCapRestarts {
  import opened IssueCap
  import opened IssueCapRuns

  /** Every section reads what is on disk. */
  ghost predicate ReadsDisk(events: seq<Event>) {
    forall n :: 0 <= n < |events| && IsSection(events[n]) ==> events[n].view == Run(events[..n]).disk
  }

  /** A run, a restart, and more events during which the clock goes on and the disk works. */
  ghost predicate GoesOn(events: seq<Event>, now: int, more: seq<Event>) {
    var all := events + [Restart(now)] + more;
    && ClockRuns(all)
    && forall n :: |events| < n < |all| && IsSection(all[n]) ==> all[n].saved && all[n].view == Run(all[..n]).disk
  }

  lemma GoesOnFront(events: seq<Event>, now: int, more: seq<Event>)
    requires more != [] && GoesOn(events, now, more)
    ensures GoesOn(events, now, more[..|more| - 1])
    ensures var front, e := events + [Restart(now)] + more[..|more| - 1], more[|more| - 1];
      && events + [Restart(now)] + more == front + [e]
      && (IsSection(e) ==> e.saved && e.view == Run(front).disk)
      && (!e.Crash? ==> now <= e.now)
  {
    var all := events + [Restart(now)] + more;
    var front, e := events + [Restart(now)] + more[..|more| - 1], more[|more| - 1];
    assert all == front + [e] && all[..|front|] == front && all[|front|] == e;
    assert all[|events|] == Restart(now);
    forall n | 0 <= n < |front|
      ensures all[..n] == front[..n] && all[n] == front[n]
    {
    }
  }

  /** A settled restart over a disk that works stays settled. */
  lemma SettledStep(w: World, e: Event, now: int)
    requires Settled(w, now) && w.kept <= |w.grants| && (IsSection(e) ==> e.saved)
    ensures Settled(Step(w, e), now) && Step(w, e).kept <= |Step(w, e).grants|
  {
  }

  lemma SettledLater(w: World, now: int, later: int)
    requires Settled(w, now) && now <= later
    ensures Settled(w, later)
  {
  }

  lemma {:induction false} StaysCareful(events: seq<Event>, now: int, more: seq<Event>)
    requires Careful(events) && GoesOn(events, now, more)
    requires Settled(Run(events), now) && Run(events).kept <= |Run(events).grants|
    ensures var all := events + [Restart(now)] + more;
      Careful(all) && Settled(Run(all), now) && Run(all).kept <= |Run(all).grants|
  {
    if more == [] {
      CarefulStep(events, Restart(now));
      RunStep(events, Restart(now));
      assert events + [Restart(now)] + more == events + [Restart(now)];
    } else {
      var front, e := events + [Restart(now)] + more[..|more| - 1], more[|more| - 1];
      GoesOnFront(events, now, more);
      StaysCareful(events, now, more[..|more| - 1]);
      if e.Restart? {
        SettledLater(Run(front), now, e.now);
      }
      CarefulStep(front, e);
      RunStep(front, e);
      SettledStep(Run(front), e, now);
    }
  }

  /** The disk neither knows the grants since the last save nor is it full. */
  ghost predicate Unknown(w: World) {
    forall i :: 0 <= w.kept <= i < |w.grants| ==> UnknownTo(w.disk, w.grants[i].sig, w.grants[i].time)
  }

  ghost predicate UnknownTo(disk: Disk, sig: string, now: int) {
    && (sig in disk.signatures ==> now - disk.signatures[sig] >= WINDOW)
    && |Recent(disk.fired, now)| < RATE_CAP
  }

  lemma RecentShrinks(raw: seq<int>, more: seq<int>, now: int, later: int)
    requires now <= later
    ensures |Recent(raw, later)| <= |Recent(raw + more, now)|
  {
    AscendingFits(Recent(raw, later), Recent(raw + more, now));
  }

  /** A section that grants finds a signature and a window with room in what it read. */
  lemma GrantWasUnknown(mem: Memory, view: Disk, sig: string, now: int)
    requires Decide(mem, view, sig, now).Granted?
    ensures UnknownTo(view, sig, now)
  {
    RecentShrinks(view.fired, mem.fired, now, now);
  }

  lemma UnknownStep(w: World, e: Event)
    requires Unknown(w) && w.kept <= |w.grants| && (IsSection(e) ==> e.view == w.disk)
    ensures Unknown(Step(w, e)) && Step(w, e).kept <= |Step(w, e).grants|
  {
    if IsSection(e) && Decide(w.mem, e.view, e.sig, e.now).Granted? {
      GrantWasUnknown(w.mem, e.view, e.sig, e.now);
    }
    if IsSection(e) {
      var (mem, verdict) := Taken(w, e);
    }
  }

  lemma {:induction false} UnsavedAreUnknown(events: seq<Event>)
    requires ReadsDisk(events)
    ensures Unknown(Run(events)) && Run(events).kept <= |Run(events).grants|
  {
    if events != [] {
      var front, e := events[..|events| - 1], events[|events| - 1];
      assert events == front + [e];
      assert ReadsDisk(front) by {
        assert forall n :: 0 <= n < |front| ==> front[..n] == events[..n] && front[n] == events[n];
      }
      UnsavedAreUnknown(front);
      UnknownStep(Run(front), e);
    }
  }

  /** What the disk does not know is granted by a process that has just started. */
  lemma FilesAgain(w: World, i: nat, now: int)
    requires i < |w.grants| && w.grants[i].time <= now < w.grants[i].time + WINDOW
    requires UnknownTo(w.disk, w.grants[i].sig, w.grants[i].time)
    ensures var again := Step(Step(w, Restart(now)), Work(w.grants[i].sig, now, w.disk, true));
      !Cooldown(again.grants)
  {
    var g := w.grants[i];
    RecentShrinks(w.disk.fired, [], g.time, now);
    assert w.disk.fired + [] == w.disk.fired;
    assert Merge(map[], w.disk.signatures) == w.disk.signatures;
    var again := Step(Step(w, Restart(now)), Work(g.sig, now, w.disk, true));
    assert again.grants[i] == g && again.grants[|w.grants|].sig == g.sig && again.grants[|w.grants|].time == now;
  }

  /**
   After a run that was careful and read the disk, a restart is harmless, in that cap and cooldown hold however the
   run goes on over a disk that works, if and only if every grant since the last save is a day old.
   */
  lemma RestartExactly(events: seq<Event>, now: int)
    requires Careful(events) && ReadsDisk(events) && ClockRuns(events + [Restart(now)])
    ensures Settled(Run(events), now) <==>
      forall more :: GoesOn(events, now, more) ==>
        Cap(Run(events + [Restart(now)] + more).grants) && Cooldown(Run(events + [Restart(now)] + more).grants)
  {
    UnsavedAreUnknown(events);
    if Settled(Run(events), now) {
      forall more | GoesOn(events, now, more)
        ensures Cap(Run(events + [Restart(now)] + more).grants) && Cooldown(Run(events + [Restart(now)] + more).grants)
      {
        StaysCareful(events, now, more);
        CapAndCooldownHold(events + [Restart(now)] + more);
      }
    } else {
      var w := Run(events);
      var i :| w.kept <= i < |w.grants| && now - w.grants[i].time < WINDOW;
      var again := Work(w.grants[i].sig, now, w.disk, true);
      GrantTimes(events, now);
      FilesAgain(w, i, now);
      OneMore(events, now, again);
      RunsOneMore(events, now, again);
      assert GoesOn(events, now, [again]);
      assert !Cooldown(Run(events + [Restart(now)] + [again]).grants);
    }
  }

  lemma GrantTimes(events: seq<Event>, now: int)
    requires Careful(events) && ClockRuns(events + [Restart(now)])
    ensures forall g :: g in Run(events).grants ==> g.time <= now
  {
    var all := events + [Restart(now)];
    assert all[|events|] == Restart(now) && forall i :: 0 <= i < |events| ==> all[i] == events[i];
    assert ClockRuns(events) && NoneAfter(events, now);
    InvHolds(events, now);
  }

  /** One more event at the time of the restart keeps the clock running. */
  lemma ClockRunsOn(events: seq<Event>, now: int, e: Event)
    requires ClockRuns(events + [Restart(now)]) && e.now == now
    ensures ClockRuns(events + [Restart(now)] + [e])
  {
    var start := events + [Restart(now)];
    var all := start + [e];
    forall i, j | 0 <= i < j < |all| && !all[i].Crash? && !all[j].Crash?
      ensures all[i].now <= all[j].now
    {
      assert all[i] == start[i];
      if j < |start| {
        assert all[j] == start[j];
      } else if i < |events| {
        assert start[i].now <= start[|events|].now;
      }
    }
  }

  lemma OneMore(events: seq<Event>, now: int, e: Event)
    requires ClockRuns(events + [Restart(now)]) && e.Work? && e.saved && e.now == now && e.view == Run(events).disk
    ensures GoesOn(events, now, [e])
  {
    var start := events + [Restart(now)];
    var all := start + [e];
    ClockRunsOn(events, now, e);
    RunStep(events, Restart(now));
    forall n | |events| < n < |all|
      ensures all[n] == e && all[..n] == start
    {
    }
  }

  lemma RunsOneMore(events: seq<Event>, now: int, e: Event)
    ensures Run(events + [Restart(now)] + [e]) == Step(Step(Run(events), Restart(now)), e)
  {
    RunStep(events, Restart(now));
    RunStep(events + [Restart(now)], e);
  }

  /** Nor can the reads be dropped: a process that starts within a day of a grant and reads nothing files it again. */
  lemma UnreadDiskFilesAgain(w: World, i: nat, now: int, saved: bool)
    requires i < |w.grants| && now - w.grants[i].time < WINDOW
    ensures var again := Step(Step(w, Restart(now)), Work(w.grants[i].sig, now, Disk([], map[]), saved));
      !Cooldown(again.grants)
  {
    var g := w.grants[i];
    FreshGrant(EMPTY_MEMORY, g.sig, now);
    var again := Step(Step(w, Restart(now)), Work(g.sig, now, Disk([], map[]), saved));
    assert again.grants[i] == g && again.grants[|w.grants|].sig == g.sig && again.grants[|w.grants|].time == now;
  }

  /** One issue, a restart that finds nothing on the disk, and the same issue again. */
  function LostSave(sig: string): seq<Event> {
    var none := Disk([], map[]);
    [Signal(sig, 0, none, false), Restart(1), Signal(sig, 2, none, true)]
  }

  lemma RunThree(a: Event, b: Event, c: Event)
    ensures Run([a, b, c]) == Step(Step(Step(START, a), b), c)
  {
    assert [a, b, c][..2] == [a, b];
    assert [a, b][..1] == [a];
    assert [a][..0] == [];
    assert Run([]) == START;
    assert Run([a]) == Step(START, a);
    assert Run([a, b]) == Step(Run([a]), b);
  }

  /**
   Across restarts the disk must work: after one restart and a single failed save
   the same signature is filed twice within the window.
   */
  lemma LostSaveBreaksCooldown(sig: string)
    ensures ClockRuns(LostSave(sig)) && !Cooldown(Run(LostSave(sig)).grants)
  {
    var events := LostSave(sig);
    RunThree(events[0], events[1], events[2]);
    GrantsFirst(START, sig, 0, false);
    var w := Step(Step(START, events[0]), events[1]);
    GrantsFirst(w, sig, 2, true);
    var grants := Run(events).grants;
    assert grants == [Grant(sig, 0, 0), Grant(sig, 2, 2)];
    assert grants[0].sig == grants[1].sig;
  }

  /** A reporter that remembers nothing and reads nothing grants. */
  lemma GrantsFirst(w: World, sig: string, now: int, saved: bool)
    requires w.mem == EMPTY_MEMORY && now >= 0
    ensures Step(w, Signal(sig, now, Disk([], map[]), saved)).grants == w.grants + [Grant(sig, now, now)]
  {
    FreshGrant(EMPTY_MEMORY, sig, now);
  }
}
