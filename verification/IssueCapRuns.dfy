/** Whole runs of both reporters: the cap and the cooldown hold whatever the disk does. */
module IssueCapRuns {
  import opened IssueCap

  /** A filed issue: when it was granted and the stamp that stands for it in the window. */
  datatype Grant = Grant(sig: string, time: int, stamp: int)

  /** view is what the disk read of the section returned; saved tells whether its write succeeded. */
  datatype Event =
    | Crash(sig: string, now: int)
    | Work(sig: string, now: int, view: Disk, saved: bool)
    | Signal(sig: string, now: int, view: Disk, saved: bool)
    | Restart(now: int)

  /**
   kept is the number of grants that were made when the state was last saved; warm says that memory was written
   by a section since the process started, or that nothing was ever granted.
   */
  datatype World = World(mem: Memory, disk: Disk, grants: seq<Grant>, kept: nat, warm: bool)

  const START := World(EMPTY_MEMORY, Disk([], map[]), [], 0, true)

  predicate IsSection(e: Event) {
    e.Work? || e.Signal?
  }

  /** The world once a section has put this state into memory, and on disk if its save succeeded. */
  function Recorded(w: World, mem: Memory, state: Disk, grants: seq<Grant>, saved: bool): World {
    if saved then World(mem, state, grants, |grants|, true) else World(mem, w.disk, grants, w.kept, true)
  }

  function Apply(w: World, mem: Memory, verdict: Verdict, e: Event): World
    requires IsSection(e)
  {
    match verdict
    case Duplicate => w.(mem := mem)
    case Capped(state) => Recorded(w, mem, state, w.grants, e.saved)
    case Granted(state, stamp) => Recorded(w, mem, state, w.grants + [Grant(e.sig, e.now, stamp)], e.saved)
  }

  function Step(w: World, e: Event): World {
    match e
    case Crash(sig, now) => w.(mem := AdmitCrash(w.mem, sig, now).0)
    case Work(sig, now, view, _) =>
      var (mem, verdict) := CrashWorker(w.mem, view, sig, now); Apply(w, mem, verdict, e)
    case Signal(sig, now, view, _) =>
      var (mem, verdict) := ReserveSignature(w.mem, view, sig, now); Apply(w, mem, verdict, e)
    case Restart(_) => w.(mem := EMPTY_MEMORY, warm := false)
  }

  function Run(events: seq<Event>): World {
    if events == [] then START else Step(Run(events[..|events| - 1]), events[|events| - 1])
  }

  /** Sections read the clock under the lock. The crash hook reads it before, so its times come in any order. */
  ghost predicate ClockRuns(events: seq<Event>) {
    forall i, j :: 0 <= i < j < |events| && !events[i].Crash? && !events[j].Crash? ==> events[i].now <= events[j].now
  }

  /** Every grant since the last save is a day old. */
  ghost predicate Settled(w: World, now: int) {
    forall i :: 0 <= w.kept <= i < |w.grants| ==> now - w.grants[i].time >= WINDOW
  }

  /**
   What the bounds rest on: a process ends only when the grants it could not save are a day old, and a process that
   did not yet record anything reads what is on disk. All other reads may return anything, and any save may fail.
   */
  ghost predicate Careful(events: seq<Event>) {
    forall n :: 0 <= n < |events| ==>
      var w := Run(events[..n]);
      && (events[n].Restart? ==> Settled(w, events[n].now))
      && (IsSection(events[n]) && !w.warm ==> events[n].view == w.disk)
  }

  /** One process: nothing is assumed of what the disk returns or of its saves. */
  ghost predicate OneProcess(events: seq<Event>) {
    forall e :: e in events ==> !e.Restart?
  }

  /** Any number of restarts, with a disk that saves and returns what was saved. */
  ghost predicate Durable(events: seq<Event>) {
    forall n :: 0 <= n < |events| && IsSection(events[n]) ==>
      events[n].saved && events[n].view == Run(events[..n]).disk
  }

  /** Whether a list of stamps and a map of signatures account for every grant of the last 24 hours. */
  ghost predicate AccountsFor(state: Disk, grants: seq<Grant>, now: int) {
    forall i :: 0 <= i < |grants| && now - grants[i].time < WINDOW ==>
      && grants[i].stamp in state.fired
      && grants[i].sig in state.signatures && state.signatures[grants[i].sig] >= grants[i].time
  }

  /** What the grants themselves satisfy; the last two clauses are the promise. */
  ghost predicate Spaced(grants: seq<Grant>, now: int) {
    && (forall i :: 0 <= i < |grants| ==> grants[i].time <= grants[i].stamp && grants[i].time <= now)
    && (forall i, j :: 0 <= i < j < |grants| ==> grants[i].time <= grants[j].time)
    && (forall i, j :: 0 <= i < j < |grants| && grants[j].time - grants[i].time < WINDOW ==>
      grants[i].stamp < grants[j].stamp)
    && Cooldown(grants)
    && Cap(grants)
  }

  ghost predicate Cooldown(grants: seq<Grant>) {
    forall i, j :: 0 <= i < j < |grants| && grants[i].sig == grants[j].sig ==> grants[j].time - grants[i].time >= WINDOW
  }

  /** Any five grants after one another and the next are spread over at least 24 hours. */
  ghost predicate Cap(grants: seq<Grant>) {
    forall i :: 0 <= i && i + RATE_CAP < |grants| ==> grants[i + RATE_CAP].time - grants[i].time >= WINDOW
  }

  /** A strictly ascending list whose elements all occur in another is not longer. */
  lemma {:induction false} AscendingFits(a: seq<int>, b: seq<int>)
    requires Ascending(a) && Ascending(b)
    requires forall x :: x in a ==> x in b
    ensures |a| <= |b|
    decreases |a|
  {
    if a != [] {
      var x := a[|a| - 1];
      assert x in a;
      var j :| 0 <= j < |b| && b[j] == x;
      forall y | y in a[..|a| - 1]
        ensures y in b[..j]
      {
        var i :| 0 <= i < |a| - 1 && a[i] == y;
        assert a[i] in a;
        var m :| 0 <= m < |b| && b[m] == y;
        assert m < j;
        assert b[..j][m] == y;
      }
      AscendingFits(a[..|a| - 1], b[..j]);
    }
  }

  function Stamps(grants: seq<Grant>): (r: seq<int>)
    ensures |r| == |grants| && forall i :: 0 <= i < |r| ==> r[i] == grants[i].stamp
  {
    seq(|grants|, i requires 0 <= i < |grants| => grants[i].stamp)
  }

  /** What either source accounts for, the list and the map built by the section account for. */
  lemma MergedAccounts(mem: Memory, view: Disk, grants: seq<Grant>, now: int)
    requires AccountsFor(Disk(mem.fired, mem.signatures), grants, now) || AccountsFor(view, grants, now)
    requires forall i :: 0 <= i < |grants| ==> grants[i].time <= grants[i].stamp
    ensures AccountsFor(Disk(Recent(view.fired + mem.fired, now), Prune(Merge(mem.signatures, view.signatures), now)),
      grants, now)
  {
  }

  /** The stamp of a grant is no earlier than its time and later than all stamps of the window. */
  lemma StampIsNew(fired: seq<int>, now: int)
    requires Ascending(fired)
    ensures Stamp(fired, now) >= now
    ensures forall t :: t in fired ==> t < Stamp(fired, now)
  {
    forall t | t in fired
      ensures t <= fired[|fired| - 1]
    {
      var i :| 0 <= i < |fired| && fired[i] == t;
    }
  }

  /** A grant with four stamps at most in the window leaves at most four grants in the last 24 hours. */
  lemma RoomForOne(grants: seq<Grant>, fired: seq<int>, signatures: map<string, int>, now: int)
    requires Spaced(grants, now) && AccountsFor(Disk(fired, signatures), grants, now)
    requires Ascending(fired) && |fired| < RATE_CAP && |grants| >= RATE_CAP
    ensures now - grants[|grants| - RATE_CAP].time >= WINDOW
  {
    var first := |grants| - RATE_CAP;
    if now - grants[first].time < WINDOW {
      var tail := Stamps(grants[first..]);
      assert Ascending(tail);
      forall x | x in tail
        ensures x in fired
      {
        var i :| 0 <= i < |tail| && tail[i] == x;
        assert tail[i] == grants[first + i].stamp;
      }
      AscendingFits(tail, fired);
      assert false;
    }
  }

  lemma GrantKeepsCap(grants: seq<Grant>, fired: seq<int>, signatures: map<string, int>, g: Grant)
    requires Spaced(grants, g.time) && AccountsFor(Disk(fired, signatures), grants, g.time)
    requires Ascending(fired) && |fired| < RATE_CAP
    ensures Cap(grants + [g])
  {
    if |grants| >= RATE_CAP {
      RoomForOne(grants, fired, signatures, g.time);
    }
    var grants' := grants + [g];
    forall i | 0 <= i && i + RATE_CAP < |grants'|
      ensures grants'[i + RATE_CAP].time - grants'[i].time >= WINDOW
    {
      if i + RATE_CAP < |grants| {
        assert grants[i + RATE_CAP].time - grants[i].time >= WINDOW;
      }
    }
  }

  lemma GrantKeepsCooldown(grants: seq<Grant>, state: Disk, g: Grant)
    requires Spaced(grants, g.time) && AccountsFor(state, grants, g.time)
    requires g.sig !in state.signatures || g.time - state.signatures[g.sig] >= WINDOW
    ensures Cooldown(grants + [g])
  {
    forall i | 0 <= i < |grants| && grants[i].sig == g.sig
      ensures g.time - grants[i].time >= WINDOW
    {
    }
  }

  lemma GrantKeepsOrder(grants: seq<Grant>, fired: seq<int>, signatures: map<string, int>, g: Grant)
    requires Spaced(grants, g.time) && AccountsFor(Disk(fired, signatures), grants, g.time)
    requires g.time <= g.stamp && forall t :: t in fired ==> t < g.stamp
    requires Cap(grants + [g]) && Cooldown(grants + [g])
    ensures Spaced(grants + [g], g.time)
  {
  }

  lemma GrantKeepsSpaced(mem: Memory, view: Disk, grants: seq<Grant>, sig: string, now: int)
    requires AccountsFor(Disk(mem.fired, mem.signatures), grants, now) || AccountsFor(view, grants, now)
    requires Spaced(grants, now)
    requires Decide(mem, view, sig, now).Granted?
    ensures var v := Decide(mem, view, sig, now);
      var grants' := grants + [Grant(sig, now, v.stamp)];
      Spaced(grants', now) && AccountsFor(v.state, grants', now)
  {
    MergedAccounts(mem, view, grants, now);
    var fired := Recent(view.fired + mem.fired, now);
    var merged := Merge(mem.signatures, view.signatures);
    var kept := Prune(merged, now);
    StampIsNew(fired, now);
    var g := Grant(sig, now, Stamp(fired, now));
    GrantKeepsCap(grants, fired, kept, g);
    GrantKeepsCooldown(grants, Disk(fired, kept), g);
    GrantKeepsOrder(grants, fired, kept, g);
  }

  ghost predicate MemoryAccounts(w: World, now: int) {
    AccountsFor(Disk(w.mem.fired, w.mem.signatures), w.grants, now)
  }

  /** The state a section leaves accounts for all grants, the new one included. */
  lemma DecideKeeps(w: World, e: Event)
    requires IsSection(e) && Spaced(w.grants, e.now)
    requires MemoryAccounts(w, e.now) || AccountsFor(e.view, w.grants, e.now)
    ensures match Decide(w.mem, e.view, e.sig, e.now)
      case Duplicate => true
      case Capped(state) => AccountsFor(state, w.grants, e.now)
      case Granted(state, stamp) =>
        var grants := w.grants + [Grant(e.sig, e.now, stamp)];
        Spaced(grants, e.now) && AccountsFor(state, grants, e.now)
  {
    MergedAccounts(w.mem, e.view, w.grants, e.now);
    if Decide(w.mem, e.view, e.sig, e.now).Granted? {
      GrantKeepsSpaced(w.mem, e.view, w.grants, e.sig, e.now);
    }
  }

  /** The disk accounts for what was granted before the last save, and a warm memory for everything. */
  ghost predicate Inv(w: World, now: int) {
    && Spaced(w.grants, now)
    && w.kept <= |w.grants| && AccountsFor(w.disk, w.grants[..w.kept], now)
    && (w.warm ==> MemoryAccounts(w, now))
    && (!w.warm ==> Settled(w, now))
  }

  lemma RecordedKeeps(w: World, mem: Memory, state: Disk, grants: seq<Grant>, saved: bool, now: int)
    requires Inv(w, now) && Spaced(grants, now) && w.grants <= grants
    requires AccountsFor(state, grants, now) && mem.fired == state.fired && mem.signatures == state.signatures
    ensures Inv(Recorded(w, mem, state, grants, saved), now)
  {
    assert grants[..w.kept] == w.grants[..w.kept] && grants[..|grants|] == grants;
  }

  /** What a reporter made of the verdict of its section: the blocked signal reporter reads nothing. */
  ghost predicate Took(w: World, e: Event, mem: Memory, verdict: Verdict)
    requires IsSection(e)
  {
    || (verdict.Duplicate? && mem == w.mem)
    || (verdict == Decide(w.mem, e.view, e.sig, e.now) && !verdict.Duplicate?
        && mem.fired == verdict.state.fired && mem.signatures == verdict.state.signatures)
  }

  lemma ApplyKeeps(w: World, mem: Memory, verdict: Verdict, e: Event)
    requires IsSection(e) && Inv(w, e.now) && (!w.warm ==> e.view == w.disk) && Took(w, e, mem, verdict)
    ensures Inv(Apply(w, mem, verdict, e), e.now)
  {
    if !w.warm {
      DiskAccounts(w, e.now);
    }
    DecideKeeps(w, e);
    match verdict
    case Duplicate =>
    case Capped(state) => RecordedKeeps(w, mem, state, w.grants, e.saved, e.now);
    case Granted(state, stamp) => RecordedKeeps(w, mem, state, w.grants + [Grant(e.sig, e.now, stamp)], e.saved, e.now);
  }

  /** One section under the lock, of either reporter, keeps memory and disk accountable. */
  lemma SectionKeeps(w: World, e: Event)
    requires IsSection(e) && Inv(w, e.now) && (!w.warm ==> e.view == w.disk)
    ensures Inv(Step(w, e), e.now)
  {
    var (mem, verdict) := Taken(w, e);
    ApplyKeeps(w, mem, verdict, e);
  }

  function Taken(w: World, e: Event): (r: (Memory, Verdict))
    requires IsSection(e)
    ensures Took(w, e, r.0, r.1) && Step(w, e) == Apply(w, r.0, r.1, e)
  {
    if e.Work? then CrashWorker(w.mem, e.view, e.sig, e.now) else ReserveSignature(w.mem, e.view, e.sig, e.now)
  }

  /** A disk whose unsaved grants are a day old accounts for all. */
  lemma DiskAccounts(w: World, now: int)
    requires w.kept <= |w.grants| && AccountsFor(w.disk, w.grants[..w.kept], now) && Settled(w, now)
    ensures AccountsFor(w.disk, w.grants, now)
  {
    forall i | 0 <= i < |w.grants| && now - w.grants[i].time < WINDOW
      ensures i < w.kept && w.grants[..w.kept][i] == w.grants[i]
    {
    }
  }

  lemma Later(w: World, now: int, later: int)
    requires Inv(w, now) && now <= later
    ensures Inv(w, later)
  {
  }

  lemma StepKeeps(w: World, e: Event, now: int)
    requires Inv(w, now) && (!e.Crash? ==> e.now == now)
    requires e.Restart? ==> Settled(w, now)
    requires IsSection(e) && !w.warm ==> e.view == w.disk
    ensures Inv(Step(w, e), now)
  {
    if IsSection(e) {
      SectionKeeps(w, e);
    }
  }

  ghost predicate NoneAfter(events: seq<Event>, now: int) {
    forall e :: e in events && !e.Crash? ==> e.now <= now
  }

  lemma CarefulFront(front: seq<Event>, e: Event)
    requires Careful(front + [e])
    ensures Careful(front)
    ensures e.Restart? ==> Settled(Run(front), e.now)
    ensures IsSection(e) && !Run(front).warm ==> e.view == Run(front).disk
  {
    var events := front + [e];
    assert events[..|front|] == front && events[|front|] == e;
    forall n | 0 <= n < |front|
      ensures events[..n] == front[..n] && events[n] == front[n]
    {
    }
  }

  lemma RunStep(front: seq<Event>, e: Event)
    ensures Run(front + [e]) == Step(Run(front), e)
  {
    assert (front + [e])[..|front|] == front;
  }

  lemma ClockFront(front: seq<Event>, e: Event, now: int)
    requires ClockRuns(front + [e]) && NoneAfter(front + [e], now)
    ensures ClockRuns(front) && NoneAfter(front, if e.Crash? then now else e.now)
    ensures e.Crash? || e.now <= now
  {
    var events := front + [e];
    assert events[|front|] == e && forall i :: 0 <= i < |front| ==> events[i] == front[i];
    assert forall x :: x in front ==> x in events;
    assert e in events;
  }

  lemma InvStep(front: seq<Event>, e: Event, now: int)
    requires Careful(front + [e]) && (e.Crash? || e.now <= now)
    requires Inv(Run(front), if e.Crash? then now else e.now)
    ensures Inv(Run(front + [e]), now)
  {
    CarefulFront(front, e);
    RunStep(front, e);
    var at := if e.Crash? then now else e.now;
    StepKeeps(Run(front), e, at);
    Later(Step(Run(front), e), at, now);
  }

  /** After every careful run, at any later time. */
  lemma {:induction false} InvHolds(events: seq<Event>, now: int)
    requires ClockRuns(events) && Careful(events) && NoneAfter(events, now)
    ensures Inv(Run(events), now)
  {
    if events != [] {
      var front, e := events[..|events| - 1], events[|events| - 1];
      assert events == front + [e];
      CarefulFront(front, e);
      ClockFront(front, e, now);
      InvHolds(front, if e.Crash? then now else e.now);
      InvStep(front, e, now);
    }
  }

  function LatestOf(events: seq<Event>): int {
    if events == [] then 0
    else
      var e, latest := events[|events| - 1], LatestOf(events[..|events| - 1]);
      if !e.Crash? && e.now > latest then e.now else latest
  }

  lemma {:induction false} LatestIsLatest(events: seq<Event>)
    ensures NoneAfter(events, LatestOf(events))
  {
    if events != [] {
      LatestIsLatest(events[..|events| - 1]);
      assert events == events[..|events| - 1] + [events[|events| - 1]];
    }
  }

  /** In any careful run the cap and the cooldown hold. */
  lemma CapAndCooldownHold(events: seq<Event>)
    requires ClockRuns(events) && Careful(events)
    ensures Cap(Run(events).grants) && Cooldown(Run(events).grants)
  {
    LatestIsLatest(events);
    InvHolds(events, LatestOf(events));
  }

  // ----- which runs are careful -----

  lemma StaysWarm(w: World, e: Event)
    requires w.warm && !e.Restart?
    ensures Step(w, e).warm
  {
  }

  /** A single process is, whatever disk reads return and whatever saves fail. */
  lemma {:induction false} OneProcessIsCareful(events: seq<Event>)
    requires OneProcess(events)
    ensures Careful(events) && Run(events).warm
  {
    if events != [] {
      var front, e := events[..|events| - 1], events[|events| - 1];
      assert events == front + [e] && e in events;
      OneProcessIsCareful(front);
      StaysWarm(Run(front), e);
      CarefulStep(front, e);
    }
  }

  lemma CarefulStep(front: seq<Event>, e: Event)
    requires Careful(front)
    requires e.Restart? ==> Settled(Run(front), e.now)
    requires IsSection(e) && !Run(front).warm ==> e.view == Run(front).disk
    ensures Careful(front + [e])
  {
    var events := front + [e];
    forall n | 0 <= n < |events|
      ensures events[..n] == if n < |front| then front[..n] else front
    {
    }
  }

  /** So are any number of processes after one another over a disk that works. */
  lemma {:induction false} DurableIsCareful(events: seq<Event>)
    requires Durable(events)
    ensures Careful(events) && Run(events).kept == |Run(events).grants|
  {
    if events != [] {
      var front, e := events[..|events| - 1], events[|events| - 1];
      assert events == front + [e];
      DurableFront(front, e);
      DurableIsCareful(front);
      CarefulStep(front, e);
      RunStep(front, e);
      StaysSaved(Run(front), e);
    }
  }

  lemma DurableFront(front: seq<Event>, e: Event)
    requires Durable(front + [e])
    ensures Durable(front) && (IsSection(e) ==> e.saved && e.view == Run(front).disk)
  {
    var events := front + [e];
    assert events[..|front|] == front && events[|front|] == e;
    assert forall n :: 0 <= n < |front| ==> front[..n] == events[..n] && front[n] == events[n];
  }

  lemma StaysSaved(w: World, e: Event)
    requires w.kept == |w.grants| && (IsSection(e) ==> e.saved)
    ensures Step(w, e).kept == |Step(w, e).grants|
  {
  }

  /** The cap read as a bound on windows: no 24 hours from any start hold more than five grants. */
  lemma AnyWindow(events: seq<Event>, start: int, from: nat, to: nat)
    requires ClockRuns(events) && Careful(events)
    requires from <= to <= |Run(events).grants|
    requires forall i :: from <= i < to ==> start <= Run(events).grants[i].time < start + 86_400_000_000
    ensures to - from <= 5
  {
    CapAndCooldownHold(events);
    var grants := Run(events).grants;
    if from + RATE_CAP < |grants| {
      assert grants[from + RATE_CAP].time - grants[from].time >= WINDOW;
    }
  }

  /** With nothing remembered and nothing on disk any signature is granted. */
  lemma FreshGrant(mem: Memory, sig: string, now: int)
    requires mem.fired == [] && mem.signatures == map[]
    ensures Decide(mem, Disk([], map[]), sig, now).Granted? && Decide(mem, Disk([], map[]), sig, now).stamp == now
  {
    assert [] + mem.fired == [];
  }
}
