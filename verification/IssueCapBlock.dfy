/**
 The fast path of the reporters: while it blocks, the cap is full, so it never turns away what a look at the stamps
 would grant; and exactly when an issue is granted and when a crash starts a worker, said of stamps and history.
 */
module IssueCapBlock {
  import opened Wrappers
  import opened IssueCap
  import opened IssueCapRuns

  // ----- what a section decides -----

  /** The stamps of either source that are less than a day old. */
  function DayStamps(mem: Memory, view: Disk, now: int): set<int> {
    set t | t in view.fired + mem.fired && now - t < 86_400_000_000
  }

  /** Neither source knows of an issue of the signature less than a day old. */
  predicate Unfiled(mem: Memory, view: Disk, sig: string, now: int) {
    && (sig in mem.signatures ==> now - mem.signatures[sig] >= 86_400_000_000)
    && (sig in view.signatures ==> now - view.signatures[sig] >= 86_400_000_000)
  }

  lemma {:induction false} AscendingSet(s: seq<int>)
    requires Ascending(s)
    ensures |set t | t in s| == |s|
  {
    if s != [] {
      var front, last := s[..|s| - 1], s[|s| - 1];
      AscendingSet(front);
      assert s == front + [last];
      assert last !in front;
      assert (set t | t in s) == (set t | t in front) + {last};
    } else {
      assert (set t | t in s) == {};
    }
  }

  lemma WindowSize(mem: Memory, view: Disk, now: int)
    ensures |Recent(view.fired + mem.fired, now)| == |DayStamps(mem, view, now)|
  {
    var r := Recent(view.fired + mem.fired, now);
    AscendingSet(r);
    assert (set t | t in r) == DayStamps(mem, view, now);
  }

  /** A section grants if and only if the signature is new for the day and fewer than five stamps are. */
  lemma GrantedExactly(mem: Memory, view: Disk, sig: string, now: int)
    ensures Decide(mem, view, sig, now).Granted? <==> Unfiled(mem, view, sig, now) && |DayStamps(mem, view, now)| < 5
    ensures Decide(mem, view, sig, now).Capped? <==> Unfiled(mem, view, sig, now) && |DayStamps(mem, view, now)| >= 5
  {
    WindowSize(mem, view, now);
  }

  ghost predicate Least(s: set<int>, t: int) {
    t in s && forall u :: u in s ==> t <= u
  }

  /** A capped section blocks all reports until the oldest stamp of the day is a day old. */
  lemma BlockedUntilOldest(mem: Memory, view: Disk, sig: string, now: int)
    requires Decide(mem, view, sig, now).Capped?
    ensures exists t :: (Least(DayStamps(mem, view, now), t) &&
      CrashWorker(mem, view, sig, now).0.blockedUntil == t + 86_400_000_000 &&
      (now >= mem.blockedUntil ==>
         ReserveSignature(mem, view, sig, now).0.blockedUntil == t + 86_400_000_000))
  {
    var fired := Recent(view.fired + mem.fired, now);
    assert fired[0] in fired;
    assert Least(DayStamps(mem, view, now), fired[0]);
  }

  /** A grant is stamped with its time, or just above the newest stamp of the day if that is not earlier. */
  lemma StampExactly(mem: Memory, view: Disk, sig: string, now: int)
    requires Decide(mem, view, sig, now).Granted?
    ensures var stamp := Decide(mem, view, sig, now).stamp;
      if forall t :: t in DayStamps(mem, view, now) ==> t < now then stamp == now
      else stamp - 1 in DayStamps(mem, view, now) && forall t :: t in DayStamps(mem, view, now) ==> t < stamp
  {
    var fired := Recent(view.fired + mem.fired, now);
    assert forall t :: t in fired <==> t in DayStamps(mem, view, now);
    StampIsNew(fired, now);
    if fired != [] {
      assert fired[|fired| - 1] in fired;
    }
  }

  // ----- no refusal without a reason -----

  /** An issue of the signature was granted at this time, or some section read that it was. */
  ghost predicate Filed(grants: seq<Grant>, events: seq<Event>, sig: string, time: int) {
    || (exists g :: g in grants && g.sig == sig && g.time == time)
    || (exists e :: e in events && IsSection(e) && sig in e.view.signatures && e.view.signatures[sig] == time)
  }

  ghost predicate Stamped(grants: seq<Grant>, events: seq<Event>, stamp: int) {
    (exists g :: g in grants && g.stamp == stamp) || exists e :: e in events && IsSection(e) && stamp in e.view.fired
  }

  ghost predicate NothingInvented(w: World, events: seq<Event>) {
    && (forall s :: s in w.mem.signatures ==> Filed(w.grants, events, s, w.mem.signatures[s]))
    && (forall t :: t in w.mem.fired ==> Stamped(w.grants, events, t))
  }

  lemma NothingLost(w: World, events: seq<Event>, grants: seq<Grant>, longer: seq<Event>)
    requires NothingInvented(w, events)
    requires (forall g :: g in w.grants ==> g in grants) && forall e :: e in events ==> e in longer
    ensures NothingInvented(w.(grants := grants), longer)
  {
    forall s | s in w.mem.signatures
      ensures Filed(grants, longer, s, w.mem.signatures[s])
    {
      assert Filed(w.grants, events, s, w.mem.signatures[s]);
    }
    forall t | t in w.mem.fired
      ensures Stamped(grants, longer, t)
    {
      assert Stamped(w.grants, events, t);
    }
  }

  /** What a section leaves behind it had, read or granted. */
  lemma SectionInventsNothing(w: World, events: seq<Event>, e: Event)
    requires IsSection(e) && e in events && NothingInvented(w, events)
    ensures NothingInvented(Step(w, e), events)
  {
    match Decide(w.mem, e.view, e.sig, e.now)
    case Duplicate =>
    case Capped(_) =>
    case Granted(_, stamp) =>
      var g := Grant(e.sig, e.now, stamp);
      var grants := w.grants + [g];
      assert g in grants && forall x :: x in w.grants ==> x in grants;
      NothingLost(w, events, grants, events);
  }

  /** In every run all that memory holds was granted, or read by some section. */
  lemma {:induction false} KnownWasFiled(events: seq<Event>)
    ensures NothingInvented(Run(events), events)
  {
    if events != [] {
      var front, e := events[..|events| - 1], events[|events| - 1];
      assert events == front + [e] && e in events;
      KnownWasFiled(front);
      RunStep(front, e);
      NothingLost(Run(front), front, Run(front).grants, events);
      if IsSection(e) {
        SectionInventsNothing(Run(front), events, e);
      }
    }
  }

  /**
   A signal is turned away only if an issue of its signature was granted, or read to be, within a day, or five stamps
   of the day were.
   */
  lemma RefusedForAReason(events: seq<Event>, view: Disk, sig: string, now: int)
    requires ClockRuns(events) && TimesArePositive(events) && NoneAfter(events, now) && now >= 0
    requires !ReserveSignature(Run(events).mem, view, sig, now).1.Granted?
    ensures var all := events + [Signal(sig, now, view, true)];
      || (exists t :: now - t < 86_400_000_000 && Filed(Run(events).grants, all, sig, t))
      || exists stamps: set<int> :: |stamps| >= 5
           && forall t :: t in stamps ==> now - t < 86_400_000_000 && Stamped(Run(events).grants, all, t)
  {
    var mem, asked := Run(events).mem, Signal(sig, now, view, true);
    var all := events + [asked];
    assert asked in all;
    KnownWasFiled(events);
    NothingLost(Run(events), events, Run(events).grants, all);
    FastPathIsExact(events, view, sig, now);
    if Unfiled(mem, view, sig, now) {
      var stamps := DayStamps(mem, view, now);
      assert |stamps| >= 5;
    } else if sig in mem.signatures && now - mem.signatures[sig] < 86_400_000_000 {
      assert Filed(Run(events).grants, all, sig, mem.signatures[sig]);
    } else {
      assert Filed(Run(events).grants, all, sig, view.signatures[sig]);
    }
  }

  // ----- the block -----

  /** While it lasts, five stamps in memory are less than a day old. */
  ghost predicate BlockIsFull(mem: Memory, at: int) {
    forall now :: 0 <= now && at <= now < mem.blockedUntil ==> |Recent(mem.fired, now)| >= RATE_CAP
  }

  lemma FullWhileOldestCounts(fired: seq<int>, now: int)
    requires Ascending(fired) && |fired| >= RATE_CAP && now < fired[0] + WINDOW
    ensures |Recent(fired, now)| >= RATE_CAP
  {
    forall t | t in fired
      ensures t in Recent(fired, now)
    {
      var i :| 0 <= i < |fired| && fired[i] == t;
      assert fired[0] <= fired[i];
    }
    AscendingFits(fired, Recent(fired, now));
  }

  /** No section grants while memory holds five stamps of the day. */
  lemma FullNeverGrants(mem: Memory, view: Disk, sig: string, now: int)
    requires |Recent(mem.fired, now)| >= RATE_CAP
    ensures !Decide(mem, view, sig, now).Granted?
  {
    AscendingFits(Recent(mem.fired, now), Recent(view.fired + mem.fired, now));
  }

  lemma SectionKeepsBlock(w: World, e: Event)
    requires IsSection(e) && e.now >= 0 && BlockIsFull(w.mem, e.now)
    ensures BlockIsFull(Step(w, e).mem, e.now)
  {
    var decided := Decide(w.mem, e.view, e.sig, e.now);
    if e.now < w.mem.blockedUntil {
      FullNeverGrants(w.mem, e.view, e.sig, e.now);
    }
    var fired := Recent(e.view.fired + w.mem.fired, e.now);
    if decided.Capped? {
      forall now | 0 <= now && e.now <= now < fired[0] + WINDOW
        ensures |Recent(fired, now)| >= RATE_CAP
      {
        FullWhileOldestCounts(fired, now);
      }
    }
  }

  ghost predicate TimesArePositive(events: seq<Event>) {
    forall e :: e in events && !e.Crash? ==> e.now >= 0
  }

  /** In every run, whatever is read and saved, the block lasts only while the cap is full. */
  lemma {:induction false} BlockHolds(events: seq<Event>, at: int)
    requires ClockRuns(events) && TimesArePositive(events) && NoneAfter(events, at)
    ensures BlockIsFull(Run(events).mem, at)
  {
    if events != [] {
      var front, e := events[..|events| - 1], events[|events| - 1];
      assert events == front + [e] && e in events;
      assert forall x :: x in front ==> x in events;
      ClockFront(front, e, at);
      BlockHolds(front, if e.Crash? then at else e.now);
      RunStep(front, e);
      if IsSection(e) {
        SectionKeepsBlock(Run(front), e);
      }
    }
  }

  /** Hence the signal reporter grants exactly what a look at the stamps would grant, blocked or not. */
  lemma FastPathIsExact(events: seq<Event>, view: Disk, sig: string, now: int)
    requires ClockRuns(events) && TimesArePositive(events) && NoneAfter(events, now) && now >= 0
    ensures var mem := Run(events).mem;
      && (ReserveSignature(mem, view, sig, now).1.Granted? <==> Decide(mem, view, sig, now).Granted?)
      && (ReserveSignature(mem, view, sig, now).1.Granted? <==>
            Unfiled(mem, view, sig, now) && |DayStamps(mem, view, now)| < 5)
  {
    var mem := Run(events).mem;
    BlockHolds(events, now);
    GrantedExactly(mem, view, sig, now);
    if now < mem.blockedUntil {
      FullNeverGrants(mem, view, sig, now);
    }
  }

  // ----- the crash hook -----

  /** A worker that is capped gives its start back, and a new process remembers none. */
  function NextStart(w: World, e: Event, sig: string, last: Option<int>): Option<int> {
    match e
    case Crash(s, now) => if s == sig && AdmitCrash(w.mem, s, now).1 then Some(now) else last
    case Work(s, now, view, _) => if s == sig && Decide(w.mem, view, s, now).Capped? then None else last
    case Signal(_, _, _, _) => last
    case Restart(_) => None
  }

  /** The last crash that started a worker for the signature, if none was capped and no process started since. */
  function LastStart(events: seq<Event>, sig: string): Option<int> {
    if events == [] then None
    else
      var front, e := events[..|events| - 1], events[|events| - 1];
      NextStart(Run(front), e, sig, LastStart(front, sig))
  }

  /** All clocks run on, those of the hooks as well. */
  ghost predicate AllInOrder(events: seq<Event>) {
    forall i, j :: 0 <= i < j < |events| ==> events[i].now <= events[j].now
  }

  ghost predicate AllBefore(events: seq<Event>, now: int) {
    forall e :: e in events ==> e.now <= now
  }

  predicate Within(t: Option<int>, now: int) {
    t.Some? && now - t.value < 86_400_000_000
  }

  function Noted(mem: Memory, sig: string): Option<int> {
    if sig in mem.recent then Some(mem.recent[sig]) else None
  }

  /** From this time on the two say the same of the last day. */
  ghost predicate Alike(a: Option<int>, b: Option<int>, from: int) {
    forall t :: from <= t ==> (Within(a, t) <==> Within(b, t))
  }

  lemma NotedStep(w: World, e: Event, sig: string, last: Option<int>, now: int)
    requires Alike(Noted(w.mem, sig), last, e.now) && e.now <= now
    ensures Alike(Noted(Step(w, e).mem, sig), NextStart(w, e, sig, last), now)
  {
  }

  lemma OrderedFront(front: seq<Event>, e: Event)
    requires AllInOrder(front + [e])
    ensures AllInOrder(front) && AllBefore(front, e.now)
  {
    var events := front + [e];
    assert forall i :: 0 <= i < |front| ==> events[i] == front[i];
    assert events[|front|] == e;
  }

  /** What the hook remembers of a signature is the last start, as far as it matters for a day. */
  lemma {:induction false} HookRemembers(events: seq<Event>, sig: string, now: int)
    requires AllInOrder(events) && AllBefore(events, now)
    ensures Alike(Noted(Run(events).mem, sig), LastStart(events, sig), now)
  {
    if events != [] {
      var front, e := events[..|events| - 1], events[|events| - 1];
      assert events == front + [e] && e in events;
      OrderedFront(front, e);
      HookRemembers(front, sig, e.now);
      RunStep(front, e);
      NotedStep(Run(front), e, sig, LastStart(front, sig), now);
    }
  }

  /**
   A crash starts a worker if and only if reports are not blocked and no crash of its signature started one within a day
   that was not capped since. While the clocks of sections run on, being blocked means that five stamps are of the day.
   */
  lemma WorkerStartsExactly(events: seq<Event>, sig: string, now: int)
    requires AllInOrder(events) && AllBefore(events, now)
    ensures AdmitCrash(Run(events).mem, sig, now).1 <==>
      now >= Run(events).mem.blockedUntil && !Within(LastStart(events, sig), now)
    ensures TimesArePositive(events) && 0 <= now < Run(events).mem.blockedUntil ==>
      |Recent(Run(events).mem.fired, now)| >= 5
  {
    HookRemembers(events, sig, now);
    if TimesArePositive(events) {
      BlockHolds(events, now);
    }
  }
}
