/**
 The lifetime of the boot wizard's worker threads: a worker is pinned by a global set until its thread has
 reported that it finished, and a wizard the gate has left stays alive while a worker of it runs.
 */
module WizardWorkers {
  /**
   pinned and lingering are the two global sets, workers the list of each wizard. A running worker's thread is
   executing; an ended one has stopped but its finished slot was not called yet. left lists the wizards the gate has
   released, gone the wizards that were collected, owner the wizard that tracked a worker, late the workers
   tracked by a wizard that had been released and did not linger.
   */
  datatype World = World(
    pinned: set<int>, lingering: set<int>, workers: map<int, seq<int>>,
    running: set<int>, ended: set<int>, left: set<int>, gone: set<int>,
    owner: map<int, int>, late: set<int>)

  const EMPTY_WORLD := World({}, {}, map[], {}, {}, {}, {}, map[], {})

  datatype Action =
    | Track(wizard: int, worker: int)
    | Ends(worker: int)
    | Finished(worker: int)
    | Release(wizard: int)
    | Collect(wizard: int)

  function Workers(w: World, wizard: int): seq<int> {
    if wizard in w.workers then w.workers[wizard] else []
  }

  predicate AnyRunning(w: World, wizard: int) {
    exists k :: k in Workers(w, wizard) && k in w.running
  }

  /** list.remove: the first occurrence goes. */
  function Without(s: seq<int>, k: int): seq<int> {
    if s == [] then [] else if s[0] == k then s[1..] else [s[0]] + Without(s[1..], k)
  }

  predicate Enabled(w: World, a: Action) {
    match a
    case Track(wizard, worker) => worker !in w.owner && wizard !in w.gone
    case Ends(worker) => worker in w.running
    case Finished(worker) => worker in w.ended && worker in w.owner
    case Release(wizard) => wizard !in w.left && wizard !in w.gone
    case Collect(wizard) => wizard in w.left && wizard !in w.lingering
  }

  function TrackWorker(w: World, wizard: int, worker: int): World {
    w.(workers := w.workers[wizard := Workers(w, wizard) + [worker]], pinned := w.pinned + {worker},
       running := w.running + {worker}, owner := w.owner[worker := wizard],
       late := if wizard in w.left && wizard !in w.lingering then w.late + {worker} else w.late)
  }

  function ReleaseWorker(w: World, wizard: int, worker: int): World {
    var x := w.(pinned := w.pinned - {worker}, ended := w.ended - {worker},
                workers := w.workers[wizard := Without(Workers(w, wizard), worker)]);
    if AnyRunning(x, wizard) then x else x.(lingering := x.lingering - {wizard})
  }

  function ReleaseWorkers(w: World, wizard: int): World {
    w.(left := w.left + {wizard}, lingering := if AnyRunning(w, wizard) then w.lingering + {wizard} else w.lingering)
  }

  function Next(w: World, a: Action): World
    requires Enabled(w, a)
  {
    match a
    case Track(wizard, worker) => TrackWorker(w, wizard, worker)
    case Ends(worker) => w.(running := w.running - {worker}, ended := w.ended + {worker})
    case Finished(worker) =>
      if w.owner[worker] in w.gone then w.(pinned := w.pinned - {worker}, ended := w.ended - {worker})
      else ReleaseWorker(w, w.owner[worker], worker)
    case Release(wizard) => ReleaseWorkers(w, wizard)
    case Collect(wizard) => w.(gone := w.gone + {wizard})
  }

  ghost predicate IsRun(worlds: seq<World>, actions: seq<Action>) {
    && |worlds| == |actions| + 1 && worlds[0] == EMPTY_WORLD
    && forall i :: 0 <= i < |actions| ==> Enabled(worlds[i], actions[i]) && worlds[i + 1] == Next(worlds[i], actions[i])
  }

  ghost predicate NoDuplicates(s: seq<int>) {
    forall i, j :: 0 <= i < j < |s| ==> s[i] != s[j]
  }

  /** The global set holds the threads that run or whose end is still to be told; every wizard knows its own. */
  ghost predicate Pinned(w: World) {
    && w.running !! w.ended
    && w.pinned == w.running + w.ended
    && (forall k :: k in w.pinned ==> k in w.owner)
  }

  ghost predicate Distinct(w: World) {
    forall z :: NoDuplicates(Workers(w, z))
  }

  predicate OwnedBy(w: World, worker: int, wizard: int) {
    worker in w.owner && w.owner[worker] == wizard
  }

  ghost predicate Listed(w: World) {
    && (forall z, k :: k in Workers(w, z) ==> OwnedBy(w, k, z))
    && (forall z, k :: OwnedBy(w, k, z) && z !in w.gone ==> (k in w.pinned <==> k in Workers(w, z)))
  }

  /**
   A released wizard lingers for the workers it had and those it tracked while it lingered, for no other running ones,
   and only while the end of one is still to be told.
   */
  ghost predicate Lingers(w: World) {
    && w.gone <= w.left
    && w.lingering !! w.gone
    && (forall z, k :: OwnedBy(w, k, z) && k in w.running && z in w.left ==> (z in w.lingering <==> k !in w.late))
    && (forall z, k :: OwnedBy(w, k, z) && k in w.late ==> z in w.left && z !in w.lingering)
    && (forall k :: k in w.late ==> k in w.owner)
    && (forall z :: z in w.lingering ==> Workers(w, z) != [])
  }

  lemma {:induction false} WithoutExactly(s: seq<int>, k: int)
    requires NoDuplicates(s)
    ensures NoDuplicates(Without(s, k))
    ensures forall x :: x in Without(s, k) <==> x in s && x != k
  {
    if s != [] {
      WithoutExactly(s[1..], k);
      assert s == [s[0]] + s[1..];
      assert s[0] !in s[1..];
    }
  }

  ghost predicate Inv(w: World) {
    Pinned(w) && Distinct(w) && Listed(w) && Lingers(w)
  }

  lemma Tracked(w: World, wizard: int, worker: int)
    requires worker !in w.owner
    ensures var x := TrackWorker(w, wizard, worker);
      && (forall z :: z != wizard ==> Workers(x, z) == Workers(w, z))
      && Workers(x, wizard) == Workers(w, wizard) + [worker]
      && (forall z, k :: OwnedBy(x, k, z) <==> OwnedBy(w, k, z) || (k == worker && z == wizard))
  {
  }

  lemma TrackLists(w: World, wizard: int, worker: int)
    requires Distinct(w) && Listed(w) && worker !in w.owner
    ensures Distinct(TrackWorker(w, wizard, worker)) && Listed(TrackWorker(w, wizard, worker))
  {
    Tracked(w, wizard, worker);
    assert worker !in Workers(w, wizard);
  }

  lemma TrackKeeps(w: World, wizard: int, worker: int)
    requires Inv(w) && Enabled(w, Track(wizard, worker))
    ensures Inv(TrackWorker(w, wizard, worker))
  {
    Tracked(w, wizard, worker);
    TrackLists(w, wizard, worker);
  }

  lemma ReleasedWorkers(w: World, wizard: int, worker: int)
    requires Distinct(w)
    ensures var x := ReleaseWorker(w, wizard, worker);
      && Distinct(x)
      && (forall z :: z != wizard ==> Workers(x, z) == Workers(w, z))
      && (forall k :: k in Workers(x, wizard) <==> k in Workers(w, wizard) && k != worker)
  {
    var x := ReleaseWorker(w, wizard, worker);
    WithoutExactly(Workers(w, wizard), worker);
    assert Workers(x, wizard) == Without(Workers(w, wizard), worker);
    assert forall z :: z != wizard ==> Workers(x, z) == Workers(w, z);
  }

  lemma ReleasedPinned(w: World, wizard: int, worker: int)
    requires Pinned(w) && Enabled(w, Finished(worker))
    ensures Pinned(ReleaseWorker(w, wizard, worker))
  {
  }

  lemma ReleasedLists(w: World, wizard: int, worker: int)
    requires Distinct(w) && Listed(w) && OwnedBy(w, worker, wizard) && wizard !in w.gone
    ensures Listed(ReleaseWorker(w, wizard, worker))
  {
    var x := ReleaseWorker(w, wizard, worker);
    ReleasedWorkers(w, wizard, worker);
    assert forall z, k :: OwnedBy(x, k, z) <==> OwnedBy(w, k, z);
  }

  lemma ReleasedLingers(w: World, wizard: int, worker: int)
    requires Inv(w) && OwnedBy(w, worker, wizard) && worker in w.ended && wizard !in w.gone
    ensures Lingers(ReleaseWorker(w, wizard, worker))
  {
    var x := ReleaseWorker(w, wizard, worker);
    ReleasedWorkers(w, wizard, worker);
    assert AnyRunning(x, wizard) ==> Workers(x, wizard) != [];
  }

  /** The other steps leave the lists alone. */
  lemma OthersKeep(w: World, a: Action)
    requires Enabled(w, a) && Inv(w) && !a.Track?
    requires a.Finished? ==> w.owner[a.worker] in w.gone
    ensures Inv(Next(w, a))
  {
    assert forall z :: Workers(Next(w, a), z) == Workers(w, z);
  }

  lemma NextKeeps(w: World, a: Action)
    requires Enabled(w, a) && Inv(w)
    ensures Inv(Next(w, a))
  {
    if a.Track? {
      TrackKeeps(w, a.wizard, a.worker);
    } else if a.Finished? && w.owner[a.worker] !in w.gone {
      ReleasedWorkers(w, w.owner[a.worker], a.worker);
      ReleasedPinned(w, w.owner[a.worker], a.worker);
      ReleasedLists(w, w.owner[a.worker], a.worker);
      ReleasedLingers(w, w.owner[a.worker], a.worker);
    } else {
      OthersKeep(w, a);
    }
  }

  lemma {:induction false} InvHolds(worlds: seq<World>, actions: seq<Action>, n: nat)
    requires IsRun(worlds, actions) && n < |worlds|
    ensures Inv(worlds[n])
  {
    if n > 0 {
      InvHolds(worlds, actions, n - 1);
      NextKeeps(worlds[n - 1], actions[n - 1]);
    }
  }

  /**
   No thread is destroyed while it runs: in every run a running worker is pinned, also after its wizard was left
   or collected. A wizard left with one running lingers, and is not collected before that one has stopped, if and
   only if the worker was not tracked late.
   */
  lemma RunningIsPinned(worlds: seq<World>, actions: seq<Action>, n: nat, worker: int)
    requires IsRun(worlds, actions) && n < |worlds| && worker in worlds[n].running
    ensures worker in worlds[n].pinned && worker in worlds[n].owner
    ensures worker !in worlds[n].late ==> worlds[n].owner[worker] !in worlds[n].gone
    ensures worlds[n].owner[worker] in worlds[n].left ==>
      (worlds[n].owner[worker] in worlds[n].lingering <==> worker !in worlds[n].late)
  {
    InvHolds(worlds, actions, n);
  }

  ghost predicate IsRunFrom(w: World, worlds: seq<World>, actions: seq<Action>) {
    && |worlds| == |actions| + 1 && worlds[0] == w
    && forall i :: 0 <= i < |actions| ==> Enabled(worlds[i], actions[i]) && worlds[i + 1] == Next(worlds[i], actions[i])
  }

  /** Who tracked a worker, and whether late, never changes. */
  lemma {:induction false} TrackedStays(w: World, worlds: seq<World>, actions: seq<Action>, n: nat, wizard: int,
    worker: int)
    requires Inv(w) && OwnedBy(w, worker, wizard) && IsRunFrom(w, worlds, actions) && n < |worlds|
    ensures Inv(worlds[n]) && OwnedBy(worlds[n], worker, wizard) && (worker in worlds[n].late <==> worker in w.late)
  {
    if n > 0 {
      TrackedStays(w, worlds, actions, n - 1, wizard, worker);
      NextKeeps(worlds[n - 1], actions[n - 1]);
    }
  }

  /** While the worker runs, its wizard is not collected, however the run goes on. */
  ghost predicate KeptAlive(w: World, wizard: int, worker: int) {
    forall worlds: seq<World>, actions: seq<Action>, n: nat ::
      IsRunFrom(w, worlds, actions) && n < |worlds| && worker in worlds[n].running ==> wizard !in worlds[n].gone
  }

  /** A wizard is kept alive for a worker if and only if, on tracking it, the gate had not left or it lingers. */
  lemma KeptAliveExactly(w: World, wizard: int, worker: int)
    requires Inv(w) && Enabled(w, Track(wizard, worker))
    ensures KeptAlive(TrackWorker(w, wizard, worker), wizard, worker) <==>
      wizard !in w.left || wizard in w.lingering
  {
    var x := TrackWorker(w, wizard, worker);
    TrackKeeps(w, wizard, worker);
    if wizard !in w.left || wizard in w.lingering {
      assert worker !in x.late;
      forall worlds: seq<World>, actions: seq<Action>, n: nat |
        IsRunFrom(x, worlds, actions) && n < |worlds| && worker in worlds[n].running
        ensures wizard !in worlds[n].gone
      {
        TrackedStays(x, worlds, actions, n, wizard, worker);
      }
    } else {
      var worlds, actions := [x, Next(x, Collect(wizard))], [Collect(wizard)];
      assert IsRunFrom(x, worlds, actions) && worker in worlds[1].running && wizard in worlds[1].gone;
    }
  }

  /** A lingering wizard waits for a worker whose end is still to be told. */
  lemma LingerersWait(w: World)
    requires Inv(w)
    ensures forall z :: z in w.lingering ==> exists k :: k in Workers(w, z) && k in w.pinned
  {
    forall z | z in w.lingering
      ensures exists k :: k in Workers(w, z) && k in w.pinned
    {
      var k := Workers(w, z)[0];
      assert k in Workers(w, z) && k in w.pinned;
    }
  }

  /** Nothing is kept for ever: once every thread has stopped and said so, both global sets are empty. */
  lemma NothingIsLeaked(worlds: seq<World>, actions: seq<Action>, n: nat)
    requires IsRun(worlds, actions) && n < |worlds|
    requires worlds[n].running == {} && worlds[n].ended == {}
    ensures worlds[n].pinned == {} && worlds[n].lingering == {}
  {
    InvHolds(worlds, actions, n);
    var w := worlds[n];
    assert w.pinned == {};
    LingerersWait(w);
    assert forall z :: z !in w.lingering;
  }

  /**
   A worker tracked after the gate left is pinned, but its wizard can be collected under it: here the wizard's first
   worker had stopped before the gate left, so the wizard did not linger, and its late answer starts another.
   */
  lemma LateWorkerLosesWizard() returns (worlds: seq<World>, actions: seq<Action>)
    ensures IsRun(worlds, actions)
    ensures actions == [Track(0, 1), Ends(1), Release(0), Track(0, 2), Finished(1), Collect(0)]
    ensures var w := worlds[6];
      w.running == {2} && w.pinned == {2} && w.owner == map[1 := 0, 2 := 0] && w.gone == {0}
  {
    actions := [Track(0, 1), Ends(1), Release(0), Track(0, 2), Finished(1), Collect(0)];
    var w1 := Next(EMPTY_WORLD, Track(0, 1));
    var w2 := Next(w1, Ends(1));
    var w3 := Next(w2, Release(0));
    assert Workers(w2, 0) == [1] && !AnyRunning(w2, 0);
    var w4 := Next(w3, Track(0, 2));
    var w5 := Next(w4, Finished(1));
    worlds := [EMPTY_WORLD, w1, w2, w3, w4, w5, Next(w5, Collect(0))];
  }
}
