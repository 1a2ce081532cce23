/**
 Spawning a pane's process on a worker thread with a deadline: two threads share a small record under one lock,
 and whichever finishes first decides who owns the process. The two threads are interleaved step by step;
 the native call may return a process, raise, or never return, and the deadline may pass at any point.
 */
module SpawnHandoff {
  import opened Wrappers

  datatype WorkerAt =
    | Native                // inside the blocking call
    | Spawned(process: int) // has a process, not yet the lock
    | Raised(error: int)    // has an exception, not yet the lock
    | LockedProcess(process: int)
    | LockedError(error: int)
    | Orphan(process: int)  // saw that the caller gave up; has left the lock
    | WorkerDone

  datatype CallerAt =
    | Joining
    | Awake // the join returned: the worker ended or the deadline passed
    | LockedCaller
    | GotProcess(process: int)
    | GotError(error: int)
    | GotTimeout

  datatype Owner = Nobody | ByWorker | ByCaller

  /** proc, error and abandoned are the shared record; created and killed record what happened to processes. */
  datatype State = State(
    worker: WorkerAt, caller: CallerAt, lock: Owner,
    proc: Option<int>, error: Option<int>, abandoned: bool,
    created: Option<int>, killed: set<int>)

  const START := State(Native, Joining, Nobody, None, None, false, None, {})

  datatype Action =
    | NativeReturns(process: int) | NativeRaises(exception: int)
    | WorkerLocks | WorkerDecides | WorkerKills
    | JoinReturns | DeadlinePasses | CallerLocks | CallerDecides

  predicate Enabled(s: State, a: Action) {
    match a
    case NativeReturns(_) => s.worker.Native?
    case NativeRaises(_) => s.worker.Native?
    case WorkerLocks => (s.worker.Spawned? || s.worker.Raised?) && s.lock == Nobody
    case WorkerDecides => s.worker.LockedProcess? || s.worker.LockedError?
    case WorkerKills => s.worker.Orphan?
    case JoinReturns => s.caller.Joining? && s.worker.WorkerDone?
    case DeadlinePasses => s.caller.Joining?
    case CallerLocks => s.caller.Awake? && s.lock == Nobody
    case CallerDecides => s.caller.LockedCaller?
  }

  /** One step of one thread; the body of a locked section is one step, with the release of the lock. */
  function Next(s: State, a: Action): State
    requires Enabled(s, a)
  {
    match a
    case NativeReturns(p) => s.(worker := Spawned(p), created := Some(p))
    case NativeRaises(e) => s.(worker := Raised(e))
    case WorkerLocks =>
      s.(lock := ByWorker,
         worker := if s.worker.Spawned? then LockedProcess(s.worker.process) else LockedError(s.worker.error))
    case WorkerDecides =>
      if s.worker.LockedError? then
        s.(lock := Nobody, worker := WorkerDone, error := if s.abandoned then s.error else Some(s.worker.error))
      else if s.abandoned then s.(lock := Nobody, worker := Orphan(s.worker.process))
      else s.(lock := Nobody, worker := WorkerDone, proc := Some(s.worker.process))
    case WorkerKills => s.(worker := WorkerDone, killed := s.killed + {s.worker.process})
    case JoinReturns => s.(caller := Awake)
    case DeadlinePasses => s.(caller := Awake)
    case CallerLocks => s.(lock := ByCaller, caller := LockedCaller)
    case CallerDecides =>
      if s.proc.Some? then s.(lock := Nobody, caller := GotProcess(s.proc.value))
      else if s.error.Some? then s.(lock := Nobody, caller := GotError(s.error.value))
      else s.(lock := Nobody, caller := GotTimeout, abandoned := true)
  }

  ghost predicate IsRun(states: seq<State>, actions: seq<Action>) {
    && |states| == |actions| + 1 && states[0] == START
    && forall i :: 0 <= i < |actions| ==> Enabled(states[i], actions[i]) && states[i + 1] == Next(states[i], actions[i])
  }

  predicate CallerDone(s: State) {
    s.caller.GotProcess? || s.caller.GotError? || s.caller.GotTimeout?
  }

  /** At every point exactly one party answers for the process that was created. */
  ghost predicate Inv(s: State) {
    && (s.lock == ByWorker <==> s.worker.LockedProcess? || s.worker.LockedError?)
    && (s.lock == ByCaller <==> s.caller.LockedCaller?)
    && (s.abandoned <==> s.caller.GotTimeout?)
    && (s.proc.Some? ==> s.worker.WorkerDone? && s.created == s.proc && s.killed == {} && s.error.None? && !s.abandoned)
    && (s.error.Some? ==> s.worker.WorkerDone? && s.created.None? && !s.abandoned)
    && (s.caller.GotProcess? ==> s.proc == Some(s.caller.process))
    && (s.caller.GotError? ==> s.error == Some(s.caller.error))
    && match s.worker
       case Native => s.created.None? && s.killed == {}
       case Spawned(p) => s.created == Some(p) && s.killed == {}
       case LockedProcess(p) => s.created == Some(p) && s.killed == {}
       case Raised(_) => s.created.None? && s.killed == {}
       case LockedError(_) => s.created.None? && s.killed == {}
       case Orphan(p) => s.created == Some(p) && s.killed == {} && s.abandoned
       case WorkerDone =>
         if s.created.None? then s.killed == {} && (s.error.Some? || s.abandoned)
         else if s.proc.Some? then s.killed == {}
         else s.killed == {s.created.value} && s.abandoned
  }

  lemma {:induction false} InvHolds(states: seq<State>, actions: seq<Action>, n: nat)
    requires IsRun(states, actions) && n < |states|
    ensures Inv(states[n])
  {
    if n > 0 {
      InvHolds(states, actions, n - 1);
      assert states[n] == Next(states[n - 1], actions[n - 1]);
    }
  }

  /**
   The handoff: no process is both returned and killed, and once both threads have finished, the process
   that was created was either returned to the caller or killed.
   */
  lemma NoLeakNoDoubleOwner(states: seq<State>, actions: seq<Action>, n: nat)
    requires IsRun(states, actions) && n < |states|
    ensures var s := states[n];
      && (s.caller.GotProcess? ==> s.caller.process !in s.killed)
      && (s.created.Some? && s.worker.WorkerDone? && CallerDone(s) ==>
            (s.caller == GotProcess(s.created.value) <==> s.created.value !in s.killed))
      && s.killed <= (if s.created.Some? then {s.created.value} else {})
  {
    InvHolds(states, actions, n);
  }

  lemma OutcomeStays(s: State, a: Action)
    requires Inv(s) && Enabled(s, a) && CallerDone(s)
    ensures var t := Next(s, a);
      t.caller == s.caller && t.proc == s.proc && t.error == s.error
  {
  }

  /** What the caller got, it keeps: it sees one outcome, and the record never contradicts it later. */
  lemma {:induction false} OutcomeIsFinal(states: seq<State>, actions: seq<Action>, n: nat, m: nat)
    requires IsRun(states, actions) && n <= m < |states| && CallerDone(states[n])
    ensures states[m].caller == states[n].caller
    ensures states[m].proc == states[n].proc && states[m].error == states[n].error
    decreases m
  {
    if n < m {
      OutcomeIsFinal(states, actions, n, m - 1);
      InvHolds(states, actions, m - 1);
      OutcomeStays(states[m - 1], actions[m - 1]);
    }
  }

  /** An error reaches the caller only if the native call raised it and it was stored before the caller gave up. */
  lemma ErrorWasStored(states: seq<State>, actions: seq<Action>, n: nat)
    requires IsRun(states, actions) && n < |states| && states[n].caller.GotError?
    ensures exists i, j :: (0 <= i < j < n &&
      actions[i] == NativeRaises(states[n].caller.error) && actions[j] == WorkerDecides && !states[j].abandoned)
  {
    InvHolds(states, actions, n);
    var i, j := StoredAt(states, actions, n);
    InvHolds(states, actions, j);
  }

  /** Where the stored error came from. */
  lemma {:induction false} StoredAt(states: seq<State>, actions: seq<Action>, n: nat) returns (i: nat, j: nat)
    requires IsRun(states, actions) && n < |states| && states[n].error.Some?
    ensures i < j < n && actions[i] == NativeRaises(states[n].error.value)
    ensures actions[j] == WorkerDecides && !states[j].abandoned
  {
    var before := states[n - 1];
    assert states[n] == Next(before, actions[n - 1]);
    if before.error == states[n].error {
      i, j := StoredAt(states, actions, n - 1);
    } else {
      j := n - 1;
      i := RaisedAt(states, actions, j, states[n].error.value);
    }
  }

  lemma {:induction false} RaisedAt(states: seq<State>, actions: seq<Action>, n: nat, e: int) returns (i: nat)
    requires IsRun(states, actions) && n < |states|
    requires states[n].worker == Raised(e) || states[n].worker == LockedError(e)
    ensures i < n && actions[i] == NativeRaises(e)
  {
    assert states[n] == Next(states[n - 1], actions[n - 1]);
    if actions[n - 1] == NativeRaises(e) {
      i := n - 1;
    } else {
      i := RaisedAt(states, actions, n - 1, e);
    }
  }

  /** How many steps the two threads have left. */
  function Left(s: State): nat {
    (match s.worker
     case Native => 4 case Spawned(_) => 3 case Raised(_) => 3 case LockedProcess(_) => 2 case LockedError(_) => 2
     case Orphan(_) => 1 case WorkerDone => 0)
    + (match s.caller case Joining => 3 case Awake => 2 case LockedCaller => 1 case _ => 0)
  }

  /** Every run is short: there is no way to go round in circles. */
  lemma {:induction false} RunsAreBounded(states: seq<State>, actions: seq<Action>, n: nat)
    requires IsRun(states, actions) && n < |states|
    ensures n + Left(states[n]) <= 7
  {
    if n > 0 {
      RunsAreBounded(states, actions, n - 1);
      assert states[n] == Next(states[n - 1], actions[n - 1]);
    }
  }

  /**
   A wedged native call never wedges the caller: in a state where no step other than the return of the native
   call is possible, the caller has its outcome, and so has the worker unless it is still inside that call.
   */
  lemma CallerIsNeverStuck(states: seq<State>, actions: seq<Action>, n: nat)
    requires IsRun(states, actions) && n < |states|
    requires forall a :: Enabled(states[n], a) ==> a.NativeReturns? || a.NativeRaises?
    ensures CallerDone(states[n]) && (states[n].worker.Native? || states[n].worker.WorkerDone?)
  {
    InvHolds(states, actions, n);
    var s := states[n];
    assert !Enabled(s, DeadlinePasses) && !Enabled(s, CallerLocks) && !Enabled(s, CallerDecides);
    assert !Enabled(s, WorkerLocks) && !Enabled(s, WorkerDecides) && !Enabled(s, WorkerKills);
  }
}
