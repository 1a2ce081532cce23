/**
 The slots of the boot wizard that join the structure check with page A, as methods over its fields. proceeds
 counts how often page A was left; Valid says what has been acted on so far.
 */
module BootWizard {
  import opened Wrappers
  import opened J = StructureJoin

  class Wizard {
    var structure: Structure
    var awaiting: bool
    var result: Option<Answer>
    var job: Job
    var left: bool
    var consumed: seq<Answer>
    ghost var proceeds: nat

    function Contents(): State
      reads this
    {
      State(structure, awaiting, result, job, left, consumed)
    }

    ghost predicate Valid()
      reads this
    {
      J.Inv(Contents(), proceeds)
    }

    /** With page A left once, the result is acted on once it is there, and not before. */
    ghost predicate JoinedOnce()
      reads this
    {
      proceeds <= 1 ==> consumed == if structure == Done && proceeds == 1 then [ResultOf(Contents())] else []
    }

    constructor ()
      ensures Contents() == START && proceeds == 0
      ensures Valid() && JoinedOnce()
    {
      structure, awaiting, result, job, left, consumed := Idle, false, None, NoJob, false, [];
      proceeds := 0;
    }

    method BeginStructureCheck()
      modifies this`structure, this`job
      ensures Contents() == J.Begin(old(Contents()))
    {
      if structure != Idle {
        return;
      }
      structure := Running;
      job := Working(true, true);
    }

    method ConsumeStructureResult()
      modifies this`awaiting, this`consumed
      ensures Contents() == J.Consume(old(Contents()))
    {
      awaiting := false;
      if result.Some? {
        consumed := consumed + [result.value];
      }
    }

    method Open()
      requires Valid()
      modifies this
      ensures Contents() == J.Next(old(Contents()), J.Open)
      ensures Valid() && proceeds == old(proceeds) && JoinedOnce() && structure != Idle
    {
      BeginStructureCheck();
      Joined();
    }

    method ProceedToMigrationCheck()
      requires Valid()
      modifies this
      ensures Contents() == J.Next(old(Contents()), Proceed)
      ensures Valid() && proceeds == old(proceeds) + 1 && JoinedOnce()
      ensures structure == Done ==> |consumed| == |old(consumed)| + 1
      ensures structure != Done ==> awaiting && (!left && old(structure) == Idle ==> job.Working? && job.connected)
    {
      NextKeeps(Contents(), Proceed, proceeds);
      proceeds := proceeds + 1;
      if structure == Done {
        ConsumeStructureResult();
      } else {
        awaiting := true;
        BeginStructureCheck();
      }
      Joined();
    }

    method FinishStructure(answer: Answer)
      modifies this`job, this`structure, this`result, this`awaiting, this`consumed
      ensures Contents() == J.Finish(old(Contents()), answer)
    {
      job := NoJob;
      structure := Done;
      result := Some(answer);
      if awaiting {
        ConsumeStructureResult();
      }
    }

    /** The slot of the worker whose answer arrives: the planning worker's or the steady-state worker's. */
    method OnStructureReady()
      requires Valid() && job.Queued?
      modifies this
      ensures Contents() == J.Next(old(Contents()), Delivers)
      ensures Valid() && proceeds == old(proceeds) && JoinedOnce()
      ensures old(job).answer != NothingToDo ==> structure == Done && result == Some(old(job).answer)
      ensures old(job).answer == NothingToDo ==> consumed == old(consumed) && job.Working?
    {
      NextKeeps(Contents(), Delivers, proceeds);
      if job.answer == NothingToDo {
        job := Working(false, true);
      } else {
        FinishStructure(job.answer);
      }
      Joined();
    }

    lemma Joined()
      requires Valid()
      ensures JoinedOnce()
    {
      if consumed != [] {
        assert consumed[0] in consumed;
      }
    }
  }
}

/**
 The two global sets and the wizards' lists, updated in place as workers start, stop and are released. Valid is what
 keeps a running thread and the wizard it belongs to from being destroyed.
 */
module WizardPool {
  import opened W = WizardWorkers

  class Pool {
    var pinned: set<int>
    var lingering: set<int>
    var workers: map<int, seq<int>>
    var running: set<int>
    var ended: set<int>
    var left: set<int>
    var gone: set<int>
    var owner: map<int, int>
    var late: set<int>

    function Contents(): World
      reads this
    {
      World(pinned, lingering, workers, running, ended, left, gone, owner, late)
    }

    ghost predicate Valid()
      reads this
    {
      W.Inv(Contents())
    }

    constructor ()
      ensures Contents() == EMPTY_WORLD && Valid()
    {
      pinned, lingering, workers, running, ended := {}, {}, map[], {}, {};
      left, gone, owner, late := {}, {}, map[], {};
    }

    method AnyLive(list: seq<int>) returns (live: bool)
      ensures live <==> exists k :: k in list && k in running
    {
      for i := 0 to |list|
        invariant forall k :: k in list[..i] ==> k !in running
      {
        if list[i] in running {
          ghost var k := list[i];
          assert k in list && k in running;
          return true;
        }
      }
      return false;
    }

    method TrackWorker(wizard: int, worker: int)
      requires Valid() && Enabled(Contents(), Track(wizard, worker))
      modifies this
      ensures Contents() == W.TrackWorker(old(Contents()), wizard, worker)
      ensures Valid() && worker in pinned && worker in running && worker in Workers(Contents(), wizard)
      ensures forall k :: k in old(running) ==> k in pinned
    {
      TrackKeeps(Contents(), wizard, worker);
      workers := workers[wizard := (if wizard in workers then workers[wizard] else []) + [worker]];
      pinned := pinned + {worker};
      owner := owner[worker := wizard];
      if wizard in left && wizard !in lingering {
        late := late + {worker};
      }
      running := running + {worker};
    }

    /** The first occurrence of k, or the end of the list. */
    method Remove(list: seq<int>, k: int) returns (rest: seq<int>)
      ensures rest == Without(list, k)
    {
      var i := 0;
      while i < |list| && list[i] != k
        invariant i <= |list| && Without(list, k) == list[..i] + Without(list[i..], k)
      {
        assert list[i..][1..] == list[i + 1..];
        assert list[..i + 1] == list[..i] + [list[i]];
        i := i + 1;
      }
      assert i < |list| ==> list[i..][1..] == list[i + 1..];
      rest := if i < |list| then list[..i] + list[i + 1..] else list;
    }

    method ReleaseWorker(wizard: int, worker: int)
      requires Valid() && OwnedBy(Contents(), worker, wizard) && worker in ended && wizard !in gone
      modifies this
      ensures Contents() == W.ReleaseWorker(old(Contents()), wizard, worker)
      ensures Valid() && worker !in pinned && worker !in Workers(Contents(), wizard)
      ensures wizard in lingering ==> exists k :: k in Workers(Contents(), wizard) && k in running
    {
      NextKeeps(Contents(), Finished(worker));
      ReleasedWorkers(Contents(), wizard, worker);
      pinned, ended := pinned - {worker}, ended - {worker};
      var rest := Remove(if wizard in workers then workers[wizard] else [], worker);
      workers := workers[wizard := rest];
      var live := AnyLive(rest);
      if !live {
        lingering := lingering - {wizard};
      }
    }

    /** The slot of a thread's end; a wizard that is gone is not asked. */
    method OnFinished(worker: int)
      requires Valid() && Enabled(Contents(), Finished(worker))
      modifies this
      ensures Contents() == W.Next(old(Contents()), Finished(worker))
      ensures Valid() && worker !in pinned && running == old(running)
    {
      NextKeeps(Contents(), Finished(worker));
      if owner[worker] !in gone {
        ReleaseWorker(owner[worker], worker);
      } else {
        pinned, ended := pinned - {worker}, ended - {worker};
      }
    }

    method ReleaseWorkers(wizard: int)
      requires Valid() && Enabled(Contents(), Release(wizard))
      modifies this
      ensures Contents() == W.ReleaseWorkers(old(Contents()), wizard)
      ensures Valid() && (wizard in lingering <==> wizard in old(lingering) || AnyRunning(Contents(), wizard))
    {
      NextKeeps(Contents(), Release(wizard));
      left := left + {wizard};
      var live := AnyLive(if wizard in workers then workers[wizard] else []);
      if live {
        lingering := lingering + {wizard};
      }
    }
  }
}
