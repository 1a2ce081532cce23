/**
 The boot-time migration stage and its retry guards: what one boot reports, rolls back and remembers in the
 state file. The migration engine is the environment: what it reports is part of the boot.
 */
module BootGuard {
  import opened Wrappers

  datatype Report = Report(step: string, ok: bool, cleanupPending: bool, summary: string)

  /** The state file; a key that is missing is an empty table or None. */
  datatype Disk = Disk(
    rolledBackSteps: map<string, string>, staleSteps: map<string, string>,
    rolledBackFor: Option<string>, appliedVersion: Option<string>)

  const EMPTY_DISK := Disk(map[], map[], None, None)

  /** Promoted stands for the layouts "v2" and "mixed". */
  datatype Layout = V1 | Promoted

  /**
   One boot: the running version, what the machine looks like, what the engine answers (the reports of the pending
   steps on a promoted layout, whether the whole ladder went through on a v1 layout), and which saves succeed.
   */
  datatype Boot = Boot(
    version: string, enabled: bool, layout: Layout, copyWork: bool, hasRoom: bool,
    appliedBefore: set<string>, reports: seq<Report>, ladderOk: bool,
    staleSaved: bool, guardSaved: bool)

  /** The pending stage runs: the disk gate counts only when there is something to copy. */
  predicate RunsPending(b: Boot) {
    b.enabled && b.layout == Promoted && (b.copyWork ==> b.hasRoom)
  }

  /** The whole ladder runs, unless this version was rolled back before. */
  predicate RunsLadder(d: Disk, b: Boot) {
    b.enabled && b.layout == V1 && d.rolledBackFor != Some(b.version) && b.hasRoom
  }

  predicate Stale(b: Boot, r: Report) {
    !r.ok && r.step in b.appliedBefore
  }

  predicate Hard(b: Boot, r: Report) {
    !r.ok && r.step !in b.appliedBefore && !r.cleanupPending
  }

  /** The steps this boot rolls back, in the order of the reports. */
  function RolledBack(b: Boot, reports: seq<Report>): seq<string> {
    if reports == [] then []
    else
      var front, r := reports[..|reports| - 1], reports[|reports| - 1];
      RolledBack(b, front) + if Hard(b, r) then [r.step] else []
  }

  predicate RollsBack(b: Boot, step: string) {
    RunsPending(b) && step in RolledBack(b, b.reports)
  }

  predicate RollsBackLadder(d: Disk, b: Boot) {
    RunsLadder(d, b) && !b.ladderOk
  }

  function Clip(summary: string): string {
    if |summary| > 200 then summary[..200] else summary
  }

  function Noted(stale: map<string, string>, b: Boot, reports: seq<Report>): map<string, string> {
    if reports == [] then stale
    else
      var r := reports[|reports| - 1];
      var noted := Noted(stale, b, reports[..|reports| - 1]);
      if Stale(b, r) then noted[r.step := Clip(r.summary)] else noted
  }

  function Guarded(guard: map<string, string>, steps: seq<string>, version: string): map<string, string> {
    map s | s in guard.Keys + (set x | x in steps) :: if s in steps then version else guard[s]
  }

  /** The steps the engine is told to skip. */
  function Skipped(d: Disk, b: Boot): set<string> {
    set s | s in d.rolledBackSteps && d.rolledBackSteps[s] == b.version
  }

  /** The state file after a boot. A run of the whole ladder replaces the file; a pending pass updates it. */
  function Next(d: Disk, b: Boot): Disk {
    if RunsPending(b) then
      d.(staleSteps := if b.staleSaved then Noted(d.staleSteps, b, b.reports) else d.staleSteps,
         rolledBackSteps :=
           if b.guardSaved then Guarded(d.rolledBackSteps, RolledBack(b, b.reports), b.version) else d.rolledBackSteps)
    else if RunsLadder(d, b) && b.guardSaved then
      if b.ladderOk then EMPTY_DISK.(appliedVersion := Some(b.version))
      else EMPTY_DISK.(rolledBackFor := Some(b.version))
    else d
  }
}

/** The stage as the source runs it, on one state file. */
module BootGuardStage {
  import opened Wrappers
  import opened G = BootGuard

  datatype Action = Skipped | PendingApplied | CleanupPending | PendingRolledBack | RolledBack | Applied

  class StateFile {
    var rolledBackSteps: map<string, string>
    var staleSteps: map<string, string>
    var rolledBackFor: Option<string>
    var appliedVersion: Option<string>

    function Contents(): Disk
      reads this
    {
      Disk(rolledBackSteps, staleSteps, rolledBackFor, appliedVersion)
    }

    /** The loop that rolls back the hard failures one by one; undone lists the steps given to the engine. */
    method RollBackHard(b: Boot) returns (undone: seq<string>)
      ensures undone == G.RolledBack(b, b.reports)
    {
      undone := [];
      for i := 0 to |b.reports|
        invariant undone == G.RolledBack(b, b.reports[..i])
      {
        assert b.reports[..i + 1][..i] == b.reports[..i];
        if Hard(b, b.reports[i]) {
          undone := undone + [b.reports[i].step];
        }
      }
      assert b.reports[..|b.reports|] == b.reports;
    }

    method NoteStale(b: Boot)
      modifies this`staleSteps
      ensures staleSteps == if b.staleSaved then Noted(old(staleSteps), b, b.reports) else old(staleSteps)
    {
      var noted := staleSteps;
      for i := 0 to |b.reports|
        invariant staleSteps == old(staleSteps) && noted == Noted(staleSteps, b, b.reports[..i])
      {
        assert b.reports[..i + 1][..i] == b.reports[..i];
        if Stale(b, b.reports[i]) {
          noted := noted[b.reports[i].step := Clip(b.reports[i].summary)];
        }
      }
      assert b.reports[..|b.reports|] == b.reports;
      if b.staleSaved {
        staleSteps := noted;
      }
    }

    method RunApplyPending(b: Boot) returns (action: Action, undone: seq<string>)
      requires b.enabled && b.layout == Promoted
      modifies this
      ensures Contents() == Next(old(Contents()), b)
      ensures undone == if RunsPending(b) then G.RolledBack(b, b.reports) else []
      ensures action == Action.Skipped <==> !RunsPending(b)
      ensures action == PendingRolledBack <==> undone != []
      ensures action == CleanupPending <==>
        RunsPending(b) && undone == [] && exists r :: r in b.reports && !r.ok && r.step !in b.appliedBefore
      ensures action in {Action.Skipped, PendingRolledBack, CleanupPending, PendingApplied}
    {
      undone := [];
      if b.copyWork && !b.hasRoom {
        return Action.Skipped, [];
      }
      NoteStale(b);
      undone := RollBackHard(b);
      if b.guardSaved {
        rolledBackSteps := Guarded(rolledBackSteps, undone, b.version);
      }
      if undone != [] {
        action := PendingRolledBack;
      } else if exists r :: r in b.reports && !r.ok && r.step !in b.appliedBefore {
        ghost var r :| r in b.reports && !r.ok && r.step !in b.appliedBefore;
        NoHard(b, b.reports, r);
        action := CleanupPending;
      } else {
        action := PendingApplied;
      }
    }

    static lemma {:induction false} NoHard(b: Boot, reports: seq<Report>, r: Report)
      requires G.RolledBack(b, reports) == [] && r in reports
      ensures !Hard(b, r)
    {
      var front := reports[..|reports| - 1];
      if r in front {
        NoHard(b, front, r);
      } else {
        assert r == reports[|reports| - 1];
      }
    }

    method RunBootStage(b: Boot) returns (action: Action, undone: seq<string>, ladderUndone: bool)
      modifies this
      ensures Contents() == Next(old(Contents()), b)
      ensures undone == if RunsPending(b) then G.RolledBack(b, b.reports) else []
      ensures ladderUndone == RollsBackLadder(old(Contents()), b)
      ensures RunsPending(b) && b.guardSaved ==>
        forall s :: s in G.Skipped(Contents(), b) <==> s in old(G.Skipped(Contents(), b)) || s in undone
      ensures ladderUndone && b.guardSaved ==> !RunsLadder(Contents(), b)
      ensures action == Action.Skipped <==>
        || !b.enabled || (b.layout == Promoted && b.copyWork && !b.hasRoom)
        || (b.layout == V1 && (old(rolledBackFor) == Some(b.version) || !b.hasRoom))
      ensures action == Action.RolledBack <==> ladderUndone
      ensures action == PendingRolledBack <==> undone != []
      ensures action == Applied <==> RunsLadder(old(Contents()), b) && b.ladderOk
      ensures action == CleanupPending <==>
        RunsPending(b) && undone == [] && exists r :: r in b.reports && !r.ok && r.step !in b.appliedBefore
    {
      undone, ladderUndone := [], false;
      if !b.enabled {
        return Action.Skipped, undone, false;
      }
      if b.layout == Promoted {
        action, undone := RunApplyPending(b);
        return;
      }
      if rolledBackFor == Some(b.version) || !b.hasRoom {
        return Action.Skipped, undone, false;
      }
      ladderUndone := !b.ladderOk;
      action := if ladderUndone then Action.RolledBack else Applied;
      if b.guardSaved {
        rolledBackSteps, staleSteps := map[], map[];
        rolledBackFor := if ladderUndone then Some(b.version) else None;
        appliedVersion := if ladderUndone then None else Some(b.version);
      }
    }
  }
}
