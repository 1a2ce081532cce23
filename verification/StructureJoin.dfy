/**
 The boot wizard starts the structure check when it opens and needs its result once page A is left; the two meet
 in either order. The check is one worker, or two when there is nothing to migrate; the gate may stop listening
 at any point. The wizard's slots and its workers are interleaved step by step.
 */
module StructureJoin {
  import opened Wrappers

  /** What a worker hands back: the planning worker one of the first three, the steady-state worker an outcome. */
  datatype Answer = Failed | Plan(plan: int) | NothingToDo | Outcome(outcome: int)

  datatype Structure = Idle | Running | Done

  /** connected tells whether the wizard still listens to the worker; a queued answer is on its way to the wizard. */
  datatype Job =
    | NoJob
    | Working(planning: bool, connected: bool)
    | Queued(answer: Answer, connected: bool)

  /** consumed lists the results the wizard has acted on. */
  datatype State = State(
    structure: Structure, awaiting: bool, result: Option<Answer>, job: Job, released: bool, consumed: seq<Answer>)

  const START := State(Idle, false, None, NoJob, false, [])

  datatype Action =
    | Open
    | Proceed // page A is left
    | Emits(emitted: Answer)
    | Delivers
    | Drops
    | Release(running: bool) // is the thread of an answer on its way still running?

  predicate Enabled(s: State, a: Action) {
    match a
    case Open => true
    case Proceed => true
    case Emits(answer) => s.job.Working? && (s.job.planning <==> !answer.Outcome?)
    case Delivers => s.job.Queued?
    case Drops => s.job.Queued? && !s.job.connected
    case Release(_) => !s.released
  }

  function Begin(s: State): State {
    if s.structure != Idle then s else s.(structure := Running, job := Working(true, true))
  }

  function Consume(s: State): State {
    if s.result.None? then s.(awaiting := false)
    else s.(awaiting := false, consumed := s.consumed + [s.result.value])
  }

  function Finish(s: State, answer: Answer): State {
    var t := s.(structure := Done, result := Some(answer), job := NoJob);
    if t.awaiting then Consume(t) else t
  }

  /** Leaving the gate cuts the workers whose thread still runs. */
  function Cut(job: Job, running: bool): Job {
    match job
    case NoJob => NoJob
    case Working(planning, _) => Working(planning, false)
    case Queued(answer, connected) => Queued(answer, connected && !running)
  }

  function Next(s: State, a: Action): State
    requires Enabled(s, a)
  {
    match a
    case Open => Begin(s)
    case Proceed => if s.structure == Done then Consume(s) else Begin(s.(awaiting := true))
    case Emits(answer) => if s.job.connected then s.(job := Queued(answer, true)) else s.(job := NoJob)
    case Delivers =>
      if s.job.answer == NothingToDo then s.(job := Working(false, true)) else Finish(s, s.job.answer)
    case Drops => s.(job := NoJob)
    case Release(running) => s.(released := true, job := Cut(s.job, running))
  }

  ghost predicate IsRun(states: seq<State>, actions: seq<Action>) {
    && |states| == |actions| + 1 && states[0] == START
    && forall i :: 0 <= i < |actions| ==> Enabled(states[i], actions[i]) && states[i + 1] == Next(states[i], actions[i])
  }

  /** How often page A was left. */
  function Proceeds(actions: seq<Action>): nat {
    if actions == [] then 0
    else Proceeds(actions[..|actions| - 1]) + if actions[|actions| - 1].Proceed? then 1 else 0
  }

  /** The result once the check is over. */
  function ResultOf(s: State): Answer {
    if s.result.Some? then s.result.value else NothingToDo
  }

  ghost predicate Inv(s: State, proceeds: nat) {
    && (s.structure != Running ==> s.job.NoJob?)
    && (s.structure == Idle ==> proceeds == 0)
    && (s.structure == Done <==> s.result.Some?)
    && (s.structure != Done ==> s.consumed == [] && (s.awaiting <==> proceeds > 0))
    && (s.structure == Done ==> !s.awaiting && |s.consumed| <= proceeds && (proceeds > 0 ==> s.consumed != []))
    && (forall r :: r in s.consumed ==> s.result == Some(r))
    && (s.structure == Done ==> ResultOf(s) != NothingToDo)
    && (!s.released && s.structure == Running ==> !s.job.NoJob? && s.job.connected)
  }

  lemma NextKeeps(s: State, a: Action, proceeds: nat)
    requires Enabled(s, a) && Inv(s, proceeds)
    ensures Inv(Next(s, a), proceeds + if a.Proceed? then 1 else 0)
  {
  }

  lemma {:induction false} InvHolds(states: seq<State>, actions: seq<Action>, n: nat)
    requires IsRun(states, actions) && n < |states|
    ensures Inv(states[n], Proceeds(actions[..n]))
  {
    if n > 0 {
      InvHolds(states, actions, n - 1);
      NextKeeps(states[n - 1], actions[n - 1], Proceeds(actions[..n - 1]));
      assert actions[..n][..n - 1] == actions[..n - 1];
    }
  }

  /**
   The join: whichever of the two comes first, with page A left once the result is acted on at most once, and
   exactly once as soon as the check is over; before that, and if page A is never left, not at all.
   */
  lemma ConsumedOnce(states: seq<State>, actions: seq<Action>, n: nat)
    requires IsRun(states, actions) && n < |states| && Proceeds(actions[..n]) <= 1
    ensures var s := states[n];
      && (s.structure == Done ==> s.result.Some?)
      && s.consumed == if s.structure == Done && Proceeds(actions[..n]) == 1 then [ResultOf(s)] else []
  {
    InvHolds(states, actions, n);
    if states[n].consumed != [] {
      assert states[n].consumed[0] in states[n].consumed;
    }
  }

  /**
   If the gate never left, the wizard cannot hang: when no worker has a step to take and page A was left,
   the result has been acted on.
   */
  lemma NeverLeftHanging(states: seq<State>, actions: seq<Action>, n: nat)
    requires IsRun(states, actions) && n < |states| && Proceeds(actions[..n]) == 1 && !states[n].released
    requires forall a: Action :: a.Emits? || a.Delivers? ==> !Enabled(states[n], a)
    ensures states[n].structure == Done && states[n].consumed == [ResultOf(states[n])]
  {
    InvHolds(states, actions, n);
    var s := states[n];
    assert !Enabled(s, Emits(Failed)) && !Enabled(s, Emits(Outcome(0))) && !Enabled(s, Delivers);
    ConsumedOnce(states, actions, n);
  }

  ghost predicate Cutoff(s: State) {
    && s.released && s.structure == Running && s.consumed == []
    && (s.job.NoJob? || !s.job.connected) && !s.job.Queued?
  }

  ghost predicate IsRunFrom(s: State, states: seq<State>, actions: seq<Action>) {
    && |states| == |actions| + 1 && states[0] == s
    && forall i :: 0 <= i < |actions| ==> Enabled(states[i], actions[i]) && states[i + 1] == Next(states[i], actions[i])
  }

  lemma {:induction false} StaysCutOff(s: State, states: seq<State>, actions: seq<Action>, n: nat)
    requires Cutoff(s) && IsRunFrom(s, states, actions) && n < |states|
    ensures Cutoff(states[n])
  {
    if n > 0 {
      StaysCutOff(s, states, actions, n - 1);
      assert states[n] == Next(states[n - 1], actions[n - 1]);
    }
  }

  /**
   When the gate leaves during the check, the check never drives the wizard again, however the run goes on,
   if and only if no answer of it is on its way at that moment.
   */
  lemma SilentAfterRelease(s: State, proceeds: nat, running: bool)
    requires Inv(s, proceeds) && s.structure == Running && Enabled(s, Release(running))
    ensures var left := Next(s, Release(running));
      (forall states, actions :: IsRunFrom(left, states, actions) ==> Delivers !in actions) <==> !s.job.Queued?
  {
    var left := Next(s, Release(running));
    if s.job.Queued? {
      var states, actions := [left, Next(left, Delivers)], [Delivers];
      assert IsRunFrom(left, states, actions) && actions[0] in actions;
    } else {
      forall states, actions | IsRunFrom(left, states, actions)
        ensures Delivers !in actions
      {
        forall i | 0 <= i < |actions|
          ensures actions[i] != Delivers
        {
          StaysCutOff(left, states, actions, i);
        }
      }
    }
  }

  ghost predicate StillHeard(s: State) {
    s.released && (s.job.NoJob? || s.job.connected)
  }

  lemma {:induction false} StaysHeard(s: State, states: seq<State>, actions: seq<Action>, n: nat)
    requires StillHeard(s) && s.structure != Idle && IsRunFrom(s, states, actions) && n < |states|
    ensures StillHeard(states[n]) && states[n].structure != Idle
  {
    if n > 0 {
      StaysHeard(s, states, actions, n - 1);
      assert states[n] == Next(states[n - 1], actions[n - 1]);
    }
  }

  /** An answer on its way when the gate leaves, or one that follows it, can be lost only if its thread still runs. */
  lemma LostOnlyIfRunning(s: State, proceeds: nat, running: bool)
    requires Inv(s, proceeds) && s.job.Queued? && Enabled(s, Release(running))
    ensures var left := Next(s, Release(running));
      (forall states, actions :: IsRunFrom(left, states, actions) ==> Drops !in actions) <==> !running
  {
    var left := Next(s, Release(running));
    if running {
      var states, actions := [left, Next(left, Drops)], [Drops];
      assert IsRunFrom(left, states, actions) && actions[0] in actions;
    } else {
      forall states, actions | IsRunFrom(left, states, actions)
        ensures Drops !in actions
      {
        forall i | 0 <= i < |actions|
          ensures actions[i] != Drops
        {
          StaysHeard(left, states, actions, i);
        }
      }
    }
  }

  /**
   A late answer that is delivered starts the steady-state worker of a wizard nobody waits for, and that worker is
   listened to, even if the one before it was cut.
   */
  lemma LateAnswerStillDrives(running: bool) returns (states: seq<State>, actions: seq<Action>)
    ensures IsRun(states, actions) && |states| == 5 && states[3].released
    ensures states[3].job == Queued(NothingToDo, !running) && states[4].job == Working(false, true)
  {
    actions := [Open, Emits(NothingToDo), Release(running), Delivers];
    var s1 := Next(START, Open);
    var s2 := Next(s1, Emits(NothingToDo));
    var s3 := Next(s2, Release(running));
    states := [START, s1, s2, s3, Next(s3, Delivers)];
  }
}
