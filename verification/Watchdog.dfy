/**
 The watchdog of the Qt main thread: a tracker that turns polls of the heartbeat's age into one record for each
 stall, and the loop around it that decides when to dump a stack and when to push back the dead-man's switch.
 Times are seconds as real numbers.
 */
module Watchdog {
  import opened Wrappers

  /** One poll: the age of the heartbeat, whether a pane is being spawned, how far the poll overslept, and
      whether the frames of the main thread could be read. */
  datatype Sample = Sample(now: real, age: real, spawning: bool, gap: real, frames: bool)

  datatype Record = Record(peak: real, spawning: bool, gap: real, wholeProcess: bool, stack: bool)

  /** stackAge is the age at the last snapshot of the episode. */
  datatype Tracker = Tracker(threshold: real, active: bool, peak: real, sawSpawn: bool, maxGap: real,
    stackAge: Option<real>)

  const GAP_RATIO := 0.8
  const GAP_ABSOLUTE := 2.0

  function NewTracker(threshold: real): Tracker {
    Tracker(threshold, false, 0.0, false, 0.0, None)
  }

  predicate PausedProcess(gap: real, peak: real) {
    gap > 0.0 && (gap >= GAP_RATIO * peak || gap >= GAP_ABSOLUTE)
  }

  function Update(t: Tracker, s: Sample): (Tracker, Option<Record>) {
    if s.age > t.threshold then
      (t.(active := true, peak := MaxReal(t.peak, s.age), maxGap := MaxReal(t.maxGap, s.gap),
          sawSpawn := t.sawSpawn || s.spawning), None)
    else if t.active then
      (NewTracker(t.threshold),
       Some(Record(t.peak, t.sawSpawn, t.maxGap, PausedProcess(t.maxGap, t.peak), t.stackAge.Some?)))
    else (t, None)
  }

  predicate ShouldSnapshot(t: Tracker, age: real) {
    age > t.threshold && (t.stackAge.None? || age >= t.stackAge.value * 2.0)
  }

  /** The loop asks for a snapshot before it updates the tracker, and records it only if frames could be read. */
  function Snapshot(t: Tracker, s: Sample): Tracker {
    if ShouldSnapshot(t, s.age) && s.frames then t.(stackAge := Some(s.age)) else t
  }

  function Feed(t: Tracker, s: Sample): (Tracker, Option<Record>) {
    Update(Snapshot(t, s), s)
  }

  const WEDGE_TIMEOUT := 30.0
  const REARM_INTERVAL := 60.0
  const WEDGE_MAX_GAP := 5.0

  /** The variables of the loop; softLimit is the configured age of a soft stall. */
  datatype Loop = Loop(tracker: Tracker, softLimit: real, softDumped: bool, hardDumped: bool, wedgeLogged: bool,
    lastRearm: real)

  /** What the loop did in one turn. */
  datatype Output = Output(rearmed: bool, softDump: bool, record: Option<Record>, hardDump: bool, wedge: bool)

  function NewLoop(threshold: real, softLimit: real, now: real): Loop {
    Loop(NewTracker(threshold), softLimit, false, false, false, now)
  }

  predicate IsWedged(s: Sample) {
    s.age > WEDGE_TIMEOUT
  }

  predicate Rearms(l: Loop, s: Sample) {
    s.age < l.softLimit && s.now - l.lastRearm >= REARM_INTERVAL
  }

  function Turn(l: Loop, s: Sample): (Loop, Output) {
    var rearmed := Rearms(l, s);
    var l' := if rearmed then l.(lastRearm := s.now) else l;
    if IsWedged(s) then
      var wedge := !l.wedgeLogged && s.gap < WEDGE_MAX_GAP;
      (l'.(hardDumped := true, wedgeLogged := l.wedgeLogged || wedge),
       Output(rearmed, false, None, !l.hardDumped, wedge))
    else
      var softDump := s.age > l.softLimit && !l.softDumped;
      var (tracker, record) := Feed(l.tracker, s);
      (l'.(tracker := tracker, softDumped := s.age > l.softLimit, hardDumped := false, wedgeLogged := false),
       Output(rearmed, softDump, record, false, false))
  }

  /** The loop after a sequence of polls. */
  function After(l: Loop, samples: seq<Sample>): Loop {
    if samples == [] then l else Turn(After(l, samples[..|samples| - 1]), samples[|samples| - 1]).0
  }

  /** What the loop does at poll i. */
  function At(l: Loop, samples: seq<Sample>, i: nat): Output
    requires i < |samples|
  {
    Turn(After(l, samples[..i]), samples[i]).1
  }
}
