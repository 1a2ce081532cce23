/** What holds over every interleaving of chunks, ticks, visibility flips, attachments and exits. */
module RenderRuns {
  import opened Wrappers
  import opened Render

  /** All bytes that arrived. */
  function Received(events: seq<Event>): Bytes {
    if events == [] then []
    else
      var e := events[|events| - 1];
      Received(events[..|events| - 1]) + if e.Chunk? then e.data else []
  }

  lemma StepKeeps(v: View, e: Event)
    requires Ready(v)
    ensures Ready(Step(v, e))
    ensures Output(Step(v, e)) == Output(v) + if e.Chunk? then e.data else []
  {
    match e
    case Chunk(data) => CoalesceKeeps(v, data);
    case Tick => FlushKeeps(v.(armed := false));
    case Keepalive(active) => KeepaliveKeeps(v, active);
    case Settings(hiddenMs) =>
    case Attach(session) => AttachKeeps(v, session);
    case Detach => DetachKeeps(v);
    case Exit(generation, note) => DetachKeeps(v.(note := note));
  }

  /**
   Conservation: in every run, what was handed to the terminal followed by what is buffered is what was received,
   in order; the buffer stays below the cap, and what it holds is due when the timer fires.
   */
  lemma {:induction false} NothingIsLost(visibleMs: nat, hiddenMs: nat, events: seq<Event>)
    ensures var v := Run(Start(visibleMs, hiddenMs), events);
      && Ready(v) && Output(v) == Received(events)
      && |v.buf| < 262_144 && (v.buf != [] ==> v.armed)
      && v.visibleMs == visibleMs && v.interval == (if v.keepalive then visibleMs else v.hiddenMs)
    decreases |events|
  {
    if events != [] {
      var front, e := events[..|events| - 1], events[|events| - 1];
      NothingIsLost(visibleMs, hiddenMs, front);
      StepKeeps(Run(Start(visibleMs, hiddenMs), front), e);
    }
  }

  /** The slow cadence is the one last set, but at least 50 milliseconds. */
  function HiddenCadence(start: nat, events: seq<Event>): nat {
    if events == [] then start
    else
      var e := events[|events| - 1];
      if !e.Settings? then HiddenCadence(start, events[..|events| - 1])
      else if e.hiddenMs < 50 then 50 else e.hiddenMs
  }

  /** A pane that is not on screen uses that cadence at once, and one on screen its own. */
  lemma {:induction false} CadenceExactly(visibleMs: nat, hiddenMs: nat, events: seq<Event>)
    ensures var v := Run(Start(visibleMs, hiddenMs), events);
      v.interval == if v.keepalive then visibleMs else HiddenCadence(hiddenMs, events)
  {
    NothingIsLost(visibleMs, hiddenMs, events);
    HiddenExactly(visibleMs, hiddenMs, events);
  }

  lemma {:induction false} HiddenExactly(visibleMs: nat, hiddenMs: nat, events: seq<Event>)
    ensures Run(Start(visibleMs, hiddenMs), events).hiddenMs == HiddenCadence(hiddenMs, events)
  {
    if events != [] {
      HiddenExactly(visibleMs, hiddenMs, events[..|events| - 1]);
    }
  }

  /** A tick or the end of the session leaves nothing behind: the terminal was given all that was received. */
  lemma AllIsDelivered(visibleMs: nat, hiddenMs: nat, events: seq<Event>, last: Event)
    requires last == Tick || last == Detach || last == Keepalive(true)
    requires last == Keepalive(true) ==> !Run(Start(visibleMs, hiddenMs), events).keepalive
    ensures Concat(Run(Start(visibleMs, hiddenMs), events + [last]).handed) == Received(events)
  {
    NothingIsLost(visibleMs, hiddenMs, events);
    NothingIsLost(visibleMs, hiddenMs, events + [last]);
    assert (events + [last])[..|events|] == events;
  }

  /** The number of attachments in a run. */
  function Attachments(events: seq<Event>): nat {
    if events == [] then 0
    else Attachments(events[..|events| - 1]) + if events[|events| - 1].Attach? then 1 else 0
  }

  lemma GenerationStep(v: View, e: Event)
    ensures Step(v, e).generation == v.generation + if e.Attach? then 1 else 0
  {
  }

  /** The generation counts the attachments. */
  lemma {:induction false} GenerationsGrow(v: View, events: seq<Event>)
    ensures Run(v, events).generation == v.generation + Attachments(events)
    decreases |events|
  {
    if events != [] {
      var front, e := events[..|events| - 1], events[|events| - 1];
      GenerationsGrow(v, front);
      GenerationStep(Run(v, front), e);
    }
  }

  /**
   Generations: once a replacement is attached, the exit of the session before it, tagged with the generation that
   session got, never changes the pane, whatever happened before, between and after the two attachments.
   */
  lemma StaleExitIsIgnored(v: View, first: int, between: seq<Event>, second: int, later: seq<Event>, note: string)
    ensures var attached := AttachSession(v, first);
      var now := Run(AttachSession(Run(attached, between), second), later);
      OnExit(now, attached.generation, note) == now
  {
    var attached := AttachSession(v, first);
    GenerationsGrow(attached, between);
    GenerationsGrow(AttachSession(Run(attached, between), second), later);
  }

  /** The exit of the current session is heard: it ends the session and flushes, until another attachment. */
  lemma OwnExitIsHeard(v: View, session: int, later: seq<Event>, note: string)
    requires Attachments(later) == 0
    ensures var attached := AttachSession(v, session);
      var gone := OnExit(Run(attached, later), attached.generation, note);
      gone.session == None && gone.note == note && gone.buf == [] && !gone.armed
  {
    GenerationsGrow(AttachSession(v, session), later);
  }
}
