/**
 How a pane collects the bytes of its session and hands them to the terminal in batches: the buffer, the
 single-shot flush timer with its two cadences, and the generations that tell sessions apart.
 */
module Render {
  import opened Wrappers

  type Bytes = seq<bv8>

  const FLUSH_CAP: nat := 256 * 1024
  const MIN_HIDDEN_MS: nat := 50

  /**
   buf is what waits, handed the batches given to the terminal's write; armed and interval are the timer,
   keepalive says that the pane is on screen. session is None or the session attached, generation the number
   of attachments, note the state shown.
   */
  datatype View = View(
    buf: Bytes, handed: seq<Bytes>, armed: bool, interval: nat, keepalive: bool, visibleMs: nat, hiddenMs: nat,
    session: Option<int>, generation: nat, note: string)

  /** The cadence of the timer. */
  function Cadence(v: View): nat {
    if v.keepalive then v.visibleMs else v.hiddenMs
  }

  function Flush(v: View): View {
    if v.buf == [] then v else v.(buf := [], armed := false, handed := v.handed + [v.buf])
  }

  function Coalesce(v: View, data: Bytes): View {
    var w := v.(buf := v.buf + data);
    if |w.buf| >= FLUSH_CAP then Flush(w)
    else if !w.armed then w.(armed := true, interval := Cadence(w))
    else w
  }

  /** The timer fires once per start. */
  function FireTimer(v: View): View {
    if v.armed then Flush(v.(armed := false)) else v
  }

  function SetKeepalive(v: View, active: bool): View {
    var w := v.(keepalive := active);
    var x := w.(interval := Cadence(w));
    if active && !v.keepalive then Flush(x) else x
  }

  function ApplySettings(v: View, hiddenMs: nat): View {
    var w := v.(hiddenMs := if hiddenMs < MIN_HIDDEN_MS then MIN_HIDDEN_MS else hiddenMs);
    if w.keepalive then w else w.(interval := w.hiddenMs)
  }

  function DetachSession(v: View): View {
    Flush(v).(armed := false, session := None)
  }

  function AttachSession(v: View, session: int): View {
    var w := if v.session.Some? && v.session.value != session then DetachSession(v) else v;
    w.(session := Some(session), generation := w.generation + 1, note := "active")
  }

  /** An exit signal carries the generation of its session; note is the state the pane decides to show. */
  function OnExit(v: View, generation: nat, note: string): View {
    if generation != v.generation then v else DetachSession(v.(note := note))
  }

  function Concat(batches: seq<Bytes>): Bytes {
    if batches == [] then [] else Concat(batches[..|batches| - 1]) + batches[|batches| - 1]
  }

  /** What the terminal was given followed by what still waits. */
  function Output(v: View): Bytes {
    Concat(v.handed) + v.buf
  }

  /** The buffer is below the cap, waits only while the timer runs, and the timer has the cadence of the pane. */
  ghost predicate Ready(v: View) {
    && |v.buf| < FLUSH_CAP
    && (v.buf != [] ==> v.armed)
    && v.interval == Cadence(v)
    && (forall b :: b in v.handed ==> b != [])
  }

  lemma FlushKeeps(v: View)
    requires v.interval == Cadence(v) && forall b :: b in v.handed ==> b != []
    ensures Ready(Flush(v)) && Flush(v).buf == [] && Output(Flush(v)) == Output(v)
  {
    assert (v.handed + [v.buf])[..|v.handed|] == v.handed;
  }

  lemma CoalesceKeeps(v: View, data: Bytes)
    requires Ready(v)
    ensures Ready(Coalesce(v, data)) && Output(Coalesce(v, data)) == Output(v) + data
  {
    var w := v.(buf := v.buf + data);
    assert Output(w) == Output(v) + data;
    FlushKeeps(w);
  }

  lemma KeepaliveKeeps(v: View, active: bool)
    requires Ready(v)
    ensures Ready(SetKeepalive(v, active)) && Output(SetKeepalive(v, active)) == Output(v)
  {
    var w := v.(keepalive := active);
    FlushKeeps(w.(interval := Cadence(w)));
  }

  lemma DetachKeeps(v: View)
    requires Ready(v)
    ensures Ready(DetachSession(v)) && Output(DetachSession(v)) == Output(v)
  {
    FlushKeeps(v);
  }

  lemma AttachKeeps(v: View, session: int)
    requires Ready(v)
    ensures Ready(AttachSession(v, session)) && Output(AttachSession(v, session)) == Output(v)
  {
    DetachKeeps(v);
  }

  datatype Event =
    | Chunk(data: Bytes) | Tick | Keepalive(active: bool) | Settings(hiddenMs: nat)
    | Attach(session: int) | Detach | Exit(generation: nat, note: string)

  function Step(v: View, e: Event): View {
    match e
    case Chunk(data) => Coalesce(v, data)
    case Tick => FireTimer(v)
    case Keepalive(active) => SetKeepalive(v, active)
    case Settings(hiddenMs) => ApplySettings(v, hiddenMs)
    case Attach(session) => AttachSession(v, session)
    case Detach => DetachSession(v)
    case Exit(generation, note) => OnExit(v, generation, note)
  }

  function Start(visibleMs: nat, hiddenMs: nat): View {
    View([], [], false, visibleMs, true, visibleMs, hiddenMs, None, 0, "empty")
  }

  function Run(v: View, events: seq<Event>): View {
    if events == [] then v else Step(Run(v, events[..|events| - 1]), events[|events| - 1])
  }
}

/**
 The pane as the source has it: one object whose slots the events call. received is all that arrived; what was
 handed over and what is buffered make it up at any time, and Valid adds that the buffer is small and due.
 */
module RenderPane {
  import opened Wrappers
  import opened R = Render

  class Pane {
    var buf: Bytes
    var handed: seq<Bytes>
    var armed: bool
    var interval: nat
    var keepalive: bool
    var visibleMs: nat
    var hiddenMs: nat
    var session: Option<int>
    var generation: nat
    var note: string
    ghost var received: Bytes

    function Contents(): View
      reads this
    {
      View(buf, handed, armed, interval, keepalive, visibleMs, hiddenMs, session, generation, note)
    }

    /** Nothing is lost, and the timer has the cadence of the pane. */
    ghost predicate Whole()
      reads this
    {
      && Output(Contents()) == received
      && interval == Cadence(Contents())
      && forall b :: b in handed ==> b != []
    }

    ghost predicate Valid()
      reads this
    {
      Ready(Contents()) && Whole()
    }

    constructor (visible: nat, hidden: nat)
      ensures Contents() == R.Start(visible, hidden)
      ensures Valid() && received == []
    {
      buf, handed, armed, interval := [], [], false, visible;
      keepalive, visibleMs, hiddenMs := true, visible, hidden;
      session, generation, note := None, 0, "empty";
      received := [];
    }

    /** Called also with a buffer at the cap or with the timer fired: afterwards all that arrived was handed over. */
    method FlushRenderBuf()
      requires Whole()
      modifies this
      ensures Contents() == R.Flush(old(Contents()))
      ensures Valid() && received == old(received)
      ensures Concat(handed) == received && |handed| <= |old(handed)| + 1
    {
      FlushKeeps(Contents());
      if buf == [] {
        return;
      }
      var chunk := buf;
      buf := [];
      armed := false;
      handed := handed + [chunk];
    }

    method CoalesceBytes(data: Bytes)
      requires Valid()
      modifies this
      ensures Contents() == R.Coalesce(old(Contents()), data)
      ensures Valid() && received == old(received) + data
      ensures |old(buf)| + |data| < FLUSH_CAP ==> handed == old(handed) && buf == old(buf) + data
      ensures |old(buf)| + |data| >= FLUSH_CAP ==> Concat(handed) == received
    {
      CoalesceKeeps(Contents(), data);
      buf := buf + data;
      received := received + data;
      if |buf| >= FLUSH_CAP {
        FlushRenderBuf();
      } else if !armed {
        interval := if keepalive then visibleMs else hiddenMs;
        armed := true;
      }
    }

    method Timeout()
      requires Valid()
      modifies this
      ensures Contents() == R.FireTimer(old(Contents()))
      ensures Valid() && received == old(received)
      ensures Concat(handed) == received && !armed
    {
      if armed {
        armed := false;
        FlushRenderBuf();
      }
    }

    method SetKeepalive(active: bool)
      requires Valid()
      modifies this
      ensures Contents() == R.SetKeepalive(old(Contents()), active)
      ensures Valid() && received == old(received)
      ensures keepalive == active && (active && !old(keepalive) ==> Concat(handed) == received)
    {
      KeepaliveKeeps(Contents(), active);
      var becameActive := !keepalive && active;
      keepalive := active;
      interval := if active then visibleMs else hiddenMs;
      if becameActive && buf != [] {
        FlushRenderBuf();
      }
    }

    method ApplySettings(hidden: nat)
      requires Valid()
      modifies this
      ensures Contents() == R.ApplySettings(old(Contents()), hidden)
      ensures Valid() && received == old(received)
    {
      hiddenMs := if hidden < MIN_HIDDEN_MS then MIN_HIDDEN_MS else hidden;
      if !keepalive {
        interval := hiddenMs;
      }
    }

    method DetachSession()
      requires Valid()
      modifies this
      ensures Contents() == R.DetachSession(old(Contents()))
      ensures Valid() && received == old(received)
      ensures session == None && Concat(handed) == received && generation == old(generation)
    {
      FlushRenderBuf();
      armed := false;
      session := None;
    }

    /** The generation of the session is new: no exit tagged with an earlier one will be acted on. */
    method AttachSession(s: int)
      requires Valid()
      modifies this
      ensures Contents() == R.AttachSession(old(Contents()), s)
      ensures Valid() && received == old(received)
      ensures session == Some(s) && generation > old(generation)
      ensures old(session) != Some(s) && old(session).Some? ==> Concat(handed) == received
    {
      if session.Some? && session.value != s {
        DetachSession();
      }
      session := Some(s);
      generation := generation + 1;
      note := "active";
    }

    method OnExit(tag: nat, shown: string)
      requires Valid()
      modifies this
      ensures Contents() == R.OnExit(old(Contents()), tag, shown)
      ensures Valid() && received == old(received)
      ensures tag != generation ==> Contents() == old(Contents())
      ensures tag == generation ==> session == None && note == shown && Concat(handed) == received
    {
      if tag != generation {
        return;
      }
      note := shown;
      DetachSession();
    }
  }
}
