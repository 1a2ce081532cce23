/**
 The filing cap shared by the crash reporter and the runtime-signal reporter: at most five issues
 in any 24 hours and one issue a signature in 24 hours, kept on disk and mirrored in memory.
 Time is counted in ticks of one microsecond.
 */
module IssueCap {

  /** 24 hours: both the cooldown of a signature and the window of the cap. */
  const WINDOW := 86_400_000_000
  const RATE_CAP := 5

  /** What a read of the state file returns, and what a save writes. */
  datatype Disk = Disk(fired: seq<int>, signatures: map<string, int>)

  /** The module's globals; fired is strictly ascending once a section has run. */
  datatype Memory = Memory(fired: seq<int>, signatures: map<string, int>, blockedUntil: int, recent: map<string, int>)

  const EMPTY_MEMORY := Memory([], map[], 0, map[])

  predicate Ascending(s: seq<int>) {
    forall i, j :: 0 <= i < j < |s| ==> s[i] < s[j]
  }

  /** Adds x to a sorted list without repetition. */
  function Insert(s: seq<int>, x: int): (r: seq<int>)
    requires Ascending(s)
    ensures Ascending(r)
    ensures forall y :: y in r <==> y in s || y == x
  {
    if s == [] || s[|s| - 1] < x then s + [x]
    else
      var front, last := s[..|s| - 1], s[|s| - 1];
      assert s == front + [last];
      if last == x then s
      else
        var r := Insert(front, x);
        assert forall y :: y in r ==> y in front || y == x;
        assert forall i :: 0 <= i < |front| ==> front[i] < last;
        assert forall y :: y in front ==> y < last;
        assert forall y :: y in r ==> y < last;
        assert forall i :: 0 <= i < |r| ==> r[i] in r;
        r + [last]
  }

  /** The stamps of the window, sorted, each once. */
  function Recent(raw: seq<int>, now: int): (r: seq<int>)
    ensures Ascending(r)
    ensures forall t :: t in r <==> t in raw && now - t < WINDOW
  {
    if raw == [] then []
    else
      var last := raw[|raw| - 1];
      assert raw == raw[..|raw| - 1] + [last];
      var r := Recent(raw[..|raw| - 1], now);
      if now - last < WINDOW then Insert(r, last) else r
  }

  function Prune(signatures: map<string, int>, now: int): map<string, int> {
    map s | s in signatures && now - signatures[s] < WINDOW :: signatures[s]
  }

  /** The later of both stamps of every signature. */
  function Merge(mem: map<string, int>, disk: map<string, int>): map<string, int> {
    map s | s in mem.Keys + disk.Keys ::
      if s !in mem || (s in disk && disk[s] > mem[s]) then disk[s] else mem[s]
  }

  datatype Verdict =
    | Duplicate
    | Capped(state: Disk)
    | Granted(state: Disk, stamp: int)

  function Stamp(fired: seq<int>, now: int): int {
    if fired == [] || now > fired[|fired| - 1] then now else fired[|fired| - 1] + 1
  }

  /** The section both reporters run under the lock; view is what the disk read returned. */
  function Decide(mem: Memory, view: Disk, sig: string, now: int): Verdict {
    var signatures := Merge(mem.signatures, view.signatures);
    if sig in signatures && now - signatures[sig] < WINDOW then Duplicate
    else
      var fired := Recent(view.fired + mem.fired, now);
      if |fired| >= RATE_CAP then Capped(Disk(fired, Prune(signatures, now)))
      else
        var stamp := Stamp(fired, now);
        Granted(Disk(fired + [stamp], Prune(signatures[sig := now], now)), stamp)
  }

  function Remember(mem: Memory, state: Disk): Memory {
    mem.(fired := state.fired, signatures := state.signatures)
  }

  /** The runtime-signal reporter: memory after the call, and the verdict if it looked at all. */
  function ReserveSignature(mem: Memory, view: Disk, sig: string, now: int): (Memory, Verdict) {
    if now < mem.blockedUntil then (mem, Duplicate)
    else
      match Decide(mem, view, sig, now)
      case Duplicate => (mem, Duplicate)
      case Capped(state) =>
        (Remember(mem, state).(blockedUntil := state.fired[0] + WINDOW), Capped(state))
      case Granted(state, stamp) => (Remember(mem, state), Granted(state, stamp))
  }

  /** The crash worker: not held by the block, and a capped signature may be reported again at once. */
  function CrashWorker(mem: Memory, view: Disk, sig: string, now: int): (Memory, Verdict) {
    match Decide(mem, view, sig, now)
    case Duplicate => (mem, Duplicate)
    case Capped(state) =>
      (Remember(mem, state).(blockedUntil := state.fired[0] + WINDOW, recent := mem.recent - {sig}), Capped(state))
    case Granted(state, stamp) => (Remember(mem, state), Granted(state, stamp))
  }

  /** The crash hook: memory after the call, and whether it starts a worker. */
  function AdmitCrash(mem: Memory, sig: string, now: int): (Memory, bool) {
    if now < mem.blockedUntil then (mem, false)
    else if sig in mem.recent && now - mem.recent[sig] < WINDOW then (mem, false)
    else (mem.(recent := Prune(mem.recent[sig := now], now)), true)
  }
}
