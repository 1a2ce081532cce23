/** The reporters as the source runs them, with the module's globals as fields. */
module IssueReporter {
  import opened S = IssueCap

  /** The module with its globals; each method is one section under the lock. */
  class Reporter {
    var fired: seq<int>
    var signatures: map<string, int>
    var blockedUntil: int
    var recent: map<string, int>

    function Contents(): Memory
      reads this
    {
      Memory(fired, signatures, blockedUntil, recent)
    }

    constructor ()
      ensures Contents() == EMPTY_MEMORY
    {
      fired, signatures, blockedUntil, recent := [], map[], 0, map[];
    }

    method MergedSignatures(view: Disk) returns (merged: map<string, int>)
      ensures merged == Merge(signatures, view.signatures)
    {
      merged := signatures;
      var todo := view.signatures.Keys;
      while todo != {}
        invariant todo <= view.signatures.Keys
        invariant forall s :: s in merged <==> s in signatures || (s in view.signatures && s !in todo)
        invariant forall s :: s in merged ==>
          merged[s] == (if s in todo then signatures[s] else Merge(signatures, view.signatures)[s])
      {
        var s :| s in todo;
        if s !in merged || view.signatures[s] > merged[s] {
          merged := merged[s := view.signatures[s]];
        }
        todo := todo - {s};
      }
    }

    method FiredInWindow(view: Disk, now: int) returns (r: seq<int>)
      ensures r == Recent(view.fired + fired, now)
    {
      r := [];
      var raw := view.fired + fired;
      for i := 0 to |raw|
        invariant r == Recent(raw[..i], now)
      {
        assert raw[..i + 1] == raw[..i] + [raw[i]];
        assert raw[..i + 1][..i] == raw[..i];
        if now - raw[i] < WINDOW {
          r := Insert(r, raw[i]);
        }
      }
      assert raw[..|raw|] == raw;
    }

    method ReserveSignature(view: Disk, sig: string, now: int) returns (granted: bool)
      modifies this
      ensures Contents() == S.ReserveSignature(old(Contents()), view, sig, now).0
      ensures granted <==> S.ReserveSignature(old(Contents()), view, sig, now).1.Granted?
    {
      if now < blockedUntil {
        return false;
      }
      var merged := MergedSignatures(view);
      if sig in merged && now - merged[sig] < WINDOW {
        return false;
      }
      var window := FiredInWindow(view, now);
      if |window| >= RATE_CAP {
        fired := window;
        signatures := Prune(merged, now);
        blockedUntil := window[0] + WINDOW;
        return false;
      }
      fired := window + [Stamp(window, now)];
      signatures := Prune(merged[sig := now], now);
      return true;
    }

    method CaptureCrash(sig: string, now: int) returns (started: bool)
      modifies this
      ensures (Contents(), started) == AdmitCrash(old(Contents()), sig, now)
    {
      if now < blockedUntil {
        return false;
      }
      if sig in recent && now - recent[sig] < WINDOW {
        return false;
      }
      recent := Prune(recent[sig := now], now);
      return true;
    }

    method Worker(view: Disk, sig: string, now: int) returns (granted: bool)
      modifies this
      ensures Contents() == CrashWorker(old(Contents()), view, sig, now).0
      ensures granted <==> CrashWorker(old(Contents()), view, sig, now).1.Granted?
    {
      var merged := MergedSignatures(view);
      if sig in merged && now - merged[sig] < WINDOW {
        return false;
      }
      var window := FiredInWindow(view, now);
      if |window| >= RATE_CAP {
        fired := window;
        signatures := Prune(merged, now);
        recent := recent - {sig};
        blockedUntil := window[0] + WINDOW;
        return false;
      }
      fired := window + [Stamp(window, now)];
      signatures := Prune(merged[sig := now], now);
      return true;
    }
  }
}
