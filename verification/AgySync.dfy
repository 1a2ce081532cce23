/**
 Delivering the user's MCP servers to agy: one machine-wide file of servers, and a record of the names written to it.
 An entry that is not in the record belongs to the user.
 */
module AgySync {
  import opened Wrappers

  /** A JSON value as far as the conversion looks at it. */
  datatype Value = Missing | Text(text: string) | OtherTruthy | OtherFalsy

  datatype Cfg =
    | NotAnObject
    | Cfg(url: Value, serverUrl: Value, command: Value,
          headers: map<string, string>, args: Option<seq<string>>, env: map<string, string>)

  /** An entry of agy's file; Foreign is anything a user may have written. */
  datatype Entry =
    | Http(serverUrl: string, headers: map<string, string>)
    | Stdio(command: string, args: Option<seq<string>>, env: map<string, string>)
    | Foreign(json: string)

  predicate Truthy(v: Value) {
    v.OtherTruthy? || (v.Text? && v.text != "")
  }

  function ToAgyEntry(c: Cfg): (e: Option<Entry>)
    ensures e.Some? ==> !e.value.Foreign?
  {
    if c.NotAnObject? then None
    else
      var url := if Truthy(c.url) then c.url else c.serverUrl;
      if url.Text? && url.text != "" then Some(Http(url.text, c.headers))
      else if c.command.Text? && c.command.text != "" then Some(Stdio(c.command.text, c.args, c.env))
      else None
  }

  type Servers = map<string, Entry>
  type Master = map<string, Cfg>

  /** agy's file; one that is not plain JSON is never rewritten. A missing file has no servers. */
  datatype File = Unreadable | Readable(servers: Servers)

  datatype State = State(file: File, record: set<string>)

  /** What one sync is given: the master, the names the cockpit manages, and the names the role may use. */
  datatype Input = Input(master: Master, managed: set<string>, allow: set<string>)

  function UserNames(i: Input): set<string> {
    i.master.Keys - i.managed
  }

  function Wanted(i: Input): set<string> {
    i.allow * UserNames(i)
  }

  /** Names once written whose server is gone from the master. */
  function Gone(record: set<string>, i: Input): set<string> {
    record - UserNames(i)
  }

  function Converted(i: Input, n: string): Option<Entry> {
    if n in i.master then ToAgyEntry(i.master[n]) else None
  }

  /** The wanted names the sync may write: convertible, and either free or written by it before. */
  function Writable(servers: Servers, record: set<string>, i: Input): set<string> {
    set n | n in Wanted(i) && Converted(i, n).Some? && (n !in servers || n in record)
  }

  function Overlay(servers: Servers, names: set<string>, i: Input): Servers
    requires forall n :: n in names ==> Converted(i, n).Some?
  {
    map n | n in servers.Keys + names :: if n in names then Converted(i, n).value else servers[n]
  }

  /** The servers after one sync. */
  function Synced(servers: Servers, record: set<string>, i: Input): Servers {
    var gone := Gone(record, i);
    Overlay(servers - gone, Writable(servers - gone, record - gone, i), i)
  }

  /** The record after one sync. */
  function Recorded(servers: Servers, record: set<string>, i: Input): set<string> {
    var gone := Gone(record, i);
    record - gone + Writable(servers - gone, record - gone, i)
  }

  /**
   What the disk does to one sync: which of its two writes succeed, and whether the record is read back at the start
   and again before it is written. A record that cannot be read counts as empty.
   */
  datatype Env = Env(configSaved: bool, recordSaved: bool, recordRead: bool, recordReread: bool)

  function Known(record: set<string>, read: bool): set<string> {
    if read then record else {}
  }

  /** Both files after one sync; a failed first write skips the second, and a sync with nothing to do writes nothing. */
  function SyncWith(s: State, i: Input, env: Env): State {
    var known := Known(s.record, env.recordRead);
    if s.file.Unreadable? || (Wanted(i) == {} && Gone(known, i) == {}) then s
    else
      var servers, record := Synced(s.file.servers, known, i), Recorded(s.file.servers, known, i);
      if servers != s.file.servers && !env.configSaved then s
      else
        var written := env.recordSaved && record != Known(s.record, env.recordReread);
        State(Readable(servers), if written then record else s.record)
  }

  /** One sync over a disk whose reads succeed. */
  function Sync(s: State, i: Input, configSaved: bool, recordSaved: bool): State {
    if s.file.Unreadable? then s
    else
      var servers, record := Synced(s.file.servers, s.record, i), Recorded(s.file.servers, s.record, i);
      if servers != s.file.servers && !configSaved then s
      else State(Readable(servers), if recordSaved then record else s.record)
  }

  function Changed(servers: Servers, servers': Servers): set<string> {
    set n | n in servers && n in servers' && servers[n] != servers'[n]
  }

  lemma ChangedExactly(servers: Servers, servers': Servers, removed: set<string>)
    requires removed == servers.Keys - servers'.Keys
    ensures servers == servers' <==>
      removed == {} && servers'.Keys - servers.Keys == {} && Changed(servers, servers') == {}
  {
    if removed == {} && servers'.Keys - servers.Keys == {} && Changed(servers, servers') == {} {
      assert servers.Keys == servers'.Keys;
      forall n | n in servers
        ensures servers[n] == servers'[n]
      {
        assert n !in Changed(servers, servers');
      }
    }
  }

  class Agy {
    var file: File
    var record: set<string>

    function Contents(): State
      reads this
    {
      State(file, record)
    }

    method SyncRole(i: Input, env: Env)
      returns (added: set<string>, updated: set<string>, removed: set<string>)
      modifies this
      ensures Contents() == SyncWith(old(Contents()), i, env)
      ensures old(file).Readable? ==>
        var known := Known(old(record), env.recordRead);
        && removed == Gone(known, i) * old(file).servers.Keys
        && added == Synced(old(file).servers, known, i).Keys - old(file).servers.Keys
        && updated == Changed(old(file).servers, Synced(old(file).servers, known, i))
    {
      added, updated, removed := {}, {}, {};
      var wanted := Wanted(i);
      if file.Unreadable? {
        return;
      }
      var known := Known(record, env.recordRead);
      if wanted == {} && Gone(known, i) == {} {
        assert file.servers - {} == file.servers;
        assert Synced(file.servers, known, i) == file.servers;
        return;
      }
      var servers, synced := file.servers, known;
      servers, synced, removed := DropGone(servers, synced, i);
      servers, synced, added, updated := MergeWanted(servers, synced, i);
      assert servers == Synced(file.servers, known, i);
      assert added == servers.Keys - file.servers.Keys;
      assert updated == Changed(file.servers, servers);
      var changed := removed != {} || added != {} || updated != {};
      ChangedExactly(file.servers, servers, removed);
      if changed {
        if !env.configSaved {
          return;
        }
        file := Readable(servers);
      }
      if synced != Known(record, env.recordReread) && env.recordSaved {
        record := synced;
      }
    }

    /** Writes the wanted servers it may write. */
    static method MergeWanted(servers0: Servers, synced0: set<string>, i: Input)
      returns (servers: Servers, synced: set<string>, added: set<string>, updated: set<string>)
      ensures servers == Overlay(servers0, Writable(servers0, synced0, i), i)
      ensures synced == synced0 + Writable(servers0, synced0, i)
      ensures added == servers.Keys - servers0.Keys && updated == Changed(servers0, servers)
    {
      servers, synced, added, updated := servers0, synced0, {}, {};
      ghost var writable := Writable(servers0, synced0, i);
      var todo := Wanted(i);
      while todo != {}
        invariant todo <= Wanted(i)
        invariant forall n :: n in added <==> n in servers && n !in servers0
        invariant forall n :: n in updated <==> n in servers && n in servers0 && servers[n] != servers0[n]
        invariant forall n :: n in servers <==> n in servers0 || (n in writable && n !in todo)
        invariant forall n :: n in servers ==>
          servers[n] == (if n in writable && n !in todo then Converted(i, n).value else servers0[n])
        invariant forall n :: n in synced <==> n in synced0 || (n in writable && n !in todo)
      {
        var name :| name in todo;
        todo := todo - {name};
        var entry := ToAgyEntry(i.master[name]);
        assert name in writable <==> entry.Some? && (name !in servers || name in synced);
        if entry.None? || (name in servers && name !in synced) {
          continue;
        }
        if name in servers && servers[name] == entry.value {
          synced := synced + {name};
          continue;
        }
        if name in servers {
          updated := updated + {name};
        } else {
          added := added + {name};
        }
        servers := servers[name := entry.value];
        synced := synced + {name};
      }
      assert updated == Changed(servers0, servers);
    }

    /** Deletes what was written for servers that are gone from the master. */
    static method DropGone(servers: Servers, record: set<string>, i: Input)
      returns (rest: Servers, synced: set<string>, dropped: set<string>)
      ensures rest == servers - Gone(record, i)
      ensures synced == record - Gone(record, i)
      ensures dropped == Gone(record, i) * servers.Keys
    {
      rest, synced, dropped := servers, record, {};
      var todo := Gone(record, i);
      while todo != {}
        invariant todo <= Gone(record, i)
        invariant rest == servers - (Gone(record, i) - todo)
        invariant synced == record - (Gone(record, i) - todo)
        invariant dropped == (Gone(record, i) - todo) * servers.Keys
      {
        var name :| name in todo;
        todo := todo - {name};
        if name in rest {
          rest := rest - {name};
          dropped := dropped + {name};
        }
        synced := synced - {name};
      }
    }
  }
}
