/** What holds over runs of syncs for any roles, with the master and the user's own entries edited in between. */
module AgySyncRuns {
  import opened Wrappers
  import opened AgySync

  datatype Event =
    | SyncRole(input: Input, env: Env)
    | UserWrites(name: string, entry: Entry)
    | UserDeletes(name: string)

  function Step(s: State, e: Event): State {
    match e
    case SyncRole(input, env) => SyncWith(s, input, env)
    case UserWrites(name, entry) =>
      if s.file.Readable? then s.(file := Readable(s.file.servers[name := entry])) else s
    case UserDeletes(name) =>
      if s.file.Readable? then s.(file := Readable(s.file.servers - {name})) else s
  }

  function Run(s: State, events: seq<Event>): State {
    if events == [] then s else Step(Run(s, events[..|events| - 1]), events[|events| - 1])
  }

  predicate Touches(e: Event, name: string) {
    (e.UserWrites? || e.UserDeletes?) && e.name == name
  }

  ghost predicate Owned(s: State, name: string, entry: Entry) {
    s.file.Readable? && name in s.file.servers && s.file.servers[name] == entry && name !in s.record
  }

  /** Over a disk whose reads succeed a sync is the one the other promises speak of. */
  lemma ReadsSucceed(s: State, i: Input, configSaved: bool, recordSaved: bool)
    ensures SyncWith(s, i, Env(configSaved, recordSaved, true, true)) == Sync(s, i, configSaved, recordSaved)
  {
    if s.file.Readable? && Wanted(i) == {} && Gone(s.record, i) == {} {
      assert s.file.servers - {} == s.file.servers && s.record - {} == s.record;
      assert Synced(s.file.servers, s.record, i) == s.file.servers;
    }
  }

  lemma SyncKeepsOwned(s: State, i: Input, env: Env, name: string, entry: Entry)
    requires Owned(s, name, entry)
    ensures Owned(SyncWith(s, i, env), name, entry)
  {
  }

  /**
   Ownership: an entry whose name is not in the record is never changed, removed or claimed by any run of syncs,
   whatever roles, masters, failed writes and failed reads occur in it; only the user can change it.
   */
  lemma {:induction false} UserEntriesSurvive(s: State, events: seq<Event>, name: string, entry: Entry)
    requires Owned(s, name, entry)
    requires forall e :: e in events ==> !Touches(e, name)
    ensures Owned(Run(s, events), name, entry)
    decreases |events|
  {
    if events != [] {
      var front, e := events[..|events| - 1], events[|events| - 1];
      assert e in events;
      UserEntriesSurvive(s, front, name, entry);
      if e.SyncRole? {
        SyncKeepsOwned(Run(s, front), e.input, e.env, name, entry);
      }
    }
  }

  /**
   Delivery: after a sync that could write, a wanted server is there, converted, unless the user's entry has its
   name.
   */
  lemma WantedAreDelivered(s: State, i: Input, name: string)
    requires s.file.Readable? && name in Wanted(i) && Converted(i, name).Some?
    ensures var s' := Sync(s, i, true, true);
      && name in s'.file.servers
      && if name in s.file.servers && name !in s.record
         then s'.file.servers[name] == s.file.servers[name] && name !in s'.record
         else Some(s'.file.servers[name]) == Converted(i, name) && name in s'.record
  {
  }

  /** Retraction: nothing stays recorded that the user removed from the master, and what was recorded is gone. */
  lemma GoneAreRetracted(s: State, i: Input, name: string)
    requires s.file.Readable? && name in s.record && name !in UserNames(i)
    ensures var s' := Sync(s, i, true, true);
      name !in s'.file.servers && name !in s'.record
  {
  }

  // ----- one entry -----

  /** The address of a server: its url, or its serverUrl if it has no url that counts. */
  function Address(c: Cfg): Value
    requires c.Cfg?
  {
    if c.url == Missing || c.url == OtherFalsy || c.url == Text("") then c.serverUrl else c.url
  }

  predicate IsName(v: Value) {
    v.Text? && |v.text| > 0
  }

  /** What becomes of a server: one with an address keeps headers, one with a command arguments and environment. */
  lemma ConvertedExactly(c: Cfg)
    ensures ToAgyEntry(c) == None <==> c.NotAnObject? || (!IsName(Address(c)) && !IsName(c.command))
    ensures c.Cfg? && IsName(Address(c)) ==> ToAgyEntry(c) == Some(Http(Address(c).text, c.headers))
    ensures c.Cfg? && !IsName(Address(c)) && IsName(c.command) ==>
      ToAgyEntry(c) == Some(Stdio(c.command.text, c.args, c.env))
  {
  }

  /** Which servers a sync is about: those of the master the role may use and the cockpit does not manage itself. */
  lemma WantedExactly(i: Input, name: string)
    ensures name in Wanted(i) <==> name in i.allow && name in i.master && name !in i.managed
  {
  }

  // ----- one master, any roles -----

  /** The same input for a role that may use other names. */
  function For(i: Input, allow: set<string>): Input {
    i.(allow := allow)
  }

  /** Syncs for several roles after one another, all writes succeeding. */
  function SyncAll(s: State, i: Input, roles: seq<set<string>>): State {
    if roles == [] then s
    else Sync(SyncAll(s, i, roles[..|roles| - 1]), For(i, roles[|roles| - 1]), true, true)
  }

  function Union(roles: seq<set<string>>): set<string> {
    if roles == [] then {} else Union(roles[..|roles| - 1]) + roles[|roles| - 1]
  }

  /** What a first sync wrote does not change what a second one may write. */
  lemma WritableAfter(servers: Servers, record: set<string>, i: Input, a: set<string>, b: set<string>)
    ensures var servers', record' := Synced(servers, record, For(i, a)), Recorded(servers, record, For(i, a));
      && Gone(record', For(i, b)) == {}
      && Writable(servers', record', For(i, b)) ==
         Writable(servers - Gone(record, i), record - Gone(record, i), For(i, b))
  {
  }

  lemma WritableUnion(servers: Servers, record: set<string>, i: Input, a: set<string>, b: set<string>)
    ensures Writable(servers, record, For(i, a + b)) ==
            Writable(servers, record, For(i, a)) + Writable(servers, record, For(i, b))
  {
  }

  /** Two syncs are one sync for the union of what the roles may use. */
  lemma SyncTwo(s: State, i: Input, a: set<string>, b: set<string>)
    ensures Sync(Sync(s, For(i, a), true, true), For(i, b), true, true) == Sync(s, For(i, a + b), true, true)
  {
    if s.file.Readable? {
      var servers, record := s.file.servers, s.record;
      var gone := Gone(record, i);
      var servers', record' := Synced(servers, record, For(i, a)), Recorded(servers, record, For(i, a));
      WritableAfter(servers, record, i, a, b);
      WritableUnion(servers - gone, record - gone, i, a, b);
      assert servers' - {} == servers' && record' - {} == record';
      assert Synced(servers', record', For(i, b)) == Synced(servers, record, For(i, a + b));
      assert Recorded(servers', record', For(i, b)) == Recorded(servers, record, For(i, a + b));
    }
  }

  /**
   Confluence: any order and repetition of roles leaves the same files, those of one sync for all of them
   together.
   */
  lemma {:induction false} SyncConfluence(s: State, i: Input, roles: seq<set<string>>)
    requires roles != []
    ensures SyncAll(s, i, roles) == Sync(s, For(i, Union(roles)), true, true)
    decreases |roles|
  {
    var front, last := roles[..|roles| - 1], roles[|roles| - 1];
    if front == [] {
      assert Union(roles) == last;
      assert SyncAll(s, i, front) == s;
    } else {
      SyncConfluence(s, i, front);
      SyncTwo(s, i, Union(front), last);
    }
  }

  lemma SyncsCommute(s: State, i: Input, a: set<string>, b: set<string>)
    ensures Sync(Sync(s, For(i, a), true, true), For(i, b), true, true) ==
      Sync(Sync(s, For(i, b), true, true), For(i, a), true, true)
  {
    SyncTwo(s, i, a, b);
    SyncTwo(s, i, b, a);
    assert a + b == b + a;
  }

  lemma SyncIsIdempotent(s: State, i: Input)
    ensures Sync(Sync(s, i, true, true), i, true, true) == Sync(s, i, true, true)
  {
    SyncTwo(s, i, i.allow, i.allow);
    assert i.allow + i.allow == i.allow;
    assert For(i, i.allow) == i;
  }

  /**
   A crash between the two writes hands the new entry over to the user for good: no later sync updates it,
   and none removes it when its server leaves the master.
   */
  lemma LostRecordOrphansEntry(s: State, i: Input, name: string, events: seq<Event>)
    requires s.file.Readable? && name in Wanted(i) && Converted(i, name).Some?
    requires name !in s.file.servers && name !in s.record
    requires forall e :: e in events ==> !Touches(e, name)
    ensures Owned(Run(Sync(s, i, true, false), events), name, Converted(i, name).value)
  {
    UserEntriesSurvive(Sync(s, i, true, false), events, name, Converted(i, name).value);
  }

  /** A new entry is left without a record if and only if the configuration is saved and the record is not. */
  lemma OrphanedExactly(s: State, i: Input, env: Env, name: string)
    requires s.file.Readable? && name in Wanted(i) && Converted(i, name).Some?
    requires name !in s.file.servers && name !in s.record
    ensures Owned(SyncWith(s, i, env), name, Converted(i, name).value) <==> env.configSaved && !env.recordSaved
  {
    var known := Known(s.record, env.recordRead);
    assert name in Synced(s.file.servers, known, i) && name in Recorded(s.file.servers, known, i);
  }

  // ----- a record that cannot be read -----

  /** A sync that could not read the record writes it anew. */
  predicate Rewrites(s: State, i: Input, env: Env) {
    && s.file.Readable? && Wanted(i) != {} && env.recordSaved
    && (Synced(s.file.servers, {}, i) == s.file.servers || env.configSaved)
    && Recorded(s.file.servers, {}, i) != Known(s.record, env.recordReread)
  }

  /** New servers are delivered also then, and what is there stays as it is. */
  lemma UnreadDeliversNew(s: State, i: Input, env: Env, name: string)
    requires s.file.Readable? && !env.recordRead && env.configSaved
    requires name in Wanted(i) && Converted(i, name).Some?
    ensures var s' := SyncWith(s, i, env);
      && name in s'.file.servers
      && (name !in s.file.servers ==> Some(s'.file.servers[name]) == Converted(i, name))
      && forall n :: n in s.file.servers ==> n in s'.file.servers && s'.file.servers[n] == s.file.servers[n]
  {
    assert s.file.servers - {} == s.file.servers;
  }

  /** An entry that was recorded stays so if and only if the record is not written anew. */
  lemma UnreadKeepsRecordExactly(s: State, i: Input, env: Env, name: string)
    requires s.file.Readable? && !env.recordRead && name in s.record && name in s.file.servers
    ensures name in SyncWith(s, i, env).record <==> !Rewrites(s, i, env)
  {
    assert s.file.servers - {} == s.file.servers && Gone({}, i) == {};
  }

  /** When it is, the entry belongs to the user from then on: no later sync updates it, and none removes it. */
  lemma UnreadRecordOrphansEntry(s: State, i: Input, env: Env, name: string, events: seq<Event>)
    requires !env.recordRead && Rewrites(s, i, env) && name in s.record && name in s.file.servers
    requires forall e :: e in events ==> !Touches(e, name)
    ensures Owned(Run(SyncWith(s, i, env), events), name, s.file.servers[name])
  {
    UnreadKeepsRecordExactly(s, i, env, name);
    assert s.file.servers - {} == s.file.servers && Gone({}, i) == {};
    UserEntriesSurvive(SyncWith(s, i, env), events, name, s.file.servers[name]);
  }
}
