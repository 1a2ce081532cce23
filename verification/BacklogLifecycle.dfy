/**
 What a done mark on a link is worth: over every run of all operations of the backlog, a link that reported done
 carries a task id and is never un-done, rebound, handed to another role or canceled away.
 */
module BacklogLifecycle {
  import opened Wrappers
  import opened BacklogModel

  /** What identifies a finished hand-off. */
  datatype Key = Key(role: string, taskId: string, ts: int)

  function KeyOf(l: Link): Key {
    Key(l.role, l.taskId, l.ts)
  }

  /** The finished hand-offs among these links, each as often as it occurs. */
  ghost function DoneKeys(links: seq<Link>): multiset<Key> {
    if links == [] then multiset{}
    else
      var last := links[|links| - 1];
      DoneKeys(links[..|links| - 1]) + if last.done then multiset{KeyOf(last)} else multiset{}
  }

  /** The finished hand-offs recorded for a card id; none while no card has the id. */
  ghost function History(items: Cards, id: string): multiset<Key> {
    var k := IndexOf(items, id);
    if k == |items| then multiset{} else DoneKeys(items[k].links)
  }

  ghost predicate DoneAreBound(links: seq<Link>) {
    forall l :: l in links && l.done ==> l.taskId != ""
  }

  ghost predicate Sound(items: Cards) {
    && (forall i, j :: 0 <= i < j < |items| ==> items[i].id != items[j].id)
    && (forall c :: c in items ==> DoneAreBound(c.links))
  }

  /** Ids of new cards are unused: they are eight random hex digits. */
  predicate Admissible(items: Cards, op: Op) {
    match op
    case OpAdd(id, _, _, _) => IndexOf(items, id) == |items|
    case OpEnsure(_, _, _, _, freshId, _) => IndexOf(items, freshId) == |items|
    case OpStartLead(_, _, freshId, _) => IndexOf(items, freshId) == |items|
    case _ => true
  }

  /** Links that stay in place and keep every done mark with its key. */
  ghost predicate Evolves(a: seq<Link>, b: seq<Link>) {
    && |a| == |b|
    && forall j :: 0 <= j < |a| && a[j].done ==> b[j].done && KeyOf(b[j]) == KeyOf(a[j])
  }

  lemma {:induction false} EvolvesKeepsDone(a: seq<Link>, b: seq<Link>)
    requires Evolves(a, b)
    ensures DoneKeys(a) <= DoneKeys(b)
    decreases |a|
  {
    if a != [] {
      EvolvesKeepsDone(a[..|a| - 1], b[..|b| - 1]);
    }
  }

  lemma DoneKeysAppend(a: seq<Link>, l: Link)
    ensures DoneKeys(a + [l]) == DoneKeys(a) + if l.done then multiset{KeyOf(l)} else multiset{}
  {
    assert (a + [l])[..|a|] == a;
  }

  lemma {:induction false} OpenLinkDoesNotCount(a: seq<Link>, j: nat)
    requires j < |a| && !a[j].done
    ensures DoneKeys(Without(a, j)) == DoneKeys(a)
    decreases |a|
  {
    var front, last := a[..|a| - 1], a[|a| - 1];
    assert a == front + [last];
    DoneKeysAppend(front, last);
    if j == |front| {
      assert Without(a, j) == front;
    } else {
      assert Without(a, j) == Without(front, j) + [last];
      DoneKeysAppend(Without(front, j), last);
      OpenLinkDoesNotCount(front, j);
    }
  }

  // ----- what the changes of a list do to the histories -----

  /** items' is a sound list whose card id has at least the history it had. */
  ghost predicate Keeps(items: Cards, items': Cards, id: string) {
    Sound(items') && History(items, id) <= History(items', id)
  }

  /** In a sound list a card is found under its own id. */
  lemma FoundAt(items: Cards, k: nat)
    requires Sound(items) && k < |items|
    ensures IndexOf(items, items[k].id) == k
  {
  }

  lemma KeepsEach(items: Cards, items': Cards, id: string)
    requires Sound(items) && |items'| == |items|
    requires forall k :: 0 <= k < |items| ==>
      && items'[k].id == items[k].id && DoneKeys(items[k].links) <= DoneKeys(items'[k].links)
      && DoneAreBound(items'[k].links)
    ensures Keeps(items, items', id)
  {
    var k := IndexOf(items, id);
    if k < |items| {
      FoundAt(items', k);
    }
  }

  lemma KeepsUpdate(items: Cards, k: nat, c: Card, id: string)
    requires Sound(items) && k < |items|
    requires c.id == items[k].id && DoneKeys(items[k].links) <= DoneKeys(c.links) && DoneAreBound(c.links)
    ensures Keeps(items, items[k := c], id)
  {
    KeepsEach(items, items[k := c], id);
  }

  lemma KeepsAppend(items: Cards, c: Card, id: string)
    requires Sound(items) && IndexOf(items, c.id) == |items|
    requires DoneAreBound(c.links)
    ensures Keeps(items, items + [c], id)
  {
    var k := IndexOf(items, id);
    assert Sound(items + [c]);
    if k < |items| {
      assert (items + [c])[k] == items[k];
      FoundAt(items + [c], k);
    }
  }

  lemma KeepsDelete(items: Cards, k: nat, id: string)
    requires Sound(items) && k < |items| && items[k].links != []
    requires DoneKeys(items[k].links) == multiset{}
    ensures Keeps(items, Without(items, k), id)
  {
    var rest := Without(items, k);
    assert Sound(rest) by {
      forall c | c in rest
        ensures DoneAreBound(c.links)
      {
        assert c in items;
      }
    }
    var i := IndexOf(items, id);
    if i < |items| && i != k {
      var at := if i < k then i else i - 1;
      assert rest[at] == items[i];
      FoundAt(rest, at);
    }
  }

  lemma {:induction false} RemovedCards(items: Cards, gone: string)
    requires Sound(items)
    ensures Sound(Remove(items, gone))
    ensures forall c :: c in Remove(items, gone) <==> c in items && c.id != gone
    decreases |items|
  {
    if items != [] {
      var front := items[..|items| - 1];
      RemovedCards(front, gone);
      var r, last := Remove(front, gone), items[|items| - 1];
      assert items == front + [last];
      assert forall c :: c in items <==> c in front || c == last;
      forall i | 0 <= i < |r|
        ensures r[i].id != last.id
      {
        assert r[i] in front;
        var j :| 0 <= j < |front| && front[j] == r[i];
        assert items[j].id != items[|items| - 1].id;
      }
    }
  }

  lemma KeepsRemove(items: Cards, gone: string, id: string)
    requires Sound(items) && id != gone
    ensures Keeps(items, Remove(items, gone), id)
  {
    RemovedCards(items, gone);
    var k := IndexOf(items, id);
    if k < |items| {
      var r := Remove(items, gone);
      assert items[k] in r;
      var j :| 0 <= j < |r| && r[j] == items[k];
      FoundAt(r, j);
    }
  }

  // ----- what the operations do to the links of a card -----

  lemma ReportEvolves(c: Card, ledgerId: string, itemId: string, role: string, now: int)
    requires DoneAreBound(c.links) && ledgerId != ""
    requires ReportCard(c, ledgerId, itemId, role, now).Some?
    ensures var c' := ReportCard(c, ledgerId, itemId, role, now).value;
      c'.id == c.id && Evolves(c.links, c'.links) && DoneAreBound(c'.links)
  {
    var h := HitIndex(c.links, ledgerId, itemId, role);
    if h >= 0 {
      var links := MarkDone(c.links, h, HitLink(c.links[h], ledgerId, role));
      forall l | l in links && l.done
        ensures l.taskId != ""
      {
        var j :| 0 <= j < |links| && links[j] == l;
        assert c.links[j] in c.links;
      }
    }
  }

  lemma ReconcileEvolves(c: Card, ledger: Ledger, now: int)
    requires DoneAreBound(c.links)
    ensures var c' := ReconcileCard(c, ledger, now).0;
      c'.id == c.id && Evolves(c.links, c'.links) && DoneAreBound(c'.links)
  {
    var links := MarkLinks(c.links, ledger);
    forall l | l in links && l.done
      ensures l.taskId != ""
    {
      var j :| 0 <= j < |links| && links[j] == l;
      assert c.links[j] in c.links;
    }
  }

  // ----- one step of each kind -----

  lemma ReportKeeps(items: Cards, ledgerId: string, itemId: string, role: string, now: int, id: string)
    requires Sound(items)
    ensures Keeps(items, OnLedgerDone(items, ledgerId, itemId, role, now), id)
  {
    var k := ReportedIndex(items, ledgerId, itemId, role, now);
    if ledgerId != "" && k < |items| {
      ReportEvolves(items[k], ledgerId, itemId, role, now);
      var c := ReportCard(items[k], ledgerId, itemId, role, now).value;
      EvolvesKeepsDone(items[k].links, c.links);
      KeepsUpdate(items, k, c, id);
    }
  }

  lemma ReconcileKeeps(items: Cards, ledger: Ledger, now: int, id: string)
    requires Sound(items)
    ensures Keeps(items, Reconcile(items, ledger, now), id)
  {
    var r := ReconcileCards(items, ledger, now);
    forall k | 0 <= k < |items|
      ensures r[k].id == items[k].id && DoneKeys(items[k].links) <= DoneKeys(r[k].links) && DoneAreBound(r[k].links)
    {
      ReconcileEvolves(items[k], ledger, now);
      EvolvesKeepsDone(items[k].links, r[k].links);
    }
    KeepsEach(items, r, id);
  }

  lemma LinkAssignKeeps(items: Cards, cardId: string, role: string, now: int, id: string)
    requires Sound(items)
    ensures Keeps(items, LinkAssign(items, cardId, role, now), id)
  {
    var k := IndexOf(items, cardId);
    if k < |items| {
      var c := HandOff(items[k], role, now);
      DoneKeysAppend(items[k].links, c.links[|items[k].links|]);
      KeepsUpdate(items, k, c, id);
    }
  }

  lemma CancelKeeps(items: Cards, cardId: string, role: string, now: int, id: string)
    requires Sound(items)
    ensures Keeps(items, Cancel(items, cardId, role, now), id)
  {
    var k := IndexOf(items, cardId);
    if k < |items| {
      var c := items[k];
      var j := NewestUnbound(c.links, role);
      if j >= 0 {
        assert c.links[j] in c.links;
        OpenLinkDoesNotCount(c.links, j);
        var links := Without(c.links, j);
        assert forall l :: l in links ==> l in c.links;
        if AllDone(links) && c.autoTask.Some? && links == [] {
          KeepsDelete(items, k, id);
        } else if AllDone(links) {
          KeepsUpdate(items, k, RestoreCard(c.(links := links), c.links[j], now), id);
        } else {
          KeepsUpdate(items, k, c.(links := links), id);
        }
      }
    }
  }

  /** Rewriting a link that is not done, to one that is not done either. */
  lemma RewriteKeeps(items: Cards, k: nat, j: nat, l: Link, now: int, id: string)
    requires Sound(items) && k < |items| && j < |items[k].links|
    requires !items[k].links[j].done && !l.done
    ensures Keeps(items, items[k := items[k].(links := items[k].links[j := l], updatedTs := now)], id)
  {
    var c := items[k];
    var links := c.links[j := l];
    EvolvesKeepsDone(c.links, links);
    assert forall m :: m in links ==> m in c.links || m == l;
    KeepsUpdate(items, k, c.(links := links, updatedTs := now), id);
  }

  lemma RetargetKeeps(items: Cards, cardId: string, role: string, newRole: string, now: int, id: string)
    requires Sound(items)
    ensures Keeps(items, Retarget(items, cardId, role, newRole, now), id)
  {
    var k := IndexOf(items, cardId);
    if k < |items| {
      var j := NewestUnbound(items[k].links, role);
      if j >= 0 {
        assert items[k].links[j] in items[k].links;
        RewriteKeeps(items, k, j, items[k].links[j].(role := newRole), now, id);
      }
    }
  }

  lemma BindKeeps(items: Cards, role: string, taskId: string, cardId: string, now: int, id: string)
    requires Sound(items)
    ensures Keeps(items, Bind(items, role, taskId, cardId, now), id)
  {
    var unbound := BindCard(items, role, cardId, true);
    var k := if unbound >= 0 then unbound else BindCard(items, role, cardId, false);
    if taskId != "" && k >= 0 {
      var j := BindIndex(items[k].links, role, unbound >= 0);
      RewriteKeeps(items, k, j, items[k].links[j].(taskId := taskId), now, id);
    }
  }

  lemma EnsureKeeps(items: Cards, role: string, fingerprint: string, title: string, cardId: string,
                                       freshId: string, now: int, id: string)
    requires Sound(items) && IndexOf(items, freshId) == |items|
    ensures Keeps(items, Ensure(items, role, fingerprint, title, cardId, freshId, now).0, id)
  {
    var k := ReuseIndex(items, fingerprint, now);
    if cardId != "" {
      LinkAssignKeeps(items, cardId, role, now, id);
    } else if k < |items| {
      LinkAssignKeeps(items, items[k].id, role, now, id);
    } else {
      KeepsAppend(items, AutoCard(items, freshId, title, fingerprint, role, now), id);
    }
  }

  lemma StartLeadKeeps(items: Cards, cardId: string, title: string, freshId: string, now: int, id: string)
    requires Sound(items) && IndexOf(items, freshId) == |items|
    ensures Keeps(items, StartLead(items, cardId, title, freshId, now).0, id)
  {
    if cardId != "" {
      LinkAssignKeeps(items, cardId, LEAD, now, id);
    } else if title != "" {
      KeepsAppend(items, NewCard(items, freshId, title, Doing, now), id);
      LinkAssignKeeps(AddItem(items, freshId, title, Doing, now), freshId, LEAD, now, id);
    }
  }

  lemma StatusKeeps(items: Cards, k: nat, c: Card, id: string)
    requires Sound(items) && k < |items| && c.id == items[k].id && c.links == items[k].links
    ensures Keeps(items, items[k := c], id)
  {
    assert items[k] in items;
    KeepsUpdate(items, k, c, id);
  }

  lemma StepKeeps(items: Cards, op: Op, id: string)
    requires Sound(items) && Admissible(items, op) && op != OpRemove(id)
    ensures Keeps(items, Step(items, op), id)
  {
    match op
    case OpAdd(cardId, title, status, now) =>
      if title != "" {
        KeepsAppend(items, NewCard(items, cardId, title, status, now), id);
      }
    case OpSetStatus(cardId, status, reason, now) =>
      var k := IndexOf(items, cardId);
      if k < |items| {
        StatusKeeps(items, k, Step(items, op)[k], id);
      }
    case OpAssignItem(cardId, taskId, now) =>
      var k := IndexOf(items, cardId);
      if k < |items| {
        StatusKeeps(items, k, Step(items, op)[k], id);
      }
    case OpReport(taskId, cardId, role, now) => ReportKeeps(items, taskId, cardId, role, now, id);
    case OpReconcile(ledger, now) => ReconcileKeeps(items, ledger, now, id);
    case OpLinkAssign(cardId, role, now) => LinkAssignKeeps(items, cardId, role, now, id);
    case OpCancel(cardId, role, now) => CancelKeeps(items, cardId, role, now, id);
    case OpRetarget(cardId, role, newRole, now) => RetargetKeeps(items, cardId, role, newRole, now, id);
    case OpEnsure(cardId, role, fingerprint, title, freshId, now) =>
      EnsureKeeps(items, role, fingerprint, title, cardId, freshId, now, id);
    case OpStartLead(cardId, title, freshId, now) => StartLeadKeeps(items, cardId, title, freshId, now, id);
    case OpBind(cardId, role, taskId, now) => BindKeeps(items, role, taskId, cardId, now, id);
    case OpRemove(gone) => KeepsRemove(items, gone, id);
  }

  /** Every operation of the run makes its new cards under unused ids. */
  ghost predicate AdmissibleRun(items: Cards, ops: seq<Op>) {
    forall n :: 0 <= n < |ops| ==> Admissible(Run(items, ops[..n]), ops[n])
  }

  /**
   Over every run the list stays sound, and unless the card itself is removed,
   no finished hand-off of it is ever lost or altered.
   */
  lemma {:induction false} RunKeepsDone(items: Cards, ops: seq<Op>, id: string)
    requires Sound(items) && AdmissibleRun(items, ops) && OpRemove(id) !in ops
    ensures Sound(Run(items, ops))
    ensures History(items, id) <= History(Run(items, ops), id)
    decreases |ops|
  {
    if ops != [] {
      var n := |ops| - 1;
      assert AdmissibleRun(items, ops[..n]) by {
        assert forall m :: 0 <= m < n ==> ops[..n][..m] == ops[..m];
      }
      RunKeepsDone(items, ops[..n], id);
      assert Admissible(Run(items, ops[..n]), ops[n]);
      StepKeeps(Run(items, ops[..n]), ops[n], id);
    }
  }

  /** Only a link without a task is ever superseded, by a finished hand-off of its role that is not older. */
  lemma SupersededWasUnbound(c: Card, ledgerId: string, itemId: string, role: string, now: int, j: nat)
    requires ReportCard(c, ledgerId, itemId, role, now).Some? && j < |c.links|
    ensures var links := ReportCard(c, ledgerId, itemId, role, now).value.links;
      |links| == |c.links| && (links[j].superseded && !c.links[j].superseded ==>
        && links[j].taskId == c.links[j].taskId == ""
        && exists h :: 0 <= h < |links| && h != j && links[h].done && links[h].taskId == ledgerId
                       && links[h].role == links[j].role && links[j].ts <= links[h].ts)
  {
    var links := ReportCard(c, ledgerId, itemId, role, now).value.links;
    var h := HitIndex(c.links, ledgerId, itemId, role);
    if h >= 0 && h != j {
      assert links[h] == HitLink(c.links[h], ledgerId, role);
    }
  }
}
