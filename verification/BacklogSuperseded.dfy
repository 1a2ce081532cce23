/** When a hand-off is given up: over every run, only while it carries no task id. */
module BacklogSuperseded {
  import opened Wrappers
  import opened BacklogModel

  /** A link that stays in its place is given up only without a task id, and otherwise unchanged by that. */
  predicate GivesUp(l: Link, m: Link) {
    m.superseded ==> l.superseded || (l.taskId == "" && m == l.(superseded := true))
  }

  /** An operation leaves the links in place and may append open ones, or pops one and leaves the rest as they were. */
  ghost predicate GivenUpUnbound(before: seq<Link>, after: seq<Link>) {
    InPlace(before, after) || exists k :: 0 <= k < |before| && after == Without(before, k)
  }

  ghost predicate InPlace(before: seq<Link>, after: seq<Link>) {
    && |before| <= |after|
    && (forall j :: 0 <= j < |before| ==> GivesUp(before[j], after[j]))
    && (forall j :: |before| <= j < |after| ==> !after[j].superseded)
  }

  /** The same for the cards of a list; a new card has given up nothing. */
  ghost predicate CardsGiveUpUnbound(items: Cards, items': Cards) {
    forall c' :: c' in items' ==> NothingGivenUp(c') || exists c :: c in items && Continues(c, c')
  }

  ghost predicate NothingGivenUp(c: Card) {
    forall l :: l in c.links ==> !l.superseded
  }

  ghost predicate Continues(c: Card, c': Card) {
    c.id == c'.id && GivenUpUnbound(c.links, c'.links)
  }

  lemma Unchanged(items: Cards, items': Cards)
    requires forall c :: c in items' ==> c in items
    ensures CardsGiveUpUnbound(items, items')
  {
    forall c | c in items'
      ensures exists d :: d in items && Continues(d, c)
    {
      assert InPlace(c.links, c.links) && Continues(c, c);
    }
  }

  lemma Updated(items: Cards, k: nat, c: Card)
    requires k < |items| && Continues(items[k], c)
    ensures CardsGiveUpUnbound(items, items[k := c])
  {
    Unchanged(items, items);
    assert items[k] in items;
    assert forall d :: d in items[k := c] ==> d in items || d == c;
  }

  lemma Appended(items: Cards, c: Card)
    requires NothingGivenUp(c)
    ensures CardsGiveUpUnbound(items, items + [c])
  {
    Unchanged(items, items);
    assert forall d :: d in items + [c] ==> d in items || d == c;
  }

  /** One link rewritten, none given up by it. */
  lemma Rewritten(links: seq<Link>, j: nat, l: Link)
    requires j < |links| && l.superseded == links[j].superseded && l.ts == links[j].ts
    ensures GivenUpUnbound(links, links[j := l])
  {
    assert InPlace(links, links[j := l]);
  }

  /** A report gives up links of the role it hits, and only those without a task id. */
  lemma ReportGivesUp(c: Card, ledgerId: string, itemId: string, role: string, now: int)
    requires ReportCard(c, ledgerId, itemId, role, now).Some?
    ensures Continues(c, ReportCard(c, ledgerId, itemId, role, now).value)
  {
    var h := HitIndex(c.links, ledgerId, itemId, role);
    assert InPlace(c.links, c.links);
    if h >= 0 {
      assert InPlace(c.links, MarkDone(c.links, h, HitLink(c.links[h], ledgerId, role)));
    }
  }

  lemma ReconcileGivesUp(items: Cards, ledger: Ledger, now: int)
    ensures CardsGiveUpUnbound(items, Reconcile(items, ledger, now))
  {
    Unchanged(items, items);
    var r := ReconcileCards(items, ledger, now);
    forall c' | c' in r
      ensures exists c :: c in items && Continues(c, c')
    {
      var k :| 0 <= k < |r| && r[k] == c';
      CardGivesUp(items[k], ledger, now);
      assert items[k] in items && Continues(items[k], c');
    }
  }

  lemma CardGivesUp(c: Card, ledger: Ledger, now: int)
    ensures Continues(c, ReconcileCard(c, ledger, now).0)
  {
    assert InPlace(c.links, c.links) && InPlace(c.links, MarkLinks(c.links, ledger));
  }

  lemma LinkAssignGivesUp(items: Cards, cardId: string, role: string, now: int)
    ensures CardsGiveUpUnbound(items, LinkAssign(items, cardId, role, now))
  {
    Unchanged(items, items);
    var k := IndexOf(items, cardId);
    if k < |items| {
      assert InPlace(items[k].links, HandOff(items[k], role, now).links);
      Updated(items, k, HandOff(items[k], role, now));
    }
  }

  lemma CancelGivesUp(items: Cards, cardId: string, role: string, now: int)
    ensures CardsGiveUpUnbound(items, Cancel(items, cardId, role, now))
  {
    var after := Cancel(items, cardId, role, now);
    Unchanged(items, items);
    var k := IndexOf(items, cardId);
    if k < |items| {
      var j := NewestUnbound(items[k].links, role);
      if j >= 0 {
        assert GivenUpUnbound(items[k].links, Without(items[k].links, j));
        if |after| == |items| {
          Updated(items, k, after[k]);
        } else {
          Unchanged(items, after);
        }
      }
    }
  }

  lemma RetargetGivesUp(items: Cards, cardId: string, role: string, newRole: string, now: int)
    ensures CardsGiveUpUnbound(items, Retarget(items, cardId, role, newRole, now))
  {
    Unchanged(items, items);
    var k := IndexOf(items, cardId);
    if k < |items| {
      var j := NewestUnbound(items[k].links, role);
      if j >= 0 {
        Rewritten(items[k].links, j, items[k].links[j].(role := newRole));
        Updated(items, k, Retarget(items, cardId, role, newRole, now)[k]);
      }
    }
  }

  lemma BindGivesUp(items: Cards, role: string, taskId: string, cardId: string, now: int)
    ensures CardsGiveUpUnbound(items, Bind(items, role, taskId, cardId, now))
  {
    Unchanged(items, items);
    var unbound := BindCard(items, role, cardId, true);
    var k := if unbound >= 0 then unbound else BindCard(items, role, cardId, false);
    if taskId != "" && k >= 0 {
      var j := BindIndex(items[k].links, role, unbound >= 0);
      Rewritten(items[k].links, j, items[k].links[j].(taskId := taskId));
      var links := items[k].links[j := items[k].links[j].(taskId := taskId)];
      Updated(items, k, items[k].(links := links, updatedTs := now));
    }
  }

  lemma EnsureGivesUp(items: Cards, role: string, fingerprint: string, title: string, cardId: string, freshId: string,
    now: int)
    ensures CardsGiveUpUnbound(items, Ensure(items, role, fingerprint, title, cardId, freshId, now).0)
  {
    Unchanged(items, items);
    var k := ReuseIndex(items, fingerprint, now);
    if cardId != "" {
      LinkAssignGivesUp(items, cardId, role, now);
    } else if k < |items| {
      LinkAssignGivesUp(items, items[k].id, role, now);
    } else {
      Appended(items, AutoCard(items, freshId, title, fingerprint, role, now));
    }
  }

  lemma StartLeadGivesUp(items: Cards, cardId: string, title: string, freshId: string, now: int)
    ensures CardsGiveUpUnbound(items, StartLead(items, cardId, title, freshId, now).0)
  {
    Unchanged(items, items);
    if cardId != "" {
      LinkAssignGivesUp(items, cardId, LEAD, now);
    } else if title != "" {
      var c := NewCard(items, freshId, title, Doing, now);
      LinkAssignGivesUp(items + [c], freshId, LEAD, now);
      var after := LinkAssign(items + [c], freshId, LEAD, now);
      forall c' | c' in after
        ensures NothingGivenUp(c') || exists d :: d in items && Continues(d, c')
      {
        if !NothingGivenUp(c') {
          var d :| d in items + [c] && Continues(d, c');
          assert d == c ==> NothingGivenUp(c');
        }
      }
    }
  }

  /** One operation of any kind. */
  lemma StepGivesUpUnbound(items: Cards, op: Op)
    ensures CardsGiveUpUnbound(items, Step(items, op))
  {
    Unchanged(items, items);
    match op
    case OpAdd(cardId, title, status, now) =>
      if title != "" {
        Appended(items, NewCard(items, cardId, title, status, now));
      }
    case OpSetStatus(cardId, status, reason, now) => LinksKept(items, op, IndexOf(items, cardId));
    case OpAssignItem(cardId, taskId, now) => LinksKept(items, op, IndexOf(items, cardId));
    case OpReport(taskId, cardId, role, now) =>
      var k := ReportedIndex(items, taskId, cardId, role, now);
      if taskId != "" && k < |items| {
        ReportGivesUp(items[k], taskId, cardId, role, now);
        Updated(items, k, Step(items, op)[k]);
      }
    case OpReconcile(ledger, now) => ReconcileGivesUp(items, ledger, now);
    case OpLinkAssign(cardId, role, now) => LinkAssignGivesUp(items, cardId, role, now);
    case OpCancel(cardId, role, now) => CancelGivesUp(items, cardId, role, now);
    case OpRetarget(cardId, role, newRole, now) => RetargetGivesUp(items, cardId, role, newRole, now);
    case OpEnsure(cardId, role, fingerprint, title, freshId, now) =>
      EnsureGivesUp(items, role, fingerprint, title, cardId, freshId, now);
    case OpStartLead(cardId, title, freshId, now) => StartLeadGivesUp(items, cardId, title, freshId, now);
    case OpBind(cardId, role, taskId, now) => BindGivesUp(items, role, taskId, cardId, now);
    case OpRemove(gone) =>
      RemovedSome(items, gone);
      Unchanged(items, Remove(items, gone));
  }

  lemma LinksKept(items: Cards, op: Op, k: nat)
    requires (op.OpSetStatus? && k == IndexOf(items, op.id)) || (op.OpAssignItem? && k == IndexOf(items, op.id))
    ensures CardsGiveUpUnbound(items, Step(items, op))
  {
    Unchanged(items, items);
    if k < |items| {
      assert InPlace(items[k].links, items[k].links);
      Updated(items, k, Step(items, op)[k]);
    }
  }

  lemma {:induction false} RemovedSome(items: Cards, gone: string)
    ensures forall c :: c in Remove(items, gone) ==> c in items
  {
    if items != [] {
      RemovedSome(items[..|items| - 1], gone);
    }
  }

  /** In every run, whatever its operations, a link is given up only while it carries no task id. */
  lemma RunGivesUpUnbound(items: Cards, ops: seq<Op>, n: nat)
    requires n < |ops|
    ensures CardsGiveUpUnbound(Run(items, ops[..n]), Run(items, ops[..n + 1]))
  {
    assert ops[..n + 1][..n] == ops[..n];
    StepGivesUpUnbound(Run(items, ops[..n]), ops[n]);
  }
}
