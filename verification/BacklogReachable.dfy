/** Round trips on the lists the operations lead to: a card made for an assign always has a hand-off. */
module BacklogReachable {
  import opened Wrappers
  import opened BacklogModel
  import opened BacklogRoundTrip

  /** Cards made for an assign are saved with their first hand-off, and go with their last. */
  ghost predicate HandedOff(items: Cards) {
    forall c :: c in items ==> KeepsHandOff(c)
  }

  predicate KeepsHandOff(c: Card) {
    c.autoTask.Some? ==> c.links != []
  }

  lemma Rewritten(items: Cards, k: nat, c: Card)
    requires HandedOff(items) && k < |items| && KeepsHandOff(c)
    ensures HandedOff(items[k := c])
  {
    assert forall d :: d in items[k := c] ==> d in items || d == c;
  }

  lemma Grown(items: Cards, c: Card)
    requires HandedOff(items) && KeepsHandOff(c)
    ensures HandedOff(items + [c])
  {
  }

  /** The card at k after an operation that only rewrites it, with the links it had or more. */
  lemma SameLength(items: Cards, items': Cards)
    requires HandedOff(items) && |items'| == |items|
    requires forall k :: 0 <= k < |items| ==>
      items'[k].autoTask == items[k].autoTask && (|items'[k].links| >= |items[k].links| || items'[k].links != [])
    ensures HandedOff(items')
  {
    forall c | c in items'
      ensures KeepsHandOff(c)
    {
      var k :| 0 <= k < |items'| && items'[k] == c;
      assert items[k] in items;
    }
  }

  lemma CancelKeepsHandedOff(items: Cards, id: string, role: string, now: int)
    requires HandedOff(items)
    ensures HandedOff(Cancel(items, id, role, now))
  {
    var after := Cancel(items, id, role, now);
    var k := IndexOf(items, id);
    if k < |items| {
      var j := NewestUnbound(items[k].links, role);
      if j >= 0 {
        var links := Without(items[k].links, j);
        if |after| == |items| {
          assert AllDone(links) || links != [];
          Rewritten(items, k, after[k]);
        } else {
          assert forall c :: c in after ==> c in items;
        }
      }
    }
  }

  lemma {:induction false} RemoveKeepsHandedOff(items: Cards, gone: string)
    requires HandedOff(items)
    ensures HandedOff(Remove(items, gone))
  {
    if items != [] {
      var front, last := items[..|items| - 1], items[|items| - 1];
      assert items == front + [last];
      RemoveKeepsHandedOff(front, gone);
    }
  }

  lemma LinkAssignKeepsHandedOff(items: Cards, id: string, role: string, now: int)
    requires HandedOff(items)
    ensures HandedOff(LinkAssign(items, id, role, now))
  {
    SameLength(items, LinkAssign(items, id, role, now));
  }

  lemma EnsureKeepsHandedOff(items: Cards, id: string, role: string, fingerprint: string, title: string,
    freshId: string, now: int)
    requires HandedOff(items)
    ensures HandedOff(Ensure(items, role, fingerprint, title, id, freshId, now).0)
  {
    var k := ReuseIndex(items, fingerprint, now);
    if id != "" {
      LinkAssignKeepsHandedOff(items, id, role, now);
    } else if k < |items| {
      LinkAssignKeepsHandedOff(items, items[k].id, role, now);
    } else {
      Grown(items, AutoCard(items, freshId, title, fingerprint, role, now));
    }
  }

  lemma StartLeadKeepsHandedOff(items: Cards, id: string, title: string, freshId: string, now: int)
    requires HandedOff(items)
    ensures HandedOff(StartLead(items, id, title, freshId, now).0)
  {
    if id != "" {
      LinkAssignKeepsHandedOff(items, id, LEAD, now);
    } else if title != "" {
      Grown(items, NewCard(items, freshId, title, Doing, now));
      LinkAssignKeepsHandedOff(AddItem(items, freshId, title, Doing, now), freshId, LEAD, now);
    }
  }

  lemma ReportKeepsHandedOff(items: Cards, taskId: string, id: string, role: string, now: int)
    requires HandedOff(items)
    ensures HandedOff(OnLedgerDone(items, taskId, id, role, now))
  {
    SameLength(items, OnLedgerDone(items, taskId, id, role, now));
  }

  lemma RetargetKeepsHandedOff(items: Cards, id: string, role: string, newRole: string, now: int)
    requires HandedOff(items)
    ensures HandedOff(Retarget(items, id, role, newRole, now))
  {
    SameLength(items, Retarget(items, id, role, newRole, now));
  }

  lemma BindKeepsHandedOff(items: Cards, role: string, taskId: string, id: string, now: int)
    requires HandedOff(items)
    ensures HandedOff(Bind(items, role, taskId, id, now))
  {
    SameLength(items, Bind(items, role, taskId, id, now));
  }

  lemma StepKeepsHandedOff(items: Cards, op: Op)
    requires HandedOff(items)
    ensures HandedOff(Step(items, op))
  {
    match op
    case OpAdd(id, title, status, now) => Grown(items, NewCard(items, id, title, status, now));
    case OpCancel(id, role, now) => CancelKeepsHandedOff(items, id, role, now);
    case OpEnsure(id, role, fingerprint, title, freshId, now) =>
      EnsureKeepsHandedOff(items, id, role, fingerprint, title, freshId, now);
    case OpStartLead(id, title, freshId, now) => StartLeadKeepsHandedOff(items, id, title, freshId, now);
    case OpRemove(gone) => RemoveKeepsHandedOff(items, gone);
    case OpReport(taskId, id, role, now) => ReportKeepsHandedOff(items, taskId, id, role, now);
    case OpReconcile(ledger, now) => SameLength(items, Reconcile(items, ledger, now));
    case OpRetarget(id, role, newRole, now) => RetargetKeepsHandedOff(items, id, role, newRole, now);
    case OpBind(id, role, taskId, now) => BindKeepsHandedOff(items, role, taskId, id, now);
    case OpSetStatus(id, status, reason, now) => SameLength(items, SetStatus(items, id, status, reason, now));
    case OpAssignItem(id, taskId, now) => SameLength(items, AssignItem(items, id, taskId, now));
    case OpLinkAssign(id, role, now) => LinkAssignKeepsHandedOff(items, id, role, now);
  }

  /** On every list a run leads to, from one that was empty or had it, a card made for an assign has a hand-off. */
  lemma {:induction false} RunKeepsHandedOff(items: Cards, ops: seq<Op>)
    requires HandedOff(items)
    ensures HandedOff(Run(items, ops))
  {
    if ops != [] {
      RunKeepsHandedOff(items, ops[..|ops| - 1]);
      StepKeepsHandedOff(Run(items, ops[..|ops| - 1]), ops[|ops| - 1]);
    }
  }

  /**
   On every list that operations lead to from an empty one, a round trip restores the list if and only if the
   card's hand-offs before it were all done, or the card was being worked on without a reason.
   */
  lemma ReachableTripRestores(ops: seq<Op>, k: nat, trips: seq<Trip>)
    requires k < |Run([], ops)| && k == IndexOf(Run([], ops), Run([], ops)[k].id)
    requires trips != []
    ensures var items := Run([], ops);
      Restored(items, k, Run(items, Script(items[k].id, trips))) <==>
      AllDone(items[k].links) || (items[k].status == Doing && items[k].reason == "")
  {
    var items := Run([], ops);
    RunKeepsHandedOff([], ops);
    assert items[k] in items;
    RoundTripRestores(items, k, trips);
  }

  /** A card is added, handed to a pane and then blocked with a reason. */
  function BlockedCard(id: string, title: string, role: string, reason: string): seq<Op> {
    [OpAdd(id, title, Todo, 0), OpLinkAssign(id, role, 1), OpSetStatus(id, Blocked, reason, 2)]
  }

  /** An assign of the blocked card that is canceled leaves it unblocked. */
  lemma BlockedCardIsUnblocked(id: string, title: string, role: string, reason: string, trip: Trip)
    requires title != ""
    ensures var items := Run([], BlockedCard(id, title, role, reason));
      var after := Run(items, Script(id, [trip]));
      && |items| == 1 && items[0].status == Blocked && items[0].reason == reason
      && |after| == 1 && after[0].status == Doing && after[0].reason == ""
  {
    var ops := BlockedCard(id, title, role, reason);
    assert ops[..2] == [ops[0], ops[1]] && ops[..2][..1] == [ops[0]] && [ops[0]][..0] == [];
    assert Run([], []) == [];
    var one := Run([], [ops[0]]);
    assert one == AddItem([], id, title, Todo, 0) == [NewCard([], id, title, Todo, 0)];
    var two := Run([], ops[..2]);
    assert two == [HandOff(one[0], role, 1)];
    var items := Run([], ops);
    assert items == SetStatus(two, id, Blocked, reason, 2);
    RoundTrip(items, 0, [trip]);
    assert items[0].links == two[0].links && !AllDone(items[0].links) by {
      assert items[0].links[0] in items[0].links;
    }
  }
}
