/**
 Which card and which hand-off a binding, an assign, a cancel or a retarget reaches, and what it makes of them, said of
 the list before and after alone.
 */
module BacklogAssigns {
  import opened Wrappers
  import opened BacklogModel

  // ----- binding -----

  /** An open link of the role on a card being worked on, that the call may mean. */
  predicate CouldBind(c: Card, itemId: string, j: int, role: string) {
    && c.status == Doing && (itemId == "" || c.id == itemId)
    && 0 <= j < |c.links| && c.links[j].role == role && !c.links[j].done
  }

  ghost predicate SomeUnbound(items: Cards, itemId: string, role: string) {
    exists k, j :: 0 <= k < |items| && CouldBind(items[k], itemId, j, role) && items[k].links[j].taskId == ""
  }

  ghost predicate SomeOpen(items: Cards, itemId: string, role: string) {
    exists k, j :: 0 <= k < |items| && CouldBind(items[k], itemId, j, role)
  }

  /** Link j of card k is the one an id goes to: without an id if any is, the newest of the card updated last. */
  ghost predicate Binds(items: Cards, itemId: string, role: string, k: int, j: int) {
    var unbound := SomeUnbound(items, itemId, role);
    && 0 <= k < |items| && CouldBind(items[k], itemId, j, role) && (unbound ==> items[k].links[j].taskId == "")
    && (forall i :: j < i && CouldBind(items[k], itemId, i, role) ==> unbound && items[k].links[i].taskId != "")
    && forall m, i :: 0 <= m < |items| && CouldBind(items[m], itemId, i, role)
                      && (unbound ==> items[m].links[i].taskId == "") ==>
         items[m].updatedTs < items[k].updatedTs || (items[m].updatedTs == items[k].updatedTs && k <= m)
  }

  lemma Candidates(items: Cards, itemId: string, role: string, unbound: bool, k: nat)
    requires k < |items|
    ensures BindCandidate(items[k], role, itemId, unbound) <==>
      exists j :: CouldBind(items[k], itemId, j, role) && (unbound ==> items[k].links[j].taskId == "")
  {
    var c := items[k];
    var b := BindIndex(c.links, role, unbound);
    if BindCandidate(c, role, itemId, unbound) {
      assert CouldBind(c, itemId, b, role);
    }
    if j :| CouldBind(c, itemId, j, role) && (unbound ==> c.links[j].taskId == "") {
      assert Bindable(c.links[j], role, unbound);
    }
  }

  lemma SearchExactly(items: Cards, itemId: string, role: string, unbound: bool)
    ensures BindCard(items, role, itemId, unbound) >= 0 <==>
      exists k, j :: 0 <= k < |items| && CouldBind(items[k], itemId, j, role)
                     && (unbound ==> items[k].links[j].taskId == "")
  {
    var b := BindCard(items, role, itemId, unbound);
    forall k | 0 <= k < |items|
      ensures BindCandidate(items[k], role, itemId, unbound) <==>
        exists j :: CouldBind(items[k], itemId, j, role) && (unbound ==> items[k].links[j].taskId == "")
    {
      Candidates(items, itemId, role, unbound, k);
    }
    if b >= 0 {
      assert BindCandidate(items[b], role, itemId, unbound);
    }
  }

  function BoundAt(items: Cards, k: int, j: int, taskId: string, now: int): Cards
    requires 0 <= k < |items| && 0 <= j < |items[k].links|
  {
    var c := items[k];
    if c.links[j].taskId == taskId then items
    else items[k := c.(links := c.links[j := c.links[j].(taskId := taskId)], updatedTs := now)]
  }

  /** An id is bound to that link, and to none if no open link of the role is there. */
  lemma BindExactly(items: Cards, role: string, taskId: string, itemId: string, now: int)
    requires taskId != ""
    ensures !SomeOpen(items, itemId, role) ==> Bind(items, role, taskId, itemId, now) == items
    ensures SomeOpen(items, itemId, role) ==> exists k, j :: (Binds(items, itemId, role, k, j) &&
      Bind(items, role, taskId, itemId, now) == BoundAt(items, k, j, taskId, now))
  {
    var unbound := BindCard(items, role, itemId, true);
    SearchExactly(items, itemId, role, true);
    SearchExactly(items, itemId, role, false);
    var k := if unbound >= 0 then unbound else BindCard(items, role, itemId, false);
    if k >= 0 {
      BindsAt(items, itemId, role, k, BindIndex(items[k].links, role, unbound >= 0));
    }
  }

  lemma BindsAt(items: Cards, itemId: string, role: string, k: int, j: int)
    requires var unbound := SomeUnbound(items, itemId, role);
      && 0 <= k < |items| && k == BindCard(items, role, itemId, unbound)
      && j == BindIndex(items[k].links, role, unbound)
    ensures j >= 0 && Binds(items, itemId, role, k, j)
  {
    var unbound := SomeUnbound(items, itemId, role);
    forall m, i | 0 <= m < |items| && CouldBind(items[m], itemId, i, role)
                  && (unbound ==> items[m].links[i].taskId == "")
      ensures items[m].updatedTs < items[k].updatedTs || (items[m].updatedTs == items[k].updatedTs && k <= m)
    {
      Candidates(items, itemId, role, unbound, m);
    }
    forall i | j < i && CouldBind(items[k], itemId, i, role)
      ensures unbound && items[k].links[i].taskId != ""
    {
      assert !Bindable(items[k].links[i], role, unbound);
    }
  }

  // ----- assign, cancel, retarget -----

  /** Position k is the first at which the card id stands. */
  ghost predicate FirstCard(items: Cards, id: string, k: nat) {
    k < |items| && items[k].id == id && forall j :: 0 <= j < k ==> items[j].id != id
  }

  /** A card made for the same task within two minutes, and still being worked on. */
  predicate Recent(c: Card, fingerprint: string, now: int) {
    c.autoTask == Some(fingerprint) && c.status == Doing && now - c.createdTs <= 120_000_000
  }

  /** Link j is the newest one of the role without an id. */
  ghost predicate NewestWithoutId(links: seq<Link>, role: string, j: nat) {
    && j < |links| && links[j].role == role && links[j].taskId == ""
    && forall i :: j < i < |links| ==> !(links[i].role == role && links[i].taskId == "")
  }

  ghost predicate NoneWithoutId(links: seq<Link>, role: string) {
    forall i :: 0 <= i < |links| ==> !(links[i].role == role && links[i].taskId == "")
  }

  /** Where the first card of the id is, if there is one. */
  lemma FirstCardExactly(items: Cards, id: string)
    ensures var k := IndexOf(items, id);
      if k < |items| then FirstCard(items, id, k) else forall c :: c in items ==> c.id != id
  {
  }

  /** The number is one above the largest, and 1 if none is above zero. */
  ghost predicate OneAbove(items: Cards, n: int) {
    (forall c :: c in items ==> c.number < n) && (n == 1 || exists c :: c in items && c.number == n - 1)
  }

  lemma {:induction false} LargestNumber(items: Cards)
    ensures OneAbove(items, MaxNumber(items) + 1)
  {
    if items != [] {
      LargestNumber(items[..|items| - 1]);
      assert items == items[..|items| - 1] + [items[|items| - 1]];
    }
  }

  /** A card without a title is not added; any other comes last, idle, with the next number. */
  lemma AddExactly(items: Cards, id: string, title: string, status: Status, now: int)
    ensures title == "" ==> AddItem(items, id, title, status, now) == items
    ensures title != "" ==> exists n :: (OneAbove(items, n) &&
      AddItem(items, id, title, status, now) ==
        items + [Card(id, n, title, status, "", "", [], None, now, now, None)])
  {
    LargestNumber(items);
  }

  /** A status is set on the first card of the id; the review clock runs exactly while the card is in review. */
  lemma StatusExactly(items: Cards, id: string, status: Status, reason: string, now: int, k: nat)
    requires FirstCard(items, id, k)
    ensures var (after, c) := (SetStatus(items, id, status, reason, now), items[k]);
      after == items[k := Card(c.id, c.number, c.title, status, reason, c.ledgerTaskId, c.links, c.autoTask,
                               c.createdTs, now, if status == Review then Some(now) else None)]
  {
    FirstCardExactly(items, id);
  }

  /** A card assigned by hand is being worked on for the task; its links and its reason stay. */
  lemma ByHandExactly(items: Cards, id: string, taskId: string, now: int, k: nat)
    requires FirstCard(items, id, k)
    ensures var (after, c) := (AssignItem(items, id, taskId, now), items[k]);
      after == items[k := Card(c.id, c.number, c.title, Doing, c.reason, taskId, c.links, c.autoTask,
                               c.createdTs, now, c.reviewSince)]
  {
    FirstCardExactly(items, id);
  }

  /** A hand-off keeps the status and the reason the card had, for a cancel, and starts work on it. */
  lemma LinkExactly(items: Cards, id: string, role: string, now: int, k: nat)
    requires FirstCard(items, id, k)
    ensures var (after, c) := (LinkAssign(items, id, role, now), items[k]);
      after == items[k := Card(c.id, c.number, c.title, Doing, "", c.ledgerTaskId,
                               c.links + [Link(role, "", false, false, false, now, Some(c.status), c.reason)],
                               c.autoTask, c.createdTs, now, c.reviewSince)]
  {
    FirstCardExactly(items, id);
  }

  /** None of these does anything for an unknown card. */
  lemma UnknownCardStays(items: Cards, id: string, status: Status, reason: string, taskId: string, role: string,
    now: int)
    requires forall c :: c in items ==> c.id != id
    ensures SetStatus(items, id, status, reason, now) == items && AssignItem(items, id, taskId, now) == items
    ensures LinkAssign(items, id, role, now) == items && Remove(items, id) == items
  {
    FirstCardExactly(items, id);
    NothingRemoved(items, id);
  }

  lemma {:induction false} NothingRemoved(items: Cards, id: string)
    requires forall c :: c in items ==> c.id != id
    ensures Remove(items, id) == items
  {
    if items != [] {
      NothingRemoved(items[..|items| - 1], id);
      assert items == items[..|items| - 1] + [items[|items| - 1]];
    }
  }

  /** Work the lead starts on a new card makes that card with one hand-off, which no report has to wait for. */
  lemma LeadMakesCard(items: Cards, title: string, freshId: string, now: int)
    requires title != "" && forall c :: c in items ==> c.id != freshId
    ensures var (after, answer) := StartLead(items, "", title, freshId, now);
      && answer == Granted(freshId, true)
      && exists n :: OneAbove(items, n)
           && after == items + [Card(freshId, n, title, Doing, "", "",
                [Link("lead", "", false, false, false, now, Some(Doing), "")], None, now, now, None)]
  {
    AddExactly(items, freshId, title, Doing, now);
    var added := AddItem(items, freshId, title, Doing, now);
    var n :| OneAbove(items, n) && added == items + [Card(freshId, n, title, Doing, "", "", [], None, now, now, None)];
    assert FirstCard(added, freshId, |items|);
    LinkExactly(added, freshId, LEAD, now, |items|);
    var card := Card(freshId, n, title, Doing, "", "",
      [Link("lead", "", false, false, false, now, Some(Doing), "")], None, now, now, None);
    assert [] + card.links == card.links;
    assert added[|items| := card] == items + [card];
  }

  /** On a named card the lead starts as any role does. */
  lemma LeadNamesCard(items: Cards, id: string, title: string, fingerprint: string, freshId: string, now: int)
    requires id != ""
    ensures StartLead(items, id, title, freshId, now) == Ensure(items, "lead", fingerprint, title, id, freshId, now)
  {
  }

  /** An assign that names a card is refused exactly if it is closed, and is new work if the card was idle. */
  lemma NamedAssignExactly(items: Cards, role: string, fingerprint: string, title: string, id: string, freshId: string,
    now: int, k: nat)
    requires id != "" && FirstCard(items, id, k)
    ensures Ensure(items, role, fingerprint, title, id, freshId, now) ==
      if items[k].status in {Status.Done, Wont} then (items, Refused(CardClosed))
      else (LinkAssign(items, id, role, now), Granted(id, items[k].status != Doing))
  {
    FirstCardExactly(items, id);
  }

  /** One that names an unknown card is refused. */
  lemma UnknownAssignRefused(items: Cards, role: string, fingerprint: string, title: string, id: string,
    freshId: string, now: int)
    requires id != "" && forall c :: c in items ==> c.id != id
    ensures Ensure(items, role, fingerprint, title, id, freshId, now) == (items, Refused(NoSuchCard))
  {
    FirstCardExactly(items, id);
  }

  /** One that names none makes a new card with that one hand-off if no recent card is there for the task. */
  lemma UnnamedAssignMakesCard(items: Cards, role: string, fingerprint: string, title: string, freshId: string,
    now: int)
    requires forall k :: 0 <= k < |items| ==> !Recent(items[k], fingerprint, now)
    ensures var (after, answer) := Ensure(items, role, fingerprint, title, "", freshId, now);
      && answer == Granted(freshId, true)
      && exists n :: OneAbove(items, n)
           && after == items + [Card(freshId, n, title, Doing, "", "",
                [Link(role, "", false, false, false, now, None, "")], Some(fingerprint), now, now, None)]
  {
    LargestNumber(items);
    var k := ReuseIndex(items, fingerprint, now);
    assert forall j :: 0 <= j < |items| ==> !Recent(items[j], fingerprint, now);
  }

  /** Otherwise it goes to the first recent card. */
  lemma UnnamedAssignReuses(items: Cards, role: string, fingerprint: string, title: string, freshId: string,
    now: int, k: nat)
    requires k < |items| && Recent(items[k], fingerprint, now)
    requires forall j :: 0 <= j < k ==> !Recent(items[j], fingerprint, now)
    ensures Ensure(items, role, fingerprint, title, "", freshId, now) ==
      (LinkAssign(items, items[k].id, role, now), Granted(items[k].id, false))
  {
    var n := ReuseIndex(items, fingerprint, now);
    if n < |items| {
      assert Recent(items[n], fingerprint, now);
    }
  }

  lemma NewestExactly(links: seq<Link>, role: string)
    ensures var n := NewestUnbound(links, role);
      if n < 0 then NoneWithoutId(links, role) else NewestWithoutId(links, role, n)
  {
  }

  /**
   A cancel takes the newest hand-off of the role without an id away. If all that remain are done, a card made for an
   assign goes with its last hand-off, and any other gets back the status and the reason from before it.
   */
  lemma CancelExactly(items: Cards, id: string, role: string, now: int, k: nat, j: nat)
    requires FirstCard(items, id, k) && NewestWithoutId(items[k].links, role, j)
    ensures var c, gone := items[k], items[k].links[j];
      var rest := c.links[..j] + c.links[j + 1..];
      Cancel(items, id, role, now) ==
      if exists l :: l in rest && !l.done then items[k := c.(links := rest)]
      else if c.autoTask.Some? && rest == [] then items[..k] + items[k + 1..]
      else items[k := c.(links := rest, updatedTs := now, reason := gone.previousReason,
                         status := if gone.previousStatus.None? then Todo else gone.previousStatus.value)]
  {
    FirstCardExactly(items, id);
    NewestExactly(items[k].links, role);
    assert IndexOf(items, id) == k && NewestUnbound(items[k].links, role) == j;
  }

  /** A retarget gives the newest hand-off of the old role without an id to the new role, and changes no other. */
  lemma RetargetExactly(items: Cards, id: string, oldRole: string, newRole: string, now: int, k: nat, j: nat)
    requires FirstCard(items, id, k) && NewestWithoutId(items[k].links, oldRole, j)
    ensures Retarget(items, id, oldRole, newRole, now) ==
      items[k := items[k].(links := items[k].links[j := items[k].links[j].(role := newRole)], updatedTs := now)]
  {
    FirstCardExactly(items, id);
    NewestExactly(items[k].links, oldRole);
    assert IndexOf(items, id) == k && NewestUnbound(items[k].links, oldRole) == j;
  }

  /** Without such a hand-off neither changes anything. */
  lemma NothingToCancel(items: Cards, id: string, role: string, newRole: string, now: int)
    requires forall c :: c in items && c.id == id ==> NoneWithoutId(c.links, role)
    ensures Cancel(items, id, role, now) == items && Retarget(items, id, role, newRole, now) == items
  {
    FirstCardExactly(items, id);
    var k := IndexOf(items, id);
    if k < |items| {
      assert items[k] in items;
      NewestExactly(items[k].links, role);
    }
  }
}
