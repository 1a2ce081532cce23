/**
 What a report and a pass over the ledger do to a card, said of its links before and after alone: which they reach,
 what becomes of every other, and when the card is finished.
 */
module BacklogEffects {
  import opened Wrappers
  import opened BacklogModel
  import BacklogReconcile

  // ----- a report -----

  predicate Open(l: Link, role: string) {
    l.role == role && !l.done
  }

  /** Position h is the last at which an open link of the role stands. */
  ghost predicate LastOpen(links: seq<Link>, role: string, h: nat) {
    h < |links| && Open(links[h], role) && forall j :: h < j < |links| ==> !Open(links[j], role)
  }

  ghost predicate NoneOpen(links: seq<Link>, role: string) {
    forall j :: 0 <= j < |links| ==> !Open(links[j], role)
  }

  /** The first link with the id of the report. */
  ghost predicate FoundById(links: seq<Link>, ledgerId: string, h: nat) {
    h < |links| && links[h].taskId == ledgerId && forall j :: 0 <= j < h ==> links[j].taskId != ledgerId
  }

  /** Without one, for a report that names the card and a role: the newest open link of it, or a reviewer's. */
  ghost predicate FoundByRole(links: seq<Link>, ledgerId: string, itemId: string, role: string, h: nat) {
    && (forall j :: 0 <= j < |links| ==> links[j].taskId != ledgerId)
    && itemId != "" && role != ""
    && (LastOpen(links, role, h)
        || (NoneOpen(links, role) && role in {"qa", "critic"} && LastOpen(links, REVIEWER, h)))
  }

  /** The link a report reaches, and when it reaches none. */
  lemma HitExactly(links: seq<Link>, ledgerId: string, itemId: string, role: string, h: nat)
    ensures HitIndex(links, ledgerId, itemId, role) == h <==>
      FoundById(links, ledgerId, h) || FoundByRole(links, ledgerId, itemId, role, h)
  {
    var byId, byRole, reviewer := IndexOfTask(links, ledgerId), NewestOpen(links, role), NewestOpen(links, REVIEWER);
    if byId < |links| {
      assert FoundById(links, ledgerId, h) <==> h == byId;
    } else {
      assert byRole >= 0 ==> Open(links[byRole], role);
      assert LastOpen(links, role, h) <==> h == byRole;
      assert LastOpen(links, REVIEWER, h) <==> h == reviewer;
      assert NoneOpen(links, role) <==> byRole < 0;
    }
  }

  ghost predicate Reaches(links: seq<Link>, ledgerId: string, itemId: string, role: string) {
    exists h :: FoundById(links, ledgerId, h) || FoundByRole(links, ledgerId, itemId, role, h)
  }

  /** A report is about a card being worked on that it reaches, or that was assigned by hand for the task. */
  ghost predicate IsAbout(c: Card, ledgerId: string, itemId: string, role: string) {
    && c.status == Doing && (itemId == "" || c.id == itemId)
    && (c.ledgerTaskId == ledgerId || Reaches(c.links, ledgerId, itemId, role))
  }

  lemma AboutExactly(c: Card, ledgerId: string, itemId: string, role: string, now: int)
    ensures ReportCard(c, ledgerId, itemId, role, now).Some? <==> IsAbout(c, ledgerId, itemId, role)
    ensures IsAbout(c, ledgerId, itemId, role) && !Reaches(c.links, ledgerId, itemId, role) ==>
      ReportCard(c, ledgerId, itemId, role, now).value.links == c.links
  {
    var h := HitIndex(c.links, ledgerId, itemId, role);
    if h >= 0 {
      HitExactly(c.links, ledgerId, itemId, role, h);
    } else {
      forall j: nat
        ensures !(FoundById(c.links, ledgerId, j) || FoundByRole(c.links, ledgerId, itemId, role, j))
      {
        HitExactly(c.links, ledgerId, itemId, role, j);
      }
    }
  }

  /** A report changes the first card it is about and no other, and one without an id or about none changes nothing. */
  lemma ReportGoesToFirst(items: Cards, ledgerId: string, itemId: string, role: string, now: int)
    ensures var after := OnLedgerDone(items, ledgerId, itemId, role, now);
      if ledgerId == "" || forall c :: c in items ==> !IsAbout(c, ledgerId, itemId, role) then after == items
      else exists k :: && 0 <= k < |items| && IsAbout(items[k], ledgerId, itemId, role)
                       && (forall j :: 0 <= j < k ==> !IsAbout(items[j], ledgerId, itemId, role))
                       && Some(after) == ReportedAt(items, k, ledgerId, itemId, role, now)
  {
    forall c | c in items
      ensures ReportCard(c, ledgerId, itemId, role, now).Some? <==> IsAbout(c, ledgerId, itemId, role)
    {
      AboutExactly(c, ledgerId, itemId, role, now);
    }
    var k := ReportedIndex(items, ledgerId, itemId, role, now);
    assert forall j :: 0 <= j < |items| ==> items[j] in items;
    if ledgerId != "" && k < |items| {
      assert Some(OnLedgerDone(items, ledgerId, itemId, role, now))
        == ReportedAt(items, k, ledgerId, itemId, role, now);
    }
  }

  function ReportedAt(items: Cards, k: int, ledgerId: string, itemId: string, role: string, now: int): Option<Cards>
    requires 0 <= k < |items|
  {
    match ReportCard(items[k], ledgerId, itemId, role, now)
    case Some(c) => Some(items[k := c])
    case None => None
  }

  /** What the reported link is afterwards: one found by its role takes the role and the id of the report. */
  function ReportedLink(l: Link, ledgerId: string, role: string): Link {
    Link(if l.taskId == ledgerId then l.role else role, ledgerId, true, l.superseded, l.ended, l.ts,
         l.previousStatus, l.previousReason)
  }

  /**
   A report that reaches link h marks it done, gives up every other link of its role without an id that is not newer,
   and changes no other link.
   */
  lemma ReportMarksExactly(c: Card, ledgerId: string, itemId: string, role: string, now: int, h: nat)
    requires c.status == Doing && (itemId == "" || c.id == itemId)
    requires HitIndex(c.links, ledgerId, itemId, role) == h
    ensures var after := ReportCard(c, ledgerId, itemId, role, now);
      && after.Some? && |after.value.links| == |c.links|
      && var links := after.value.links;
         && links[h] == ReportedLink(c.links[h], ledgerId, role)
         && forall j :: 0 <= j < |links| && j != h ==>
              var l := c.links[j];
              links[j] == l.(superseded := l.superseded
                                           || (l.role == links[h].role && l.taskId == "" && l.ts <= links[h].ts))
  {
  }

  /** A reported card is finished, by its kind, if and only if every hand-off to a pane is then done or given up. */
  lemma ReportFinishesExactly(c: Card, ledgerId: string, itemId: string, role: string, now: int)
    requires ReportCard(c, ledgerId, itemId, role, now).Some?
    ensures var after := ReportCard(c, ledgerId, itemId, role, now).value;
      && c.status == Doing && after.updatedTs == now
      && if forall l :: l in after.links && l.role != "lead" ==> l.done || l.superseded
         then after.status == (if ClosedByKind(c) then Status.Done else Review)
              && after.reviewSince == (if ClosedByKind(c) then None else Some(now))
         else after.status == Doing
  {
  }

  /** A card that was made for an assign of some task. */
  predicate ClosedByKind(c: Card) {
    c.autoTask.Some? && |c.autoTask.value| > 0
  }

  /** A retried hand-off: the report of the second try gives up the first and sends the card to review. */
  lemma RetryIsGivenUp(id: string, role: string, a: string, now: int)
    requires a != "" && role != "lead"
    ensures var first := Link(role, "", false, false, false, 1, None, "");
      var second := Link(role, a, false, false, false, 2, None, "");
      var c := Card(id, 1, "", Doing, "", "", [first, second], None, 0, 0, None);
      var after := OnLedgerDone([c], a, "", "", now);
      && |after| == 1 && after[0].status == Review
      && after[0].links == [first.(superseded := true), second.(done := true)]
  {
    var first := Link(role, "", false, false, false, 1, None, "");
    var second := Link(role, a, false, false, false, 2, None, "");
    var c := Card(id, 1, "", Doing, "", "", [first, second], None, 0, 0, None);
    assert FoundById(c.links, a, 1);
    HitExactly(c.links, a, "", "", 1);
    ReportMarksExactly(c, a, "", "", now, 1);
    ReportFinishesExactly(c, a, "", "", now);
    var after := ReportCard(c, a, "", "", now).value;
    assert after.links == [first.(superseded := true), second.(done := true)];
    assert ReportedIndex([c], a, "", "", now) == 0;
  }

  // ----- a pass over the ledger -----

  /** A hand-off of a pane that has an id and of which no end is known. */
  predicate Running(l: Link) {
    l.role != "lead" && l.taskId != "" && !l.done && !l.superseded && !l.ended
  }

  predicate ReportsOk(l: Link, ledger: Ledger) {
    l.taskId in ledger && ledger[l.taskId] == Ok
  }

  predicate ReportsEnd(l: Link, ledger: Ledger) {
    l.taskId in ledger && (ledger[l.taskId] == Closed || ledger[l.taskId] == LedgerStatus.Superseded)
  }

  /** What the ledger says of a link: a task that went well is done, one that was closed or superseded has ended. */
  function Informed(l: Link, ledger: Ledger): Link {
    if !Running(l) then l
    else l.(done := l.done || ReportsOk(l, ledger), ended := l.ended || ReportsEnd(l, ledger))
  }

  ghost predicate KnowsAllEnds(links: seq<Link>, ledger: Ledger) {
    forall l :: l in links && l.role != "lead" ==>
      l.done || l.superseded || l.ended || (l.taskId != "" && (ReportsOk(l, ledger) || ReportsEnd(l, ledger)))
  }

  ghost predicate LearnsSomething(links: seq<Link>, ledger: Ledger) {
    exists l :: l in links && Running(l) && (ReportsOk(l, ledger) || ReportsEnd(l, ledger))
  }

  /** Some pane finished its work: it reported, or the ledger says so. */
  ghost predicate SomeWorkDone(links: seq<Link>, ledger: Ledger) {
    exists l :: l in links && l.role != "lead" && (l.done || (Running(l) && ReportsOk(l, ledger)))
  }

  lemma InformedExactly(l: Link, ledger: Ledger)
    ensures MarkLink(l, ledger) == Informed(l, ledger)
  {
  }

  /**
   A pass releases a card being worked on if and only if the ledger has news of it and then every end is known; its
   links are what the ledger says of them. It is finished by its kind if some work was done, and sent for
   confirmation as ended without a report otherwise.
   */
  lemma ReleasedExactly(c: Card, ledger: Ledger, now: int)
    requires c.status == Doing
    ensures var (after, released) := ReconcileCard(c, ledger, now);
      && |after.links| == |c.links|
      && (forall j :: 0 <= j < |c.links| ==> after.links[j] == Informed(c.links[j], ledger))
      && (released <==> LearnsSomething(c.links, ledger) && KnowsAllEnds(c.links, ledger))
      && (!released ==> after.status == Doing)
      && (released && SomeWorkDone(c.links, ledger) ==>
            after.status == (if ClosedByKind(c) then Status.Done else Review)
            && after.reviewSince == (if ClosedByKind(c) then None else Some(now)))
      && (released && !SomeWorkDone(c.links, ledger) ==>
            after.status == Review && after.reason == "ended without done" && after.reviewSince == Some(now))
  {
    var links := MarkLinks(c.links, ledger);
    forall j | 0 <= j < |links|
      ensures links[j] == Informed(c.links[j], ledger)
    {
      InformedExactly(c.links[j], ledger);
    }
    NewsExactly(c.links, links, ledger);
    EndsExactly(c.links, links, ledger);
    WorkExactly(c.links, links, ledger);
  }

  lemma NewsExactly(links: seq<Link>, links': seq<Link>, ledger: Ledger)
    requires |links'| == |links| && forall j :: 0 <= j < |links| ==> links'[j] == Informed(links[j], ledger)
    ensures links' == links <==> !LearnsSomething(links, ledger)
  {
    if l :| l in links && Running(l) && (ReportsOk(l, ledger) || ReportsEnd(l, ledger)) {
      var j :| 0 <= j < |links| && links[j] == l;
      assert links'[j] != links[j];
    }
    if links' != links {
      var j :| 0 <= j < |links| && links'[j] != links[j];
      assert links[j] in links;
    }
  }

  lemma EndsExactly(links: seq<Link>, links': seq<Link>, ledger: Ledger)
    requires |links'| == |links| && forall j :: 0 <= j < |links| ==> links'[j] == Informed(links[j], ledger)
    ensures AllSettled(links') <==> KnowsAllEnds(links, ledger)
  {
    if AllSettled(links') {
      forall l | l in links && l.role != "lead"
        ensures l.done || l.superseded || l.ended || (l.taskId != "" && (ReportsOk(l, ledger) || ReportsEnd(l, ledger)))
      {
        var j :| 0 <= j < |links| && links[j] == l;
        assert links'[j] in links';
      }
    }
    if KnowsAllEnds(links, ledger) {
      forall m | m in links' && m.role != LEAD
        ensures Settled(m)
      {
        var j :| 0 <= j < |links'| && links'[j] == m;
        assert links[j] in links;
      }
    }
  }

  lemma WorkExactly(links: seq<Link>, links': seq<Link>, ledger: Ledger)
    requires |links'| == |links| && forall j :: 0 <= j < |links| ==> links'[j] == Informed(links[j], ledger)
    ensures SomeDone(links') <==> SomeWorkDone(links, ledger)
  {
    if m :| m in links' && m.role != LEAD && m.done {
      var j :| 0 <= j < |links'| && links'[j] == m;
      assert links[j] in links;
    }
    if l :| l in links && l.role != "lead" && (l.done || (Running(l) && ReportsOk(l, ledger))) {
      var j :| 0 <= j < |links| && links[j] == l;
      assert links'[j] in links';
    }
  }

  ghost predicate IsReleased(c: Card, ledger: Ledger) {
    c.status == Doing && LearnsSomething(c.links, ledger) && KnowsAllEnds(c.links, ledger)
  }

  /** A pass that finds nothing to release saves nothing; one that does saves what it learned of every card. */
  lemma PassExactly(items: Cards, ledger: Ledger, now: int)
    ensures var after := Reconcile(items, ledger, now);
      |after| == |items| &&
      if exists k :: 0 <= k < |items| && IsReleased(items[k], ledger)
      then forall k :: 0 <= k < |items| ==>
        after[k] == if items[k].status == Doing then ReconcileCard(items[k], ledger, now).0 else items[k]
      else after == items
  {
    forall k | 0 <= k < |items|
      ensures ReconcileCard(items[k], ledger, now).1 <==> IsReleased(items[k], ledger)
    {
      if items[k].status == Doing {
        ReleasedExactly(items[k], ledger, now);
      }
    }
    BacklogReconcile.ChangedExactly(items, ledger, now);
  }

  /** Work that was never reported never closes a card: not if the ledger knows of closed and superseded tasks only. */
  lemma UnreportedNeverCloses(c: Card, ledger: Ledger, now: int)
    requires c.status == Doing
    requires forall l :: l in c.links && l.role != "lead" ==> !l.done && !ReportsOk(l, ledger)
    ensures var after := ReconcileCard(c, ledger, now).0;
      after.status == Doing || (after.status == Review && after.reason == "ended without done")
  {
    ReleasedExactly(c, ledger, now);
  }
}
