/**
 A card handed to several panes: once every hand-off is bound to its own ledger id, the card keeps being
 worked on until the last id reports, in whatever order and however often the panes report.
 */
module BacklogFanOut {
  import opened Wrappers
  import opened BacklogModel

  datatype Report = Report(taskId: string, id: string, role: string, now: int)

  function Reports(items: Cards, reports: seq<Report>): Cards {
    if reports == [] then items
    else
      var r := reports[|reports| - 1];
      OnLedgerDone(Reports(items, reports[..|reports| - 1]), r.taskId, r.id, r.role, r.now)
  }

  ghost function Reported(reports: seq<Report>): set<string> {
    set r | r in reports :: r.taskId
  }

  /** The ids the hand-offs of a card are bound to; those the lead took on itself stay without one. */
  ghost function Ids(c: Card): set<string> {
    set l | l in c.links && l.taskId != "" :: l.taskId
  }

  /** The ids the card waits for: those bound to a role other than the lead. */
  ghost function Awaited(c: Card): set<string> {
    set l | l in c.links && l.role != LEAD && l.taskId != "" :: l.taskId
  }

  /** A link without an id that is not newer than another of its role with one: the assign was tried again. */
  ghost predicate Retried(links: seq<Link>, l: Link) {
    exists m :: m in links && m.role == l.role && m.taskId != "" && l.ts <= m.ts
  }

  /**
   A card no report has reached yet: its hand-offs to panes are bound, all to distinct ids, or left over from an assign
   that was tried again.
   */
  ghost predicate Bound(c: Card) {
    && c.status == Doing
    && Awaited(c) != {}
    && (forall l :: l in c.links && l.role != LEAD && l.taskId != "" ==> !l.done && !l.superseded)
    && (forall l :: l in c.links && l.role != LEAD && l.taskId == "" ==> l.superseded || Retried(c.links, l))
    && (forall i, j :: 0 <= i < j < |c.links| && c.links[i].taskId != "" ==> c.links[i].taskId != c.links[j].taskId)
  }

  ghost predicate Mentions(c: Card, ids: set<string>) {
    c.ledgerTaskId in ids || exists l :: l in c.links && l.taskId in ids
  }

  /** No other card has the id of card k, and none being worked on knows its ledger ids. */
  ghost predicate Alone(items: Cards, k: nat, id: string, ids: set<string>) {
    && (forall j :: 0 <= j < |items| && j != k ==> items[j].id != id)
    && (forall j :: 0 <= j < |items| && j != k && items[j].status == Doing ==> !Mentions(items[j], ids))
  }

  /** A link a report may be taken for by its role alone: links of the role, reviewer links for qa and critic. */
  predicate Fits(l: Link, role: string) {
    role != "" && (l.role == role || ((role == "qa" || role == "critic") && l.role == REVIEWER))
  }

  /**
   A report of one of the card's ids names the card or none; a report of another id does not name it,
   unless its role fits none of the card's hand-offs.
   */
  ghost predicate Addressed(r: Report, c: Card) {
    if r.taskId in Ids(c) then r.id == "" || r.id == c.id
    else r.id != c.id || !exists l :: l in c.links && Fits(l, r.role)
  }

  /** One of these ids is of a link of the role that is not older: its report gives up the links of earlier tries. */
  ghost predicate GivenUp(links: seq<Link>, l: Link, reported: set<string>) {
    exists m :: m in links && m.role == l.role && m.taskId != "" && m.taskId in reported && l.ts <= m.ts
  }

  /** A link done exactly if it was or its id was reported; one without an id given up exactly if it was or is now. */
  ghost predicate Follows(links: seq<Link>, s: Link, l: Link, reported: set<string>) {
    l == s.(done := s.done || (s.taskId != "" && s.taskId in reported), superseded := l.superseded)
    && (l.superseded <==> s.superseded || (s.taskId == "" && GivenUp(links, s, reported)))
  }

  /** The hand-offs as they were, but for what the reports marked. */
  ghost predicate Progressed(start: Card, c: Card, reported: set<string>) {
    && c.id == start.id && c.autoTask == start.autoTask
    && |c.links| == |start.links|
    && forall j :: 0 <= j < |c.links| ==> Follows(start.links, start.links[j], c.links[j], reported)
  }

  function Finished(c: Card): Status {
    if ClosesItself(c) then Status.Done else Review
  }

  ghost predicate Inv(start: Card, items: Cards, k: nat, reported: set<string>) {
    && k < |items|
    && Alone(items, k, start.id, Ids(start))
    && items[k].id == start.id
    && if Awaited(start) <= reported then items[k].status == Finished(start)
       else items[k].status == Doing && Progressed(start, items[k], reported)
  }

  lemma NoSuchTask(links: seq<Link>, taskId: string)
    requires forall l :: l in links ==> l.taskId != taskId
    ensures IndexOfTask(links, taskId) == |links|
  {
    assert forall j :: 0 <= j < |links| ==> links[j] in links;
  }

  lemma OthersIgnore(c: Card, r: Report, start: Card)
    requires c.id != start.id && (c.status == Doing ==> !Mentions(c, Ids(start)))
    requires r.taskId in Ids(start) && Addressed(r, start)
    ensures ReportCard(c, r.taskId, r.id, r.role, r.now).None?
  {
    if c.status == Doing && r.id == "" {
      NoSuchTask(c.links, r.taskId);
    }
  }

  /** A report brings no id into a card but its own. */
  lemma OnlyOwnId(links: seq<Link>, h: nat, ledgerId: string, role: string, l: Link)
    requires h < |links| && l in MarkDone(links, h, HitLink(links[h], ledgerId, role))
    ensures l.taskId == ledgerId || exists m :: m in links && m.taskId == l.taskId
  {
    var r := MarkDone(links, h, HitLink(links[h], ledgerId, role));
    var j :| 0 <= j < |r| && r[j] == l;
    assert links[j] in links;
  }

  /** A foreign report leaves another card without knowledge of the ids. */
  lemma OthersStayForeign(c: Card, r: Report, ids: set<string>)
    requires c.status == Doing ==> !Mentions(c, ids)
    requires r.taskId !in ids
    ensures var c' := ReportCard(c, r.taskId, r.id, r.role, r.now);
      c'.Some? ==> c'.value.id == c.id && (c'.value.status == Doing ==> !Mentions(c'.value, ids))
  {
    var c' := ReportCard(c, r.taskId, r.id, r.role, r.now);
    var h := HitIndex(c.links, r.taskId, r.id, r.role);
    if c'.Some? && h >= 0 {
      forall l | l in c'.value.links
        ensures l.taskId !in ids
      {
        OnlyOwnId(c.links, h, r.taskId, r.role, l);
      }
    }
  }

  /** Under the invariant every awaited id was reported exactly if no awaited link is open. */
  lemma AllReportedExactly(start: Card, c: Card, reported: set<string>)
    requires Bound(start) && Progressed(start, c, reported)
    ensures AllReported(c.links) <==> Awaited(start) <= reported
  {
    if AllReported(c.links) {
      forall t | t in Awaited(start)
        ensures t in reported
      {
        var l :| l in start.links && l.role != LEAD && l.taskId != "" && l.taskId == t;
        var j :| 0 <= j < |start.links| && start.links[j] == l;
        assert c.links[j] in c.links && Follows(start.links, start.links[j], c.links[j], reported);
      }
    }
    if Awaited(start) <= reported {
      forall l | l in c.links && l.role != LEAD
        ensures l.done || l.superseded
      {
        var j :| 0 <= j < |c.links| && c.links[j] == l;
        LinkFinished(start, reported, j);
        assert Follows(start.links, start.links[j], c.links[j], reported);
      }
    }
  }

  /** Once every awaited id is reported, a link of a pane is done or given up. */
  lemma LinkFinished(start: Card, reported: set<string>, j: nat)
    requires Bound(start) && Awaited(start) <= reported && j < |start.links| && start.links[j].role != LEAD
    ensures var s := start.links[j];
      if s.taskId != "" then s.taskId in reported else s.superseded || GivenUp(start.links, s, reported)
  {
    var s := start.links[j];
    assert s in start.links;
    if s.taskId != "" {
      assert s.taskId in Awaited(start);
    } else if !s.superseded {
      var m :| m in start.links && m.role == s.role && m.taskId != "" && s.ts <= m.ts;
      assert m.taskId in Awaited(start);
    }
  }

  /** The link a report of one of the ids belongs to is the one bound to it. */
  lemma OwnHit(start: Card, c: Card, reported: set<string>, taskId: string) returns (h: nat)
    requires Bound(start) && Progressed(start, c, reported) && taskId in Ids(start)
    ensures h < |start.links| && h == IndexOfTask(c.links, taskId)
    ensures forall j :: 0 <= j < |start.links| ==> (start.links[j].taskId == taskId <==> j == h)
  {
    var l :| l in start.links && l.taskId == taskId;
    h :| 0 <= h < |start.links| && start.links[h] == l;
    assert c.links[h].taskId == taskId;
  }

  lemma GivenUpStep(links: seq<Link>, h: nat, taskId: string, s: Link, reported: set<string>)
    requires h < |links| && taskId != ""
    requires forall j :: 0 <= j < |links| ==> (links[j].taskId == taskId <==> j == h)
    ensures GivenUp(links, s, reported + {taskId}) <==>
      GivenUp(links, s, reported) || (links[h].role == s.role && s.ts <= links[h].ts)
  {
    assert links[h] in links;
    if GivenUp(links, s, reported + {taskId}) {
      var m :| m in links && m.role == s.role && m.taskId != "" && m.taskId in reported + {taskId} && s.ts <= m.ts;
      var j :| 0 <= j < |links| && links[j] == m;
    }
    if GivenUp(links, s, reported) {
      var m :| m in links && m.role == s.role && m.taskId != "" && m.taskId in reported && s.ts <= m.ts;
      assert m.taskId in reported + {taskId};
    }
  }

  lemma OwnMarkAt(start: Card, c: Card, reported: set<string>, taskId: string, role: string, h: nat, j: nat)
    requires Progressed(start, c, reported)
    requires h < |start.links| && j < |start.links| && taskId != ""
    requires forall i :: 0 <= i < |start.links| ==> (start.links[i].taskId == taskId <==> i == h)
    ensures Follows(start.links, start.links[j], MarkDone(c.links, h, HitLink(c.links[h], taskId, role))[j],
                    reported + {taskId})
  {
    GivenUpStep(start.links, h, taskId, start.links[j], reported);
    assert Follows(start.links, start.links[h], c.links[h], reported);
    assert Follows(start.links, start.links[j], c.links[j], reported);
  }

  lemma OwnMark(start: Card, c: Card, reported: set<string>, taskId: string, role: string, h: nat)
    requires Bound(start) && Progressed(start, c, reported)
    requires h < |start.links| && taskId != ""
    requires forall j :: 0 <= j < |start.links| ==> (start.links[j].taskId == taskId <==> j == h)
    ensures Progressed(start, c.(links := MarkDone(c.links, h, HitLink(c.links[h], taskId, role))), reported + {taskId})
  {
    forall j | 0 <= j < |start.links|
      ensures Follows(start.links, start.links[j], MarkDone(c.links, h, HitLink(c.links[h], taskId, role))[j],
                      reported + {taskId})
    {
      OwnMarkAt(start, c, reported, taskId, role, h, j);
    }
  }

  /** A report of one of the ids marks exactly its own link. */
  lemma OwnReport(start: Card, c: Card, reported: set<string>, r: Report)
    requires Bound(start) && c.status == Doing && Progressed(start, c, reported)
    requires r.taskId in Ids(start) && Addressed(r, start)
    ensures var c' := ReportCard(c, r.taskId, r.id, r.role, r.now);
      && c'.Some? && Progressed(start, c'.value, reported + {r.taskId})
      && c'.value.status == if Awaited(start) <= reported + {r.taskId} then Finished(start) else Doing
  {
    var h := OwnHit(start, c, reported, r.taskId);
    OwnMark(start, c, reported, r.taskId, r.role, h);
    var marked := c.(links := MarkDone(c.links, h, HitLink(c.links[h], r.taskId, r.role)));
    AllReportedExactly(start, marked, reported + {r.taskId});
  }

  /** A foreign id is on no link of the card. */
  lemma ForeignId(start: Card, c: Card, reported: set<string>, taskId: string)
    requires Progressed(start, c, reported) && taskId !in Ids(start) && taskId != ""
    ensures IndexOfTask(c.links, taskId) == |c.links|
  {
    forall l | l in c.links
      ensures l.taskId != taskId
    {
      var j :| 0 <= j < |c.links| && c.links[j] == l;
      assert start.links[j] in start.links;
    }
    NoSuchTask(c.links, taskId);
  }

  /** Without its id on a link, a report that names the card hits one exactly if its role fits an open one. */
  lemma HitByRole(links: seq<Link>, taskId: string, id: string, role: string)
    requires IndexOfTask(links, taskId) == |links| && id != ""
    ensures HitIndex(links, taskId, id, role) >= 0 <==> exists l :: l in links && !l.done && Fits(l, role)
  {
    var h := HitIndex(links, taskId, id, role);
    if h >= 0 {
      assert links[h] in links && Fits(links[h], role);
    }
    forall l | l in links && !l.done && Fits(l, role)
      ensures h >= 0
    {
      var j :| 0 <= j < |links| && links[j] == l;
    }
  }

  /** A foreign report can at most refresh the time stamp of the card. */
  lemma ForeignReport(start: Card, c: Card, reported: set<string>, r: Report)
    requires Bound(start) && c.status == Doing && Progressed(start, c, reported) && !(Awaited(start) <= reported)
    requires r.taskId !in Ids(start) && r.taskId != "" && Addressed(r, start)
    ensures var c' := ReportCard(c, r.taskId, r.id, r.role, r.now);
      c'.Some? ==> c'.value == c.(updatedTs := r.now)
  {
    ForeignId(start, c, reported, r.taskId);
    AllReportedExactly(start, c, reported);
    if r.id == start.id && r.id != "" {
      HitByRole(c.links, r.taskId, r.id, r.role);
      forall l | l in c.links
        ensures !Fits(l, r.role)
      {
        var j :| 0 <= j < |c.links| && c.links[j] == l;
        assert start.links[j] in start.links;
        assert Fits(start.links[j], r.role) <==> Fits(l, r.role);
      }
    }
  }

  /**
   The exception in Addressed is exact: a foreign report that names the card changes its hand-offs
   if and only if its role fits one that is still open.
   */
  lemma StrayReportExactly(start: Card, c: Card, reported: set<string>, r: Report)
    requires c.status == Doing && Progressed(start, c, reported)
    requires r.taskId !in Ids(start) && r.taskId != "" && r.id == start.id != ""
    ensures var c' := ReportCard(c, r.taskId, r.id, r.role, r.now);
      (c'.Some? && c'.value.links != c.links) <==> exists l :: l in c.links && !l.done && Fits(l, r.role)
  {
    ForeignId(start, c, reported, r.taskId);
    HitByRole(c.links, r.taskId, r.id, r.role);
    var h := HitIndex(c.links, r.taskId, r.id, r.role);
    if h >= 0 {
      assert MarkDone(c.links, h, HitLink(c.links[h], r.taskId, r.role))[h].done && !c.links[h].done;
    }
  }

  lemma AwaitedAreIds(c: Card)
    requires Bound(c)
    ensures Awaited(c) <= Ids(c)
  {
  }

  lemma OwnIndex(start: Card, items: Cards, k: nat, r: Report)
    requires k < |items| && items[k].id == start.id && Alone(items, k, start.id, Ids(start))
    requires Addressed(r, start) && r.taskId in Ids(start)
    ensures ReportedIndex(items, r.taskId, r.id, r.role, r.now) ==
      if ReportCard(items[k], r.taskId, r.id, r.role, r.now).Some? then k else |items|
  {
    forall j | 0 <= j < |items| && j != k
      ensures ReportCard(items[j], r.taskId, r.id, r.role, r.now).None?
    {
      OthersIgnore(items[j], r, start);
    }
  }

  lemma OwnStep(start: Card, items: Cards, k: nat, reported: set<string>, r: Report)
    requires Bound(start) && Inv(start, items, k, reported)
    requires Addressed(r, start) && r.taskId in Ids(start)
    ensures Inv(start, OnLedgerDone(items, r.taskId, r.id, r.role, r.now), k, reported + {r.taskId})
  {
    assert "" !in Ids(start);
    OwnIndex(start, items, k, r);
    if items[k].status == Doing {
      OwnReport(start, items[k], reported, r);
    }
  }

  lemma ForeignAlone(start: Card, items: Cards, k: nat, r: Report)
    requires k < |items| && items[k].id == start.id && Alone(items, k, start.id, Ids(start))
    requires r.taskId !in Ids(start)
    ensures Alone(OnLedgerDone(items, r.taskId, r.id, r.role, r.now), k, start.id, Ids(start))
  {
    var n := ReportedIndex(items, r.taskId, r.id, r.role, r.now);
    if n < |items| && n != k {
      OthersStayForeign(items[n], r, Ids(start));
    }
  }

  /** A foreign report leaves the card as it is, up to its time stamp. */
  lemma ForeignCard(start: Card, items: Cards, k: nat, reported: set<string>, r: Report)
    requires Bound(start) && Inv(start, items, k, reported)
    requires Addressed(r, start) && r.taskId !in Ids(start)
    ensures var after := OnLedgerDone(items, r.taskId, r.id, r.role, r.now);
      |after| == |items| && after[k].(updatedTs := items[k].updatedTs) == items[k]
  {
    AwaitedAreIds(start);
    if r.taskId != "" && items[k].status == Doing {
      ForeignReport(start, items[k], reported, r);
    }
  }

  lemma ForeignStep(start: Card, items: Cards, k: nat, reported: set<string>, r: Report)
    requires Bound(start) && Inv(start, items, k, reported)
    requires Addressed(r, start) && r.taskId !in Ids(start)
    ensures Inv(start, OnLedgerDone(items, r.taskId, r.id, r.role, r.now), k, reported + {r.taskId})
  {
    AwaitedAreIds(start);
    ForeignAlone(start, items, k, r);
    ForeignCard(start, items, k, reported, r);
    assert Awaited(start) <= reported + {r.taskId} <==> Awaited(start) <= reported;
    forall j | 0 <= j < |start.links| && start.links[j].taskId != ""
      ensures start.links[j].taskId in reported + {r.taskId} <==> start.links[j].taskId in reported
    {
      assert start.links[j] in start.links;
    }
  }

  lemma {:induction false} ReportsKeepInv(items: Cards, k: nat, reports: seq<Report>)
    requires k < |items| && Bound(items[k]) && Alone(items, k, items[k].id, Ids(items[k]))
    requires forall r :: r in reports ==> Addressed(r, items[k])
    ensures Inv(items[k], Reports(items, reports), k, Reported(reports))
  {
    if reports == [] {
    } else {
      var front, r := reports[..|reports| - 1], reports[|reports| - 1];
      assert reports == front + [r];
      ReportsKeepInv(items, k, front);
      if r.taskId in Ids(items[k]) {
        OwnStep(items[k], Reports(items, front), k, Reported(front), r);
      } else {
        ForeignStep(items[k], Reports(items, front), k, Reported(front), r);
      }
      assert Reported(reports) == Reported(front) + {r.taskId};
    }
  }

  /**
   After any reports the card is finished if every awaited id is among them and still being worked on otherwise.
   Read over all prefixes of a run: it leaves Doing on the call that reports the last awaited id, and on no other.
   */
  lemma FanOut(items: Cards, k: nat, reports: seq<Report>)
    requires k < |items| && Bound(items[k]) && Alone(items, k, items[k].id, Ids(items[k]))
    requires forall r :: r in reports ==> Addressed(r, items[k])
    ensures |Reports(items, reports)| > k
    ensures Reports(items, reports)[k].status ==
      if Awaited(items[k]) <= Reported(reports) then Finished(items[k]) else Doing
  {
    ReportsKeepInv(items, k, reports);
  }

  /** A card handed to one pane under the id a, for which the pane then reports another id b under its role. */
  function StrayCard(id: string, role: string, a: string): Card {
    Card(id, 1, "", Doing, "", "", [Link(role, a, false, false, false, 0, None, "")], None, 0, 0, None)
  }

  /** Such a stray report finishes the card, although the id it waits for was never reported. */
  lemma StrayReportClosesEarly(id: string, role: string, a: string, b: string)
    requires id != "" && role != "" && role != LEAD && a != "" && b != "" && a != b
    ensures var c := StrayCard(id, role, a);
      var r := Report(b, id, role, 0);
      var after := Reports([c], [r]);
      Bound(c) && |after| == 1 && after[0].status == Review && a !in Reported([r])
  {
    var c := StrayCard(id, role, a);
    assert c.links[0].taskId in Awaited(c) by {
      assert c.links[0] in c.links;
    }
    ForeignId(c, c, {}, b);
    HitByRole(c.links, b, id, role);
    assert c.links[0] in c.links && Fits(c.links[0], role);
    var r := Report(b, id, role, 0);
    assert [r][..0] == [] && Reports([c], []) == [c];
    var links := MarkDone(c.links, 0, HitLink(c.links[0], b, role));
    assert AllReported(links);
    assert ReportCard(c, b, id, role, 0).Some? && ReportedIndex([c], b, id, role, 0) == 0;
  }
}
