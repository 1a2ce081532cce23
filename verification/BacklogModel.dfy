/**
 The backlog of a project: cards, the links that record which pane a card was handed to,
 and what each operation of the store does to the list of cards.

 Every operation is a function from the list before to the list after; class Store runs the
 source's loops and is proved against these functions.
 */
module BacklogModel {
  import opened Wrappers
  import opened Search

  datatype Status = Todo | Doing | Review | Waiting | Blocked | Deferred | Done | Wont

  /** What the task ledger says of a task; Other is any status that decides nothing here. */
  datatype LedgerStatus = Ok | Closed | Superseded | Other

  /** One hand-off of a card to a role. taskId is "" until a ledger id is bound. */
  datatype Link = Link(
    role: string, taskId: string, done: bool, superseded: bool, ended: bool, ts: int,
    previousStatus: Option<Status>, previousReason: string)

  datatype Card = Card(
    id: string, number: int, title: string, status: Status, reason: string, ledgerTaskId: string,
    links: seq<Link>, autoTask: Option<string>, createdTs: int, updatedTs: int, reviewSince: Option<int>)

  type Cards = seq<Card>

  const LEAD := "lead"
  const REVIEWER := "reviewer"
  const AUTO_CLOSED := "closed automatically"
  const ENDED_WITHOUT_DONE := "ended without done"
  /** 120 seconds, in ticks of one microsecond. */
  const AUTO_REUSE_WINDOW := 120_000_000

  predicate Terminal(s: Status) {
    s == Done || s == Wont
  }

  function IndexOf(items: Cards, id: string): (k: nat)
    ensures k <= |items|
    ensures k < |items| ==> items[k].id == id
    ensures forall j :: 0 <= j < k ==> items[j].id != id
  {
    FirstIndex(items, (c: Card) => c.id == id)
  }

  // ----- add_item, set_status, assign_item, remove -----

  function MaxNumber(items: Cards): (m: int)
    ensures 0 <= m
    ensures forall c :: c in items ==> c.number <= m
  {
    if items == [] then 0
    else
      var m := MaxNumber(items[..|items| - 1]);
      var last := items[|items| - 1];
      assert forall c :: c in items ==> c in items[..|items| - 1] || c == last;
      if last.number > m then last.number else m
  }

  function NewCard(items: Cards, id: string, title: string, status: Status, now: int): (c: Card) {
    Card(id, MaxNumber(items) + 1, title, status, "", "", [], None, now, now, None)
  }

  /** An empty title is rejected before the store is written. */
  function AddItem(items: Cards, id: string, title: string, status: Status, now: int): Cards {
    if title == "" then items else items + [NewCard(items, id, title, status, now)]
  }

  function SetStatus(items: Cards, id: string, status: Status, reason: string, now: int): Cards {
    var k := IndexOf(items, id);
    if k == |items| then items
    else items[k := items[k].(status := status, reason := reason, updatedTs := now,
                              reviewSince := if status == Review then Some(now) else None)]
  }

  function AssignItem(items: Cards, id: string, ledgerTaskId: string, now: int): Cards {
    var k := IndexOf(items, id);
    if k == |items| then items
    else items[k := items[k].(status := Doing, ledgerTaskId := ledgerTaskId, updatedTs := now)]
  }

  function Remove(items: Cards, id: string): Cards {
    if items == [] then []
    else
      var rest := Remove(items[..|items| - 1], id);
      if items[|items| - 1].id == id then rest else rest + [items[|items| - 1]]
  }

  // ----- on_ledger_done -----

  /** The newest link of a role that has not reported done, or -1. */
  function NewestOpen(links: seq<Link>, role: string): (k: int)
    ensures -1 <= k < |links|
    ensures 0 <= k ==> links[k].role == role && !links[k].done
    ensures forall j :: k < j < |links| ==> !(links[j].role == role && !links[j].done)
  {
    LastIndex(links, (l: Link) => l.role == role && !l.done)
  }

  function IndexOfTask(links: seq<Link>, taskId: string): (k: nat)
    ensures k <= |links|
    ensures k < |links| ==> links[k].taskId == taskId
    ensures forall j :: 0 <= j < k ==> links[j].taskId != taskId
  {
    FirstIndex(links, (l: Link) => l.taskId == taskId)
  }

  /**
   The link a report belongs to, or -1: the one that carries its ledger id; failing that, when the
   report names the card and a role, the newest open link of the role; failing that, for a qa or
   critic report, the newest open reviewer link.
   */
  function HitIndex(links: seq<Link>, ledgerId: string, itemId: string, role: string): (h: int)
    ensures -1 <= h < |links|
    ensures 0 <= h ==> links[h].taskId == ledgerId || !links[h].done
  {
    var byId := IndexOfTask(links, ledgerId);
    if byId < |links| then byId
    else if itemId == "" || role == "" then -1
    else
      var byRole := NewestOpen(links, role);
      if byRole >= 0 || !(role == "qa" || role == "critic") then byRole
      else NewestOpen(links, REVIEWER)
  }

  /** A link found by its id keeps its role; one found by role takes the role and the id of the report. */
  function HitLink(l: Link, ledgerId: string, role: string): Link {
    if l.taskId == ledgerId then l.(done := true)
    else l.(role := role, taskId := ledgerId, done := true)
  }

  predicate Outdated(l: Link, hit: Link) {
    l.role == hit.role && l.taskId == "" && l.ts <= hit.ts
  }

  /** Every other unbound link of the role of the hit that is not newer than it is given up. */
  function MarkDone(links: seq<Link>, h: nat, hit: Link): (r: seq<Link>)
    requires h < |links|
    ensures |r| == |links| && r[h] == hit
    ensures forall j :: 0 <= j < |links| && j != h ==>
      r[j] == (if Outdated(links[j], hit) then links[j].(superseded := true) else links[j])
  {
    seq(|links|, j requires 0 <= j < |links| =>
      if j == h then hit
      else if Outdated(links[j], hit) then links[j].(superseded := true)
      else links[j])
  }

  /** Links of the lead never hold a card back. */
  predicate AllReported(links: seq<Link>) {
    forall l :: l in links && l.role != LEAD ==> l.done || l.superseded
  }

  /** A card with a non-empty automatic task text closes itself; any other waits for confirmation. */
  predicate ClosesItself(c: Card) {
    c.autoTask.Some? && c.autoTask.value != ""
  }

  function FinishCard(c: Card, now: int): Card {
    if ClosesItself(c) then c.(status := Done, reviewSince := None, reason := AUTO_CLOSED)
    else c.(status := Review, reviewSince := Some(now))
  }

  /** What a report does to one card; None when the report is not about it. */
  function ReportCard(c: Card, ledgerId: string, itemId: string, role: string, now: int): Option<Card> {
    if itemId != "" && c.id != itemId then None
    else if c.status != Doing then None
    else
      var h := HitIndex(c.links, ledgerId, itemId, role);
      if h < 0 && c.ledgerTaskId != ledgerId then None
      else
        var links := if h < 0 then c.links else MarkDone(c.links, h, HitLink(c.links[h], ledgerId, role));
        var c' := c.(links := links);
        Some((if AllReported(links) then FinishCard(c', now) else c').(updatedTs := now))
  }

  function ReportedIndex(items: Cards, ledgerId: string, itemId: string, role: string, now: int): (k: nat)
    ensures k <= |items|
    ensures k < |items| ==> ReportCard(items[k], ledgerId, itemId, role, now).Some?
    ensures forall j :: 0 <= j < k ==> ReportCard(items[j], ledgerId, itemId, role, now).None?
  {
    FirstIndex(items, (c: Card) => ReportCard(c, ledgerId, itemId, role, now).Some?)
  }

  function OnLedgerDone(items: Cards, ledgerId: string, itemId: string, role: string, now: int): Cards {
    var k := ReportedIndex(items, ledgerId, itemId, role, now);
    if ledgerId == "" || k == |items| then items
    else items[k := ReportCard(items[k], ledgerId, itemId, role, now).value]
  }

  // ----- reconcile_ended_tasks -----

  type Ledger = map<string, LedgerStatus>

  function Lookup(ledger: Ledger, taskId: string): LedgerStatus {
    if taskId in ledger then ledger[taskId] else Other
  }

  predicate Settled(l: Link) {
    l.done || l.superseded || l.ended
  }

  /** A bound link of a pane that is still running takes over the end that the ledger knows of. */
  function MarkLink(l: Link, ledger: Ledger): Link {
    if l.role == LEAD || l.taskId == "" || Settled(l) then l
    else match Lookup(ledger, l.taskId)
      case Ok => l.(done := true)
      case Closed => l.(ended := true)
      case Superseded => l.(ended := true)
      case Other => l
  }

  function MarkLinks(links: seq<Link>, ledger: Ledger): (r: seq<Link>)
    ensures |r| == |links|
    ensures forall j :: 0 <= j < |links| ==> r[j] == MarkLink(links[j], ledger)
  {
    seq(|links|, j requires 0 <= j < |links| => MarkLink(links[j], ledger))
  }

  predicate AllSettled(links: seq<Link>) {
    forall l :: l in links && l.role != LEAD ==> Settled(l)
  }

  predicate SomeDone(links: seq<Link>) {
    exists l :: l in links && l.role != LEAD && l.done
  }

  /** The card after one pass, and whether it left the state of being worked on. */
  function ReconcileCard(c: Card, ledger: Ledger, now: int): (Card, bool) {
    var links := MarkLinks(c.links, ledger);
    if c.status != Doing then (c, false)
    else
      var c' := c.(links := links);
      if links == c.links || !AllSettled(links) then (c', false)
      else if SomeDone(links) then (FinishCard(c', now).(updatedTs := now), true)
      else (c'.(status := Review, reviewSince := Some(now), reason := ENDED_WITHOUT_DONE, updatedTs := now), true)
  }

  function ReconcileCards(items: Cards, ledger: Ledger, now: int): (r: Cards)
    ensures |r| == |items|
    ensures forall j :: 0 <= j < |items| ==> r[j] == ReconcileCard(items[j], ledger, now).0
  {
    seq(|items|, j requires 0 <= j < |items| => ReconcileCard(items[j], ledger, now).0)
  }

  /** The cards that changed status, in order: what the pass returns. */
  function ChangedCards(items: Cards, ledger: Ledger, now: int): Cards {
    if items == [] then []
    else
      var front := ChangedCards(items[..|items| - 1], ledger, now);
      var (c, changed) := ReconcileCard(items[|items| - 1], ledger, now);
      if changed then front + [c] else front
  }

  /** Link marks reach the disk only together with a card that changed status. */
  function Reconcile(items: Cards, ledger: Ledger, now: int): Cards {
    if |ledger| == 0 || ChangedCards(items, ledger, now) == [] then items
    else ReconcileCards(items, ledger, now)
  }

  // ----- link_assign, cancel_unstarted_assign, retarget_unstarted_link -----

  function HandOff(c: Card, role: string, now: int): Card {
    c.(links := c.links + [Link(role, "", false, false, false, now, Some(c.status), c.reason)],
       status := Doing, reason := "", updatedTs := now)
  }

  function LinkAssign(items: Cards, id: string, role: string, now: int): Cards {
    var k := IndexOf(items, id);
    if k == |items| then items else items[k := HandOff(items[k], role, now)]
  }

  /** The newest link of a role that no task was bound to, or -1. */
  function NewestUnbound(links: seq<Link>, role: string): (k: int)
    ensures -1 <= k < |links|
    ensures 0 <= k ==> links[k].role == role && links[k].taskId == ""
    ensures forall j :: k < j < |links| ==> !(links[j].role == role && links[j].taskId == "")
  {
    LastIndex(links, (l: Link) => l.role == role && l.taskId == "")
  }

  predicate AllDone(links: seq<Link>) {
    forall l :: l in links ==> l.done
  }

  function Without<T>(s: seq<T>, k: nat): seq<T>
    requires k < |s|
  {
    s[..k] + s[k + 1..]
  }

  /** What is left of a card whose canceled hand-off left only finished ones behind. */
  function RestoreCard(c: Card, canceled: Link, now: int): Card {
    c.(status := if canceled.previousStatus.Some? then canceled.previousStatus.value else Todo,
       reason := canceled.previousReason, updatedTs := now)
  }

  function Cancel(items: Cards, id: string, role: string, now: int): Cards {
    var k := IndexOf(items, id);
    if k == |items| then items
    else
      var c := items[k];
      var j := NewestUnbound(c.links, role);
      if j < 0 then items
      else
        var c' := c.(links := Without(c.links, j));
        if !AllDone(c'.links) then items[k := c']
        else if c.autoTask.Some? && c'.links == [] then Without(items, k)
        else items[k := RestoreCard(c', c.links[j], now)]
  }

  function Retarget(items: Cards, id: string, oldRole: string, newRole: string, now: int): Cards {
    var k := IndexOf(items, id);
    if k == |items| then items
    else
      var c := items[k];
      var j := NewestUnbound(c.links, oldRole);
      if j < 0 then items
      else items[k := c.(links := c.links[j := c.links[j].(role := newRole)], updatedTs := now)]
  }

  // ----- ensure_for_assign, start_lead_work -----

  datatype EnsureError = NoSuchCard | CardClosed | NoTitle
  datatype Ensured = Refused(error: EnsureError) | Granted(id: string, newWork: bool)

  function ReuseIndex(items: Cards, fingerprint: string, now: int): (k: nat)
    ensures k <= |items|
  {
    FirstIndex(items, (c: Card) =>
      c.autoTask == Some(fingerprint) && c.status == Doing && now - c.createdTs <= AUTO_REUSE_WINDOW)
  }

  /** A card made by an assign itself: its only link keeps no earlier status. */
  function AutoCard(items: Cards, freshId: string, title: string, fingerprint: string, role: string, now: int): Card {
    NewCard(items, freshId, title, Doing, now).(
      autoTask := Some(fingerprint),
      links := [Link(role, "", false, false, false, now, None, "")])
  }

  /** The list after the call; title is the text derived from the task, which is never empty. */
  function Ensure(items: Cards, role: string, fingerprint: string, title: string, itemId: string, freshId: string,
                  now: int): (r: (Cards, Ensured))
  {
    if itemId != "" then
      var k := IndexOf(items, itemId);
      if k == |items| then (items, Refused(NoSuchCard))
      else if Terminal(items[k].status) then (items, Refused(CardClosed))
      else (LinkAssign(items, itemId, role, now), Granted(itemId, items[k].status != Doing))
    else
      var k := ReuseIndex(items, fingerprint, now);
      if k < |items| then (LinkAssign(items, items[k].id, role, now), Granted(items[k].id, false))
      else (items + [AutoCard(items, freshId, title, fingerprint, role, now)], Granted(freshId, true))
  }

  function StartLead(items: Cards, itemId: string, title: string, freshId: string, now: int): (Cards, Ensured) {
    if itemId != "" then
      var k := IndexOf(items, itemId);
      if k == |items| then (items, Refused(NoSuchCard))
      else if Terminal(items[k].status) then (items, Refused(CardClosed))
      else (LinkAssign(items, itemId, LEAD, now), Granted(itemId, items[k].status != Doing))
    else if title == "" then (items, Refused(NoTitle))
    else (LinkAssign(AddItem(items, freshId, title, Doing, now), freshId, LEAD, now), Granted(freshId, true))
  }

  // ----- bind_task_id -----

  predicate Bindable(l: Link, role: string, unbound: bool) {
    l.role == role && !l.done && (unbound ==> l.taskId == "")
  }

  /** The newest link of a card that a new ledger id could go to, or -1. */
  function BindIndex(links: seq<Link>, role: string, unbound: bool): (k: int)
    ensures -1 <= k < |links|
    ensures 0 <= k ==> Bindable(links[k], role, unbound)
    ensures forall j :: k < j < |links| ==> !Bindable(links[j], role, unbound)
  {
    LastIndex(links, (l: Link) => Bindable(l, role, unbound))
  }

  predicate BindCandidate(c: Card, role: string, itemId: string, unbound: bool) {
    c.status == Doing && (itemId == "" || c.id == itemId) && BindIndex(c.links, role, unbound) >= 0
  }

  /** Among the cards being worked on that have a link to bind: the last updated, the first of equals; or -1. */
  function BindCard(items: Cards, role: string, itemId: string, unbound: bool): (k: int)
    ensures -1 <= k < |items|
    ensures 0 <= k ==> BindCandidate(items[k], role, itemId, unbound)
    ensures 0 <= k ==> forall j :: 0 <= j < |items| && BindCandidate(items[j], role, itemId, unbound) ==>
      items[j].updatedTs < items[k].updatedTs || (items[j].updatedTs == items[k].updatedTs && k <= j)
    ensures k < 0 ==> forall j :: 0 <= j < |items| ==> !BindCandidate(items[j], role, itemId, unbound)
  {
    if items == [] then -1
    else
      var last := |items| - 1;
      var k := BindCard(items[..last], role, itemId, unbound);
      if BindCandidate(items[last], role, itemId, unbound) && (k < 0 || items[last].updatedTs > items[k].updatedTs)
      then last else k
  }

  function Bind(items: Cards, role: string, taskId: string, itemId: string, now: int): Cards {
    var unbound := BindCard(items, role, itemId, true);
    var k := if unbound >= 0 then unbound else BindCard(items, role, itemId, false);
    if taskId == "" || k < 0 then items
    else
      var c := items[k];
      var j := BindIndex(c.links, role, unbound >= 0);
      if c.links[j].taskId == taskId then items
      else items[k := c.(links := c.links[j := c.links[j].(taskId := taskId)], updatedTs := now)]
  }

  // ----- whole runs -----

  datatype Op =
    | OpAdd(id: string, title: string, status: Status, now: int)
    | OpSetStatus(id: string, status: Status, reason: string, now: int)
    | OpAssignItem(id: string, taskId: string, now: int)
    | OpReport(taskId: string, id: string, role: string, now: int)
    | OpReconcile(ledger: Ledger, now: int)
    | OpLinkAssign(id: string, role: string, now: int)
    | OpCancel(id: string, role: string, now: int)
    | OpRetarget(id: string, role: string, newRole: string, now: int)
    | OpEnsure(id: string, role: string, fingerprint: string, title: string, freshId: string, now: int)
    | OpStartLead(id: string, title: string, freshId: string, now: int)
    | OpBind(id: string, role: string, taskId: string, now: int)
    | OpRemove(id: string)

  function Step(items: Cards, op: Op): Cards {
    match op
    case OpAdd(id, title, status, now) => AddItem(items, id, title, status, now)
    case OpSetStatus(id, status, reason, now) => SetStatus(items, id, status, reason, now)
    case OpAssignItem(id, taskId, now) => AssignItem(items, id, taskId, now)
    case OpReport(taskId, id, role, now) => OnLedgerDone(items, taskId, id, role, now)
    case OpReconcile(ledger, now) => Reconcile(items, ledger, now)
    case OpLinkAssign(id, role, now) => LinkAssign(items, id, role, now)
    case OpCancel(id, role, now) => Cancel(items, id, role, now)
    case OpRetarget(id, role, newRole, now) => Retarget(items, id, role, newRole, now)
    case OpEnsure(id, role, fingerprint, title, freshId, now) =>
      Ensure(items, role, fingerprint, title, id, freshId, now).0
    case OpStartLead(id, title, freshId, now) => StartLead(items, id, title, freshId, now).0
    case OpBind(id, role, taskId, now) => Bind(items, role, taskId, id, now)
    case OpRemove(id) => Remove(items, id)
  }

  function Run(items: Cards, ops: seq<Op>): Cards {
    if ops == [] then items else Step(Run(items, ops[..|ops| - 1]), ops[|ops| - 1])
  }
}
