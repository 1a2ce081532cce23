/**
 The backlog store as the source runs it: each operation loads the list, searches and rewrites it in loops,
 and saves it. Every method is proved against its function in BacklogModel.
 */
module BacklogStore {
  import opened Wrappers
  import opened M = BacklogModel

  /** Position i comes before j when cards are listed last updated first, equal ones in stored order. */
  predicate Before(items: Cards, i: nat, j: nat)
    requires i < |items| && j < |items|
  {
    items[i].updatedTs > items[j].updatedTs || (items[i].updatedTs == items[j].updatedTs && i < j)
  }

  predicate Ordered(items: Cards, order: seq<nat>) {
    order == [] ||
    var front, last := order[..|order| - 1], order[|order| - 1];
    Ordered(items, front) && last < |items| && forall j :: j in front ==> j < |items| && Before(items, j, last)
  }

  lemma {:induction false} OrderedAt(items: Cards, order: seq<nat>, a: nat, b: nat)
    requires Ordered(items, order) && a < b < |order|
    ensures order[a] < |items| && order[b] < |items| && Before(items, order[a], order[b])
  {
    var front := order[..|order| - 1];
    if b < |front| {
      OrderedAt(items, front, a, b);
    } else {
      assert front[a] in front;
    }
  }

  /** The stable sort, one card at a time: i is larger than every position already placed. */
  function Place(items: Cards, order: seq<nat>, i: nat): (r: seq<nat>)
    requires Ordered(items, order) && i < |items|
    requires forall j :: j in order ==> j < i
    ensures Ordered(items, r)
    ensures forall j :: j in r <==> j in order || j == i
  {
    if order == [] then [i]
    else
      var front, last := order[..|order| - 1], order[|order| - 1];
      assert order == front + [last];
      if items[last].updatedTs >= items[i].updatedTs then
        assert (order + [i])[..|order|] == order;
        order + [i]
      else
        assert forall j :: j in front ==> j in order;
        var r := Place(items, front, i);
        assert (r + [last])[..|r|] == r;
        r + [last]
  }

  class Store {
    var items: Cards

    constructor ()
      ensures items == []
    {
      items := [];
    }

    method AddItem(id: string, title: string, status: Status, now: int)
      modifies this
      ensures items == M.AddItem(old(items), id, title, status, now)
      ensures old(items) <= items && (title != "" <==> |items| == |old(items)| + 1)
      ensures title != "" ==>
        forall c :: c in old(items) ==> c.number < items[|items| - 1].number
    {
      if title == "" {
        return;
      }
      items := items + [NewCard(items, id, title, status, now)];
    }

    method SetStatus(id: string, status: Status, reason: string, now: int)
      modifies this
      ensures items == M.SetStatus(old(items), id, status, reason, now)
    {
      for i := 0 to |items|
        invariant items == old(items)
        invariant forall j :: 0 <= j < i ==> items[j].id != id
      {
        if items[i].id == id {
          items := items[i := items[i].(status := status, reason := reason, updatedTs := now,
                                        reviewSince := if status == Review then Some(now) else None)];
          return;
        }
      }
    }

    method OnLedgerDone(ledgerId: string, itemId: string, role: string, now: int) returns (card: Option<Card>)
      modifies this
      ensures items == M.OnLedgerDone(old(items), ledgerId, itemId, role, now)
      ensures card.None? ==> items == old(items)
      ensures card.Some? ==> card.value in items
    {
      if ledgerId == "" {
        return None;
      }
      var store := items;
      for i := 0 to |store|
        invariant items == store == old(items)
        invariant forall j :: 0 <= j < i ==> ReportCard(store[j], ledgerId, itemId, role, now).None?
      {
        var c := Reported(store[i], ledgerId, itemId, role, now);
        if c.Some? {
          assert i == ReportedIndex(store, ledgerId, itemId, role, now);
          items := store[i := c.value];
          assert items[i] == c.value;
          return c;
        }
      }
      return None;
    }

    /** One turn of the loop over the cards; None where the source continues with the next card. */
    static method Reported(card: Card, ledgerId: string, itemId: string, role: string, now: int)
      returns (r: Option<Card>)
      ensures r == ReportCard(card, ledgerId, itemId, role, now)
    {
      var c := card;
      if itemId != "" && c.id != itemId {
        return None;
      }
      if c.status != Doing {
        return None;
      }
      var links := c.links;
      var h := HitIndex(links, ledgerId, itemId, role);
      if h < 0 && c.ledgerTaskId != ledgerId {
        return None;
      }
      if h >= 0 {
        var hit := HitLink(links[h], ledgerId, role);
        links := GiveUpOlder(links[h := hit], h);
        assert links == MarkDone(c.links, h, hit);
      }
      c := c.(links := links);
      if AllReported(links) {
        c := FinishCard(c, now);
      }
      return Some(c.(updatedTs := now));
    }

    /** Supersedes every other unbound link of the role of links[h] that is not newer than it. */
    static method GiveUpOlder(links: seq<Link>, h: nat) returns (r: seq<Link>)
      requires h < |links|
      ensures |r| == |links| && r[h] == links[h]
      ensures forall j :: 0 <= j < |links| && j != h ==>
        r[j] == (if Outdated(links[j], links[h]) then links[j].(superseded := true) else links[j])
    {
      r := links;
      for j := 0 to |links|
        invariant |r| == |links| && r[h] == links[h]
        invariant forall m :: j <= m < |links| ==> r[m] == links[m]
        invariant forall m :: 0 <= m < j && m != h ==>
          r[m] == (if Outdated(links[m], links[h]) then links[m].(superseded := true) else links[m])
      {
        if j != h && Outdated(r[j], links[h]) {
          r := r[j := r[j].(superseded := true)];
        }
      }
    }

    method ReconcileEndedTasks(ledger: Ledger, now: int) returns (changed: Cards)
      modifies this
      ensures items == M.Reconcile(old(items), ledger, now)
      ensures changed == if |ledger| == 0 then [] else ChangedCards(old(items), ledger, now)
    {
      changed := [];
      if |ledger| == 0 {
        return;
      }
      var store := items;
      for i := 0 to |store|
        invariant items == old(items) && |store| == |items|
        invariant changed == ChangedCards(items[..i], ledger, now)
        invariant forall j :: 0 <= j < i ==> store[j] == ReconcileCard(items[j], ledger, now).0
        invariant forall j :: i <= j < |store| ==> store[j] == items[j]
      {
        assert items[..i + 1][..i] == items[..i];
        var c, released := ReconcileOne(store[i], ledger, now);
        store := store[i := c];
        if released {
          changed := changed + [c];
        }
      }
      assert items[..|items|] == items;
      if changed != [] {
        assert store == ReconcileCards(items, ledger, now);
        items := store;
      }
    }

    /** One turn of the loop over the cards; the marks stay on the card even when it is not released. */
    static method ReconcileOne(card: Card, ledger: Ledger, now: int) returns (c: Card, released: bool)
      ensures (c, released) == ReconcileCard(card, ledger, now)
    {
      c := card;
      if c.status != Doing {
        return c, false;
      }
      var links, touched := MarkEnded(c.links, ledger);
      assert links == MarkLinks(c.links, ledger);
      c := c.(links := links);
      if !touched || !AllSettled(links) {
        return c, false;
      }
      if SomeDone(links) {
        c := FinishCard(c, now);
      } else {
        c := c.(status := Review, reviewSince := Some(now), reason := ENDED_WITHOUT_DONE);
      }
      c := c.(updatedTs := now);
      return c, true;
    }

    /** Writes the end of every ended task into its link; touched says whether any link was written. */
    static method MarkEnded(links: seq<Link>, ledger: Ledger) returns (r: seq<Link>, touched: bool)
      ensures |r| == |links|
      ensures forall j :: 0 <= j < |links| ==> r[j] == MarkLink(links[j], ledger)
      ensures touched <==> r != links
    {
      r, touched := links, false;
      for j := 0 to |links|
        invariant |r| == |links|
        invariant forall m :: 0 <= m < j ==> r[m] == MarkLink(links[m], ledger)
        invariant forall m :: j <= m < |links| ==> r[m] == links[m]
        invariant touched <==> exists m :: 0 <= m < j && r[m] != links[m]
      {
        var l := r[j];
        if l.role == LEAD || l.taskId == "" || l.done || l.superseded || l.ended {
          continue;
        }
        var status := Lookup(ledger, l.taskId);
        if status == Ok {
          r := r[j := l.(done := true)];
          touched := true;
        } else if status == Closed || status == M.LedgerStatus.Superseded {
          r := r[j := l.(ended := true)];
          touched := true;
        }
        assert touched ==> exists m :: 0 <= m < j + 1 && r[m] != links[m];
      }
    }

    method LinkAssign(id: string, role: string, now: int)
      modifies this
      ensures items == M.LinkAssign(old(items), id, role, now)
    {
      for i := 0 to |items|
        invariant items == old(items)
        invariant forall j :: 0 <= j < i ==> items[j].id != id
      {
        var c := items[i];
        if c.id == id {
          var previousStatus := c.status;
          var link := Link(role, "", false, false, false, now, None, "");
          link := link.(previousStatus := Some(previousStatus), previousReason := c.reason);
          c := c.(links := c.links + [link], status := Doing, reason := "", updatedTs := now);
          items := items[i := c];
          return;
        }
      }
    }

    method CancelUnstartedAssign(id: string, role: string, now: int)
      modifies this
      ensures items == M.Cancel(old(items), id, role, now)
    {
      for i := 0 to |items|
        invariant items == old(items)
        invariant forall j :: 0 <= j < i ==> items[j].id != id
      {
        if items[i].id != id {
          continue;
        }
        var c := items[i];
        assert i == IndexOf(items, id);
        var j := |c.links|;
        while j > 0
          invariant 0 <= j <= |c.links|
          invariant items == old(items)
          invariant forall m :: j <= m < |c.links| ==> !(c.links[m].role == role && c.links[m].taskId == "")
        {
          j := j - 1;
          if c.links[j].role == role && c.links[j].taskId == "" {
            assert j == NewestUnbound(c.links, role);
            var canceled := c.links[j];
            c := c.(links := Without(c.links, j));
            if AllDone(c.links) {
              if c.autoTask.Some? && c.links == [] {
                items := Without(items, i);
                return;
              }
              c := RestoreCard(c, canceled, now);
            }
            items := items[i := c];
            return;
          }
        }
        return;
      }
    }

    method RetargetUnstartedLink(id: string, oldRole: string, newRole: string, now: int)
      modifies this
      ensures items == M.Retarget(old(items), id, oldRole, newRole, now)
    {
      for i := 0 to |items|
        invariant items == old(items)
        invariant forall j :: 0 <= j < i ==> items[j].id != id
      {
        if items[i].id != id {
          continue;
        }
        var c := items[i];
        assert i == IndexOf(items, id);
        var j := |c.links|;
        while j > 0
          invariant 0 <= j <= |c.links|
          invariant items == old(items)
          invariant forall m :: j <= m < |c.links| ==> !(c.links[m].role == oldRole && c.links[m].taskId == "")
        {
          j := j - 1;
          if c.links[j].role == oldRole && c.links[j].taskId == "" {
            assert j == NewestUnbound(c.links, oldRole);
            items := items[i := c.(links := c.links[j := c.links[j].(role := newRole)], updatedTs := now)];
            return;
          }
        }
        return;
      }
    }

    /** The source's double search over the sorted cards; the winner is the card BindCard describes. */
    static method FindBinding(items: Cards, role: string, itemId: string, unbound: bool) returns (k: int, j: int)
      ensures k == BindCard(items, role, itemId, unbound)
      ensures 0 <= k ==> j == BindIndex(items[k].links, role, unbound)
    {
      var doing: seq<nat> := [];
      for i := 0 to |items|
        invariant Ordered(items, doing)
        invariant forall m :: m in doing <==>
          0 <= m < i && items[m].status == Doing && (itemId == "" || items[m].id == itemId)
      {
        if items[i].status == Doing && (itemId == "" || items[i].id == itemId) {
          doing := Place(items, doing, i);
        }
      }
      assert forall a :: 0 <= a < |doing| ==> doing[a] in doing;
      for a := 0 to |doing|
        invariant forall b :: 0 <= b < a ==> !BindCandidate(items[doing[b]], role, itemId, unbound)
      {
        var links := items[doing[a]].links;
        j := |links|;
        while j > 0
          invariant 0 <= j <= |links|
          invariant forall m :: j <= m < |links| ==> !Bindable(links[m], role, unbound)
        {
          j := j - 1;
          if Bindable(links[j], role, unbound) {
            k := doing[a];
            assert j == BindIndex(links, role, unbound);
            forall m | 0 <= m < |items| && BindCandidate(items[m], role, itemId, unbound)
              ensures m == k || Before(items, k, m)
            {
              assert m in doing;
              var b :| 0 <= b < |doing| && doing[b] == m;
              if a < b {
                OrderedAt(items, doing, a, b);
              }
            }
            return;
          }
        }
      }
      k, j := -1, -1;
      forall m | 0 <= m < |items|
        ensures !BindCandidate(items[m], role, itemId, unbound)
      {
        assert BindCandidate(items[m], role, itemId, unbound) ==> m in doing;
      }
    }

    method BindTaskId(role: string, taskId: string, itemId: string, now: int)
      modifies this
      ensures items == M.Bind(old(items), role, taskId, itemId, now)
    {
      if taskId == "" {
        return;
      }
      var k, j := FindBinding(items, role, itemId, true);
      if k < 0 {
        k, j := FindBinding(items, role, itemId, false);
      }
      if k < 0 {
        return;
      }
      var c := items[k];
      if c.links[j].taskId == taskId {
        return;
      }
      items := items[k := c.(links := c.links[j := c.links[j].(taskId := taskId)], updatedTs := now)];
    }

    method EnsureForAssign(role: string, fingerprint: string, title: string, itemId: string, freshId: string, now: int)
      returns (r: Ensured)
      modifies this
      requires title != ""
      requires IndexOf(items, freshId) == |items|
      ensures (items, r) == M.Ensure(old(items), role, fingerprint, title, itemId, freshId, now)
    {
      if itemId != "" {
        var k := IndexOf(items, itemId);
        if k == |items| {
          return Refused(NoSuchCard);
        }
        if Terminal(items[k].status) {
          return Refused(CardClosed);
        }
        var wasDoing := items[k].status == Doing;
        LinkAssign(itemId, role, now);
        return Granted(itemId, !wasDoing);
      }
      for i := 0 to |items|
        invariant items == old(items)
        invariant forall j :: 0 <= j < i ==>
          !(items[j].autoTask == Some(fingerprint) && items[j].status == Doing
            && now - items[j].createdTs <= AUTO_REUSE_WINDOW)
      {
        var c := items[i];
        if c.autoTask == Some(fingerprint) && c.status == Doing && now - c.createdTs <= AUTO_REUSE_WINDOW {
          assert i == ReuseIndex(items, fingerprint, now);
          LinkAssign(c.id, role, now);
          return Granted(c.id, false);
        }
      }
      AddItem(freshId, title, Doing, now);
      var i := 0;
      while items[i].id != freshId
        invariant 0 <= i < |items|
        invariant items == M.AddItem(old(items), freshId, title, Doing, now)
        decreases |items| - i
      {
        i := i + 1;
      }
      var c := items[i];
      assert i == |old(items)| && c == NewCard(old(items), freshId, title, Doing, now);
      var links := c.links + [Link(role, "", false, false, false, now, None, "")];
      assert links == [Link(role, "", false, false, false, now, None, "")];
      items := items[i := c.(autoTask := Some(fingerprint), links := links)];
      assert items == old(items) + [AutoCard(old(items), freshId, title, fingerprint, role, now)];
      return Granted(freshId, true);
    }
  }
}
