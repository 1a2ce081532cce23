/**
 Reconciling a backlog with the ledger is confluent: along a chain of ledgers that never take back
 how a task ended, running the pass after each of them gives every card the status that one pass
 with the last ledger gives it, although marks on links are saved by some passes and lost by others.
 */
module BacklogReconcile {
  import opened Wrappers
  import opened BacklogModel

  /** A later ledger keeps every end that an earlier one recorded. */
  ghost predicate Extends(earlier: Ledger, later: Ledger) {
    forall t :: t in earlier && earlier[t] != Other ==> t in later && later[t] == earlier[t]
  }

  datatype Pass = Pass(ledger: Ledger, now: int)

  function Passes(items: Cards, passes: seq<Pass>): (r: Cards)
    ensures |r| == |items|
  {
    if passes == [] then items
    else
      var last := passes[|passes| - 1];
      Reconcile(Passes(items, passes[..|passes| - 1]), last.ledger, last.now)
  }

  ghost predicate Chain(passes: seq<Pass>) {
    forall i, j :: 0 <= i < j < |passes| ==> Extends(passes[i].ledger, passes[j].ledger)
  }

  /**
   How a card c of a run compares with the card s it started as: when one pass with this ledger
   releases s, then c was released the same way; otherwise c is s with some of its links marked.
   */
  ghost predicate Tracks(s: Card, c: Card, ledger: Ledger) {
    var (once, released) := ReconcileCard(s, ledger, 0);
    if released then c.status == once.status != Doing && c.reason == once.reason
    else
      && c == s.(links := c.links)
      && |c.links| == |s.links|
      && forall j :: 0 <= j < |s.links| ==> c.links[j] == s.links[j] || c.links[j] == MarkLink(s.links[j], ledger)
  }

  lemma MarkTwice(l: Link, m: Ledger, m': Ledger)
    requires Extends(m, m')
    ensures MarkLink(MarkLink(l, m), m') == MarkLink(l, m')
    ensures MarkLink(l, m) == l || MarkLink(l, m) == MarkLink(l, m')
  {
  }

  /** Marks of the earlier ledger make no difference to what the later one marks. */
  lemma MarksAgree(s: Card, c: Card, m: Ledger, m': Ledger)
    requires Tracks(s, c, m) && !ReconcileCard(s, m, 0).1
    requires Extends(m, m')
    ensures MarkLinks(c.links, m') == MarkLinks(s.links, m')
    ensures MarkLinks(s.links, m') == s.links ==> c.links == s.links
  {
    forall j | 0 <= j < |s.links|
      ensures MarkLink(c.links[j], m') == MarkLink(s.links[j], m')
      ensures MarkLink(s.links[j], m') == s.links[j] ==> c.links[j] == s.links[j]
    {
      MarkTwice(s.links[j], m, m');
    }
    if MarkLinks(s.links, m') == s.links {
      forall j | 0 <= j < |s.links|
        ensures c.links[j] == s.links[j]
      {
        assert MarkLinks(s.links, m')[j] == s.links[j];
      }
    }
  }

  /** Once every link of a card is settled, a later ledger settles none of them differently. */
  lemma SettledMarksStay(links: seq<Link>, m: Ledger, m': Ledger)
    requires AllSettled(MarkLinks(links, m)) && Extends(m, m')
    ensures MarkLinks(links, m) == MarkLinks(links, m')
  {
    forall j | 0 <= j < |links|
      ensures MarkLink(links[j], m) == MarkLink(links[j], m')
    {
      assert MarkLinks(links, m)[j] in MarkLinks(links, m);
      MarkTwice(links[j], m, m');
    }
  }

  /** If all marks were already on c when the pass began, the earlier pass would have released s. */
  lemma SettledTooEarly(s: Card, c: Card, m: Ledger, m': Ledger)
    requires s.status == Doing && Tracks(s, c, m) && !ReconcileCard(s, m, 0).1
    requires Extends(m, m') && AllSettled(c.links)
    ensures c.links == s.links
  {
    var marked := MarkLinks(s.links, m);
    forall l | l in marked && l.role != LEAD
      ensures Settled(l)
    {
      var j :| 0 <= j < |marked| && marked[j] == l;
      assert c.links[j] in c.links;
    }
    assert AllSettled(marked);
    assert marked == s.links;
    forall j | 0 <= j < |s.links|
      ensures c.links[j] == s.links[j]
    {
      assert marked[j] == MarkLink(s.links[j], m);
    }
  }

  /** One more pass over a card keeps it in step with a single pass from the start. */
  lemma TracksStep(s: Card, c: Card, m: Ledger, m': Ledger, now: int)
    requires Tracks(s, c, m) && Extends(m, m')
    ensures Tracks(s, ReconcileCard(c, m', now).0, m')
    ensures !ReconcileCard(c, m', now).1 ==> Tracks(s, c, m')
  {
    if ReconcileCard(s, m, 0).1 {
      SettledMarksStay(s.links, m, m');
    } else if s.status == Doing {
      MarksAgree(s, c, m, m');
      forall j | 0 <= j < |s.links|
        ensures c.links[j] == s.links[j] || c.links[j] == MarkLink(s.links[j], m')
      {
        MarkTwice(s.links[j], m, m');
      }
      if MarkLinks(c.links, m') == c.links && AllSettled(c.links) {
        SettledTooEarly(s, c, m, m');
      }
    }
  }

  lemma {:induction false} ChangedExactly(items: Cards, ledger: Ledger, now: int)
    ensures ChangedCards(items, ledger, now) == [] <==>
      forall k :: 0 <= k < |items| ==> !ReconcileCard(items[k], ledger, now).1
  {
    if items != [] {
      var front := items[..|items| - 1];
      ChangedExactly(front, ledger, now);
      assert forall k :: 0 <= k < |front| ==> front[k] == items[k];
    }
  }

  lemma {:induction false} PassesTrack(items: Cards, passes: seq<Pass>)
    requires Chain(passes)
    ensures forall k :: 0 <= k < |items| ==>
      Tracks(items[k], Passes(items, passes)[k], if passes == [] then map[] else passes[|passes| - 1].ledger)
  {
    if passes == [] {
      forall k | 0 <= k < |items|
        ensures Tracks(items[k], items[k], map[])
      {
        assert MarkLinks(items[k].links, map[]) == items[k].links;
      }
    } else {
      var front, last := passes[..|passes| - 1], passes[|passes| - 1];
      PassesTrack(items, front);
      var before := Passes(items, front);
      var m := if front == [] then map[] else front[|front| - 1].ledger;
      assert Extends(m, last.ledger);
      ChangedExactly(before, last.ledger, last.now);
      forall k | 0 <= k < |items|
        ensures Tracks(items[k], Passes(items, passes)[k], last.ledger)
      {
        TracksStep(items[k], before[k], m, last.ledger, last.now);
        if |last.ledger| == 0 {
          assert MarkLinks(before[k].links, last.ledger) == before[k].links;
        }
      }
    }
  }

  lemma TracksDecide(s: Card, c: Card, d: Card, ledger: Ledger)
    requires Tracks(s, c, ledger) && Tracks(s, d, ledger)
    ensures c.status == d.status && c.reason == d.reason
  {
  }

  lemma OnePass(items: Cards, pass: Pass)
    ensures Passes(items, [pass]) == Reconcile(items, pass.ledger, pass.now)
  {
    assert [pass][..0] == [];
    assert Passes(items, []) == items;
  }

  /** Confluence: only the last ledger of the chain decides what becomes of each card. */
  lemma ReconcileConfluence(items: Cards, passes: seq<Pass>)
    requires passes != [] && Chain(passes)
    ensures var once := Reconcile(items, passes[|passes| - 1].ledger, passes[|passes| - 1].now);
      |once| == |items| && forall k :: 0 <= k < |items| ==>
        && Passes(items, passes)[k].status == once[k].status
        && Passes(items, passes)[k].reason == once[k].reason
  {
    var last := passes[|passes| - 1];
    PassesTrack(items, passes);
    PassesTrack(items, [last]);
    OnePass(items, last);
    var many, once := Passes(items, passes), Passes(items, [last]);
    forall k | 0 <= k < |items|
      ensures many[k].status == once[k].status && many[k].reason == once[k].reason
    {
      TracksDecide(items[k], many[k], once[k], last.ledger);
    }
  }

  lemma ReconcileCardTwice(c: Card, ledger: Ledger, now: int, later: int)
    ensures !ReconcileCard(ReconcileCard(c, ledger, now).0, ledger, later).1
  {
    var marked := MarkLinks(c.links, ledger);
    forall j | 0 <= j < |marked|
      ensures MarkLink(marked[j], ledger) == marked[j]
    {
      MarkTwice(c.links[j], ledger, ledger);
    }
    assert MarkLinks(marked, ledger) == marked;
  }

  /** A second pass with the same ledger, at any later time, changes nothing. */
  lemma ReconcileTwice(items: Cards, ledger: Ledger, now: int, later: int)
    ensures Reconcile(Reconcile(items, ledger, now), ledger, later) == Reconcile(items, ledger, now)
  {
    var saved := ReconcileCards(items, ledger, now);
    ChangedExactly(saved, ledger, later);
    forall k | 0 <= k < |saved|
      ensures !ReconcileCard(saved[k], ledger, later).1
    {
      ReconcileCardTwice(items[k], ledger, now, later);
    }
    ChangedExactly(items, ledger, now);
    ChangedExactly(items, ledger, later);
    forall k | 0 <= k < |items|
      ensures ReconcileCard(items[k], ledger, now).1 == ReconcileCard(items[k], ledger, later).1
    {
    }
  }
}
