/**
 Handing a card to panes and then canceling every hand-off, newest first, undoes itself;
 the lemmas say exactly when.
 */
module BacklogRoundTrip {
  import opened Wrappers
  import opened BacklogModel

  /** One hand-off that is later canceled. */
  datatype Trip = Trip(role: string, handedAt: int, canceledAt: int)

  /** All hand-offs in order, then their cancels in the opposite order. */
  function Script(id: string, trips: seq<Trip>): seq<Op> {
    if trips == [] then []
    else
      [OpLinkAssign(id, trips[0].role, trips[0].handedAt)]
      + Script(id, trips[1..])
      + [OpCancel(id, trips[0].role, trips[0].canceledAt)]
  }

  lemma {:induction false} RunConcat(items: Cards, a: seq<Op>, b: seq<Op>)
    ensures Run(items, a + b) == Run(Run(items, a), b)
    decreases |b|
  {
    if b == [] {
      assert a + b == a;
    } else {
      var n := |b| - 1;
      assert (a + b)[..|a| + n] == a + b[..n];
      RunConcat(items, a, b[..n]);
    }
  }

  lemma RunAround(items: Cards, first: Op, middle: seq<Op>, last: Op)
    ensures Run(items, [first] + middle + [last]) == Step(Run(Step(items, first), middle), last)
  {
    var ops := [first] + middle + [last];
    assert ops[..|ops| - 1] == [first] + middle;
    RunConcat(items, [first], middle);
    assert [first][..0] == [];
    assert Run(items, []) == items;
    assert Run(items, [first]) == Step(items, first);
  }

  lemma IndexOfIs(items: Cards, id: string, k: nat)
    requires k < |items| && items[k].id == id
    requires forall j :: 0 <= j < k ==> items[j].id != id
    ensures IndexOf(items, id) == k
  {
  }

  /** The cancel of the newest hand-off removes just that hand-off. */
  lemma CancelNewest(items: Cards, k: nat, c: Card, role: string, handedAt: int, later: int, canceledAt: int)
    requires k < |items| && k == IndexOf(items, c.id)
    requires items[k] == HandOff(c, role, handedAt).(updatedTs := later)
    ensures Cancel(items, c.id, role, canceledAt) == AfterCancel(items, k, c, later, canceledAt)
  {
    var links := items[k].links;
    assert NewestUnbound(links, role) == |c.links|;
    assert Without(links, |c.links|) == c.links;
  }

  /** The list once the only outstanding hand-off of card c is canceled. */
  function AfterCancel(items: Cards, k: nat, c: Card, later: int, canceledAt: int): Cards
    requires k < |items|
  {
    if !AllDone(c.links) then items[k := c.(status := Doing, reason := "", updatedTs := later)]
    else if c.autoTask.Some? && c.links == [] then Without(items, k)
    else items[k := c.(updatedTs := canceledAt)]
  }

  function LastHandOff(trips: seq<Trip>, start: int): int {
    if trips == [] then start else LastHandOff(trips[1..], trips[0].handedAt)
  }

  /** A trip around trips that leave everything but the time stamp alone. */
  lemma {:induction false} OuterTrip(items: Cards, k: nat, trips: seq<Trip>, handed: Cards, later: int)
    requires k < |items| && k == IndexOf(items, items[k].id) && trips != []
    requires handed == items[k := HandOff(items[k], trips[0].role, trips[0].handedAt)]
    requires Run(handed, Script(items[k].id, trips[1..])) == handed[k := handed[k].(updatedTs := later)]
    ensures Run(items, Script(items[k].id, trips)) == AfterCancel(items, k, items[k], later, trips[0].canceledAt)
  {
    var c, t := items[k], trips[0];
    RunAround(items, OpLinkAssign(c.id, t.role, t.handedAt), Script(c.id, trips[1..]),
              OpCancel(c.id, t.role, t.canceledAt));
    var card := handed[k].(updatedTs := later);
    var returned := handed[k := card];
    assert returned == items[k := card];
    IndexOfIs(returned, c.id, k);
    CancelNewest(returned, k, c, t.role, t.handedAt, later, t.canceledAt);
    assert returned[..k] == items[..k] && returned[k + 1..] == items[k + 1..];
    AfterCancelOther(items, returned, k, c, later, t.canceledAt);
  }

  lemma AfterCancelOther(items: Cards, other: Cards, k: nat, c: Card, later: int, canceledAt: int)
    requires k < |items| == |other| && other[..k] == items[..k] && other[k + 1..] == items[k + 1..]
    ensures AfterCancel(other, k, c, later, canceledAt) == AfterCancel(items, k, c, later, canceledAt)
  {
    var a, b := c.(status := Doing, reason := "", updatedTs := later), c.(updatedTs := canceledAt);
    assert other[k := a] == other[..k] + [a] + other[k + 1..] == items[k := a];
    assert other[k := b] == other[..k] + [b] + other[k + 1..] == items[k := b];
  }

  lemma HandOffOpens(items: Cards, k: nat, role: string, now: int, handed: Cards)
    requires k < |items| && k == IndexOf(items, items[k].id)
    requires handed == items[k := HandOff(items[k], role, now)]
    ensures IndexOf(handed, items[k].id) == k
    ensures !AllDone(handed[k].links)
  {
    IndexOfIs(handed, items[k].id, k);
    assert handed[k].links[|items[k].links|] in handed[k].links;
  }

  /** While an unfinished hand-off remains, the card stays as it is. */
  lemma {:induction false} TripsWhileDoing(items: Cards, k: nat, trips: seq<Trip>)
    requires k < |items| && k == IndexOf(items, items[k].id)
    requires items[k].status == Doing && items[k].reason == "" && !AllDone(items[k].links)
    ensures Run(items, Script(items[k].id, trips)) ==
      items[k := items[k].(updatedTs := LastHandOff(trips, items[k].updatedTs))]
    decreases |trips|
  {
    if trips != [] {
      var handed := items[k := HandOff(items[k], trips[0].role, trips[0].handedAt)];
      HandOffOpens(items, k, trips[0].role, trips[0].handedAt, handed);
      TripsWhileDoing(handed, k, trips[1..]);
      OuterTrip(items, k, trips, handed, LastHandOff(trips[1..], trips[0].handedAt));
    }
  }

  /** What a round trip of at least one hand-off leaves behind, whatever the card was. */
  lemma RoundTrip(items: Cards, k: nat, trips: seq<Trip>)
    requires k < |items| && k == IndexOf(items, items[k].id)
    requires trips != []
    ensures Run(items, Script(items[k].id, trips)) ==
      AfterCancel(items, k, items[k], LastHandOff(trips, items[k].updatedTs), trips[0].canceledAt)
  {
    var handed := items[k := HandOff(items[k], trips[0].role, trips[0].handedAt)];
    HandOffOpens(items, k, trips[0].role, trips[0].handedAt, handed);
    TripsWhileDoing(handed, k, trips[1..]);
    OuterTrip(items, k, trips, handed, LastHandOff(trips[1..], trips[0].handedAt));
  }

  /** The list is as before but for the time stamp of the card. */
  ghost predicate Restored(items: Cards, k: nat, after: Cards)
    requires k < |items|
  {
    && |after| == |items|
    && after == items[k := items[k].(updatedTs := after[k].updatedTs)]
  }

  /** Whether canceling all later hand-offs can bring the card back: a test on the card before them. */
  predicate Restorable(c: Card) {
    if AllDone(c.links) then c.autoTask.None? || c.links != []
    else c.status == Doing && c.reason == ""
  }

  /** A round trip restores the list if and only if the card was restorable. */
  lemma RoundTripRestores(items: Cards, k: nat, trips: seq<Trip>)
    requires k < |items| && k == IndexOf(items, items[k].id)
    requires trips != []
    ensures Restored(items, k, Run(items, Script(items[k].id, trips))) <==> Restorable(items[k])
  {
    RoundTrip(items, k, trips);
    var c, after := items[k], Run(items, Script(items[k].id, trips));
    if !AllDone(c.links) {
      assert after[k].status == Doing && after[k].reason == "";
    }
  }

  /** A card made for one assign disappears with its cancel: the list is exactly what it was. */
  lemma EnsureThenCancel(items: Cards, role: string, fingerprint: string, title: string, freshId: string, now: int,
    later: int)
    requires IndexOf(items, freshId) == |items|
    requires ReuseIndex(items, fingerprint, now) == |items|
    ensures Ensure(items, role, fingerprint, title, "", freshId, now).1 == Granted(freshId, true)
    ensures Cancel(Ensure(items, role, fingerprint, title, "", freshId, now).0, freshId, role, later) == items
  {
    var card := AutoCard(items, freshId, title, fingerprint, role, now);
    var made := items + [card];
    IndexOfIs(made, freshId, |items|);
    assert NewestUnbound(card.links, role) == 0;
    assert Without(card.links, 0) == [];
    assert Without(made, |items|) == items;
  }
}
