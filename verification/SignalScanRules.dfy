/** What the one pass computes for each rule, said of that rule and the log alone. */
module SignalScanRules {
  import opened Wrappers
  import opened SignalScan

  /** Rules are told apart by their key. */
  ghost predicate DistinctKeys(rules: seq<Rule>) {
    forall i, j :: 0 <= i < j < |rules| ==> rules[i].key != rules[j].key
  }

  predicate Relevantly(r: Rule, s: Scan, line: Line) {
    line.Some? && Qualifies(r, s, line.value)
  }

  /** The stamp of the last qualifying record of a chain, whatever came between. */
  function LastInChain(lines: seq<Line>, r: Rule, s: Scan, value: string): Option<int> {
    if lines == [] then None
    else
      var line := lines[|lines| - 1];
      if Relevantly(r, s, line) && ChainValue(r, line.value) == value then line.value.ts
      else LastInChain(lines[..|lines| - 1], r, s, value)
  }

  /** Line n counts for the rule unless it repeats, within the chain window, the record before it in its chain. */
  predicate Counts(lines: seq<Line>, r: Rule, s: Scan, n: nat)
    requires n < |lines|
  {
    Relevantly(r, s, lines[n]) &&
    var before := LastInChain(lines[..n], r, s, ChainValue(r, lines[n].value));
    !(Chains(r) && before.Some? && Near(lines[n].value.ts.value, before.value, r.chainWindow))
  }

  /** The lines that count for the rule. */
  function CountedLines(lines: seq<Line>, r: Rule, s: Scan): seq<nat> {
    if lines == [] then []
    else
      var n := |lines| - 1;
      CountedLines(lines[..n], r, s) + if Counts(lines, r, s, n) then [n] else []
  }

  /** The largest value of the rule's field, at least 0, over all qualifying records. */
  function WorstValue(lines: seq<Line>, r: Rule, s: Scan): int {
    if lines == [] then 0
    else
      var line, worst := lines[|lines| - 1], WorstValue(lines[..|lines| - 1], r, s);
      if Relevantly(r, s, line) && r.field.Some? && NumberOf(line.value, r.field.value) > worst
      then NumberOf(line.value, r.field.value) else worst
  }

  function FirstFive(ns: seq<nat>): seq<nat> {
    if |ns| <= SAMPLES then ns else ns[..SAMPLES]
  }

  /** The tally holds for one rule what the log says of it. */
  ghost predicate Agrees(t: Tally, lines: seq<Line>, r: Rule, s: Scan) {
    && CountOf(t, r.key) == |CountedLines(lines, r, s)|
    && WorstOf(t, r.key) == WorstValue(lines, r, s)
    && SamplesOf(t, r.key) == FirstFive(CountedLines(lines, r, s))
    && (Chains(r) ==> forall value :: LastOf(t, r.key, value) == LastInChain(lines, r, s, value))
  }

  /** Two tallies say the same of a key. */
  ghost predicate SameFor(t: Tally, t': Tally, key: string) {
    && CountOf(t, key) == CountOf(t', key) && WorstOf(t, key) == WorstOf(t', key)
    && SamplesOf(t, key) == SamplesOf(t', key)
    && forall value :: LastOf(t, key, value) == LastOf(t', key, value)
  }

  lemma OtherRule(t: Tally, r: Rule, s: Scan, n: nat, rec: Rec, key: string)
    requires key != r.key
    ensures SameFor(ApplyRule(t, r, s, n, rec), t, key)
  {
    if Qualifies(r, s, rec) {
      var noted := NoteWorst(t, r, rec);
      assert SameFor(noted, t, key);
      assert SameFor(Mark(noted, r, rec), noted, key);
      assert SameFor(NoteCount(Mark(noted, r, rec), r, n), Mark(noted, r, rec), key);
    }
  }

  function WorseOf(worst: int, r: Rule, rec: Rec): int {
    if r.field.Some? && NumberOf(rec, r.field.value) > worst then NumberOf(rec, r.field.value) else worst
  }

  /** What a qualifying record does to the entries of its rule. */
  ghost predicate Effect(t: Tally, t': Tally, r: Rule, n: nat, rec: Rec)
    requires rec.ts.Some?
  {
    && CountOf(t', r.key) == CountOf(t, r.key) + (if Repeats(t, r, rec) then 0 else 1)
    && WorstOf(t', r.key) == WorseOf(WorstOf(t, r.key), r, rec)
    && SamplesOf(t', r.key) == (if Repeats(t, r, rec) then SamplesOf(t, r.key) else AddSample(SamplesOf(t, r.key), n))
    && forall value :: LastOf(t', r.key, value) == MarkedAt(t, r, rec, value)
  }

  function MarkedAt(t: Tally, r: Rule, rec: Rec, value: string): Option<int> {
    if Chains(r) && value == ChainValue(r, rec) then rec.ts else LastOf(t, r.key, value)
  }

  lemma MarkEffect(t: Tally, r: Rule, rec: Rec)
    requires rec.ts.Some?
    ensures var marked := Mark(NoteWorst(t, r, rec), r, rec);
      && CountOf(marked, r.key) == CountOf(t, r.key) && SamplesOf(marked, r.key) == SamplesOf(t, r.key)
      && WorstOf(marked, r.key) == WorseOf(WorstOf(t, r.key), r, rec)
      && forall value :: LastOf(marked, r.key, value) == MarkedAt(t, r, rec, value)
  {
  }

  lemma RuleEffect(t: Tally, r: Rule, s: Scan, n: nat, rec: Rec)
    requires Qualifies(r, s, rec)
    ensures Effect(t, ApplyRule(t, r, s, n, rec), r, n, rec)
  {
    MarkEffect(t, r, rec);
  }

  lemma SameThrough(t: Tally, u: Tally, r: Rule, s: Scan, n: nat, rec: Rec)
    requires SameFor(t, u, r.key)
    ensures SameFor(ApplyRule(t, r, s, n, rec), ApplyRule(u, r, s, n, rec), r.key)
  {
    if Qualifies(r, s, rec) {
      RuleEffect(t, r, s, n, rec);
      RuleEffect(u, r, s, n, rec);
      SameEffect(t, u, ApplyRule(t, r, s, n, rec), ApplyRule(u, r, s, n, rec), r, n, rec);
    }
  }

  lemma SameEffect(t: Tally, u: Tally, t': Tally, u': Tally, r: Rule, n: nat, rec: Rec)
    requires rec.ts.Some? && SameFor(t, u, r.key)
    requires Effect(t, t', r, n, rec) && Effect(u, u', r, n, rec)
    ensures SameFor(t', u', r.key)
  {
  }

  /** Rules without the key leave it alone. */
  lemma {:induction false} OtherRules(t: Tally, rules: seq<Rule>, s: Scan, n: nat, rec: Rec, key: string)
    requires forall r :: r in rules ==> r.key != key
    ensures SameFor(ApplyRules(t, rules, s, n, rec), t, key)
  {
    if rules != [] {
      var front, last := rules[..|rules| - 1], rules[|rules| - 1];
      assert last in rules && forall r :: r in front ==> r in rules;
      OtherRules(t, front, s, n, rec, key);
      OtherRule(ApplyRules(t, front, s, n, rec), last, s, n, rec, key);
    }
  }

  /** Among rules of distinct keys, each sees a record as if it were alone. */
  lemma {:induction false} EachAlone(t: Tally, rules: seq<Rule>, k: nat, s: Scan, n: nat, rec: Rec)
    requires DistinctKeys(rules) && k < |rules|
    ensures SameFor(ApplyRules(t, rules, s, n, rec), ApplyRule(t, rules[k], s, n, rec), rules[k].key)
    decreases |rules|
  {
    var front, last := rules[..|rules| - 1], rules[|rules| - 1];
    if k < |front| {
      EachAlone(t, front, k, s, n, rec);
      OtherRule(ApplyRules(t, front, s, n, rec), last, s, n, rec, rules[k].key);
    } else {
      OtherRules(t, front, s, n, rec, last.key);
      SameThrough(ApplyRules(t, front, s, n, rec), t, last, s, n, rec);
    }
  }

  /** The record at the end of the log, seen by one rule. */
  lemma AloneAgrees(t: Tally, lines: seq<Line>, r: Rule, s: Scan)
    requires lines != [] && lines[|lines| - 1].Some?
    requires Agrees(t, lines[..|lines| - 1], r, s)
    ensures Agrees(ApplyRule(t, r, s, |lines| - 1, lines[|lines| - 1].value), lines, r, s)
  {
    var n, rec := |lines| - 1, lines[|lines| - 1].value;
    if Qualifies(r, s, rec) {
      RuleEffect(t, r, s, n, rec);
      EffectAgrees(t, ApplyRule(t, r, s, n, rec), lines, r, s);
    }
  }

  lemma SamplesAreFirstFive(counted: seq<nat>, n: nat)
    ensures AddSample(FirstFive(counted), n) == FirstFive(counted + [n])
  {
  }

  lemma EffectAgrees(t: Tally, t': Tally, lines: seq<Line>, r: Rule, s: Scan)
    requires lines != [] && Relevantly(r, s, lines[|lines| - 1])
    requires Agrees(t, lines[..|lines| - 1], r, s)
    requires Effect(t, t', r, |lines| - 1, lines[|lines| - 1].value)
    ensures Agrees(t', lines, r, s)
  {
    var n, rec := |lines| - 1, lines[|lines| - 1].value;
    SamplesAreFirstFive(CountedLines(lines[..n], r, s), n);
    assert Repeats(t, r, rec) <==> !Counts(lines, r, s, n);
  }

  /** A line the pass drops early, because it is too old for the widest window, qualifies for no rule. */
  lemma PruneIsSafe(line: Line, rules: seq<Rule>, k: nat, s: Scan)
    requires k < |rules| && !Kept(line, rules, s)
    ensures !Relevantly(rules[k], s, line)
  {
    assert rules[k] in rules;
  }

  lemma DroppedAgrees(t: Tally, lines: seq<Line>, r: Rule, s: Scan)
    requires lines != [] && !Relevantly(r, s, lines[|lines| - 1])
    requires Agrees(t, lines[..|lines| - 1], r, s)
    ensures Agrees(t, lines, r, s)
  {
  }

  lemma SameAgrees(t: Tally, t': Tally, lines: seq<Line>, r: Rule, s: Scan)
    requires SameFor(t, t', r.key) && Agrees(t', lines, r, s)
    ensures Agrees(t, lines, r, s)
  {
  }

  /** The one pass over all rules gives each rule what a scan for that rule alone would give it. */
  lemma {:induction false} OnePassAgrees(lines: seq<Line>, rules: seq<Rule>, k: nat, s: Scan)
    requires DistinctKeys(rules) && k < |rules|
    ensures Agrees(ScanLines(lines, rules, s), lines, rules[k], s)
    decreases |lines|
  {
    if lines != [] {
      var n := |lines| - 1;
      var t := ScanLines(lines[..n], rules, s);
      OnePassAgrees(lines[..n], rules, k, s);
      if Kept(lines[n], rules, s) {
        EachAlone(t, rules, k, s, n, lines[n].value);
        AloneAgrees(t, lines, rules[k], s);
        SameAgrees(ScanLines(lines, rules, s), ApplyRule(t, rules[k], s, n, lines[n].value), lines, rules[k], s);
      } else {
        PruneIsSafe(lines[n], rules, k, s);
        DroppedAgrees(t, lines, rules[k], s);
      }
    }
  }

  // ----- counts by chain -----

  /** The stamps of one chain of the rule, in the order of the log. */
  function ChainStamps(lines: seq<Line>, r: Rule, s: Scan, value: string): seq<int> {
    if lines == [] then []
    else
      var line := lines[|lines| - 1];
      ChainStamps(lines[..|lines| - 1], r, s, value)
      + if Relevantly(r, s, line) && ChainValue(r, line.value) == value then [line.value.ts.value] else []
  }

  /** How many stamps lie farther than the window from the one before them; the first always counts. */
  function Episodes(stamps: seq<int>, window: int): nat {
    if stamps == [] then 0
    else
      var n := |stamps| - 1;
      Episodes(stamps[..n], window) + if n > 0 && Near(stamps[n], stamps[n - 1], window) then 0 else 1
  }

  ghost function ChainValues(lines: seq<Line>, r: Rule, s: Scan): set<string> {
    set line | line in lines && Relevantly(r, s, line) :: ChainValue(r, line.value)
  }

  ghost function SumEpisodes(lines: seq<Line>, r: Rule, s: Scan, values: set<string>): nat {
    if values == {} then 0
    else
      var v :| v in values;
      Episodes(ChainStamps(lines, r, s, v), r.chainWindow) + SumEpisodes(lines, r, s, values - {v})
  }

  lemma {:induction false} SumWithout(lines: seq<Line>, r: Rule, s: Scan, values: set<string>, v: string)
    requires v in values
    ensures SumEpisodes(lines, r, s, values) ==
      Episodes(ChainStamps(lines, r, s, v), r.chainWindow) + SumEpisodes(lines, r, s, values - {v})
    decreases |values|
  {
    var w :| w in values && SumEpisodes(lines, r, s, values) ==
      Episodes(ChainStamps(lines, r, s, w), r.chainWindow) + SumEpisodes(lines, r, s, values - {w});
    if w != v {
      SumWithout(lines, r, s, values - {w}, v);
      SumWithout(lines, r, s, values - {v}, w);
      assert values - {w} - {v} == values - {v} - {w};
    }
  }

  /** A line adds nothing to the chains it is not in. */
  lemma {:induction false} SumUnchanged(lines: seq<Line>, r: Rule, s: Scan, values: set<string>)
    requires lines != []
    requires forall v :: v in values ==> ChainStamps(lines, r, s, v) == ChainStamps(lines[..|lines| - 1], r, s, v)
    ensures SumEpisodes(lines, r, s, values) == SumEpisodes(lines[..|lines| - 1], r, s, values)
    decreases |values|
  {
    if values != {} {
      var v :| v in values;
      SumWithout(lines, r, s, values, v);
      SumWithout(lines[..|lines| - 1], r, s, values, v);
      SumUnchanged(lines, r, s, values - {v});
    }
  }

  /** The last stamp of a chain is what LastInChain finds. */
  lemma {:induction false} LastStamp(lines: seq<Line>, r: Rule, s: Scan, value: string)
    ensures var stamps := ChainStamps(lines, r, s, value);
      LastInChain(lines, r, s, value) == if stamps == [] then None else Some(stamps[|stamps| - 1])
  {
    if lines != [] {
      LastStamp(lines[..|lines| - 1], r, s, value);
    }
  }

  lemma {:induction false} NoStampsOutside(lines: seq<Line>, r: Rule, s: Scan, value: string)
    requires value !in ChainValues(lines, r, s)
    ensures ChainStamps(lines, r, s, value) == []
  {
    if lines != [] {
      var front := lines[..|lines| - 1];
      assert forall line :: line in front ==> line in lines;
      assert lines[|lines| - 1] in lines;
      NoStampsOutside(front, r, s, value);
    }
  }

  lemma ValuesStep(front: seq<Line>, line: Line, r: Rule, s: Scan)
    ensures ChainValues(front + [line], r, s) ==
      ChainValues(front, r, s) + if Relevantly(r, s, line) then {ChainValue(r, line.value)} else {}
  {
  }

  lemma EpisodesStep(stamps: seq<int>, stamp: int, window: int)
    ensures Episodes(stamps + [stamp], window) ==
      Episodes(stamps, window) + if stamps != [] && Near(stamp, stamps[|stamps| - 1], window) then 0 else 1
  {
    assert (stamps + [stamp])[..|stamps|] == stamps;
  }

  /** What one more qualifying record adds to its own chain. */
  lemma EpisodeStep(lines: seq<Line>, r: Rule, s: Scan)
    requires Chains(r) && lines != [] && Relevantly(r, s, lines[|lines| - 1])
    ensures var n, value := |lines| - 1, ChainValue(r, lines[|lines| - 1].value);
      Episodes(ChainStamps(lines, r, s, value), r.chainWindow) ==
      Episodes(ChainStamps(lines[..n], r, s, value), r.chainWindow) + if Counts(lines, r, s, n) then 1 else 0
  {
    var n, value := |lines| - 1, ChainValue(r, lines[|lines| - 1].value);
    LastStamp(lines[..n], r, s, value);
    EpisodesStep(ChainStamps(lines[..n], r, s, value), lines[n].value.ts.value, r.chainWindow);
  }

  /** A chain without stamps adds nothing to the sum. */
  lemma SumOverMore(lines: seq<Line>, r: Rule, s: Scan, v: string)
    ensures var values := ChainValues(lines, r, s);
      SumEpisodes(lines, r, s, values + {v}) == SumEpisodes(lines, r, s, values)
  {
    var values := ChainValues(lines, r, s);
    if v in values {
      assert values + {v} == values;
    } else {
      NoStampsOutside(lines, r, s, v);
      SumWithout(lines, r, s, values + {v}, v);
      assert values + {v} - {v} == values;
    }
  }

  /** One more qualifying record in the sum over all chains. */
  lemma SumStep(lines: seq<Line>, r: Rule, s: Scan)
    requires Chains(r) && lines != [] && Relevantly(r, s, lines[|lines| - 1])
    ensures var n := |lines| - 1;
      SumEpisodes(lines, r, s, ChainValues(lines, r, s)) ==
      SumEpisodes(lines[..n], r, s, ChainValues(lines[..n], r, s)) + if Counts(lines, r, s, n) then 1 else 0
  {
    var front, line := lines[..|lines| - 1], lines[|lines| - 1];
    assert lines == front + [line];
    ValuesStep(front, line, r, s);
    var values', v := ChainValues(lines, r, s), ChainValue(r, line.value);
    SumOverMore(front, r, s, v);
    EpisodeStep(lines, r, s);
    SumWithout(lines, r, s, values', v);
    SumWithout(front, r, s, values', v);
    SumUnchanged(lines, r, s, values' - {v});
  }

  lemma SumSkips(lines: seq<Line>, r: Rule, s: Scan)
    requires lines != [] && !Relevantly(r, s, lines[|lines| - 1])
    ensures SumEpisodes(lines, r, s, ChainValues(lines, r, s)) ==
      SumEpisodes(lines[..|lines| - 1], r, s, ChainValues(lines[..|lines| - 1], r, s))
  {
    var front, line := lines[..|lines| - 1], lines[|lines| - 1];
    assert lines == front + [line];
    ValuesStep(front, line, r, s);
    assert ChainValues(lines, r, s) == ChainValues(front, r, s);
    SumUnchanged(lines, r, s, ChainValues(front, r, s));
  }

  lemma CountedStep(lines: seq<Line>, r: Rule, s: Scan)
    requires lines != []
    ensures |CountedLines(lines, r, s)| ==
      |CountedLines(lines[..|lines| - 1], r, s)| + if Counts(lines, r, s, |lines| - 1) then 1 else 0
  {
  }

  /**
   For a rule with chains the count is the sum over its chains, a chain counting once for its first record
   and once more for every record farther than the window from the one before it.
   */
  lemma {:induction false} CountByChain(lines: seq<Line>, r: Rule, s: Scan)
    requires Chains(r)
    ensures |CountedLines(lines, r, s)| == SumEpisodes(lines, r, s, ChainValues(lines, r, s))
    decreases |lines|
  {
    if lines != [] {
      CountByChain(lines[..|lines| - 1], r, s);
      CountedStep(lines, r, s);
      if Relevantly(r, s, lines[|lines| - 1]) {
        SumStep(lines, r, s);
      } else {
        SumSkips(lines, r, s);
      }
    } else {
      assert ChainValues(lines, r, s) == {};
    }
  }

  // ----- which hits are reported -----

  /** A hit for every rule over the bar, and for no other. */
  lemma {:induction false} CrossedExactly(t: Tally, rules: seq<Rule>, r: Rule)
    ensures (exists h :: h in Crossed(t, rules) && h.rule == r) <==> r in rules && CountOf(t, r.key) >= r.minCount
    ensures forall h :: h in Crossed(t, rules) ==>
      h.count == CountOf(t, h.rule.key) && h.worst == WorstOf(t, h.rule.key) && h.samples == SamplesOf(t, h.rule.key)
    decreases |rules|
  {
    if rules != [] {
      var front, last := rules[..|rules| - 1], rules[|rules| - 1];
      assert rules == front + [last];
      CrossedExactly(t, front, r);
      var hits, before := Crossed(t, rules), Crossed(t, front);
      var hit := Hit(last, CountOf(t, last.key), WorstOf(t, last.key), SamplesOf(t, last.key));
      if CountOf(t, last.key) >= last.minCount {
        assert hits == before + [hit];
        assert hit in hits;
        assert forall h :: h in hits <==> h in before || h == hit;
      } else {
        assert hits == before;
      }
    }
  }

  lemma {:induction false} ReportedExactly(hits: seq<Hit>, fired: set<string>, h: Hit)
    ensures h in Reported(hits, fired) <==> h in hits && !StandsBack(h.rule, fired)
    decreases |hits|
  {
    if hits != [] {
      var front, last := hits[..|hits| - 1], hits[|hits| - 1];
      assert hits == front + [last];
      ReportedExactly(front, fired, h);
    }
  }

  /**
   The result of the scan: exactly the rules whose own count crosses their bar, less those superseded by
   a rule that crossed its own.
   */
  lemma HitsExactly(lines: seq<Line>, rules: seq<Rule>, s: Scan, k: nat)
    requires DistinctKeys(rules) && k < |rules|
    ensures (exists h :: h in Hits(lines, rules, s) && h.rule == rules[k]) <==>
      && |CountedLines(lines, rules[k], s)| >= rules[k].minCount
      && !exists j :: 0 <= j < |rules| && rules[k].supersededBy == Some(rules[j].key)
                      && |CountedLines(lines, rules[j], s)| >= rules[j].minCount
  {
    var t := ScanLines(lines, rules, s);
    var hits := Crossed(t, rules);
    OnePassAgrees(lines, rules, k, s);
    CrossedExactly(t, rules, rules[k]);
    FiredExactly(lines, rules, s, rules[k].supersededBy);
    forall h
      ensures h in Hits(lines, rules, s) <==> h in hits && !StandsBack(h.rule, Fired(hits))
    {
      ReportedExactly(hits, Fired(hits), h);
    }
  }

  lemma FiredExactly(lines: seq<Line>, rules: seq<Rule>, s: Scan, key: Option<string>)
    requires DistinctKeys(rules)
    ensures (key.Some? && key.value in Fired(Crossed(ScanLines(lines, rules, s), rules))) <==>
      exists j :: 0 <= j < |rules| && key == Some(rules[j].key)
        && |CountedLines(lines, rules[j], s)| >= rules[j].minCount
  {
    var t := ScanLines(lines, rules, s);
    var hits := Crossed(t, rules);
    if key.Some? && key.value in Fired(hits) {
      var h :| h in hits && h.rule.key == key.value;
      CrossedExactly(t, rules, h.rule);
      var j :| 0 <= j < |rules| && rules[j] == h.rule;
      OnePassAgrees(lines, rules, j, s);
    }
    forall j | 0 <= j < |rules| && key == Some(rules[j].key) && |CountedLines(lines, rules[j], s)| >= rules[j].minCount
      ensures key.value in Fired(hits)
    {
      OnePassAgrees(lines, rules, j, s);
      CrossedExactly(t, rules, rules[j]);
    }
  }
}
