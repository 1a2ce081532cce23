/**
 Which records of the log matter to a rule, said of each record alone: one that the rule disregards could as well not
 be there, and every other counts or repeats its chain.
 */
module SignalScanRecords {
  import opened Wrappers
  import opened SignalScan
  import opened SignalScanRules
  import opened SignalScanAlone

  /** The process is known to have paused: the record says so, or its gap, or a mark within two minutes. */
  ghost predicate Paused(rec: Rec, stamp: int, marks: seq<int>) {
    || rec.whole
    || ("watchdog_gap_ms" in rec.numbers && rec.numbers["watchdog_gap_ms"] >= 2000)
    || exists m :: m in marks && m - 120_000_000 <= stamp <= m + 120_000_000
  }

  /** The reason of the record is one of those the rule takes for routine. */
  predicate Routine(rec: Rec, r: Rule) {
    && r.ignoreField.Some?
    && (if r.ignoreField.value in rec.fields then rec.fields[r.ignoreField.value] else "") in r.ignoreValues
  }

  /** The record stays below the bar the rule sets for a field. */
  predicate BelowBar(rec: Rec, r: Rule) {
    r.field.Some? && r.fieldMin.Some?
    && (if r.field.value in rec.numbers then rec.numbers[r.field.value] else 0) < r.fieldMin.value
  }

  /** How far back the rule looks. */
  function Reach(r: Rule, window: int): int {
    if r.window.None? || r.window.value == 0 then window else r.window.value
  }

  /**
   The rule disregards the line: it is no record or has no time, it is of another event, too old, routine, below the
   bar, or a pause the rule skips.
   */
  ghost predicate Disregarded(r: Rule, s: Scan, line: Line) {
    line.None? || line.value.ts.None? ||
    var rec, stamp := line.value, line.value.ts.value;
    || rec.event != r.event || stamp < s.now - Reach(r, s.window) || Routine(rec, r) || BelowBar(rec, r)
    || (r.skipPauses && Paused(rec, stamp, s.marks))
  }

  lemma DisregardedExactly(r: Rule, s: Scan, line: Line)
    ensures Disregarded(r, s, line) <==> !Relevantly(r, s, line)
  {
    if line.Some? && line.value.ts.Some? {
      var rec := line.value;
      assert IsPause(rec, s.marks) <==> Paused(rec, rec.ts.value, s.marks);
    }
  }

  /** The records of one chain of the rule, or all of them if it has no chains. */
  ghost predicate SameChain(r: Rule, a: Rec, b: Rec) {
    r.chainField.Some? && r.chainWindow > 0 ==>
      FieldOf(a, "project") + "::" + FieldOf(a, r.chainField.value) ==
      FieldOf(b, "project") + "::" + FieldOf(b, r.chainField.value)
  }

  function FieldOf(rec: Rec, field: string): string {
    if field in rec.fields then rec.fields[field] else ""
  }

  // ----- a disregarded line might as well not be there -----

  /** Two logs a rule counts alike. */
  ghost predicate CountAlike(a: seq<Line>, b: seq<Line>, r: Rule, s: Scan) {
    && |CountedLines(a, r, s)| == |CountedLines(b, r, s)| && WorstValue(a, r, s) == WorstValue(b, r, s)
    && forall value :: LastInChain(a, r, s, value) == LastInChain(b, r, s, value)
  }

  lemma AlikeStep(a: seq<Line>, b: seq<Line>, y: Line, r: Rule, s: Scan)
    requires CountAlike(a, b, r, s)
    ensures CountAlike(a + [y], b + [y], r, s)
  {
    assert (a + [y])[..|a|] == a && (b + [y])[..|b|] == b;
    assert Counts(a + [y], r, s, |a|) <==> Counts(b + [y], r, s, |b|);
  }

  lemma AlikeWithout(a: seq<Line>, x: Line, r: Rule, s: Scan)
    requires Disregarded(r, s, x)
    ensures CountAlike(a + [x], a, r, s)
  {
    DisregardedExactly(r, s, x);
    assert (a + [x])[..|a|] == a;
  }

  lemma {:induction false} Inserted(a: seq<Line>, x: Line, b: seq<Line>, r: Rule, s: Scan)
    requires Disregarded(r, s, x)
    ensures CountAlike(a + [x] + b, a + b, r, s)
    decreases |b|
  {
    if b == [] {
      AlikeWithout(a, x, r, s);
      assert a + [x] + b == a + [x] && a + b == a;
    } else {
      var front, last := b[..|b| - 1], b[|b| - 1];
      Inserted(a, x, front, r, s);
      AlikeStep(a + [x] + front, a + front, last, r, s);
      assert a + [x] + b == a + [x] + front + [last] && a + b == a + front + [last];
    }
  }

  /** Adding or deleting a line a rule disregards changes no count and no worst value of the rule. */
  lemma DisregardedChangesNothing(a: seq<Line>, x: Line, b: seq<Line>, rules: seq<Rule>, k: nat, s: Scan)
    requires DistinctKeys(rules) && k < |rules| && Disregarded(rules[k], s, x)
    ensures var with, without := ScanLines(a + [x] + b, rules, s), ScanLines(a + b, rules, s);
      && CountOf(with, rules[k].key) == CountOf(without, rules[k].key)
      && WorstOf(with, rules[k].key) == WorstOf(without, rules[k].key)
  {
    OnePassAgrees(a + [x] + b, rules, k, s);
    OnePassAgrees(a + b, rules, k, s);
    Inserted(a, x, b, rules[k], s);
  }

  /** A rule is reported. */
  ghost predicate IsHit(lines: seq<Line>, rules: seq<Rule>, s: Scan, r: Rule) {
    exists h :: h in Hits(lines, rules, s) && h.rule == r
  }

  /** A line every rule disregards changes no hit either. */
  lemma DisregardedByAllChangesNoHit(a: seq<Line>, x: Line, b: seq<Line>, rules: seq<Rule>, k: nat, s: Scan)
    requires DistinctKeys(rules) && k < |rules| && forall r :: r in rules ==> Disregarded(r, s, x)
    ensures IsHit(a + [x] + b, rules, s, rules[k]) <==> IsHit(a + b, rules, s, rules[k])
  {
    HitsExactly(a + [x] + b, rules, s, k);
    HitsExactly(a + b, rules, s, k);
    forall j | 0 <= j < |rules|
      ensures |CountedLines(a + [x] + b, rules[j], s)| == |CountedLines(a + b, rules[j], s)|
    {
      Inserted(a, x, b, rules[j], s);
    }
  }

  /** A line that is no mark leaves the marks, and with them the whole scan, as they are. */
  lemma {:induction false} MarksInserted(a: seq<Line>, x: Line, b: seq<Line>, cutoff: int)
    requires !IsSleepGap(x, cutoff) && !IsWholeStall(x, cutoff)
    ensures SleepGaps(a + [x] + b, cutoff) == SleepGaps(a + b, cutoff)
    ensures WholeStalls(a + [x] + b, cutoff) == WholeStalls(a + b, cutoff)
    decreases |b|
  {
    if b == [] {
      assert a + [x] + b == a + [x] && a + b == a && (a + [x])[..|a|] == a;
    } else {
      var front, last := b[..|b| - 1], b[|b| - 1];
      MarksInserted(a, x, front, cutoff);
      var with, without := a + [x] + b, a + b;
      assert with[..|with| - 1] == a + [x] + front && without[..|without| - 1] == a + front;
      assert with[|with| - 1] == last && without[|without| - 1] == last;
    }
  }

  lemma ScanInserted(a: seq<Line>, x: Line, b: seq<Line>, rules: seq<Rule>, now: int, window: int)
    requires var cutoff := CutoffOf(rules, now, window); !IsSleepGap(x, cutoff) && !IsWholeStall(x, cutoff)
    ensures Prepared(a + [x] + b, rules, now, window) == Prepared(a + b, rules, now, window)
  {
    MarksInserted(a, x, b, CutoffOf(rules, now, window));
  }

  // ----- every other line counts -----

  ghost predicate InChain(r: Rule, s: Scan, rec: Rec, line: Line) {
    !Disregarded(r, s, line) && SameChain(r, line.value, rec)
  }

  /** Line j is the last one not disregarded in the chain of the record. */
  ghost predicate LastOfChain(lines: seq<Line>, r: Rule, s: Scan, rec: Rec, j: int) {
    && 0 <= j < |lines| && InChain(r, s, rec, lines[j])
    && forall i :: j < i < |lines| ==> !InChain(r, s, rec, lines[i])
  }

  /** The record is within the chain window of the last one before it in its chain. */
  ghost predicate Repeated(lines: seq<Line>, r: Rule, s: Scan, rec: Rec)
    requires rec.ts.Some?
  {
    Chains(r) && exists j :: (LastOfChain(lines, r, s, rec, j)
      && -r.chainWindow <= rec.ts.value - lines[j].value.ts.value <= r.chainWindow)
  }

  lemma ChainStep(lines: seq<Line>, r: Rule, s: Scan, rec: Rec)
    requires Chains(r) && lines != []
    ensures var n := |lines| - 1;
      LastInChain(lines, r, s, ChainValue(r, rec)) ==
      if InChain(r, s, rec, lines[n]) then lines[n].value.ts else LastInChain(lines[..n], r, s, ChainValue(r, rec))
  {
    DisregardedExactly(r, s, lines[|lines| - 1]);
  }

  lemma LastOfLonger(lines: seq<Line>, r: Rule, s: Scan, rec: Rec, j: int)
    requires lines != [] && !InChain(r, s, rec, lines[|lines| - 1])
    requires LastOfChain(lines[..|lines| - 1], r, s, rec, j)
    ensures LastOfChain(lines, r, s, rec, j)
  {
    assert forall i :: 0 <= i < |lines| - 1 ==> lines[..|lines| - 1][i] == lines[i];
  }

  lemma {:induction false} LastFound(lines: seq<Line>, r: Rule, s: Scan, rec: Rec) returns (j: int)
    requires Chains(r)
    ensures var last := LastInChain(lines, r, s, ChainValue(r, rec));
      if j < 0 then last == None && forall line :: line in lines ==> !InChain(r, s, rec, line)
      else LastOfChain(lines, r, s, rec, j) && lines[j].value.ts == last
  {
    if lines == [] {
      return -1;
    }
    var front, line := lines[..|lines| - 1], lines[|lines| - 1];
    assert lines == front + [line];
    ChainStep(lines, r, s, rec);
    if InChain(r, s, rec, line) {
      return |front|;
    }
    j := LastFound(front, r, s, rec);
    if j >= 0 {
      LastOfLonger(lines, r, s, rec, j);
    }
  }

  /** A record that is not disregarded counts once, unless it repeats the one before it in its chain. */
  lemma RegardedCounts(lines: seq<Line>, rec: Rec, rules: seq<Rule>, k: nat, s: Scan)
    requires DistinctKeys(rules) && k < |rules| && !Disregarded(rules[k], s, Some(rec))
    ensures var before, after := ScanLines(lines, rules, s), ScanLines(lines + [Some(rec)], rules, s);
      CountOf(after, rules[k].key) ==
      CountOf(before, rules[k].key) + if Repeated(lines, rules[k], s, rec) then 0 else 1
  {
    var r, all := rules[k], lines + [Some(rec)];
    OnePassAgrees(lines, rules, k, s);
    OnePassAgrees(all, rules, k, s);
    DisregardedExactly(r, s, Some(rec));
    assert all[..|lines|] == lines;
    if Chains(r) {
      var j := LastFound(lines, r, s, rec);
      assert forall i :: LastOfChain(lines, r, s, rec, i) ==> i == j;
    }
  }

  /** How many lines the rule does not disregard. */
  ghost function Regarded(lines: seq<Line>, r: Rule, s: Scan): nat {
    if lines == [] then 0
    else Regarded(lines[..|lines| - 1], r, s) + if Disregarded(r, s, lines[|lines| - 1]) then 0 else 1
  }

  lemma {:induction false} RegardedLines(lines: seq<Line>, r: Rule, s: Scan)
    ensures |CountedLines(lines, r, s)| <= Regarded(lines, r, s)
    ensures !Chains(r) ==> |CountedLines(lines, r, s)| == Regarded(lines, r, s)
  {
    if lines != [] {
      RegardedLines(lines[..|lines| - 1], r, s);
      DisregardedExactly(r, s, lines[|lines| - 1]);
    }
  }

  /** A rule counts no more than the lines it does not disregard, and without chains exactly those. */
  lemma CountsRegarded(lines: seq<Line>, rules: seq<Rule>, k: nat, s: Scan)
    requires DistinctKeys(rules) && k < |rules|
    ensures CountOf(ScanLines(lines, rules, s), rules[k].key) <= Regarded(lines, rules[k], s)
    ensures !Chains(rules[k]) ==> CountOf(ScanLines(lines, rules, s), rules[k].key) == Regarded(lines, rules[k], s)
  {
    OnePassAgrees(lines, rules, k, s);
    RegardedLines(lines, rules[k], s);
  }

  /** What a line shows for the field of the rule, nothing being zero. */
  function Shown(r: Rule, line: Line): int {
    if line.Some? && r.field.Some? && r.field.value in line.value.numbers then line.value.numbers[r.field.value] else 0
  }

  /** The worst value is the largest one shown by a line that is not disregarded, and zero if none is above. */
  lemma {:induction false} WorstIsLargest(lines: seq<Line>, r: Rule, s: Scan)
    ensures WorstValue(lines, r, s) >= 0
    ensures forall line :: line in lines && !Disregarded(r, s, line) ==> Shown(r, line) <= WorstValue(lines, r, s)
    ensures WorstValue(lines, r, s) > 0 ==> exists line ::
      line in lines && !Disregarded(r, s, line) && Shown(r, line) == WorstValue(lines, r, s)
  {
    if lines != [] {
      var front, last := lines[..|lines| - 1], lines[|lines| - 1];
      assert lines == front + [last];
      WorstIsLargest(front, r, s);
      DisregardedExactly(r, s, last);
      if WorstValue(lines, r, s) == WorstValue(front, r, s) > 0 {
        var line :| line in front && !Disregarded(r, s, line) && Shown(r, line) == WorstValue(front, r, s);
        assert line in lines;
      }
    }
  }

  // ----- the marks -----

  /** The line tells of a pause of the whole process at this moment: a sleep gap, or a stall flagged as one. */
  ghost predicate Tells(line: Line, m: int) {
    line.Some? && line.value.ts == Some(m) &&
    (line.value.event == "watchdog_clock_sleep_gap_absorbed"
     || (line.value.event == "main_thread_stall" && line.value.whole && line.value.wholeText))
  }

  lemma {:induction false} MarksExactly(lines: seq<Line>, cutoff: int, m: int)
    ensures m in PauseMarks(lines, cutoff) <==> m >= cutoff && exists line :: line in lines && Tells(line, m)
  {
    if lines != [] {
      var front, last := lines[..|lines| - 1], lines[|lines| - 1];
      assert lines == front + [last];
      MarksExactly(front, cutoff, m);
      assert m in PauseMarks(lines, cutoff) <==>
        m in PauseMarks(front, cutoff) || (m >= cutoff && Tells(last, m));
    }
  }

  /** The moment is within the window of the scan, or within that of some rule which sets one. */
  ghost predicate InSomeWindow(rules: seq<Rule>, now: int, window: int, m: int) {
    m >= now - window
    || exists r :: r in rules && r.window.Some? && r.window.value != 0 && m >= now - r.window.value
  }

  lemma {:induction false} WidestExactly(rules: seq<Rule>, s: Scan, m: int)
    ensures m >= s.now - Widest(rules, s) <==> InSomeWindow(rules, s.now, s.window, m)
  {
    if rules != [] {
      var front, last := rules[..|rules| - 1], rules[|rules| - 1];
      assert rules == front + [last];
      WidestExactly(front, s, m);
    }
  }

  /** The marks of a scan: none if no rule skips pauses, and else every pause told of within some window. */
  lemma PreparedExactly(lines: seq<Line>, rules: seq<Rule>, now: int, window: int, m: int)
    ensures m in Prepared(lines, rules, now, window).marks <==>
      && (exists r :: r in rules && r.skipPauses)
      && InSomeWindow(rules, now, window, m)
      && exists line :: line in lines && Tells(line, m)
  {
    var s := Scan(now, window, []);
    MarksExactly(lines, now - Widest(rules, s), m);
    WidestExactly(rules, s, m);
  }

  // ----- the shipped rule for failed deliveries -----

  function DeliveryFailed(): Rule {
    Rule("task_delivery_failed", "task_delivery_failed", 3, None, None, Some("reason"),
         {"agent_reported_failed", "pane_closed", "session_replaced"}, None, None, 0, None, false)
  }

  /** However many deliveries failed for routine reasons, the rule is not hit. */
  lemma RoutineIsNoHit(lines: seq<Line>, rules: seq<Rule>, k: nat, s: Scan)
    requires DistinctKeys(rules) && k < |rules| && rules[k] == DeliveryFailed()
    requires forall line :: line in lines && line.Some? && line.value.event == "task_delivery_failed" ==>
      "reason" in line.value.fields
      && line.value.fields["reason"] in {"agent_reported_failed", "pane_closed", "session_replaced"}
    ensures !IsHit(lines, rules, s, rules[k])
  {
    HitsExactly(lines, rules, s, k);
    RegardedLines(lines, rules[k], s);
    NoneRegarded(lines, rules[k], s);
  }

  lemma {:induction false} NoneRegarded(lines: seq<Line>, r: Rule, s: Scan)
    requires forall line :: line in lines ==> Disregarded(r, s, line)
    ensures Regarded(lines, r, s) == 0
  {
    if lines != [] {
      assert lines == lines[..|lines| - 1] + [lines[|lines| - 1]];
      NoneRegarded(lines[..|lines| - 1], r, s);
    }
  }
}
