/**
 Where the rules of one scan do touch each other: the marks that excuse a stall are collected back to the widest
 window of all rules, so another rule's window decides which marks a rule sees.
 */
module SignalScanAlone {
  import opened Wrappers
  import opened SignalScan
  import opened SignalScanRules

  /** A moment at which the log says that the process paused, in a stretch of time. */
  ghost predicate MarkedBetween(lines: seq<Line>, m: int, early: int, late: int) {
    m in PauseMarks(lines, early) && m < late
  }

  lemma MarksSplit(lines: seq<Line>, early: int, late: int, m: int)
    requires early <= late
    ensures m in PauseMarks(lines, early) <==> m in PauseMarks(lines, late) || MarkedBetween(lines, m, early, late)
    ensures m in PauseMarks(lines, late) ==> m >= late
  {
    GapsSplit(lines, early, late, m);
    StallsSplit(lines, early, late, m);
  }

  lemma {:induction false} GapsSplit(lines: seq<Line>, early: int, late: int, m: int)
    requires early <= late
    ensures m in SleepGaps(lines, late) <==> m in SleepGaps(lines, early) && m >= late
  {
    if lines != [] {
      GapsSplit(lines[..|lines| - 1], early, late, m);
    }
  }

  lemma {:induction false} StallsSplit(lines: seq<Line>, early: int, late: int, m: int)
    requires early <= late
    ensures m in WholeStalls(lines, late) <==> m in WholeStalls(lines, early) && m >= late
  {
    if lines != [] {
      StallsSplit(lines[..|lines| - 1], early, late, m);
    }
  }

  /** A record that counts for the rule with the later marks only, although an earlier mark lies near it. */
  ghost predicate Missed(lines: seq<Line>, r: Rule, s: Scan, early: int, late: int, line: Line) {
    && r.skipPauses
    && Relevantly(r, s.(marks := PauseMarks(lines, late)), line)
    && exists m :: MarkedBetween(lines, m, early, late) && Near(line.value.ts.value, m, MARK_WINDOW)
  }

  /** What a record is to a rule when the marks go back to one moment or to an earlier one. */
  lemma MarksMatterExactly(lines: seq<Line>, r: Rule, s: Scan, early: int, late: int, line: Line)
    requires early <= late
    ensures Relevantly(r, s.(marks := PauseMarks(lines, early)), line) <==>
      Relevantly(r, s.(marks := PauseMarks(lines, late)), line) && !Missed(lines, r, s, early, late, line)
  {
    forall m
      ensures m in PauseMarks(lines, early) <==> m in PauseMarks(lines, late) || MarkedBetween(lines, m, early, late)
    {
      MarksSplit(lines, early, late, m);
    }
  }

  /** All records count alike. */
  ghost predicate SameRelevance(lines: seq<Line>, r: Rule, s: Scan, t: Scan) {
    forall line :: line in lines ==> (Relevantly(r, s, line) <==> Relevantly(r, t, line))
  }

  /** Marks that go back farther change nothing for a rule if and only if no record is missed. */
  lemma CutoffsAgreeExactly(lines: seq<Line>, r: Rule, s: Scan, early: int, late: int)
    requires early <= late
    ensures SameRelevance(lines, r, s.(marks := PauseMarks(lines, early)), s.(marks := PauseMarks(lines, late))) <==>
      forall line :: line in lines ==> !Missed(lines, r, s, early, late, line)
  {
    forall line | line in lines
      ensures Relevantly(r, s.(marks := PauseMarks(lines, early)), line) <==>
        Relevantly(r, s.(marks := PauseMarks(lines, late)), line) && !Missed(lines, r, s, early, late, line)
    {
      MarksMatterExactly(lines, r, s, early, late, line);
    }
  }

  // ----- a rule alone -----

  lemma {:induction false} SameCounts(lines: seq<Line>, r: Rule, s: Scan, t: Scan)
    requires SameRelevance(lines, r, s, t)
    ensures CountedLines(lines, r, s) == CountedLines(lines, r, t) && WorstValue(lines, r, s) == WorstValue(lines, r, t)
    ensures forall value :: LastInChain(lines, r, s, value) == LastInChain(lines, r, t, value)
  {
    if lines != [] {
      var front, last := lines[..|lines| - 1], lines[|lines| - 1];
      assert last in lines && forall line :: line in front ==> line in lines;
      SameCounts(front, r, s, t);
    }
  }

  /** Without chains, a rule that finds fewer records relevant counts fewer. */
  lemma {:induction false} FewerCount(lines: seq<Line>, r: Rule, s: Scan, t: Scan)
    requires !Chains(r)
    requires forall line :: line in lines && Relevantly(r, s, line) ==> Relevantly(r, t, line)
    ensures |CountedLines(lines, r, s)| <= |CountedLines(lines, r, t)|
    ensures |CountedLines(lines, r, s)| == |CountedLines(lines, r, t)| <==> SameRelevance(lines, r, s, t)
  {
    if lines != [] {
      var front, last := lines[..|lines| - 1], lines[|lines| - 1];
      assert lines == front + [last];
      FewerCount(front, r, s, t);
    }
  }

  /** How far back the marks of a scan go. */
  function CutoffOf(rules: seq<Rule>, now: int, window: int): int {
    now - Widest(rules, Scan(now, window, []))
  }

  lemma WidestCovers(rules: seq<Rule>, r: Rule, s: Scan)
    requires r in rules
    ensures Widest([r], s) <= Widest(rules, s)
  {
    assert Widest([r], s) == s.window || (HasWindow(r) && Widest([r], s) == r.window.value);
  }

  /** A record another rule's wider window excuses for this rule, and that counts when the rule is scanned alone. */
  ghost predicate ExcusedByOthers(lines: seq<Line>, rules: seq<Rule>, r: Rule, now: int, window: int, line: Line) {
    Missed(lines, r, Scan(now, window, []), CutoffOf(rules, now, window), CutoffOf([r], now, window), line)
  }

  lemma PreparedMarks(lines: seq<Line>, rules: seq<Rule>, r: Rule, now: int, window: int)
    requires r in rules && r.skipPauses
    ensures Prepared(lines, rules, now, window) ==
      Scan(now, window, []).(marks := PauseMarks(lines, CutoffOf(rules, now, window)))
  {
  }

  lemma MarksUnused(r: Rule, s: Scan, marks: seq<int>, line: Line)
    requires !r.skipPauses
    ensures Relevantly(r, s, line) <==> Relevantly(r, s.(marks := marks), line)
  {
  }

  /** A rule is given by the scan of all rules what a scan for it alone gives, unless a record is excused by others. */
  lemma AloneRelevance(lines: seq<Line>, rules: seq<Rule>, r: Rule, now: int, window: int)
    requires r in rules
    ensures SameRelevance(lines, r, Prepared(lines, rules, now, window), Prepared(lines, [r], now, window)) <==>
      forall line :: line in lines ==> !ExcusedByOthers(lines, rules, r, now, window, line)
    ensures forall line :: Relevantly(r, Prepared(lines, rules, now, window), line) ==>
      Relevantly(r, Prepared(lines, [r], now, window), line)
  {
    var s := Scan(now, window, []);
    var early, late := CutoffOf(rules, now, window), CutoffOf([r], now, window);
    WidestCovers(rules, r, s);
    if r.skipPauses {
      PreparedMarks(lines, rules, r, now, window);
      PreparedMarks(lines, [r], r, now, window);
      CutoffsAgreeExactly(lines, r, s, early, late);
    }
    forall line
      ensures Relevantly(r, Prepared(lines, rules, now, window), line) ==>
        Relevantly(r, Prepared(lines, [r], now, window), line)
      ensures !r.skipPauses ==> (Relevantly(r, Prepared(lines, rules, now, window), line) <==>
        Relevantly(r, Prepared(lines, [r], now, window), line))
    {
      if r.skipPauses {
        MarksMatterExactly(lines, r, s, early, late, line);
      } else {
        MarksUnused(r, s, Prepared(lines, rules, now, window).marks, line);
        MarksUnused(r, s, Prepared(lines, [r], now, window).marks, line);
      }
    }
  }

  /**
   The count of a rule without chains is the count of a scan for that rule alone if and only if no record is excused
   only by marks that are older than the rule's own scan looks back.
   */
  lemma LoneScanAgreesExactly(lines: seq<Line>, rules: seq<Rule>, k: nat, now: int, window: int)
    requires DistinctKeys(rules) && k < |rules| && !Chains(rules[k])
    ensures var r := rules[k];
      CountOf(ScanLines(lines, rules, Prepared(lines, rules, now, window)), r.key) ==
      CountOf(ScanLines(lines, [r], Prepared(lines, [r], now, window)), r.key) <==>
      forall line :: line in lines ==> !ExcusedByOthers(lines, rules, r, now, window, line)
  {
    var r := rules[k];
    var s, t := Prepared(lines, rules, now, window), Prepared(lines, [r], now, window);
    OnePassAgrees(lines, rules, k, s);
    OnePassAgrees(lines, [r], 0, t);
    AloneRelevance(lines, rules, r, now, window);
    FewerCount(lines, r, s, t);
  }

  /** For any rule, chains or not: when no record is, the two scans tell the same of it throughout. */
  lemma LoneScanAgrees(lines: seq<Line>, rules: seq<Rule>, k: nat, now: int, window: int)
    requires DistinctKeys(rules) && k < |rules|
    requires forall line :: line in lines ==> !ExcusedByOthers(lines, rules, rules[k], now, window, line)
    ensures Agrees(ScanLines(lines, [rules[k]], Prepared(lines, [rules[k]], now, window)), lines, rules[k],
                   Prepared(lines, rules, now, window))
  {
    var r := rules[k];
    OnePassAgrees(lines, [r], 0, Prepared(lines, [r], now, window));
    AloneRelevance(lines, rules, r, now, window);
    SameCounts(lines, r, Prepared(lines, rules, now, window), Prepared(lines, [r], now, window));
  }

  /**
   Even the widest scan forgets marks: it counts a stall near a mark just before its cutoff, and going back
   any farther changes nothing for a rule if and only if there is no such stall.
   */
  lemma ForgottenMarksExactly(lines: seq<Line>, rules: seq<Rule>, r: Rule, now: int, window: int, early: int)
    requires r in rules && r.skipPauses && early <= CutoffOf(rules, now, window)
    ensures
      SameRelevance(lines, r, Scan(now, window, PauseMarks(lines, early)), Prepared(lines, rules, now, window)) <==>
      forall line :: line in lines ==>
        !Missed(lines, r, Scan(now, window, []), early, CutoffOf(rules, now, window), line)
  {
    PreparedMarks(lines, rules, r, now, window);
    CutoffsAgreeExactly(lines, r, Scan(now, window, []), early, CutoffOf(rules, now, window));
  }

  // ----- it happens with the rules the program ships -----

  const SECOND := 1_000_000
  const HOUR := 3_600 * SECOND

  function LongStall(): Rule {
    Rule("main_thread_stall_long", STALL, 1, Some("duration_ms"), Some(10_000), None, {}, None, None, 0,
         Some("main_thread_stall_severe"), true)
  }

  function RolledBack(): Rule {
    Rule("auto_migrate_rolled_back", "auto_migrate_rolled_back", 1, None, None, None, {}, Some(24 * HOUR), None, 0,
         None, false)
  }

  /** A sleep-gap marker a minute before the six hours, and a stall of eleven seconds half a minute into them. */
  function MarkThenStall(now: int): seq<Line> {
    [Some(Rec(Some(now - 6 * HOUR - 60 * SECOND), SLEEP_GAP, map[], map[], false, false)),
     Some(Rec(Some(now - 6 * HOUR + 30 * SECOND), STALL, map[], map["duration_ms" := 11_000], false, false))]
  }

  lemma WindowsOfTwo(s: Scan)
    requires s.window == 6 * HOUR
    ensures Widest([LongStall()], s) == 6 * HOUR && Widest([LongStall(), RolledBack()], s) == 24 * HOUR
  {
    var one, two := [LongStall()], [LongStall(), RolledBack()];
    assert one[..0] == [] && two[..1] == one;
    assert Widest(one, s) == s.window;
  }

  lemma MarksOfTwo(a: Line, b: Line, cutoff: int)
    ensures SleepGaps([a, b], cutoff) ==
      (if IsSleepGap(a, cutoff) then [a.value.ts.value] else [])
      + if IsSleepGap(b, cutoff) then [b.value.ts.value] else []
    ensures !IsWholeStall(a, cutoff) && !IsWholeStall(b, cutoff) ==> WholeStalls([a, b], cutoff) == []
  {
    assert [a, b][..1] == [a] && [a][..0] == [];
    assert SleepGaps([a], cutoff) == if IsSleepGap(a, cutoff) then [a.value.ts.value] else [];
    assert WholeStalls([a], cutoff) == if IsWholeStall(a, cutoff) then [a.value.ts.value] else [];
  }

  lemma OtherRuleExcuses(now: int)
    ensures var rules, lines := [LongStall(), RolledBack()], MarkThenStall(now);
      CountOf(ScanLines(lines, rules, Prepared(lines, rules, now, 6 * HOUR)), LongStall().key) !=
      CountOf(ScanLines(lines, [LongStall()], Prepared(lines, [LongStall()], now, 6 * HOUR)), LongStall().key)
  {
    var r, rules, lines := LongStall(), [LongStall(), RolledBack()], MarkThenStall(now);
    var early, late := CutoffOf(rules, now, 6 * HOUR), CutoffOf([r], now, 6 * HOUR);
    WindowsOfTwo(Scan(now, 6 * HOUR, []));
    MarksOfTwo(lines[0], lines[1], early);
    MarksOfTwo(lines[0], lines[1], late);
    var m := lines[0].value.ts.value;
    assert PauseMarks(lines, early) == [m] && PauseMarks(lines, late) == [];
    assert MarkedBetween(lines, m, early, late) && Near(lines[1].value.ts.value, m, MARK_WINDOW);
    assert ExcusedByOthers(lines, rules, r, now, 6 * HOUR, lines[1]) && lines[1] in lines;
    LoneScanAgreesExactly(lines, rules, 0, now, 6 * HOUR);
  }
}
