/**
 One pass over the event log that feeds every rule at once: windows, routine reasons, thresholds on a field,
 pauses of the whole process, chains of repeats counted once, and rules that stand back when another one fired.
 Times are in ticks of one microsecond; a window or a chain window is a number of ticks.
 */
module SignalScan {
  import opened Wrappers

  datatype Rule = Rule(
    key: string, event: string, minCount: nat,
    field: Option<string>, fieldMin: Option<int>,
    ignoreField: Option<string>, ignoreValues: set<string>,
    window: Option<int>, chainField: Option<string>, chainWindow: int,
    supersededBy: Option<string>, skipPauses: bool)

  /**
   A record of the log. whole says that its whole_process field is set, wholeText that the line spells it as
   a plain true, which is what the search for marks looks for.
   */
  datatype Rec = Rec(
    ts: Option<int>, event: string, fields: map<string, string>, numbers: map<string, int>,
    whole: bool, wholeText: bool)

  /** A line of the log; None is blank or is not a record. */
  type Line = Option<Rec>

  /** When the scan runs, the window of rules that set none, and the moments at which the process paused. */
  datatype Scan = Scan(now: int, window: int, marks: seq<int>)

  const STALL := "main_thread_stall"
  const SLEEP_GAP := "watchdog_clock_sleep_gap_absorbed"
  const PAUSE_GAP_MS := 2000
  const MARK_WINDOW := 120_000_000

  function TextOf(rec: Rec, field: string): string {
    if field in rec.fields then rec.fields[field] else ""
  }

  function NumberOf(rec: Rec, field: string): int {
    if field in rec.numbers then rec.numbers[field] else 0
  }

  predicate HasWindow(r: Rule) {
    r.window.Some? && r.window.value != 0
  }

  function WindowOf(r: Rule, s: Scan): int {
    if HasWindow(r) then r.window.value else s.window
  }

  function Widest(rules: seq<Rule>, s: Scan): (w: int)
    ensures w >= s.window
    ensures forall r :: r in rules && HasWindow(r) ==> w >= r.window.value
  {
    if rules == [] then s.window
    else
      var last := rules[|rules| - 1];
      assert forall r :: r in rules ==> r in rules[..|rules| - 1] || r == last;
      var w := Widest(rules[..|rules| - 1], s);
      if HasWindow(last) && last.window.value > w then last.window.value else w
  }

  predicate Near(a: int, b: int, window: int) {
    -window <= a - b <= window
  }

  predicate NearAny(stamp: int, marks: seq<int>) {
    exists m :: m in marks && Near(stamp, m, MARK_WINDOW)
  }

  /** The record describes a pause of the whole process: by its own fields, or by a mark near it. */
  predicate IsPause(rec: Rec, marks: seq<int>)
    requires rec.ts.Some?
  {
    rec.whole || NumberOf(rec, "watchdog_gap_ms") >= PAUSE_GAP_MS || NearAny(rec.ts.value, marks)
  }

  predicate IsSleepGap(line: Line, cutoff: int) {
    line.Some? && line.value.event == SLEEP_GAP && line.value.ts.Some? && line.value.ts.value >= cutoff
  }

  predicate IsWholeStall(line: Line, cutoff: int) {
    && line.Some? && line.value.wholeText && line.value.event == STALL && line.value.whole
    && line.value.ts.Some? && line.value.ts.value >= cutoff
  }

  function SleepGaps(lines: seq<Line>, cutoff: int): seq<int> {
    if lines == [] then []
    else
      var line := lines[|lines| - 1];
      SleepGaps(lines[..|lines| - 1], cutoff) + if IsSleepGap(line, cutoff) then [line.value.ts.value] else []
  }

  function WholeStalls(lines: seq<Line>, cutoff: int): seq<int> {
    if lines == [] then []
    else
      var line := lines[|lines| - 1];
      WholeStalls(lines[..|lines| - 1], cutoff) + if IsWholeStall(line, cutoff) then [line.value.ts.value] else []
  }

  /** Every moment at or after the cutoff at which the whole process is known to have paused. */
  function PauseMarks(lines: seq<Line>, cutoff: int): seq<int> {
    SleepGaps(lines, cutoff) + WholeStalls(lines, cutoff)
  }

  /** The scan of a log: marks are collected up front, back to the widest window, if any rule asks for them. */
  function Prepared(lines: seq<Line>, rules: seq<Rule>, now: int, window: int): Scan {
    var s := Scan(now, window, []);
    if exists r :: r in rules && r.skipPauses then s.(marks := PauseMarks(lines, now - Widest(rules, s))) else s
  }

  /** A record of the rule's event within its window that is not routine. */
  predicate Relevant(r: Rule, s: Scan, rec: Rec) {
    && rec.ts.Some?
    && rec.event == r.event
    && rec.ts.value >= s.now - WindowOf(r, s)
    && !(r.ignoreField.Some? && TextOf(rec, r.ignoreField.value) in r.ignoreValues)
    && !(r.skipPauses && IsPause(rec, s.marks))
  }

  predicate Qualifies(r: Rule, s: Scan, rec: Rec) {
    Relevant(r, s, rec) && !(r.field.Some? && r.fieldMin.Some? && NumberOf(rec, r.field.value) < r.fieldMin.value)
  }

  predicate Chains(r: Rule) {
    r.chainField.Some? && r.chainWindow > 0
  }

  /** The project and the value that tell one chain of a rule from another. */
  function ChainValue(r: Rule, rec: Rec): string {
    if Chains(r) then TextOf(rec, "project") + "::" + TextOf(rec, r.chainField.value) else ""
  }

  /** What the pass accumulates; the samples are line numbers, at most five for a rule. */
  datatype Tally = Tally(
    counts: map<string, nat>, worst: map<string, int>, samples: map<string, seq<nat>>, last: map<(string, string), int>)

  const EMPTY := Tally(map[], map[], map[], map[])
  const SAMPLES := 5

  function CountOf(t: Tally, key: string): nat {
    if key in t.counts then t.counts[key] else 0
  }

  function WorstOf(t: Tally, key: string): int {
    if key in t.worst then t.worst[key] else 0
  }

  function SamplesOf(t: Tally, key: string): seq<nat> {
    if key in t.samples then t.samples[key] else []
  }

  function LastOf(t: Tally, key: string, value: string): Option<int> {
    if (key, value) in t.last then Some(t.last[(key, value)]) else None
  }

  function AddSample(samples: seq<nat>, n: nat): seq<nat> {
    if |samples| < SAMPLES then samples + [n] else samples
  }

  function NoteWorst(t: Tally, r: Rule, rec: Rec): Tally {
    if r.field.None? then t
    else
      var value, worst := NumberOf(rec, r.field.value), WorstOf(t, r.key);
      t.(worst := t.worst[r.key := if value > worst then value else worst])
  }

  function NoteCount(t: Tally, r: Rule, n: nat): Tally {
    t.(counts := t.counts[r.key := CountOf(t, r.key) + 1],
       samples := t.samples[r.key := AddSample(SamplesOf(t, r.key), n)])
  }

  function Mark(t: Tally, r: Rule, rec: Rec): Tally
    requires rec.ts.Some?
  {
    if Chains(r) then t.(last := t.last[(r.key, ChainValue(r, rec)) := rec.ts.value]) else t
  }

  /** The record repeats the one before it in its chain. */
  predicate Repeats(t: Tally, r: Rule, rec: Rec)
    requires rec.ts.Some?
  {
    Chains(r) &&
    var before := LastOf(t, r.key, ChainValue(r, rec));
    before.Some? && Near(rec.ts.value, before.value, r.chainWindow)
  }

  /** What one rule makes of line n. */
  function ApplyRule(t: Tally, r: Rule, s: Scan, n: nat, rec: Rec): Tally {
    if !Qualifies(r, s, rec) then t
    else
      var noted := Mark(NoteWorst(t, r, rec), r, rec);
      if Repeats(t, r, rec) then noted else NoteCount(noted, r, n)
  }

  function ApplyRules(t: Tally, rules: seq<Rule>, s: Scan, n: nat, rec: Rec): Tally {
    if rules == [] then t
    else ApplyRule(ApplyRules(t, rules[..|rules| - 1], s, n, rec), rules[|rules| - 1], s, n, rec)
  }

  /** Records older than the widest window are dropped before any rule sees them. */
  predicate Kept(line: Line, rules: seq<Rule>, s: Scan) {
    line.Some? && line.value.ts.Some? && line.value.ts.value >= s.now - Widest(rules, s)
  }

  function ScanLines(lines: seq<Line>, rules: seq<Rule>, s: Scan): Tally {
    if lines == [] then EMPTY
    else
      var n := |lines| - 1;
      var t := ScanLines(lines[..n], rules, s);
      if Kept(lines[n], rules, s) then ApplyRules(t, rules, s, n, lines[n].value) else t
  }

  lemma WidestIgnoresMarks(rules: seq<Rule>, s: Scan, marks: seq<int>)
    ensures Widest(rules, s.(marks := marks)) == Widest(rules, s)
  {
    if rules != [] {
      WidestIgnoresMarks(rules[..|rules| - 1], s, marks);
    }
  }

  datatype Hit = Hit(rule: Rule, count: nat, worst: int, samples: seq<nat>)

  /** The rules whose count crossed the bar, in order. */
  function Crossed(t: Tally, rules: seq<Rule>): seq<Hit> {
    if rules == [] then []
    else
      var front, r := Crossed(t, rules[..|rules| - 1]), rules[|rules| - 1];
      if CountOf(t, r.key) >= r.minCount
      then front + [Hit(r, CountOf(t, r.key), WorstOf(t, r.key), SamplesOf(t, r.key))] else front
  }

  function Fired(hits: seq<Hit>): set<string> {
    set h | h in hits :: h.rule.key
  }

  predicate StandsBack(r: Rule, fired: set<string>) {
    r.supersededBy.Some? && r.supersededBy.value in fired
  }

  function Reported(hits: seq<Hit>, fired: set<string>): seq<Hit> {
    if hits == [] then []
    else
      var front, h := Reported(hits[..|hits| - 1], fired), hits[|hits| - 1];
      if StandsBack(h.rule, fired) then front else front + [h]
  }

  function Hits(lines: seq<Line>, rules: seq<Rule>, s: Scan): seq<Hit> {
    var hits := Crossed(ScanLines(lines, rules, s), rules);
    Reported(hits, Fired(hits))
  }

  /** Two searches of the log: for sleep-gap markers, and for stalls flagged as pauses of the whole process. */
  method CollectPauseMarks(lines: seq<Line>, cutoff: int) returns (marks: seq<int>)
    ensures marks == PauseMarks(lines, cutoff)
  {
    marks := [];
    for n := 0 to |lines|
      invariant marks == SleepGaps(lines[..n], cutoff)
    {
      assert lines[..n + 1][..n] == lines[..n];
      if lines[n].None? || lines[n].value.event != SLEEP_GAP {
        continue;
      }
      var ts := lines[n].value.ts;
      if ts.Some? && ts.value >= cutoff {
        marks := marks + [ts.value];
      }
    }
    assert lines[..|lines|] == lines;
    for n := 0 to |lines|
      invariant marks == SleepGaps(lines, cutoff) + WholeStalls(lines[..n], cutoff)
    {
      assert lines[..n + 1][..n] == lines[..n];
      if lines[n].None? || !lines[n].value.wholeText {
        continue;
      }
      var rec := lines[n].value;
      if rec.event != STALL || !rec.whole {
        continue;
      }
      if rec.ts.Some? && rec.ts.value >= cutoff {
        marks := marks + [rec.ts.value];
      }
    }
  }

  /** The scan as the source runs it: marks first, then one pass over the lines, all rules for each line. */
  method ScanForSignals(lines: seq<Line>, rules: seq<Rule>, now: int, window: int) returns (hits: seq<Hit>)
    ensures hits == Hits(lines, rules, Prepared(lines, rules, now, window))
  {
    var s := Scan(now, window, []);
    var cutoff := now - Widest(rules, s);
    if exists r :: r in rules && r.skipPauses {
      var marks := CollectPauseMarks(lines, cutoff);
      s := s.(marks := marks);
    }
    WidestIgnoresMarks(rules, s, []);
    var t := EMPTY;
    for n := 0 to |lines|
      invariant t == ScanLines(lines[..n], rules, s)
    {
      assert lines[..n + 1][..n] == lines[..n];
      if lines[n].None? {
        continue;
      }
      var rec := lines[n].value;
      if rec.ts.None? || rec.ts.value < cutoff {
        continue;
      }
      t := FeedRules(t, rules, s, n, rec);
    }
    assert lines[..|lines|] == lines;
    var crossed := [];
    for k := 0 to |rules|
      invariant crossed == Crossed(t, rules[..k])
    {
      assert rules[..k + 1][..k] == rules[..k];
      var r := rules[k];
      if CountOf(t, r.key) >= r.minCount {
        crossed := crossed + [Hit(r, CountOf(t, r.key), WorstOf(t, r.key), SamplesOf(t, r.key))];
      }
    }
    assert rules[..|rules|] == rules;
    var fired := Fired(crossed);
    hits := [];
    for k := 0 to |crossed|
      invariant hits == Reported(crossed[..k], fired)
    {
      assert crossed[..k + 1][..k] == crossed[..k];
      if !StandsBack(crossed[k].rule, fired) {
        hits := hits + [crossed[k]];
      }
    }
    assert crossed[..|crossed|] == crossed;
  }

  /** The inner loop: every rule looks at one record. */
  method FeedRules(t0: Tally, rules: seq<Rule>, s: Scan, n: nat, rec: Rec) returns (t: Tally)
    requires rec.ts.Some?
    ensures t == ApplyRules(t0, rules, s, n, rec)
  {
    t := t0;
    for k := 0 to |rules|
      invariant t == ApplyRules(t0, rules[..k], s, n, rec)
    {
      assert rules[..k + 1][..k] == rules[..k];
      t := FeedRule(t, rules[k], s, n, rec);
    }
    assert rules[..|rules|] == rules;
  }

  /** One turn of the inner loop; an early return is the source's continue. */
  method FeedRule(t0: Tally, r: Rule, s: Scan, n: nat, rec: Rec) returns (t: Tally)
    requires rec.ts.Some?
    ensures t == ApplyRule(t0, r, s, n, rec)
  {
    t := t0;
    var stamp := rec.ts.value;
    if !Relevant(r, s, rec) {
      return;
    }
    if r.field.Some? {
      var value := NumberOf(rec, r.field.value);
      if r.fieldMin.Some? && value < r.fieldMin.value {
        return;
      }
      t := t.(worst := t.worst[r.key := if value > WorstOf(t, r.key) then value else WorstOf(t, r.key)]);
    }
    if Chains(r) {
      var chainKey := (r.key, TextOf(rec, "project") + "::" + TextOf(rec, r.chainField.value));
      var before := if chainKey in t.last then Some(t.last[chainKey]) else None;
      t := t.(last := t.last[chainKey := stamp]);
      if before.Some? && Near(stamp, before.value, r.chainWindow) {
        return;
      }
    }
    t := t.(counts := t.counts[r.key := CountOf(t, r.key) + 1],
            samples := t.samples[r.key := AddSample(SamplesOf(t, r.key), n)]);
  }
}
