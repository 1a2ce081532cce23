/**
 BM25 ranking of documents against a query, and the tokenizer both go through: words of letters, digits and
 underscores, and overlapping groups of three characters for Thai, which has no spaces between words.
 */
module Bm25 {

  // ----- the tokenizer -----

  predicate IsThai(c: char) {
    '\U{0E00}' <= c <= '\U{0E7F}'
  }

  predicate IsWord(c: char) {
    ('A' <= c <= 'Z') || ('a' <= c <= 'z') || ('0' <= c <= '9') || c == '_'
  }

  function LowerChar(c: char): char {
    if 'A' <= c <= 'Z' then (c as int + 32) as char else c
  }

  function Lower(text: string): (r: string)
    ensures |r| == |text| && forall i :: 0 <= i < |r| ==> r[i] == LowerChar(text[i])
  {
    seq(|text|, i requires 0 <= i < |text| => LowerChar(text[i]))
  }

  /** The end of the longest stretch from i whose characters satisfy p. */
  function RunEnd(text: string, i: nat, p: char -> bool): (j: nat)
    requires i <= |text|
    ensures i <= j <= |text|
    ensures forall k :: i <= k < j ==> p(text[k])
    ensures j < |text| ==> !p(text[j])
    decreases |text| - i
  {
    if i == |text| || !p(text[i]) then i else RunEnd(text, i + 1, p)
  }

  /** All groups of three of a Thai run; a shorter run is kept whole. */
  function Pieces(run: string): seq<string> {
    if |run| < 3 then [run] else seq(|run| - 2, i requires 0 <= i < |run| - 2 => run[i..i + 3])
  }

  function TokensFrom(text: string, i: nat): seq<string>
    requires i <= |text|
    decreases |text| - i
  {
    if i == |text| then []
    else if IsThai(text[i]) then
      var j := RunEnd(text, i, IsThai);
      assert j > i;
      Pieces(text[i..j]) + TokensFrom(text, j)
    else if IsWord(text[i]) then
      var j := RunEnd(text, i, IsWord);
      assert j > i;
      [text[i..j]] + TokensFrom(text, j)
    else TokensFrom(text, i + 1)
  }

  function Tokens(text: string): seq<string> {
    TokensFrom(Lower(text), 0)
  }

  method Tokenize(text: string) returns (tokens: seq<string>)
    ensures tokens == Tokens(text)
  {
    tokens := [];
    var lowered := Lower(text);
    var i := 0;
    while i < |lowered|
      invariant 0 <= i <= |lowered|
      invariant tokens + TokensFrom(lowered, i) == Tokens(text)
    {
      var found, j := NextMatch(lowered, i);
      tokens := tokens + found;
      i := j;
    }
  }

  /** The tokens of the match at i, if one starts there, and where to go on. */
  method NextMatch(text: string, i: nat) returns (found: seq<string>, j: nat)
    requires i < |text|
    ensures i < j <= |text| && TokensFrom(text, i) == found + TokensFrom(text, j)
  {
    if IsThai(text[i]) {
      j := RunEnd(text, i, IsThai);
      assert j > i;
      found := Pieces(text[i..j]);
    } else if IsWord(text[i]) {
      j := RunEnd(text, i, IsWord);
      assert j > i;
      found := [text[i..j]];
    } else {
      found, j := [], i + 1;
    }
  }

  // ----- the index -----

  datatype Doc = Doc(timestamp: string, text: string)

  function TermCount(tokens: seq<string>, t: string): nat {
    multiset(tokens)[t]
  }

  /** In how many documents a token occurs. */
  function DocCount(docs: seq<Doc>, t: string): (n: nat)
    ensures n <= |docs|
  {
    if docs == [] then 0
    else DocCount(docs[..|docs| - 1], t) + if t in Tokens(docs[|docs| - 1].text) then 1 else 0
  }

  function TotalLength(docs: seq<Doc>): nat {
    if docs == [] then 0 else TotalLength(docs[..|docs| - 1]) + |Tokens(docs[|docs| - 1].text)|
  }

  datatype Index = Index(termCounts: seq<map<string, nat>>, lengths: seq<nat>, docCounts: map<string, nat>)

  /** The tables hold what their names say. */
  ghost predicate Indexes(x: Index, docs: seq<Doc>) {
    && |x.termCounts| == |x.lengths| == |docs|
    && (forall i :: 0 <= i < |docs| ==> CountsTerms(x.termCounts[i], Tokens(docs[i].text)))
    && (forall i :: 0 <= i < |docs| ==> x.lengths[i] == |Tokens(docs[i].text)|)
    && (forall t :: t in x.docCounts <==> DocCount(docs, t) > 0)
    && (forall t :: t in x.docCounts ==> x.docCounts[t] == DocCount(docs, t))
  }

  ghost predicate CountsTerms(counts: map<string, nat>, tokens: seq<string>) {
    && (forall t :: t in counts <==> t in tokens)
    && (forall t :: t in counts ==> counts[t] == TermCount(tokens, t))
  }

  method CountTerms(tokens: seq<string>) returns (counts: map<string, nat>)
    ensures CountsTerms(counts, tokens)
  {
    counts := map[];
    for i := 0 to |tokens|
      invariant CountsTerms(counts, tokens[..i])
    {
      assert tokens[..i + 1] == tokens[..i] + [tokens[i]];
      var sofar := if tokens[i] in counts then counts[tokens[i]] else 0;
      counts := counts[tokens[i] := sofar + 1];
    }
    assert tokens[..|tokens|] == tokens;
  }

  /** The sum of all term counts of a document is its length. */
  method SumCounts(counts: map<string, nat>, tokens: seq<string>) returns (sum: nat)
    requires CountsTerms(counts, tokens)
    ensures sum == |tokens|
  {
    sum := 0;
    var todo := counts.Keys;
    ghost var rest := multiset(tokens);
    while todo != {}
      invariant todo <= counts.Keys
      invariant forall t :: rest[t] == if t in todo then counts[t] else 0
      invariant sum + |rest| == |tokens|
    {
      var t :| t in todo;
      sum := sum + counts[t];
      rest := rest[t := 0];
      todo := todo - {t};
    }
    assert rest == multiset{};
  }

  method BuildIndex(docs: seq<Doc>) returns (x: Index)
    ensures Indexes(x, docs)
  {
    x := Index([], [], map[]);
    for i := 0 to |docs|
      invariant Indexes(x, docs[..i])
    {
      var tokens := Tokenize(docs[i].text);
      var counts := CountTerms(tokens);
      var length := SumCounts(counts, tokens);
      var docCounts := CountDoc(x.docCounts, counts.Keys);
      var longer := Index(x.termCounts + [counts], x.lengths + [length], docCounts);
      IndexStep(x, docs[..i], docs[i], counts, longer);
      assert docs[..i + 1] == docs[..i] + [docs[i]];
      x := longer;
    }
    assert docs[..|docs|] == docs;
  }

  lemma DocCountStep(docs: seq<Doc>, d: Doc, t: string)
    ensures DocCount(docs + [d], t) == DocCount(docs, t) + if t in Tokens(d.text) then 1 else 0
  {
    assert (docs + [d])[..|docs|] == docs;
  }

  lemma IndexStep(x: Index, docs: seq<Doc>, d: Doc, counts: map<string, nat>, y: Index)
    requires Indexes(x, docs) && CountsTerms(counts, Tokens(d.text))
    requires y.termCounts == x.termCounts + [counts] && y.lengths == x.lengths + [|Tokens(d.text)|]
    requires y.docCounts.Keys == x.docCounts.Keys + counts.Keys
    requires forall t :: t in y.docCounts ==>
      y.docCounts[t] == (if t in x.docCounts then x.docCounts[t] else 0) + (if t in counts.Keys then 1 else 0)
    ensures Indexes(y, docs + [d])
  {
    forall t
      ensures DocCount(docs + [d], t) == DocCount(docs, t) + if t in counts then 1 else 0
    {
      DocCountStep(docs, d, t);
    }
  }

  /** One more document with these tokens. */
  method CountDoc(docCounts: map<string, nat>, tokens: set<string>) returns (r: map<string, nat>)
    ensures r.Keys == docCounts.Keys + tokens
    ensures forall t :: t in r ==> r[t] == (if t in docCounts then docCounts[t] else 0) + (if t in tokens then 1 else 0)
  {
    r := docCounts;
    var todo := tokens;
    while todo != {}
      invariant todo <= tokens
      invariant r.Keys == docCounts.Keys + (tokens - todo)
      invariant forall t :: t in r ==>
        r[t] == (if t in docCounts then docCounts[t] else 0) + (if t in tokens - todo then 1 else 0)
    {
      var t :| t in todo;
      r := r[t := (if t in r then r[t] else 0) + 1];
      todo := todo - {t};
    }
  }

  // ----- the scores -----

  const K1 := 1.5
  const B := 0.75

  /** What is passed to the logarithm for a token that occurs in n of all documents. */
  function IdfArgument(all: nat, n: nat): real
    requires n <= all
  {
    1.0 + ((all - n) as real + 0.5) / (n as real + 0.5)
  }

  /** The weight of a query token; a token that occurs in no document weighs nothing. */
  function Idf(docs: seq<Doc>, ln: real -> real, t: string): real {
    var n := DocCount(docs, t);
    if n == 0 then 0.0 else ln(IdfArgument(|docs|, n))
  }

  function AverageLength(docs: seq<Doc>): real
    requires docs != []
  {
    TotalLength(docs) as real / |docs| as real
  }

  function LengthRatio(length: nat, average: real): real {
    if average == 0.0 then 0.0 else length as real / average
  }

  function Saturation(f: nat, ratio: real): real
    requires f > 0 && ratio >= 0.0
  {
    f as real * (K1 + 1.0) / (f as real + K1 * (1.0 - B + B * ratio))
  }

  /** What one query token adds to the score of a document with these tokens. */
  function Term(docs: seq<Doc>, ln: real -> real, tokens: seq<string>, ratio: real, t: string): real
    requires ratio >= 0.0
  {
    var f := TermCount(tokens, t);
    if f == 0 then 0.0 else Idf(docs, ln, t) * Saturation(f, ratio)
  }

  /** The score of a document with these tokens: a sum over the query in its order, repetitions included. */
  function Score(docs: seq<Doc>, ln: real -> real, tokens: seq<string>, ratio: real, query: seq<string>): real
    requires ratio >= 0.0
  {
    if query == [] then 0.0
    else
      Score(docs, ln, tokens, ratio, query[..|query| - 1]) + Term(docs, ln, tokens, ratio, query[|query| - 1])
  }

  function RatioOf(docs: seq<Doc>, i: nat): (r: real)
    requires i < |docs|
    ensures r >= 0.0
  {
    RatioIsPositive(|Tokens(docs[i].text)|, TotalLength(docs), |docs|);
    LengthRatio(|Tokens(docs[i].text)|, AverageLength(docs))
  }

  lemma RatioIsPositive(length: nat, total: nat, n: nat)
    requires n > 0
    ensures LengthRatio(length, total as real / n as real) >= 0.0
  {
  }

  function ScoreOf(docs: seq<Doc>, ln: real -> real, query: seq<string>, i: nat): real
    requires i < |docs|
  {
    Score(docs, ln, Tokens(docs[i].text), RatioOf(docs, i), query)
  }

  // ----- the ranking -----

  /** The order of strings by their characters. */
  predicate Less(a: string, b: string) {
    b != [] && (a == [] || a[0] < b[0] || (a[0] == b[0] && Less(a[1..], b[1..])))
  }

  datatype Scored = Scored(score: real, doc: nat)

  /** Higher score first, then later timestamp, then earlier document. */
  predicate Ahead(docs: seq<Doc>, a: Scored, b: Scored)
    requires a.doc < |docs| && b.doc < |docs|
  {
    || a.score > b.score
    || (a.score == b.score && Less(docs[b.doc].timestamp, docs[a.doc].timestamp))
    || (a.score == b.score && docs[b.doc].timestamp == docs[a.doc].timestamp && a.doc < b.doc)
  }

  /** The stable sort, one document at a time: s comes from a later document than all in the order. */
  function Insert(docs: seq<Doc>, order: seq<Scored>, s: Scored): seq<Scored>
    requires s.doc < |docs| && forall m :: m in order ==> m.doc < |docs|
  {
    if order == [] then [s]
    else
      var front, last := order[..|order| - 1], order[|order| - 1];
      assert last in order && forall m :: m in front ==> m in order;
      if Ahead(docs, last, s) then order + [s] else Insert(docs, front, s) + [last]
  }

  /** All documents with a positive score among the first n, in ranking order. */
  function Ranked(docs: seq<Doc>, ln: real -> real, query: seq<string>, n: nat): (r: seq<Scored>)
    requires n <= |docs|
    ensures forall m :: m in r ==> m.doc < n
  {
    if n == 0 then []
    else
      var before := Ranked(docs, ln, query, n - 1);
      var score := ScoreOf(docs, ln, query, n - 1);
      if score > 0.0 then
        InsertMembers(docs, before, Scored(score, n - 1));
        Insert(docs, before, Scored(score, n - 1))
      else before
  }

  lemma {:induction false} InsertMembers(docs: seq<Doc>, order: seq<Scored>, s: Scored)
    requires s.doc < |docs| && forall m :: m in order ==> m.doc < |docs|
    ensures forall m :: m in Insert(docs, order, s) <==> m in order || m == s
    decreases |order|
  {
    if order != [] {
      var front, last := order[..|order| - 1], order[|order| - 1];
      assert order == front + [last];
      assert last in order && forall m :: m in front ==> m in order;
      InsertMembers(docs, front, s);
    }
  }

  function Top(docs: seq<Doc>, ln: real -> real, query: seq<string>, limit: nat): seq<Scored> {
    var all := Ranked(docs, ln, query, |docs|);
    if limit < |all| then all[..limit] else all
  }

  method Rank(docs: seq<Doc>, ln: real -> real, query: seq<string>, limit: nat) returns (hits: seq<Scored>)
    ensures hits == Top(docs, ln, query, limit)
  {
    if docs == [] {
      return [];
    }
    var x := BuildIndex(docs);
    var total := 0;
    for i := 0 to |docs|
      invariant total == TotalLength(docs[..i])
    {
      assert docs[..i + 1][..i] == docs[..i];
      total := total + x.lengths[i];
    }
    assert docs[..|docs|] == docs;
    var average := total as real / |docs| as real;
    var scored := [];
    for i := 0 to |docs|
      invariant scored == Ranked(docs, ln, query, i)
    {
      RatioIsPositive(x.lengths[i], total, |docs|);
      var score := ScoreDoc(docs, x, ln, i, LengthRatio(x.lengths[i], average), query);
      if score > 0.0 {
        scored := Insert(docs, scored, Scored(score, i));
      }
    }
    hits := if limit < |scored| then scored[..limit] else scored;
  }

  method ScoreDoc(docs: seq<Doc>, x: Index, ln: real -> real, i: nat, ratio: real, query: seq<string>)
    returns (score: real)
    requires Indexes(x, docs) && i < |docs| && ratio >= 0.0
    ensures score == Score(docs, ln, Tokens(docs[i].text), ratio, query)
  {
    score := 0.0;
    for k := 0 to |query|
      invariant score == Score(docs, ln, Tokens(docs[i].text), ratio, query[..k])
    {
      assert query[..k + 1][..k] == query[..k];
      var term := TermOf(docs, x, ln, i, ratio, query[k]);
      score := score + term;
    }
    assert query[..|query|] == query;
  }

  /** One turn of the loop over the query tokens; a token the document lacks adds nothing. */
  method TermOf(docs: seq<Doc>, x: Index, ln: real -> real, i: nat, ratio: real, t: string) returns (term: real)
    requires Indexes(x, docs) && i < |docs| && ratio >= 0.0
    ensures term == Term(docs, ln, Tokens(docs[i].text), ratio, t)
  {
    var f := if t in x.termCounts[i] then x.termCounts[i][t] else 0;
    assert f == TermCount(Tokens(docs[i].text), t);
    if f == 0 {
      return 0.0;
    }
    var idf := if t in x.docCounts then ln(IdfArgument(|docs|, x.docCounts[t])) else 0.0;
    assert idf == Idf(docs, ln, t);
    return idf * Saturation(f, ratio);
  }
}
