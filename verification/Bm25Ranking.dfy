/** What the ranking promises, for any logarithm that is positive above one. */
module Bm25Ranking {
  import opened Bm25

  ghost predicate IsLog(ln: real -> real) {
    forall x: real :: x > 1.0 ==> ln(x) > 0.0
  }

  predicate Shares(query: seq<string>, tokens: seq<string>) {
    exists t :: t in query && t in tokens
  }

  /** The weights of the query tokens, repetitions included. */
  function SumOfIdf(docs: seq<Doc>, ln: real -> real, query: seq<string>): real {
    if query == [] then 0.0
    else SumOfIdf(docs, ln, query[..|query| - 1]) + Idf(docs, ln, query[|query| - 1])
  }

  // ----- scores -----

  lemma {:induction false} OccursInDoc(docs: seq<Doc>, i: nat, t: string)
    requires i < |docs| && t in Tokens(docs[i].text)
    ensures DocCount(docs, t) > 0
    decreases |docs|
  {
    if i < |docs| - 1 {
      OccursInDoc(docs[..|docs| - 1], i, t);
    }
  }

  lemma ArgumentAboveOne(all: nat, n: nat)
    requires n <= all
    ensures IdfArgument(all, n) > 1.0
  {
    QuotientPositive((all - n) as real + 0.5, n as real + 0.5);
  }

  lemma QuotientPositive(a: real, b: real)
    requires a > 0.0 && b > 0.0
    ensures a / b > 0.0
  {
  }

  lemma IdfSign(docs: seq<Doc>, ln: real -> real, t: string)
    requires IsLog(ln)
    ensures Idf(docs, ln, t) >= 0.0
    ensures DocCount(docs, t) > 0 ==> Idf(docs, ln, t) > 0.0
  {
    ArgumentAboveOne(|docs|, DocCount(docs, t));
  }

  lemma QuotientBelow(a: real, b: real, c: real)
    requires b > 0.0 && 0.0 < a < c * b
    ensures 0.0 < a / b < c
  {
    assert a / b * b == a;
    if a / b >= c {
      ProductMonotone(a / b, c, b);
    }
    QuotientPositive(a, b);
  }

  lemma ProductMonotone(a: real, b: real, c: real)
    requires a >= b && c > 0.0
    ensures a * c >= b * c
  {
  }

  /** More occurrences never pay off more than K1 + 1 times. */
  lemma SaturationBounds(f: nat, ratio: real)
    requires f > 0 && ratio >= 0.0
    ensures 0.0 < Saturation(f, ratio) < K1 + 1.0
  {
    var denominator := f as real + K1 * (1.0 - B + B * ratio);
    QuotientBelow(f as real * (K1 + 1.0), denominator, K1 + 1.0);
  }

  lemma TermBounds(docs: seq<Doc>, ln: real -> real, i: nat, ratio: real, t: string)
    requires IsLog(ln) && i < |docs| && ratio >= 0.0
    ensures var tokens := Tokens(docs[i].text);
      var term := Term(docs, ln, tokens, ratio, t);
      && 0.0 <= term <= (K1 + 1.0) * Idf(docs, ln, t)
      && (t in tokens ==> 0.0 < term < (K1 + 1.0) * Idf(docs, ln, t))
      && (t !in tokens ==> term == 0.0)
  {
    var tokens := Tokens(docs[i].text);
    IdfSign(docs, ln, t);
    if t in tokens {
      OccursInDoc(docs, i, t);
      var f := TermCount(tokens, t);
      SaturationBounds(f, ratio);
      ProductBounds(Idf(docs, ln, t), Saturation(f, ratio), K1 + 1.0);
    }
  }

  lemma ProductBounds(a: real, b: real, c: real)
    requires a > 0.0 && 0.0 < b < c
    ensures 0.0 < a * b < c * a
  {
  }

  /** A score is positive exactly if the document shares a token with the query, and then below the bound. */
  lemma {:induction false} ScoreBounds(docs: seq<Doc>, ln: real -> real, i: nat, ratio: real, query: seq<string>)
    requires IsLog(ln) && i < |docs| && ratio >= 0.0
    ensures var tokens := Tokens(docs[i].text);
      var score := Score(docs, ln, tokens, ratio, query);
      && 0.0 <= score <= (K1 + 1.0) * SumOfIdf(docs, ln, query)
      && (score > 0.0 <==> Shares(query, tokens))
      && (score > 0.0 ==> score < (K1 + 1.0) * SumOfIdf(docs, ln, query))
    decreases |query|
  {
    if query != [] {
      var front, t := query[..|query| - 1], query[|query| - 1];
      assert query == front + [t];
      ScoreBounds(docs, ln, i, ratio, front);
      TermBounds(docs, ln, i, ratio, t);
      SharesStep(front, t, Tokens(docs[i].text));
      Distribute(SumOfIdf(docs, ln, front), Idf(docs, ln, t));
    }
  }

  lemma SharesStep(front: seq<string>, t: string, tokens: seq<string>)
    ensures Shares(front + [t], tokens) <==> Shares(front, tokens) || t in tokens
  {
    if Shares(front, tokens) {
      var u :| u in front && u in tokens;
      assert u in front + [t];
    }
    if t in tokens {
      assert t in front + [t];
    }
  }

  lemma Distribute(a: real, b: real)
    ensures (K1 + 1.0) * (a + b) == (K1 + 1.0) * a + (K1 + 1.0) * b
  {
  }

  /** A document is found exactly if it shares a token with the query. */
  lemma ScoredExactly(docs: seq<Doc>, ln: real -> real, query: seq<string>, i: nat)
    requires IsLog(ln) && i < |docs|
    ensures ScoreOf(docs, ln, query, i) > 0.0 <==> Shares(query, Tokens(docs[i].text))
    ensures ScoreOf(docs, ln, query, i) > 0.0 ==> ScoreOf(docs, ln, query, i) < (K1 + 1.0) * SumOfIdf(docs, ln, query)
  {
    ScoreBounds(docs, ln, i, RatioOf(docs, i), query);
  }

  // ----- the order of timestamps -----

  lemma {:induction false} LessIsTransitive(a: string, b: string, c: string)
    requires Less(a, b) && Less(b, c)
    ensures Less(a, c)
    decreases |a|
  {
    if a != [] && a[0] == b[0] == c[0] {
      LessIsTransitive(a[1..], b[1..], c[1..]);
    }
  }

  lemma {:induction false} LessIsTotal(a: string, b: string)
    ensures Less(a, b) || a == b || Less(b, a)
    decreases |a|
  {
    if a != [] && b != [] && a[0] == b[0] {
      LessIsTotal(a[1..], b[1..]);
      if a[1..] == b[1..] {
        assert a == [a[0]] + a[1..] == [b[0]] + b[1..] == b;
      }
    }
  }

  lemma AheadIsTransitive(docs: seq<Doc>, a: Scored, b: Scored, c: Scored)
    requires a.doc < |docs| && b.doc < |docs| && c.doc < |docs|
    requires Ahead(docs, a, b) && Ahead(docs, b, c)
    ensures Ahead(docs, a, c)
  {
    var x, y, z := docs[a.doc].timestamp, docs[b.doc].timestamp, docs[c.doc].timestamp;
    if Less(z, y) && Less(y, x) {
      LessIsTransitive(z, y, x);
    }
  }

  lemma AheadIsTotal(docs: seq<Doc>, a: Scored, b: Scored)
    requires a.doc < b.doc < |docs|
    ensures Ahead(docs, a, b) || Ahead(docs, b, a)
  {
    LessIsTotal(docs[a.doc].timestamp, docs[b.doc].timestamp);
  }

  // ----- the ranking -----

  ghost predicate InOrder(docs: seq<Doc>, order: seq<Scored>) {
    && (forall m :: m in order ==> m.doc < |docs|)
    && forall i, j :: 0 <= i < j < |order| ==> Ahead(docs, order[i], order[j])
  }

  lemma {:induction false} InsertInOrder(docs: seq<Doc>, order: seq<Scored>, s: Scored)
    requires InOrder(docs, order) && s.doc < |docs| && forall m :: m in order ==> m.doc < s.doc
    ensures InOrder(docs, Insert(docs, order, s))
    decreases |order|
  {
    if order != [] {
      var front, last := order[..|order| - 1], order[|order| - 1];
      assert order == front + [last];
      assert last in order && forall m :: m in front ==> m in order;
      if Ahead(docs, last, s) {
        forall i | 0 <= i < |order|
          ensures Ahead(docs, order[i], s)
        {
          if i < |front| {
            AheadIsTransitive(docs, order[i], last, s);
          }
        }
        AppendInOrder(docs, order, s);
      } else {
        AheadIsTotal(docs, last, s);
        InsertInOrder(docs, front, s);
        InsertMembers(docs, front, s);
        var r := Insert(docs, front, s);
        forall i | 0 <= i < |r|
          ensures Ahead(docs, r[i], last)
        {
          assert r[i] in r;
          if r[i] != s {
            var j :| 0 <= j < |front| && front[j] == r[i];
            assert Ahead(docs, order[j], order[|front|]);
          }
        }
        AppendInOrder(docs, r, last);
      }
    }
  }

  lemma AppendInOrder(docs: seq<Doc>, order: seq<Scored>, s: Scored)
    requires InOrder(docs, order) && s.doc < |docs|
    requires forall i :: 0 <= i < |order| ==> Ahead(docs, order[i], s)
    ensures InOrder(docs, order + [s])
  {
  }

  /** Exactly the documents with a positive score are ranked. */
  lemma {:induction false} RankedMembers(docs: seq<Doc>, ln: real -> real, query: seq<string>, n: nat, m: Scored)
    requires n <= |docs|
    ensures m in Ranked(docs, ln, query, n) <==>
      m.doc < n && m.score == ScoreOf(docs, ln, query, m.doc) && m.score > 0.0
  {
    if n > 0 {
      RankedMembers(docs, ln, query, n - 1, m);
      InsertMembers(docs, Ranked(docs, ln, query, n - 1), Scored(ScoreOf(docs, ln, query, n - 1), n - 1));
    }
  }

  lemma {:induction false} RankedInOrder(docs: seq<Doc>, ln: real -> real, query: seq<string>, n: nat)
    requires n <= |docs|
    ensures InOrder(docs, Ranked(docs, ln, query, n))
  {
    if n > 0 {
      RankedInOrder(docs, ln, query, n - 1);
      InsertInOrder(docs, Ranked(docs, ln, query, n - 1), Scored(ScoreOf(docs, ln, query, n - 1), n - 1));
    }
  }

  /** The result lists documents once each in ranking order, with their scores, and none that shares nothing. */
  lemma TopIsOrdered(docs: seq<Doc>, ln: real -> real, query: seq<string>, limit: nat)
    requires IsLog(ln)
    ensures InOrder(docs, Top(docs, ln, query, limit)) && |Top(docs, ln, query, limit)| <= limit
    ensures forall m :: m in Top(docs, ln, query, limit) ==>
      m.score == ScoreOf(docs, ln, query, m.doc) && Shares(query, Tokens(docs[m.doc].text))
  {
    var all, top := Ranked(docs, ln, query, |docs|), Top(docs, ln, query, limit);
    RankedInOrder(docs, ln, query, |docs|);
    forall m | m in top
      ensures m in all && m.score == ScoreOf(docs, ln, query, m.doc) && Shares(query, Tokens(docs[m.doc].text))
    {
      var i :| 0 <= i < |top| && top[i] == m;
      assert all[i] in all;
      RankedMembers(docs, ln, query, |docs|, m);
      ScoredExactly(docs, ln, query, m.doc);
    }
  }

  /** A document that shares a token is in the result, or the result is full of documents ahead of it. */
  lemma TopIsComplete(docs: seq<Doc>, ln: real -> real, query: seq<string>, limit: nat, d: nat)
    requires IsLog(ln) && d < |docs| && Shares(query, Tokens(docs[d].text))
    ensures var s := Scored(ScoreOf(docs, ln, query, d), d);
      var top := Top(docs, ln, query, limit);
      s in top || (|top| == limit && forall m :: m in top ==> m.doc < |docs| && Ahead(docs, m, s))
  {
    var s, all, top := Scored(ScoreOf(docs, ln, query, d), d), Ranked(docs, ln, query, |docs|),
      Top(docs, ln, query, limit);
    RankedInOrder(docs, ln, query, |docs|);
    ScoredExactly(docs, ln, query, d);
    RankedMembers(docs, ln, query, |docs|, s);
    var j :| 0 <= j < |all| && all[j] == s;
    if j < limit {
      assert top[j] == s;
    } else {
      forall m | m in top
        ensures m.doc < |docs| && Ahead(docs, m, s)
      {
        var i :| 0 <= i < |top| && top[i] == m;
        assert all[i] in all && Ahead(docs, all[i], all[j]);
      }
    }
  }

  // ----- Thai -----

  predicate AllThai(text: string) {
    forall i :: 0 <= i < |text| ==> IsThai(text[i])
  }

  predicate ThaiGroup(text: string, i: nat) {
    i + 3 <= |text| && IsThai(text[i]) && IsThai(text[i + 1]) && IsThai(text[i + 2])
  }

  lemma GroupOfRun(text: string, start: nat, j: nat, i: nat)
    requires start <= i && i + 3 <= j <= |text|
    ensures text[i..i + 3] in Pieces(text[start..j])
  {
    var run, k := text[start..j], i - start;
    var group, same := text[i..i + 3], run[k..k + 3];
    assert forall m :: 0 <= m < |group| ==> same[m] == group[m];
    assert same == group;
    assert Pieces(run)[k] == run[k..k + 3];
  }

  /** Every three Thai characters in a row are a token, wherever the tokenizer starts before them. */
  lemma {:induction false} ThaiGroupIsToken(text: string, start: nat, i: nat)
    requires start <= i && ThaiGroup(text, i)
    ensures text[i..i + 3] in TokensFrom(text, start)
    decreases |text| - start
  {
    if IsThai(text[start]) {
      var j := RunEnd(text, start, IsThai);
      if i < j {
        GroupOfRun(text, start, j, i);
      } else {
        ThaiGroupIsToken(text, j, i);
      }
    } else if IsWord(text[start]) {
      var j := RunEnd(text, start, IsWord);
      assert !IsWord(text[i]);
      ThaiGroupIsToken(text, j, i);
    } else {
      ThaiGroupIsToken(text, start + 1, i);
    }
  }

  lemma LowerKeepsThai(text: string, i: nat)
    requires i < |text|
    ensures IsThai(Lower(text)[i]) == IsThai(text[i])
    ensures IsThai(text[i]) ==> Lower(text)[i] == text[i]
  {
  }

  /** The tokens of a Thai run are its groups of three. */
  lemma TokensOfThaiRun(q: string)
    requires AllThai(q) && |q| >= 3
    ensures Tokens(q) == Pieces(q)
  {
    assert Lower(q) == q by {
      forall i | 0 <= i < |q|
        ensures Lower(q)[i] == q[i]
      {
        LowerKeepsThai(q, i);
      }
    }
    assert RunEnd(q, 0, IsThai) == |q|;
    assert q[0..|q|] == q;
    assert TokensFrom(q, |q|) == [];
  }

  /** Every group of a Thai query occurs in every document that contains the query. */
  lemma ThaiGroupOccurs(q: string, text: string, p: nat, k: nat)
    requires AllThai(q) && k + 3 <= |q|
    requires p + |q| <= |text| && text[p..p + |q|] == q
    ensures q[k..k + 3] in Tokens(text)
  {
    var lowered := Lower(text);
    assert q[k] == text[p + k] && q[k + 1] == text[p + k + 1] && q[k + 2] == text[p + k + 2];
    LowerKeepsThai(text, p + k);
    LowerKeepsThai(text, p + k + 1);
    LowerKeepsThai(text, p + k + 2);
    ThaiGroupIsToken(lowered, 0, p + k);
    assert lowered[p + k..p + k + 3] == q[k..k + 3];
  }

  lemma ThaiTokensOccur(q: string, text: string, p: nat)
    requires AllThai(q) && |q| >= 3
    requires p + |q| <= |text| && text[p..p + |q|] == q
    ensures forall t :: t in Tokens(q) ==> t in Tokens(text)
  {
    TokensOfThaiRun(q);
    forall t | t in Pieces(q)
      ensures t in Tokens(text)
    {
      var k :| 0 <= k < |q| - 2 && Pieces(q)[k] == t;
      ThaiGroupOccurs(q, text, p, k);
    }
  }

  /** Substring search is never better on Thai: a document that contains the query gets a positive score. */
  lemma ThaiSearchIsComplete(docs: seq<Doc>, ln: real -> real, q: string, d: nat, p: nat)
    requires IsLog(ln) && d < |docs|
    requires AllThai(q) && |q| >= 3
    requires p + |q| <= |docs[d].text| && docs[d].text[p..p + |q|] == q
    ensures ScoreOf(docs, ln, Tokens(q), d) > 0.0
  {
    ThaiTokensOccur(q, docs[d].text, p);
    TokensOfThaiRun(q);
    assert Pieces(q)[0] in Tokens(q);
    ScoredExactly(docs, ln, Tokens(q), d);
  }
}
