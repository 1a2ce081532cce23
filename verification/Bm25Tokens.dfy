/** Which strings are tokens, and what a token that a document shares with the query is worth. */
module Bm25Tokens {
  import opened Bm25
  import opened Bm25Ranking

  // ----- the tokens of a text -----

  /** The characters from i to j are of the kind, and no longer stretch around them is. */
  ghost predicate Maximal(s: string, i: int, j: int, kind: char -> bool) {
    && 0 <= i < j <= |s|
    && (forall k :: i <= k < j ==> kind(s[k]))
    && (i > 0 ==> !kind(s[i - 1])) && (j < |s| ==> !kind(s[j]))
  }

  /** No stretch of one kind goes on at k. */
  ghost predicate Border(s: string, k: int) {
    0 < k < |s| ==> !(IsThai(s[k - 1]) && IsThai(s[k])) && !(IsWord(s[k - 1]) && IsWord(s[k]))
  }

  /** A token of the text is a whole word, a whole short stretch of Thai, or three characters of a longer one. */
  ghost predicate IsToken(s: string, t: string) {
    || (exists i, j :: Maximal(s, i, j, IsWord) && t == s[i..j])
    || (exists i, j :: Maximal(s, i, j, IsThai) && j - i < 3 && t == s[i..j])
    || (exists i :: 0 <= i && ThaiGroup(s, i) && t == s[i..i + 3])
  }

  /** The tokens the search goes on to from a border are of these forms. */
  lemma {:induction false} FoundAreTokens(s: string, k: nat, t: string)
    requires k <= |s| && Border(s, k) && t in TokensFrom(s, k)
    ensures IsToken(s, t)
    decreases |s| - k
  {
    if IsThai(s[k]) {
      var j := RunEnd(s, k, IsThai);
      assert j > k;
      if t in Pieces(s[k..j]) {
        PieceIsToken(s, k, j, t);
      } else {
        FoundAreTokens(s, j, t);
      }
    } else if IsWord(s[k]) {
      var j := RunEnd(s, k, IsWord);
      assert j > k;
      if t == s[k..j] {
        assert Maximal(s, k, j, IsWord);
      } else {
        FoundAreTokens(s, j, t);
      }
    } else {
      FoundAreTokens(s, k + 1, t);
    }
  }

  lemma SliceOfSlice(s: string, k: nat, j: nat, i: nat)
    requires k + i + 3 <= j <= |s|
    ensures s[k..j][i..i + 3] == s[k + i..k + i + 3]
  {
    var a, b := s[k..j][i..i + 3], s[k + i..k + i + 3];
    forall m | 0 <= m < 3
      ensures a[m] == b[m]
    {
      assert a[m] == s[k..j][i + m] == s[k + i + m] == b[m];
    }
  }

  lemma PieceIsToken(s: string, k: nat, j: nat, t: string)
    requires k < j <= |s| && Maximal(s, k, j, IsThai) && t in Pieces(s[k..j])
    ensures IsToken(s, t)
  {
    var run := s[k..j];
    if |run| >= 3 {
      var i :| 0 <= i < |run| - 2 && t == run[i..i + 3];
      SliceOfSlice(s, k, j, i);
      assert ThaiGroup(s, k + i);
    }
  }

  /** The search that starts before a word or a short stretch of Thai finds it whole. */
  lemma {:induction false} WholeIsFound(s: string, k: nat, i: nat, j: nat, thai: bool)
    requires k <= i && Maximal(s, i, j, if thai then IsThai else IsWord) && (thai ==> j - i < 3)
    ensures s[i..j] in TokensFrom(s, k)
    decreases |s| - k
  {
    if k == i {
      if thai {
        assert RunEnd(s, i, IsThai) == j;
        assert Pieces(s[i..j]) == [s[i..j]];
      } else {
        assert RunEnd(s, i, IsWord) == j && !IsThai(s[i]);
      }
    } else if IsThai(s[k]) {
      var e := RunEnd(s, k, IsThai);
      assert e > k;
      StopsBefore(s, k, e, i, j, thai, true);
      WholeIsFound(s, e, i, j, thai);
    } else if IsWord(s[k]) {
      var e := RunEnd(s, k, IsWord);
      assert e > k;
      StopsBefore(s, k, e, i, j, thai, false);
      WholeIsFound(s, e, i, j, thai);
    } else {
      WholeIsFound(s, k + 1, i, j, thai);
    }
  }

  /** A stretch that begins before a maximal one ends before it. */
  lemma StopsBefore(s: string, k: nat, e: nat, i: nat, j: nat, thai: bool, other: bool)
    requires k < i < j <= |s| && k <= e <= |s| && Maximal(s, i, j, if thai then IsThai else IsWord)
    requires forall m :: k <= m < e ==> if other then IsThai(s[m]) else IsWord(s[m])
    ensures e <= i
  {
    if thai {
      assert IsThai(s[i]) && !IsThai(s[i - 1]);
    } else {
      assert IsWord(s[i]) && !IsWord(s[i - 1]);
    }
    assert !(IsThai(s[i]) && IsWord(s[i]));
  }

  /** The tokens of a text are exactly its words, short stretches of Thai and groups of three Thai characters. */
  lemma TokensExactly(text: string, t: string)
    ensures t in Tokens(text) <==> IsToken(Lower(text), t)
  {
    var s := Lower(text);
    if t in Tokens(text) {
      FoundAreTokens(s, 0, t);
    } else if IsToken(s, t) {
      if i, j :| Maximal(s, i, j, IsWord) && t == s[i..j] {
        WholeIsFound(s, 0, i, j, false);
      } else if i, j :| Maximal(s, i, j, IsThai) && j - i < 3 && t == s[i..j] {
        WholeIsFound(s, 0, i, j, true);
      } else {
        var i :| 0 <= i && ThaiGroup(s, i) && t == s[i..i + 3];
        ThaiGroupIsToken(s, 0, i);
      }
    }
  }

  // ----- the weight of a token -----

  /** The logarithm is taken of the documents and one more, over those with the token and a half. */
  lemma ArgumentExactly(all: nat, n: nat)
    requires n <= all
    ensures IdfArgument(all, n) == (all as real + 1.0) / (n as real + 0.5)
  {
    var d := n as real + 0.5;
    SumOverOne((all - n) as real + 0.5, d);
    assert d + ((all - n) as real + 0.5) == all as real + 1.0;
  }

  lemma SumOverOne(a: real, d: real)
    requires d > 0.0
    ensures 1.0 + a / d == (d + a) / d
  {
    assert (1.0 + a / d) * d == d + a;
    QuotientIs(d + a, d, 1.0 + a / d);
  }

  lemma QuotientIs(x: real, d: real, q: real)
    requires d > 0.0 && q * d == x
    ensures x / d == q
  {
    assert x / d * d == x;
    Cancel(x / d, q, d);
  }

  lemma Cancel(a: real, b: real, d: real)
    requires a * d == b * d && d > 0.0
    ensures a == b
  {
    assert (a - b) * d == a * d - b * d;
  }

  lemma LargerDivisor(a: real, b: real, c: real)
    requires a > 0.0 && 0.0 < b < c
    ensures a / b > a / c
  {
    CrossMultiply(a, b, c);
  }

  lemma CrossMultiply(a: real, b: real, c: real)
    requires a > 0.0 && 0.0 < b < c
    ensures a / b * (b * c) == a * c && a / c * (b * c) == a * b && a * c > a * b && b * c > 0.0
    ensures a / b > a / c
  {
    assert a / b * b == a && a / c * c == a;
    assert a / b * (b * c) == (a / b * b) * c;
    assert a / c * (b * c) == (a / c * c) * b;
    assert a * c > a * b;
  }

  /** The logarithm grows. */
  ghost predicate Grows(ln: real -> real) {
    forall x: real, y: real :: 1.0 < x < y ==> ln(x) < ln(y)
  }

  /** A token that fewer documents have weighs more. */
  lemma RarerWeighsMore(docs: seq<Doc>, ln: real -> real, a: string, b: string)
    requires Grows(ln) && 0 < DocCount(docs, a) < DocCount(docs, b)
    ensures Idf(docs, ln, a) > Idf(docs, ln, b)
  {
    var m, n := DocCount(docs, a), DocCount(docs, b);
    ArgumentExactly(|docs|, m);
    ArgumentExactly(|docs|, n);
    ArgumentAboveOne(|docs|, n);
    LargerDivisor(|docs| as real + 1.0, m as real + 0.5, n as real + 0.5);
  }

  /** The weight of a token that some document has. */
  lemma WeightExactly(docs: seq<Doc>, ln: real -> real, t: string)
    requires DocCount(docs, t) > 0
    ensures Idf(docs, ln, t) == ln((|docs| as real + 1.0) / (DocCount(docs, t) as real + 0.5))
  {
    ArgumentExactly(|docs|, DocCount(docs, t));
  }

  /** How long a document is, measured by the average over all. */
  lemma RatioExactly(docs: seq<Doc>, i: nat)
    requires i < |docs| && Tokens(docs[i].text) != []
    ensures TotalLength(docs) > 0
    ensures RatioOf(docs, i) == |Tokens(docs[i].text)| as real / (TotalLength(docs) as real / |docs| as real)
  {
    TotalCovers(docs, i);
  }

  /** A one-token query scores a document by the weight of the token and by how often it has it for its length. */
  lemma OneTokenScore(docs: seq<Doc>, ln: real -> real, i: nat, t: string)
    requires i < |docs|
    ensures var f := multiset(Tokens(docs[i].text))[t];
      ScoreOf(docs, ln, [t], i) == if f == 0 then 0.0 else Idf(docs, ln, t) * Saturation(f, RatioOf(docs, i))
  {
    SingleScore(docs, ln, Tokens(docs[i].text), RatioOf(docs, i), t);
  }

  lemma SingleScore(docs: seq<Doc>, ln: real -> real, tokens: seq<string>, ratio: real, t: string)
    requires ratio >= 0.0
    ensures Score(docs, ln, tokens, ratio, [t]) == Term(docs, ln, tokens, ratio, t)
  {
    assert [t][..0] == [];
    assert Score(docs, ln, tokens, ratio, []) == 0.0;
  }

  /** More occurrences gain more, and the same occurrences gain less in a longer document. */
  lemma SaturationGrows(f: nat, g: nat, ratio: real)
    requires 0 < f < g && ratio >= 0.0
    ensures Saturation(f, ratio) < Saturation(g, ratio)
  {
    SaturationExactly(f, ratio);
    SaturationExactly(g, ratio);
    var c := 0.375 + 1.125 * ratio;
    SharesGrow(f as real, g as real, c);
    assert 2.5 * f as real / (f as real + c) == 2.5 * (f as real / (f as real + c));
    assert 2.5 * g as real / (g as real + c) == 2.5 * (g as real / (g as real + c));
  }

  lemma SharesGrow(a: real, b: real, c: real)
    requires 0.0 < a < b && c > 0.0
    ensures a / (a + c) < b / (b + c)
  {
    Complement(a, c);
    Complement(b, c);
    LargerDivisor(c, a + c, b + c);
  }

  lemma Complement(a: real, c: real)
    requires a > 0.0 && c > 0.0
    ensures a / (a + c) == 1.0 - c / (a + c)
  {
    assert (1.0 - c / (a + c)) * (a + c) == a;
    QuotientIs(a, a + c, 1.0 - c / (a + c));
  }

  lemma LongerGainsLess(f: nat, ratio: real, longer: real)
    requires f > 0 && 0.0 <= ratio < longer
    ensures Saturation(f, ratio) > Saturation(f, longer)
  {
    SaturationExactly(f, ratio);
    SaturationExactly(f, longer);
    LargerDivisor(2.5 * f as real, f as real + 0.375 + 1.125 * ratio, f as real + 0.375 + 1.125 * longer);
  }

  lemma {:induction false} TotalCovers(docs: seq<Doc>, i: nat)
    requires i < |docs|
    ensures TotalLength(docs) >= |Tokens(docs[i].text)|
  {
    if i < |docs| - 1 {
      TotalCovers(docs[..|docs| - 1], i);
    }
  }

  lemma SaturationExactly(f: nat, ratio: real)
    requires f > 0 && ratio >= 0.0
    ensures Saturation(f, ratio) == 2.5 * f as real / (f as real + 0.375 + 1.125 * ratio)
  {
    assert f as real + K1 * (1.0 - B + B * ratio) == f as real + 0.375 + 1.125 * ratio;
  }

  /** The tokens of a query score for themselves: a query scores what its parts score together. */
  lemma {:induction false} ScoresAddUp(docs: seq<Doc>, ln: real -> real, a: seq<string>, b: seq<string>, i: nat)
    requires i < |docs|
    ensures ScoreOf(docs, ln, a + b, i) == ScoreOf(docs, ln, a, i) + ScoreOf(docs, ln, b, i)
    decreases |b|
  {
    if b == [] {
      assert a + b == a;
    } else {
      var front, last := b[..|b| - 1], b[|b| - 1];
      ScoresAddUp(docs, ln, a, front, i);
      assert (a + b)[..|a + b| - 1] == a + front && (a + b)[|a + b| - 1] == last;
    }
  }

  // ----- the order of the result -----

  /** One string comes before another at k: there it ends, or has the smaller character, and up to there they agree. */
  ghost predicate SmallerAt(a: string, b: string, k: int) {
    && 0 <= k <= |a| && k < |b| && a[..k] == b[..k] && (k == |a| || a[k] < b[k])
  }

  lemma {:induction false} LessExactly(a: string, b: string)
    ensures Less(a, b) <==> exists k :: SmallerAt(a, b, k)
  {
    if a == [] || b == [] {
      assert b != [] ==> SmallerAt(a, b, 0);
    } else {
      LessExactly(a[1..], b[1..]);
      if a[0] == b[0] && Less(a[1..], b[1..]) {
        var k :| SmallerAt(a[1..], b[1..], k);
        assert a[..k + 1] == [a[0]] + a[1..][..k] && b[..k + 1] == [b[0]] + b[1..][..k];
        assert SmallerAt(a, b, k + 1);
      } else if a[0] < b[0] {
        assert SmallerAt(a, b, 0);
      }
      if k :| SmallerAt(a, b, k) {
        if k > 0 {
          assert a[..k][0] == b[..k][0];
          assert a[1..][..k - 1] == a[..k][1..] && b[1..][..k - 1] == b[..k][1..];
          assert SmallerAt(a[1..], b[1..], k - 1);
        }
      }
    }
  }

  /** A document is ahead by its score, of equal scores by the later time, and of equal times by its position. */
  lemma AheadExactly(docs: seq<Doc>, a: Scored, b: Scored)
    requires a.doc < |docs| && b.doc < |docs|
    ensures Ahead(docs, a, b) <==>
      if a.score != b.score then a.score > b.score
      else if docs[a.doc].timestamp != docs[b.doc].timestamp
      then exists k :: SmallerAt(docs[b.doc].timestamp, docs[a.doc].timestamp, k)
      else a.doc < b.doc
  {
    LessExactly(docs[b.doc].timestamp, docs[a.doc].timestamp);
    if k :| SmallerAt(docs[b.doc].timestamp, docs[a.doc].timestamp, k) {
      assert docs[a.doc].timestamp != docs[b.doc].timestamp;
    }
  }
}
