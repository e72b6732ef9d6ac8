/**
 * What each anchored scanner of the rewriter finds, stated as the
 * regular-expression match it stands for: the scanner reports a match of a
 * given shape exactly when the text has that shape.
 */
module DslMatches {

  import opened Wrappers
  import opened Text
  import opened DslRewrite

  /**
   * A word `s[..w]`, one or more whitespace characters, then `{` as the last
   * character of `s[..e]`.
   */
  predicate KeyBeforeBraceAt(s: string, w: nat, e: nat)
  {
    0 < w && w + 1 < e <= |s| &&
    All(IsWordChar, s[..w]) && All(IsSpace, s[w..e - 1]) && s[e - 1] == '{'
  }

  /**
   * A word `s[..w]`, whitespace `s[w..m]`, then a word `s[m..e]` that the
   * greedy repetition takes to its end.
   */
  predicate KeyValueAt(s: string, w: nat, m: nat, e: nat)
  {
    0 < w < m < e <= |s| &&
    All(IsWordChar, s[..w]) && All(IsSpace, s[w..m]) && All(IsWordChar, s[m..e]) &&
    (e == |s| || !IsWordChar(s[e]))
  }

  predicate IsDigitOrLetter(c: char)
  {
    IsDigit(c) || IsAsciiLetter(c)
  }

  /** One or more digits, then zero or more ASCII letters, as in `10d`. */
  predicate NumberWithUnit(t: string)
  {
    |t| > 0 && IsDigit(t[0]) && All(IsDigitOrLetter, t) &&
    forall i, j :: 0 <= i < j < |t| && IsAsciiLetter(t[i]) ==> IsAsciiLetter(t[j])
  }

  /** The words whose quotes the rewriter strips. */
  predicate IsLiteral(t: string)
  {
    t == "true" || t == "false" || t == "null" || NumberWithUnit(t)
  }

  /** A literal between two double quotes, spanning `s[..e]`. */
  predicate QuotedLiteralAt(s: string, e: nat)
  {
    2 <= e <= |s| && s[0] == '"' && s[e - 1] == '"' && IsLiteral(s[1..e - 1])
  }

  /** A comma, any whitespace, then `close` as the last character of `s[..e]`. */
  predicate CommaBeforeAt(close: char, s: string, e: nat)
  {
    2 <= e <= |s| && s[0] == ',' && All(IsSpace, s[1..e - 1]) && s[e - 1] == close
  }

  /**
   * A word-whitespace-brace occurrence at the start of `s` is exactly what
   * the scanner reports.
   */
  lemma {:induction false} KeyBeforeBraceMatchesShape(s: string, w: nat, e: nat)
    requires w <= |s|
    ensures KeyBeforeBraceAt(s, w, e) <==>
      MatchAt(KeyBeforeBrace, s) == Some(Match(e, KeyReplacement(s[..w])))
  {
    var w0 := Span(IsWordChar, s);
    var sp := Span(IsSpace, s[w0..]);
    if KeyBeforeBraceAt(s, w, e) {
      assert s[w..e - 1][0] == s[w];
      SpanIs(IsWordChar, s, w);
      SliceOfSuffix(s, w, e - 1);
      SpanIs(IsSpace, s[w..], e - 1 - w);
    }
    if MatchAt(KeyBeforeBrace, s) == Some(Match(e, KeyReplacement(s[..w]))) {
      SpanFacts(IsWordChar, s);
      SpanFacts(IsSpace, s[w0..]);
      assert |KeyReplacement(s[..w0])| == |KeyReplacement(s[..w])|;
      SliceOfSuffix(s, w, e - 1);
    }
  }

  /**
   * Every word-whitespace-word occurrence at the start of `s` is what the
   * scanner reports, and everything it reports is such an occurrence.
   */
  lemma {:induction false} KeyValueMatchesShape(s: string)
    ensures forall w: nat, m: nat, e: nat | KeyValueAt(s, w, m, e) ::
      MatchAt(KeyValue, s) == Some(Match(e, PairReplacement(s[..w], s[m..e])))
    ensures MatchAt(KeyValue, s).Some? ==>
      var r := MatchAt(KeyValue, s).value;
      exists w: nat, m: nat :: KeyValueAt(s, w, m, r.len) && r.replacement == PairReplacement(s[..w], s[m..r.len])
  {
    forall w: nat, m: nat, e: nat | KeyValueAt(s, w, m, e)
      ensures MatchAt(KeyValue, s) == Some(Match(e, PairReplacement(s[..w], s[m..e])))
    {
      KeyValueShapeIsMatch(s, w, m, e);
    }
    if MatchAt(KeyValue, s).Some? {
      var w := Span(IsWordChar, s);
      var sp := Span(IsSpace, s[w..]);
      var v := Span(IsWordChar, s[w + sp..]);
      KeyValueScan(s, w, sp, v);
      assert KeyValueAt(s, w, w + sp, w + sp + v);
    }
  }

  /** The two runs the key-before-brace scanner measures, as slices of `s`. */
  lemma {:induction false} KeyBeforeBraceScan(s: string, w: nat, sp: nat)
    requires w == Span(IsWordChar, s) && sp == Span(IsSpace, s[w..])
    ensures w + sp <= |s|
    ensures All(IsWordChar, s[..w]) && All(IsSpace, s[w..w + sp])
  {
    SpanFacts(IsWordChar, s);
    SpanFacts(IsSpace, s[w..]);
    SuffixPrefix(s, w, sp);
  }

  /** The three runs the key-value scanner measures, as slices of `s`. */
  lemma {:induction false} KeyValueScan(s: string, w: nat, sp: nat, v: nat)
    requires w == Span(IsWordChar, s) && sp == Span(IsSpace, s[w..]) && v == Span(IsWordChar, s[w + sp..])
    ensures w + sp + v <= |s|
    ensures All(IsWordChar, s[..w]) && All(IsSpace, s[w..w + sp]) && All(IsWordChar, s[w + sp..w + sp + v])
    ensures w + sp + v < |s| ==> !IsWordChar(s[w + sp + v])
  {
    ThreeRuns(IsWordChar, IsSpace, s, w, sp, v);
  }

  lemma {:induction false} KeyValueShapeIsMatch(s: string, w: nat, m: nat, e: nat)
    requires KeyValueAt(s, w, m, e)
    ensures MatchAt(KeyValue, s) == Some(Match(e, PairReplacement(s[..w], s[m..e])))
  {
    KeyValueRunsAre(s, w, m, e);
  }

  /** In a word-whitespace-word occurrence the scanner's runs end where the occurrence's parts do. */
  lemma {:induction false} KeyValueRunsAre(s: string, w: nat, m: nat, e: nat)
    requires KeyValueAt(s, w, m, e)
    ensures Span(IsWordChar, s) == w && Span(IsSpace, s[w..]) == m - w && Span(IsWordChar, s[m..]) == e - m
  {
    assert s[w..m][0] == s[w];
    SpanIs(IsWordChar, s, w);
    assert s[m..e][0] == s[m];
    RunAt(IsSpace, s, w, m);
    RunAt(IsWordChar, s, m, e);
  }

  /** A run `s[i..j]` of `p`-characters ended by a non-`p` character is the longest run from `i`. */
  lemma {:induction false} RunAt(p: char -> bool, s: string, i: nat, j: nat)
    requires i <= j <= |s| && All(p, s[i..j]) && (j < |s| ==> !p(s[j]))
    ensures Span(p, s[i..]) == j - i
  {
    SliceOfSuffix(s, i, j);
    SpanIs(p, s[i..], j - i);
  }

  lemma {:induction false} QuotedLiteralMatchesShape(s: string, e: nat)
    ensures QuotedLiteralAt(s, e) <==>
      MatchAt(QuotedLiteral, s).Some? && MatchAt(QuotedLiteral, s).value.len == e
    ensures MatchAt(QuotedLiteral, s).Some? ==>
      var m := MatchAt(QuotedLiteral, s).value; m.replacement == s[1..m.len - 1]
  {
    if QuotedLiteralAt(s, e) {
      SliceOfSuffix(s, 1, e - 1);
      LiteralSpanOfLiteral(s[1..], e - 2);
    }
    if MatchAt(QuotedLiteral, s).Some? {
      var n := LiteralSpan(s[1..]);
      SliceOfSuffix(s, 1, n + 1);
      LiteralSpanIsLiteral(s[1..]);
    }
  }

  /** When a literal stands at the start of `t` before a quote, the scanner takes exactly it. */
  lemma {:induction false} LiteralSpanOfLiteral(t: string, n: nat)
    requires n < |t| && t[n] == '"' && IsLiteral(t[..n])
    ensures LiteralSpan(t) == n
  {
    var b := t[..n];
    if b == "true" {
      assert t[..4] == b;
    } else if b == "false" {
      assert t[..5] == b;
      assert t[..4][0] == 'f';
    } else if b == "null" {
      assert t[..4] == b;
      assert t[..5][0] == 'n';
    } else {
      assert t[0] == b[0] && IsDigit(t[0]);
      assert |t| >= 4 ==> t[..4][0] == t[0];
      assert |t| >= 5 ==> t[..5][0] == t[0];
      NumberSpan(t, n);
    }
  }

  /** A number with a unit before a quote is exactly its digits and then its letters. */
  lemma {:induction false} NumberSpan(t: string, n: nat)
    requires n < |t| && t[n] == '"' && NumberWithUnit(t[..n])
    ensures 0 < Span(IsDigit, t) && Span(IsDigit, t) + Span(IsAsciiLetter, t[Span(IsDigit, t)..]) == n
  {
    var b := t[..n];
    NumberRuns(b);
    var d := Span(IsDigit, b);
    PrefixOfPrefix(t, d, n);
    assert d < n ==> t[d] == b[d];
    SpanIs(IsDigit, t, d);
    SliceOfPrefix(t, d, n);
    RunAt(IsAsciiLetter, t, d, n);
  }

  /** The digits of a number with a unit, then its letters. */
  lemma {:induction false} NumberRuns(b: string)
    requires NumberWithUnit(b)
    ensures var d := Span(IsDigit, b);
      0 < d <= |b| && All(IsDigit, b[..d]) && All(IsAsciiLetter, b[d..]) && (d < |b| ==> IsAsciiLetter(b[d]))
  {
    var d := Span(IsDigit, b);
    SpanFacts(IsDigit, b);
    LettersAfterDigits(b, d);
    AllFrom(IsAsciiLetter, b, d);
  }

  lemma {:induction false} LettersAfterDigits(b: string, d: nat)
    requires NumberWithUnit(b) && d <= |b| && (d < |b| ==> !IsDigit(b[d]))
    ensures forall k | d <= k < |b| :: IsAsciiLetter(b[k])
  {
    if d < |b| {
      assert IsDigitOrLetter(b[d]);
      forall k | d <= k < |b| ensures IsAsciiLetter(b[k]) {
        assert IsDigitOrLetter(b[k]);
      }
    }
  }

  /** What the scanner takes, when followed by a quote, is a literal. */
  lemma {:induction false} LiteralSpanIsLiteral(t: string)
    requires 0 < LiteralSpan(t) < |t| && t[LiteralSpan(t)] == '"'
    ensures IsLiteral(t[..LiteralSpan(t)])
  {
    var n := LiteralSpan(t);
    if !(|t| >= 4 && t[..4] == "true") && !(|t| >= 5 && t[..5] == "false") && !(|t| >= 4 && t[..4] == "null") {
      var d := Span(IsDigit, t);
      var l := Span(IsAsciiLetter, t[d..]);
      SpanFacts(IsDigit, t);
      SpanFacts(IsAsciiLetter, t[d..]);
      var b := t[..n];
      assert b[..d] == t[..d];
      assert b[d..] == t[d..][..l];
      DigitsThenLetters(b, d);
    }
  }

  /** Digits followed by letters make a number with a unit. */
  lemma {:induction false} DigitsThenLetters(b: string, d: nat)
    requires 0 < d <= |b| && All(IsDigit, b[..d]) && All(IsAsciiLetter, b[d..])
    ensures NumberWithUnit(b)
  {
    assert b[0] == b[..d][0];
    assert forall k | 0 <= k < d :: b[k] == b[..d][k];
    forall i, j | 0 <= i < j < |b| && IsAsciiLetter(b[i]) ensures IsAsciiLetter(b[j]) {
      assert b[j] == b[d..][j - d];
    }
    forall k | 0 <= k < |b| ensures IsDigitOrLetter(b[k]) {
      if k < d { assert b[k] == b[..d][k]; } else { assert b[k] == b[d..][k - d]; }
    }
  }

  lemma {:induction false} CommaBeforeMatchesShape(close: char, s: string, e: nat)
    requires !IsSpace(close)
    ensures CommaBeforeAt(close, s, e) <==> MatchAt(CommaBefore(close), s) == Some(Match(e, [close]))
  {
    if CommaBeforeAt(close, s, e) {
      SliceOfSuffix(s, 1, e - 1);
      SpanIs(IsSpace, s[1..], e - 2);
    }
    if MatchAt(CommaBefore(close), s) == Some(Match(e, [close])) {
      SpanFacts(IsSpace, s[1..]);
      SliceOfSuffix(s, 1, e - 1);
    }
  }
}
