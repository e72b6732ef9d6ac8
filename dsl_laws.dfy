/**
 * What each substitution of the rewriter keeps: which characters it may add
 * or drop, and that everything else survives in order.
 */
module DslLaws {

  import opened Wrappers
  import opened Text
  import opened DslRewrite
  import opened DslMatches

  predicate IsQuote(c: char)
  {
    c == '"'
  }

  predicate IsQuoteColonOrSpace(c: char)
  {
    c == '"' || c == ':' || IsSpace(c)
  }

  predicate IsCommaOrSpace(c: char)
  {
    c == ',' || IsSpace(c)
  }

  /** The characters the rewriter as a whole adds, drops or rewrites. */
  predicate IsPunctuationOrSpace(c: char)
  {
    c == '"' || c == ':' || c == ',' || IsSpace(c)
  }

  /** A match of `p` at the start of `s`, if any, and its replacement agree once `gone` is erased. */
  predicate MatchKeeps(p: Pattern, gone: char -> bool, s: string)
  {
    MatchAt(p, s).Some? ==>
      Erase(MatchAt(p, s).value.replacement, gone) == Erase(s[..MatchAt(p, s).value.len], gone)
  }

  /** A match of `p` at the start of `s`, if any, is replaced by a subsequence of itself. */
  predicate MatchShrinks(p: Pattern, s: string)
  {
    MatchAt(p, s).Some? ==>
      IsSubsequence(MatchAt(p, s).value.replacement, s[..MatchAt(p, s).value.len])
  }

  /** When every replacement keeps the text outside `gone`, so does the whole substitution. */
  lemma {:induction false} SubKeeps(p: Pattern, s: string, gone: char -> bool)
    requires forall t :: MatchKeeps(p, gone, t)
    ensures Erase(Sub(p, s), gone) == Erase(s, gone)
    decreases |s|
  {
    if s != [] {
      var m := Step(p, s);
      StepKeeps(p, gone, s);
      SubKeeps(p, s[m.len..], gone);
      SplitAt(s, m.len);
      EraseJoin(Sub(p, s), m.replacement, Sub(p, s[m.len..]), s, s[..m.len], s[m.len..], gone);
    }
  }

  /** Two pieces that each keep the text outside `gone` keep it together. */
  lemma {:induction false} EraseJoin(a: string, x: string, y: string, s: string, s1: string, s2: string, gone: char -> bool)
    requires a == x + y && s == s1 + s2
    requires Erase(x, gone) == Erase(s1, gone) && Erase(y, gone) == Erase(s2, gone)
    ensures Erase(a, gone) == Erase(s, gone)
  {
    EraseAppend(x, y, gone);
    EraseAppend(s1, s2, gone);
  }

  lemma {:induction false} StepKeeps(p: Pattern, gone: char -> bool, s: string)
    requires s != [] && MatchKeeps(p, gone, s)
    ensures Erase(Step(p, s).replacement, gone) == Erase(s[..Step(p, s).len], gone)
  {
    if MatchAt(p, s).None? {
      assert s[..1] == [s[0]];
    }
  }

  /** When every replacement is a subsequence of its match, the result is a subsequence of the input. */
  lemma {:induction false} SubShrinks(p: Pattern, s: string)
    requires forall t :: MatchShrinks(p, t)
    ensures IsSubsequence(Sub(p, s), s)
    decreases |s|
  {
    if s != [] {
      var m := Step(p, s);
      StepShrinks(p, s);
      SubShrinks(p, s[m.len..]);
      SubsequenceAppend(m.replacement, s[..m.len], Sub(p, s[m.len..]), s[m.len..]);
      SplitAt(s, m.len);
    }
  }

  lemma {:induction false} StepShrinks(p: Pattern, s: string)
    requires s != [] && MatchShrinks(p, s)
    ensures IsSubsequence(Step(p, s).replacement, s[..Step(p, s).len])
  {
    if MatchAt(p, s).None? {
      SubsequenceRefl([s[0]]);
      assert s[..1] == [s[0]];
    }
  }

  lemma {:induction false} KeyBeforeBraceMatchKeeps(t: string)
    ensures MatchKeeps(KeyBeforeBrace, IsQuoteColonOrSpace, t)
  {
    var w := Span(IsWordChar, t);
    var sp := Span(IsSpace, t[w..]);
    if 0 < w && 0 < sp && w + sp < |t| && t[w + sp] == '{' {
      KeyBeforeBraceScan(t, w, sp);
      var m := Match(w + sp + 1, KeyReplacement(t[..w]));
      assert MatchAt(KeyBeforeBrace, t) == Some(m);
      KeyBraceSliceErased(t, w, sp);
      assert Erase(m.replacement, IsQuoteColonOrSpace) == Erase(t[..m.len], IsQuoteColonOrSpace);
    }
  }

  lemma {:induction false} KeyBraceSliceErased(t: string, w: nat, sp: nat)
    requires w + sp < |t| && t[w + sp] == '{'
    requires All(IsWordChar, t[..w]) && All(IsSpace, t[w..w + sp])
    ensures Erase(KeyReplacement(t[..w]), IsQuoteColonOrSpace) == Erase(t[..w + sp + 1], IsQuoteColonOrSpace)
  {
    var g := IsQuoteColonOrSpace;
    var key, gap := t[..w], t[w..w + sp];
    assert All(g, gap);
    assert t[..w + sp + 1] == [] + key + gap + "{";
    EraseFramed([], key, gap, g);
    EraseAppend([] + key + gap, "{", g);
    assert KeyReplacement(key) == "\"" + key + "\": " + "{";
    EraseFramed("\"", key, "\": ", g);
    EraseAppend("\"" + key + "\": ", "{", g);
  }

  lemma {:induction false} KeyValueMatchKeeps(t: string)
    ensures MatchKeeps(KeyValue, IsQuoteColonOrSpace, t)
  {
    var w := Span(IsWordChar, t);
    var sp := Span(IsSpace, t[w..]);
    var v := Span(IsWordChar, t[w + sp..]);
    if 0 < w && 0 < sp && 0 < v {
      KeyValueScan(t, w, sp, v);
      var m := Match(w + sp + v, PairReplacement(t[..w], t[w + sp..w + sp + v]));
      assert MatchAt(KeyValue, t) == Some(m);
      KeyValueSliceErased(t, w, sp, v);
      assert Erase(m.replacement, IsQuoteColonOrSpace) == Erase(t[..m.len], IsQuoteColonOrSpace);
    }
  }

  lemma {:induction false} KeyValueSliceErased(t: string, w: nat, sp: nat, v: nat)
    requires w + sp + v <= |t|
    requires All(IsWordChar, t[..w]) && All(IsSpace, t[w..w + sp]) && All(IsWordChar, t[w + sp..w + sp + v])
    ensures Erase(PairReplacement(t[..w], t[w + sp..w + sp + v]), IsQuoteColonOrSpace) ==
      Erase(t[..w + sp + v], IsQuoteColonOrSpace)
  {
    var key, gap, value := t[..w], t[w..w + sp], t[w + sp..w + sp + v];
    assert t[..w + sp + v] == key + gap + value;
    WordsAroundGapErased(key, gap, value);
    PairReplacementErased(key, value);
  }

  lemma {:induction false} WordsAroundGapErased(key: string, gap: string, value: string)
    requires All(IsWordChar, key) && All(IsSpace, gap) && All(IsWordChar, value)
    ensures Erase(key + gap + value, IsQuoteColonOrSpace) == key + value
  {
    var g := IsQuoteColonOrSpace;
    assert All(g, gap);
    EraseFramed([], key, gap, g);
    EraseNoneGone(value, g);
    assert [] + key + gap == key + gap;
    EraseAppend(key + gap, value, g);
  }

  lemma {:induction false} PairReplacementErased(key: string, value: string)
    requires All(IsWordChar, key) && All(IsWordChar, value)
    ensures Erase(PairReplacement(key, value), IsQuoteColonOrSpace) == key + value
  {
    var g := IsQuoteColonOrSpace;
    var left, right := "\"" + key + "\": \"", [] + value + "\"";
    assert PairReplacement(key, value) == left + right;
    EraseFramed("\"", key, "\": \"", g);
    EraseFramed([], value, "\"", g);
    EraseAppend(left, right, g);
  }

  lemma {:induction false} QuotedLiteralMatchKeeps(t: string)
    ensures MatchKeeps(QuotedLiteral, IsQuote, t)
    ensures MatchShrinks(QuotedLiteral, t)
  {
    if MatchAt(QuotedLiteral, t).Some? {
      var m := MatchAt(QuotedLiteral, t).value;
      var body := t[1..m.len - 1];
      assert t[..m.len] == "\"" + body + "\"";
      EraseAppend("\"" + body, "\"", IsQuote);
      EraseAppend("\"", body, IsQuote);
      SubsequenceSlice(t[..m.len], 1, m.len - 1);
      assert t[..m.len][1..m.len - 1] == body;
    }
  }

  lemma {:induction false} CommaBeforeMatchKeeps(close: char, t: string)
    requires !IsCommaOrSpace(close)
    ensures MatchKeeps(CommaBefore(close), IsCommaOrSpace, t)
    ensures MatchShrinks(CommaBefore(close), t)
  {
    if MatchAt(CommaBefore(close), t).Some? {
      var sp := Span(IsSpace, t[1..]);
      SpanFacts(IsSpace, t[1..]);
      var gap := t[1..1 + sp];
      assert t[1..][..sp] == gap;
      EraseAllGone(gap, IsCommaOrSpace);
      assert t[..sp + 2] == "," + gap + [close];
      EraseAppend("," + gap, [close], IsCommaOrSpace);
      EraseAppend(",", gap, IsCommaOrSpace);
      SubsequenceSlice(t[..sp + 2], sp + 1, sp + 2);
      assert t[..sp + 2][sp + 1..sp + 2] == [close];
    }
  }

  /** The key-before-brace pass only adds or drops quotes, colons and whitespace. */
  lemma {:induction false} KeyBeforeBraceKeepsText(s: string)
    ensures Erase(Sub(KeyBeforeBrace, s), IsQuoteColonOrSpace) == Erase(s, IsQuoteColonOrSpace)
  {
    forall t ensures MatchKeeps(KeyBeforeBrace, IsQuoteColonOrSpace, t) {
      KeyBeforeBraceMatchKeeps(t);
    }
    SubKeeps(KeyBeforeBrace, s, IsQuoteColonOrSpace);
  }

  /** The key-value pass only adds or drops quotes, colons and whitespace. */
  lemma {:induction false} KeyValueKeepsText(s: string)
    ensures Erase(Sub(KeyValue, s), IsQuoteColonOrSpace) == Erase(s, IsQuoteColonOrSpace)
  {
    forall t ensures MatchKeeps(KeyValue, IsQuoteColonOrSpace, t) {
      KeyValueMatchKeeps(t);
    }
    SubKeeps(KeyValue, s, IsQuoteColonOrSpace);
  }

  /**
   * The quote-stripping pass deletes double quotes, two per match, and
   * nothing else: every other character survives, in order.
   */
  lemma {:induction false} QuotedLiteralOnlyDropsQuotes(s: string)
    ensures IsSubsequence(Sub(QuotedLiteral, s), s)
    ensures Erase(Sub(QuotedLiteral, s), IsQuote) == Erase(s, IsQuote)
    ensures |Sub(QuotedLiteral, s)| <= |s| && (|s| - |Sub(QuotedLiteral, s)|) % 2 == 0
  {
    forall t ensures MatchKeeps(QuotedLiteral, IsQuote, t) && MatchShrinks(QuotedLiteral, t) {
      QuotedLiteralMatchKeeps(t);
    }
    SubKeeps(QuotedLiteral, s, IsQuote);
    SubShrinks(QuotedLiteral, s);
    QuotedLiteralDropsPairs(s);
  }

  lemma {:induction false} QuotedLiteralDropsPairs(s: string)
    ensures |Sub(QuotedLiteral, s)| <= |s| && (|s| - |Sub(QuotedLiteral, s)|) % 2 == 0
    decreases |s|
  {
    if s != [] {
      var m := Step(QuotedLiteral, s);
      var rest := Sub(QuotedLiteral, s[m.len..]);
      StepDropsPair(s);
      QuotedLiteralDropsPairs(s[m.len..]);
      assert Sub(QuotedLiteral, s) == m.replacement + rest;
      var d := |s[m.len..]| - |rest|;
      var x := m.len - |m.replacement|;
      assert |s| - |Sub(QuotedLiteral, s)| == x + d;
      EvenPlusZeroOrTwo(d, x);
    }
  }

  lemma {:induction false} EvenPlusZeroOrTwo(d: int, x: int)
    requires d % 2 == 0 && (x == 0 || x == 2)
    ensures (x + d) % 2 == 0
  {
  }

  /** One step of quote stripping either copies a character or drops two quotes. */
  lemma {:induction false} StepDropsPair(s: string)
    requires s != []
    ensures var m := Step(QuotedLiteral, s); m.len == |m.replacement| || m.len == |m.replacement| + 2
  {
  }

  /**
   * A comma-before-closer pass deletes commas and whitespace and nothing
   * else: every closer and every other character survives, in order.
   */
  lemma {:induction false} CommaBeforeOnlyDropsCommas(close: char, s: string)
    requires !IsCommaOrSpace(close)
    ensures IsSubsequence(Sub(CommaBefore(close), s), s)
    ensures Erase(Sub(CommaBefore(close), s), IsCommaOrSpace) == Erase(s, IsCommaOrSpace)
  {
    forall t ensures MatchKeeps(CommaBefore(close), IsCommaOrSpace, t) && MatchShrinks(CommaBefore(close), t) {
      CommaBeforeMatchKeeps(close, t);
    }
    SubKeeps(CommaBefore(close), s, IsCommaOrSpace);
    SubShrinks(CommaBefore(close), s);
  }

  /** Trimming drops whitespace only. */
  lemma {:induction false} StripKeepsText(s: string, gone: char -> bool)
    requires forall c :: IsSpace(c) ==> gone(c)
    ensures Erase(Strip(s), gone) == Erase(s, gone)
  {
    var i, j :| 0 <= i <= j <= |s| && Strip(s) == s[i..j] && All(IsSpace, s[..i]) && All(IsSpace, s[j..]);
    assert s == s[..i] + s[i..j] + s[j..];
    AllWider(s[..i], IsSpace, gone);
    AllWider(s[j..], IsSpace, gone);
    EraseAppend(s[..i] + s[i..j], s[j..], gone);
    EraseAppend(s[..i], s[i..j], gone);
    EraseAllGone(s[..i], gone);
    EraseAllGone(s[j..], gone);
  }

  /** A step that keeps the text outside a narrow class keeps the text outside a wider one. */
  lemma {:induction false} KeepsWider(a: string, b: string, narrow: char -> bool, wide: char -> bool)
    requires forall c :: narrow(c) ==> wide(c)
    requires Erase(a, narrow) == Erase(b, narrow)
    ensures Erase(a, wide) == Erase(b, wide)
  {
    EraseWider(a, narrow, wide);
    EraseWider(b, narrow, wide);
  }

  /** The five substitutions together keep every character outside quotes, colons, commas and whitespace. */
  lemma {:induction false} SubstituteKeepsText(text: string)
    ensures Erase(Substitute(text), IsPunctuationOrSpace) == Erase(text, IsPunctuationOrSpace)
  {
    var t1 := Sub(KeyBeforeBrace, text);
    var t2 := Sub(KeyValue, t1);
    var t3 := Sub(QuotedLiteral, t2);
    var t4 := Sub(CommaBefore('}'), t3);
    PassKeepsText(KeyBeforeBrace, text);
    PassKeepsText(KeyValue, t1);
    PassKeepsText(QuotedLiteral, t2);
    PassKeepsText(CommaBefore('}'), t3);
    PassKeepsText(CommaBefore(']'), t4);
  }

  /** Each pass of the rewriter keeps every character outside quotes, colons, commas and whitespace. */
  lemma {:induction false} PassKeepsText(p: Pattern, s: string)
    requires p.CommaBefore? ==> p.close == '}' || p.close == ']'
    ensures Erase(Sub(p, s), IsPunctuationOrSpace) == Erase(s, IsPunctuationOrSpace)
  {
    match p
    case KeyBeforeBrace =>
      KeyBeforeBraceKeepsText(s);
      KeepsWider(Sub(p, s), s, IsQuoteColonOrSpace, IsPunctuationOrSpace);
    case KeyValue =>
      KeyValueKeepsText(s);
      KeepsWider(Sub(p, s), s, IsQuoteColonOrSpace, IsPunctuationOrSpace);
    case QuotedLiteral =>
      QuotedLiteralOnlyDropsQuotes(s);
      KeepsWider(Sub(p, s), s, IsQuote, IsPunctuationOrSpace);
    case CommaBefore(close) =>
      CommaBeforeOnlyDropsCommas(close, s);
      KeepsWider(Sub(p, s), s, IsCommaOrSpace, IsPunctuationOrSpace);
  }

  /**
   * The whole rewrite only adds, drops or moves quotes, colons, commas and
   * whitespace: every other character of the input survives in order,
   * inside one added pair of braces.
   */
  lemma {:induction false} ConvertKeepsText(text: string)
    ensures Erase(ConvertDslToJson(text), IsPunctuationOrSpace) ==
      "{" + Erase(text, IsPunctuationOrSpace) + "}"
  {
    var t := Substitute(text);
    SubstituteKeepsText(text);
    StripKeepsText(t, IsPunctuationOrSpace);
    WrapKeepsText(Strip(t));
  }

  lemma {:induction false} WrapKeepsText(t: string)
    ensures Erase("{" + t + "}", IsPunctuationOrSpace) == "{" + Erase(t, IsPunctuationOrSpace) + "}"
  {
    EraseAppend("{" + t, "}", IsPunctuationOrSpace);
    EraseAppend("{", t, IsPunctuationOrSpace);
  }

  /** Where `p` does not match, the substitution copies one character. */
  lemma {:induction false} CopyStep(p: Pattern, s: string)
    requires s != [] && MatchAt(p, s).None?
    ensures Sub(p, s) == [s[0]] + Sub(p, s[1..])
  {
  }

  /** `p` matches at no position of `s`. */
  predicate Unmatched(p: Pattern, s: string)
  {
    forall k :: 0 <= k < |s| ==> MatchAt(p, s[k..]).None?
  }

  /** Where the pattern matches nowhere, `re.sub` returns the text unchanged. */
  lemma {:induction false} SubUnmatched(p: Pattern, s: string)
    requires Unmatched(p, s)
    ensures Sub(p, s) == s
    decreases |s|
  {
    if s != [] {
      assert MatchAt(p, s[0..]).None?;
      WholeSuffix(s);
      CopyStep(p, s);
      forall k | 0 <= k < |s| - 1 ensures MatchAt(p, s[1..][k..]).None? {
        assert MatchAt(p, s[k + 1..]).None?;
        SuffixOfSuffix(s, 1, k);
      }
      SubUnmatched(p, s[1..]);
    }
  }

  /** Text on which none of the five patterns matches anywhere passes all five substitutions unchanged. */
  lemma {:induction false} SubstituteUnmatched(text: string)
    requires Unmatched(KeyBeforeBrace, text) && Unmatched(KeyValue, text) && Unmatched(QuotedLiteral, text)
    requires Unmatched(CommaBefore('}'), text) && Unmatched(CommaBefore(']'), text)
    ensures Substitute(text) == text
  {
    SubUnmatched(KeyBeforeBrace, text);
    SubUnmatched(KeyValue, text);
    SubUnmatched(QuotedLiteral, text);
    SubUnmatched(CommaBefore('}'), text);
    SubUnmatched(CommaBefore(']'), text);
  }

  /** The quote-stripping pass copies a word that holds no double quote. */
  lemma {:induction false} QuoteFreeCopied(w: string, rest: string)
    requires '"' !in w
    ensures Sub(QuotedLiteral, w + rest) == w + Sub(QuotedLiteral, rest)
  {
    if w == [] {
      assert w + rest == rest;
    } else {
      TailOfConcat(w, rest);
      CopyStep(QuotedLiteral, w + rest);
      QuoteFreeCopied(w[1..], rest);
      Chain(Sub(QuotedLiteral, w + rest), [w[0]], Sub(QuotedLiteral, w[1..] + rest), w[1..], Sub(QuotedLiteral, rest));
    }
  }

  /** The comma passes copy a word that holds no comma. */
  lemma {:induction false} CommaFreeCopied(close: char, w: string, rest: string)
    requires ',' !in w
    ensures Sub(CommaBefore(close), w + rest) == w + Sub(CommaBefore(close), rest)
  {
    if w == [] {
      assert w + rest == rest;
    } else {
      TailOfConcat(w, rest);
      CopyStep(CommaBefore(close), w + rest);
      CommaFreeCopied(close, w[1..], rest);
      Chain(Sub(CommaBefore(close), w + rest), [w[0]], Sub(CommaBefore(close), w[1..] + rest), w[1..], Sub(CommaBefore(close), rest));
    }
  }
}
