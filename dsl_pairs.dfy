/**
 * What quote stripping does to a pair the key-value pass has written: the
 * value loses its quotes exactly when it is a literal, and so does the key.
 */
module DslPairs {

  import opened Wrappers
  import opened Text
  import opened DslRewrite
  import opened DslMatches
  import opened DslLaws

  /** A literal is not empty, holds no double quote and does not start with a colon. */
  lemma {:induction false} LiteralShape(t: string)
    ensures IsLiteral(t) ==> |t| > 0 && t[0] != ':' && '"' !in t
  {
    if NumberWithUnit(t) {
      assert forall c :: IsDigitOrLetter(c) ==> c != '"';
    }
  }

  /** No quoted literal starts at a quote that opens a word which is not a literal. */
  lemma {:induction false} QuotedWordNoMatch(w: string, rest: string)
    requires '"' !in w && !IsLiteral(w)
    ensures MatchAt(QuotedLiteral, "\"" + w + "\"" + rest).None?
  {
    var s := "\"" + w + "\"" + rest;
    var e := if MatchAt(QuotedLiteral, s).Some? then MatchAt(QuotedLiteral, s).value.len else 0;
    QuotedLiteralMatchesShape(s, e);
    QuotedWordNotLiteralAt(w, rest, e);
  }

  lemma {:induction false} QuotedWordNotLiteralAt(w: string, rest: string, e: nat)
    requires '"' !in w && !IsLiteral(w)
    ensures !QuotedLiteralAt("\"" + w + "\"" + rest, e)
  {
    var s := "\"" + w + "\"" + rest;
    assert forall i :: 1 <= i <= |w| ==> s[i] == w[i - 1];
    assert s[|w| + 1] == '"';
    if 2 <= e <= |s| && s[e - 1] == '"' {
      var t := s[1..e - 1];
      LiteralShape(t);
      if e - 1 == |w| + 1 {
        assert t == w;
      } else if e - 1 > |w| + 1 {
        assert t[|w|] == '"';
      }
    }
  }

  /** No quoted literal starts at the quote that closes a key. */
  lemma {:induction false} ColonNoMatch(rest: string)
    ensures MatchAt(QuotedLiteral, "\": " + rest).None?
  {
    var s := "\": " + rest;
    var e := if MatchAt(QuotedLiteral, s).Some? then MatchAt(QuotedLiteral, s).value.len else 0;
    QuotedLiteralMatchesShape(s, e);
    ColonNotLiteralAt(rest, e);
  }

  lemma {:induction false} ColonNotLiteralAt(rest: string, e: nat)
    ensures !QuotedLiteralAt("\": " + rest, e)
  {
    var s := "\": " + rest;
    if 2 <= e <= |s| {
      LiteralShape(s[1..e - 1]);
      if e > 2 {
        assert s[1..e - 1][0] == ':';
      }
    }
  }

  /** A quoted word that is not a literal is copied, up to its closing quote. */
  lemma {:induction false} QuotedWordCopied(w: string, rest: string)
    requires '"' !in w && !IsLiteral(w)
    ensures Sub(QuotedLiteral, "\"" + w + "\"" + rest) == "\"" + w + Sub(QuotedLiteral, "\"" + rest)
  {
    OpeningQuoteCopied(w, rest);
    Assoc(w, "\"", rest);
    QuoteFreeCopied(w, "\"" + rest);
    Chain(Sub(QuotedLiteral, "\"" + w + "\"" + rest), "\"", Sub(QuotedLiteral, w + ("\"" + rest)), w, Sub(QuotedLiteral, "\"" + rest));
  }

  lemma {:induction false} OpeningQuoteCopied(w: string, rest: string)
    requires '"' !in w && !IsLiteral(w)
    ensures Sub(QuotedLiteral, "\"" + w + "\"" + rest) == "\"" + Sub(QuotedLiteral, w + "\"" + rest)
  {
    var s := "\"" + w + "\"" + rest;
    QuotedWordNoMatch(w, rest);
    CopyStep(QuotedLiteral, s);
    OpeningQuoteDropped(w, rest);
  }

  lemma {:induction false} OpeningQuoteDropped(w: string, rest: string)
    ensures ("\"" + w + "\"" + rest)[0] == '"'
    ensures ("\"" + w + "\"" + rest)[1..] == w + "\"" + rest
  {
  }

  /** A quoted literal loses its quotes. */
  lemma {:induction false} QuotedLiteralUnquoted(w: string, rest: string)
    requires IsLiteral(w)
    ensures Sub(QuotedLiteral, "\"" + w + "\"" + rest) == w + Sub(QuotedLiteral, rest)
  {
    var s := "\"" + w + "\"" + rest;
    QuotedSlices(w, rest);
    LiteralShape(w);
    assert QuotedLiteralAt(s, |w| + 2);
    QuotedLiteralMatchesShape(s, |w| + 2);
  }

  lemma {:induction false} QuotedSlices(w: string, rest: string)
    ensures var s := "\"" + w + "\"" + rest;
      |s| == |w| + 2 + |rest| && s[0] == '"' && s[|w| + 1] == '"' && s[1..|w| + 1] == w && s[|w| + 2..] == rest
  {
  }

  /** The colon and space after a key are copied. */
  lemma {:induction false} ColonCopied(rest: string)
    ensures Sub(QuotedLiteral, "\": " + rest) == "\": " + Sub(QuotedLiteral, rest)
  {
    ClosingQuoteCopied(rest);
    QuoteFreeCopied(": ", rest);
    Chain(Sub(QuotedLiteral, "\": " + rest), "\"", Sub(QuotedLiteral, ": " + rest), ": ", Sub(QuotedLiteral, rest));
    QuoteColonJoined(Sub(QuotedLiteral, rest));
  }

  lemma {:induction false} QuoteColonJoined(c: string)
    ensures "\"" + ": " + c == "\": " + c
  {
    assert "\"" + ": " == "\": ";
  }

  lemma {:induction false} ClosingQuoteCopied(rest: string)
    ensures Sub(QuotedLiteral, "\": " + rest) == "\"" + Sub(QuotedLiteral, ": " + rest)
  {
    var s := "\": " + rest;
    ColonNoMatch(rest);
    CopyStep(QuotedLiteral, s);
    ClosingQuoteDropped(rest);
  }

  lemma {:induction false} ClosingQuoteDropped(rest: string)
    ensures ("\": " + rest)[0] == '"' && ("\": " + rest)[1..] == ": " + rest
  {
  }

  /**
   * A pair written by the key-value pass whose value is a literal and whose
   * key is not keeps the quotes around its key and loses those around its
   * value: `"enabled": "true"` becomes `"enabled": true`.
   */
  lemma {:induction false} PairValueUnquoted(key: string, value: string, rest: string)
    requires '"' !in key && !IsLiteral(key) && IsLiteral(value)
    ensures Sub(QuotedLiteral, PairReplacement(key, value) + rest) ==
      "\"" + key + "\": " + value + Sub(QuotedLiteral, rest)
  {
    var v := "\"" + value + "\"" + rest;
    KeyCopied(key, value, rest);
    QuotedLiteralUnquoted(value, rest);
    Chain(Sub(QuotedLiteral, PairReplacement(key, value) + rest), "\"" + key + "\": ", Sub(QuotedLiteral, v), value, Sub(QuotedLiteral, rest));
  }

  /**
   * A pair of words neither of which is a literal comes through unchanged,
   * whatever follows it, as long as the value word ends there: the greedy
   * value of the key-value pass never stops before a word character.
   */
  lemma {:induction false} PairKeptQuoted(key: string, value: string, rest: string)
    requires '"' !in key && !IsLiteral(key) && '"' !in value && !IsLiteral(value)
    requires rest == [] || !IsWordChar(rest[0])
    ensures Sub(QuotedLiteral, PairReplacement(key, value) + rest) ==
      PairReplacement(key, value) + Sub(QuotedLiteral, rest)
  {
    var v := "\"" + value + "\"" + rest;
    KeyCopied(key, value, rest);
    ValueKeptQuoted(value, rest);
    Chain(Sub(QuotedLiteral, PairReplacement(key, value) + rest), "\"" + key + "\": ", Sub(QuotedLiteral, v),
      "\"" + value + "\"", Sub(QuotedLiteral, rest));
    PairJoined(key, value);
  }

  /** A key that is not a literal is copied with its closing quote, colon and space. */
  lemma {:induction false} KeyCopied(key: string, value: string, rest: string)
    requires '"' !in key && !IsLiteral(key)
    ensures Sub(QuotedLiteral, PairReplacement(key, value) + rest) ==
      "\"" + key + "\": " + Sub(QuotedLiteral, "\"" + value + "\"" + rest)
  {
    var v := "\"" + value + "\"" + rest;
    PairSplit(key, value, rest);
    QuotedWordCopied(key, ": " + v);
    ColonCopied(v);
    Chain(Sub(QuotedLiteral, PairReplacement(key, value) + rest), "\"" + key, Sub(QuotedLiteral, "\": " + v), "\": ", Sub(QuotedLiteral, v));
  }

  /** A quoted value that is not a literal, ending where the value word ends, is copied. */
  lemma {:induction false} ValueKeptQuoted(value: string, rest: string)
    requires '"' !in value && !IsLiteral(value)
    requires rest == [] || !IsWordChar(rest[0])
    ensures Sub(QuotedLiteral, "\"" + value + "\"" + rest) == "\"" + value + "\"" + Sub(QuotedLiteral, rest)
  {
    QuotedWordCopied(value, rest);
    QuoteBeforeNonWordCopied(rest);
    Chain(Sub(QuotedLiteral, "\"" + value + "\"" + rest), "\"" + value, Sub(QuotedLiteral, "\"" + rest), "\"",
      Sub(QuotedLiteral, rest));
  }

  lemma {:induction false} PairJoined(key: string, value: string)
    ensures "\"" + key + "\": " + ("\"" + value + "\"") == PairReplacement(key, value)
  {
  }

  /** A quote followed by anything but a word character starts no quoted literal and is copied. */
  lemma {:induction false} QuoteBeforeNonWordCopied(rest: string)
    requires rest == [] || !IsWordChar(rest[0])
    ensures Sub(QuotedLiteral, "\"" + rest) == "\"" + Sub(QuotedLiteral, rest)
  {
    var s := "\"" + rest;
    assert s[1..] == rest;
    if rest != [] {
      assert !IsDigit(rest[0]);
      assert |rest| >= 4 ==> rest[..4][0] == rest[0];
      assert |rest| >= 5 ==> rest[..5][0] == rest[0];
    }
    assert LiteralSpan(rest) == 0;
    CopyStep(QuotedLiteral, s);
  }

  /**
   * A key that is itself a literal loses its quotes too: the words `10 20`
   * come out of the first three passes as `10: 20`, which is not JSON.
   */
  lemma {:induction false} PairKeyUnquoted(key: string, value: string, rest: string)
    requires IsLiteral(key) && IsLiteral(value)
    ensures Sub(QuotedLiteral, PairReplacement(key, value) + rest) ==
      key + ": " + value + Sub(QuotedLiteral, rest)
  {
    var v := "\"" + value + "\"" + rest;
    PairSplit(key, value, rest);
    QuotedLiteralUnquoted(key, ": " + v);
    QuoteFreeCopied(": ", v);
    Chain(Sub(QuotedLiteral, PairReplacement(key, value) + rest), key, Sub(QuotedLiteral, ": " + v), ": ", Sub(QuotedLiteral, v));
    QuotedLiteralUnquoted(value, rest);
    Chain(Sub(QuotedLiteral, PairReplacement(key, value) + rest), key + ": ", Sub(QuotedLiteral, v), value, Sub(QuotedLiteral, rest));
  }

  lemma {:induction false} PairSplit(key: string, value: string, rest: string)
    ensures PairReplacement(key, value) + rest == "\"" + key + "\"" + (": " + ("\"" + value + "\"" + rest))
    ensures "\"" + (": " + ("\"" + value + "\"" + rest)) == "\": " + ("\"" + value + "\"" + rest)
  {
  }
}
