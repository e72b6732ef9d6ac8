/**
 * The rewriter on the inputs its own comments use, on a decimal value, and on
 * the inputs that show it scans the text once.
 */
module DslExamples {

  import opened Wrappers
  import opened Text
  import opened DslRewrite
  import opened DslMatches
  import opened DslLaws
  import opened DslPairs

  /** A word before a brace becomes a quoted key. */
  lemma {:induction false} KeyBeforeBraceExample()
    ensures Sub(KeyBeforeBrace, "USDCNY {") == "\"USDCNY\": {"
  {
    var s := "USDCNY {";
    assert s[..6] == "USDCNY";
    assert KeyBeforeBraceAt(s, 6, 8);
    KeyBeforeBraceMatchesShape(s, 6, 8);
    assert Step(KeyBeforeBrace, s) == Match(8, KeyReplacement(s[..6]));
    assert Sub(KeyBeforeBrace, s[8..]) == [];
    assert Sub(KeyBeforeBrace, s) == KeyReplacement(s[..6]) + Sub(KeyBeforeBrace, s[8..]);
  }

  /** A pair of words becomes a quoted key and a quoted value. */
  lemma {:induction false} KeyValueExample()
    ensures Sub(KeyValue, "enabled true") == PairReplacement("enabled", "true")
  {
    var s := "enabled true";
    EnabledTrueStep(s);
    assert Sub(KeyValue, s[12..]) == [];
    assert Sub(KeyValue, s) == PairReplacement("enabled", "true") + Sub(KeyValue, s[12..]);
  }

  lemma {:induction false} EnabledTrueStep(s: string)
    requires s == "enabled true"
    ensures Step(KeyValue, s) == Match(12, PairReplacement("enabled", "true"))
  {
    assert s[..7] == "enabled";
    assert s[8..12] == "true";
    assert KeyValueAt(s, 7, 8, 12);
    KeyValueShapeIsMatch(s, 7, 8, 12);
  }

  /** Quote stripping then turns the quoted value into a literal. */
  lemma {:induction false} EnabledTrueUnquoted()
    ensures Sub(QuotedLiteral, PairReplacement("enabled", "true")) == "\"enabled\": true"
  {
    EnabledTrueWords("enabled", "true");
    var r := PairReplacement("enabled", "true");
    assert r + [] == r;
    PairValueUnquoted("enabled", "true", []);
  }

  lemma {:induction false} EnabledTrueWords(key: string, value: string)
    requires key == "enabled" && value == "true"
    ensures '"' !in key && !IsLiteral(key) && IsLiteral(value)
    ensures "\"" + key + "\": " + value + [] == "\"enabled\": true"
  {
    assert key[0] == 'e';
  }

  /**
   * A decimal splits at the point, because `\w` does not take it: the value
   * quoted is only the digits before the point...
   */
  lemma {:induction false} DecimalSplit()
    ensures Sub(KeyValue, "rate 7.2") == PairReplacement("rate", "7") + ".2"
  {
    var s := "rate 7.2";
    RateStep(s);
    PointTwoCopied(s[6..]);
  }

  lemma {:induction false} PointTwoCopied(t: string)
    requires t == ".2"
    ensures Sub(KeyValue, t) == ".2"
  {
    assert Span(IsWordChar, t) == 0;
    CopyStep(KeyValue, t);
    assert t[1..] == "2";
    assert Span(IsWordChar, t[1..]) == 1;
    CopyStep(KeyValue, t[1..]);
    assert t[1..][1..] == [];
  }

  lemma {:induction false} RateStep(s: string)
    requires s == "rate 7.2"
    ensures Sub(KeyValue, s) == PairReplacement("rate", "7") + Sub(KeyValue, s[6..])
  {
    assert s[..4] == "rate";
    assert s[5..6] == "7";
    assert KeyValueAt(s, 4, 5, 6);
    KeyValueShapeIsMatch(s, 4, 5, 6);
  }

  /** ... and quote stripping puts the number back together. */
  lemma {:induction false} DecimalRejoined()
    ensures Sub(QuotedLiteral, PairReplacement("rate", "7") + ".2") == "\"rate\": 7.2"
  {
    RateSevenWords("rate", "7", ".2");
    PairValueUnquoted("rate", "7", ".2");
  }

  lemma {:induction false} RateSevenWords(key: string, value: string, rest: string)
    requires key == "rate" && value == "7" && rest == ".2"
    ensures '"' !in key && !IsLiteral(key) && IsLiteral(value)
    ensures Sub(QuotedLiteral, rest) == rest
    ensures "\"" + key + "\": " + value + rest == "\"rate\": 7.2"
  {
    assert key[0] == 'r';
    assert NumberWithUnit(value);
    QuoteFreeCopied(rest, []);
    assert rest + [] == rest;
  }

  /** The third word is not paired with the second, which a match has already used. */
  lemma {:induction false} NoRescanExample()
    ensures Sub(KeyValue, "a b c") == "\"a\": \"b\" c"
  {
    var s := "a b c";
    assert s[..1] == "a";
    assert s[2..3] == "b";
    assert KeyValueAt(s, 1, 2, 3);
    KeyValueShapeIsMatch(s, 1, 2, 3);
    assert Step(KeyValue, s) == Match(3, PairReplacement(s[..1], s[2..3]));
    var t := s[3..];
    assert t == " c";
    assert Span(IsWordChar, t) == 0;
    assert Step(KeyValue, t) == Match(1, " ");
    var u := t[1..];
    assert u == "c";
    assert Span(IsWordChar, u) == 1;
    assert u[1..] == [];
    assert Step(KeyValue, u) == Match(1, "c");
    assert Sub(KeyValue, u[1..]) == [];
    assert Sub(KeyValue, u) == "c";
    assert Sub(KeyValue, t) == " c";
    assert Sub(KeyValue, s) == PairReplacement(s[..1], s[2..3]) + " c";
  }

  /** The comma left in front of the brace once the second comma goes is kept. */
  lemma {:induction false} SinglePassExample()
    ensures Sub(CommaBefore('}'), ",,}") == ",}"
  {
    var s := ",,}";
    assert Span(IsSpace, s[1..]) == 0;
    assert Step(CommaBefore('}'), s) == Match(1, ",");
    var t := s[1..];
    assert t == ",}";
    assert CommaBeforeAt('}', t, 2);
    CommaBeforeMatchesShape('}', t, 2);
    assert Step(CommaBefore('}'), t) == Match(2, "}");
    assert Sub(CommaBefore('}'), t[2..]) == [];
    assert Sub(CommaBefore('}'), t) == "}";
  }
}
