/**
 * `convert_dsl_to_json` of json_compare.py: five regular-expression
 * substitutions applied one after the other, then the text is trimmed and
 * wrapped in one pair of braces.
 */
module DslRewrite {

  import opened Wrappers
  import opened Text

  /** The five patterns the rewriter substitutes, in the order it applies them. */
  datatype Pattern =
      /** A word, whitespace, then an opening brace: the word becomes a quoted key. */
    | KeyBeforeBrace
      /** A word, whitespace, then a word: the pair becomes a quoted key and a quoted value. */
    | KeyValue
      /** `true`, `false`, `null` or digits-then-letters between double quotes: the quotes go. */
    | QuotedLiteral
      /** A comma, optional whitespace, then the closer: only the closer stays. */
    | CommaBefore(close: char)

  /** A match at the start of the text: how many characters it spans and what replaces them. */
  datatype Match = Match(len: nat, replacement: string)

  /** The key quoted, a colon, a space, and the brace. */
  function KeyReplacement(key: string): string
  {
    "\"" + key + "\": {"
  }

  /** The key and the value quoted, with a colon and a space between them. */
  function PairReplacement(key: string, value: string): string
  {
    "\"" + key + "\": \"" + value + "\""
  }

  /** `(\w+)\s+({)` at the start of `s`: the match ends on the brace, which the replacement keeps. */
  function MatchKeyBeforeBrace(s: string): (r: Option<Match>)
    ensures r.Some? ==> 3 <= r.value.len <= |s| && s[r.value.len - 1] == '{'
    ensures r.Some? ==> r.value.replacement != [] && r.value.replacement[|r.value.replacement| - 1] == '{'
  {
    var w := Span(IsWordChar, s);
    var sp := Span(IsSpace, s[w..]);
    if 0 < w && 0 < sp && w + sp < |s| && s[w + sp] == '{' then
      Some(Match(w + sp + 1, KeyReplacement(s[..w])))
    else
      None
  }

  /** `(\w+)\s+(\w+)` at the start of `s`: the second word is greedy, so a match never ends inside a word. */
  function MatchKeyValue(s: string): (r: Option<Match>)
    ensures r.Some? ==> 3 <= r.value.len <= |s| && (r.value.len == |s| || !IsWordChar(s[r.value.len]))
  {
    var w := Span(IsWordChar, s);
    var sp := Span(IsSpace, s[w..]);
    var v := Span(IsWordChar, s[w + sp..]);
    ThreeRuns(IsWordChar, IsSpace, s, w, sp, v);
    if 0 < w && 0 < sp && 0 < v then
      Some(Match(w + sp + v, PairReplacement(s[..w], s[w + sp..w + sp + v])))
    else
      None
  }

  /**
   * How much of `t` the literal alternatives take, tried in their order:
   * `true`, `false`, `null`, then the longest run of digits followed by the
   * longest run of letters; 0 when none applies.
   */
  function LiteralSpan(t: string): (n: nat)
    ensures n <= |t|
    ensures forall i :: 0 <= i < n ==> IsDigit(t[i]) || IsAsciiLetter(t[i])
  {
    if |t| >= 4 && t[..4] == "true" then 4
    else if |t| >= 5 && t[..5] == "false" then 5
    else if |t| >= 4 && t[..4] == "null" then 4
    else
      var d := Span(IsDigit, t);
      if d == 0 then 0
      else
        var e := Span(IsAsciiLetter, t[d..]);
        TwoRuns(IsDigit, IsAsciiLetter, t, d, e);
        d + e
  }

  /**
   * `"(true|false|null|\d+[a-zA-Z]*)"` at the start of `s`: the match is a
   * quoted stretch and its replacement is what lies between the quotes.
   */
  function MatchQuotedLiteral(s: string): (r: Option<Match>)
    ensures r.Some? ==> 3 <= r.value.len <= |s| && s[0] == '"' && s[r.value.len - 1] == '"'
    ensures r.Some? ==> r.value.replacement == s[1..r.value.len - 1]
  {
    if s == [] || s[0] != '"' then None
    else
      var n := LiteralSpan(s[1..]);
      if 0 < n && n + 1 < |s| && s[n + 1] == '"' then Some(Match(n + 2, s[1..n + 1])) else None
  }

  /**
   * `,\s*` followed by `close` at the start of `s`: a comma, whitespace only,
   * then the closer, which is all the replacement keeps.
   */
  function MatchCommaBefore(close: char, s: string): (r: Option<Match>)
    ensures r.Some? ==> 2 <= r.value.len <= |s| && s[0] == ',' && s[r.value.len - 1] == close
    ensures r.Some? ==> All(IsSpace, s[1..r.value.len - 1]) && r.value.replacement == [close]
  {
    if s == [] || s[0] != ',' then None
    else
      var sp := Span(IsSpace, s[1..]);
      RunFacts(IsSpace, s, 1, sp);
      if 1 + sp < |s| && s[1 + sp] == close then Some(Match(sp + 2, [close])) else None
  }

  /** The match of `p` anchored at the first character of `s`, if any. */
  function MatchAt(p: Pattern, s: string): (r: Option<Match>)
    ensures r.Some? ==> 0 < r.value.len <= |s|
  {
    match p
    case KeyBeforeBrace => MatchKeyBeforeBrace(s)
    case KeyValue => MatchKeyValue(s)
    case QuotedLiteral => MatchQuotedLiteral(s)
    case CommaBefore(close) => MatchCommaBefore(close, s)
  }

  /**
   * One step of a substitution at the start of `s`: the match of `p` if there
   * is one, otherwise the first character copied unchanged.
   */
  function Step(p: Pattern, s: string): (m: Match)
    requires s != []
    ensures 0 < m.len <= |s|
  {
    match MatchAt(p, s)
    case Some(m) => m
    case None => Match(1, [s[0]])
  }

  /**
   * Python's `re.sub`: scan from left to right; where `p` matches, emit its
   * replacement and resume after the match, never rescanning replaced text;
   * elsewhere copy one character and move on.
   */
  function Sub(p: Pattern, s: string): string
    decreases |s|
  {
    if s == [] then []
    else
      var m := Step(p, s);
      m.replacement + Sub(p, s[m.len..])
  }

  /** The five substitutions, in order. */
  function Substitute(text: string): string
  {
    var t := Sub(KeyBeforeBrace, text);
    var t := Sub(KeyValue, t);
    var t := Sub(QuotedLiteral, t);
    var t := Sub(CommaBefore('}'), t);
    Sub(CommaBefore(']'), t)
  }

  /** `s` without trailing whitespace. */
  function StripEnd(s: string): (r: string)
    ensures |r| <= |s| && r == s[..|r|] && All(IsSpace, s[|r|..])
    ensures r == [] || !IsSpace(r[|r| - 1])
  {
    if s != [] && IsSpace(s[|s| - 1]) then
      var r := StripEnd(s[..|s| - 1]);
      assert s[|r|..] == s[..|s| - 1][|r|..] + [s[|s| - 1]];
      r
    else
      s
  }

  /** Python's `str.strip()`: `s` without its leading and trailing whitespace. */
  function Strip(s: string): (r: string)
    ensures r == [] || (!IsSpace(r[0]) && !IsSpace(r[|r| - 1]))
    ensures exists i, j :: 0 <= i <= j <= |s| && r == s[i..j] && All(IsSpace, s[..i]) && All(IsSpace, s[j..])
  {
    var i := Span(IsSpace, s);
    SpanFacts(IsSpace, s);
    var r := StripEnd(s[i..]);
    assert r == s[i..i + |r|];
    assert s[i + |r|..] == s[i..][|r|..];
    r
  }

  /**
   * The whole rewrite: the five substitutions, then the trimmed text inside
   * one pair of braces. The result always starts with `{` and ends with `}`,
   * and nothing inside the braces starts or ends with whitespace.
   */
  function ConvertDslToJson(text: string): (r: string)
    ensures |r| >= 2 && r[0] == '{' && r[|r| - 1] == '}'
    ensures |r| == 2 || (!IsSpace(r[1]) && !IsSpace(r[|r| - 2]))
  {
    "{" + Strip(Substitute(text)) + "}"
  }
}
