# jsonCompare core in Dafny

A model of the three functions at the heart of `json_compare.py`, a small
tool that compares two JSON documents while ignoring the order of their
fields, and that accepts a loose "DSL" notation (`USDCNY { enabled true }`)
in place of JSON:

* `sort_json` rebuilds a parsed value with every dict's keys in sorted order,
  recursing into dicts and lists. It is modelled as the function
  `Normalize.SortJson` over the datatype `JsonTree.Json`. Objects are sequences
  of `(key, value)` members. `sorted` on `str` keys is an insertion sort
  (`KeyOrder.SortKeys`) under code-point lexicographic order (`KeyOrder.Less`).
  The lemmas prove what normalisation does:
  * each dict keeps its key set, with the keys in strictly ascending order
    and every value normalised;
  * each list keeps its length and positions;
  * scalars are unchanged;
  * the result is canonical at every depth;
  * normalising is idempotent;
  * two trees that differ only in the order of dict members normalise to the
    same tree.
* `convert_dsl_to_json` applies five `re.sub` passes, then strips the text
  and wraps it in braces. Each pattern is an anchored scanner
  (`DslRewrite.MatchAt`). Each scanner is proved to find exactly the
  occurrences of its regular expression (module `DslMatches`).
  `DslRewrite.Sub` is `re.sub`: it scans left to right, replaces
  non-overlapping matches, and never rescans replaced text. The laws prove
  which characters each pass may add or drop, and that everything else
  survives in order (module `DslLaws`). They also prove what quote stripping
  does to the pairs the key-value pass writes (module `DslPairs`). The
  examples in the source's comments are proved as concrete instances (module
  `DslExamples`). One lemma, `DslPairs.PairKeyUnquoted`, shows that a key
  that is itself a literal loses its quotes as well: the DSL words `10 20`
  become `10: 20`, which is not JSON, so such input falls through to the
  lenient parser.
* `smart_parse_json` tries three stages in order:
  1. the standard parser on the text;
  2. the standard parser on the DSL rewrite of the text;
  3. the lenient parser on the original text.

  The parsers are function parameters. The lemmas prove:
  * the stage order and that each stage short-circuits the later ones;
  * which text each parser sees;
  * that the reply carries no value exactly when every stage fails (a parsed `null` counts as a value);
  * which exceptions escape.

Characters are Dafny `char`s, and strings are `seq<char>`. The regular-expression classes
`\w`, `\d` and `\s`, and `str.strip()`, are modelled on ASCII. Whitespace is the ASCII
set for which `str.isspace()` holds: tab to carriage return, U+001C to
U+001F, and the space.

## Model

| member | source | states |
|---|---|---|
| KeyOrder.LessIrreflexive | json_compare.py:42 | no key sorts before itself |
| KeyOrder.LessAsymmetric | json_compare.py:42 | two keys never sort before each other |
| KeyOrder.LessTransitive | json_compare.py:42 | the key order is transitive |
| KeyOrder.LessTotal | json_compare.py:42 | any two different keys are ordered one way or the other, so `sorted` has one answer |
| KeyOrder.SortKeys | json_compare.py:42 | `sorted(obj)` returns a permutation of the keys in ascending order, strictly ascending when no key repeats |
| KeyOrder.SortedUnique | json_compare.py:42 | two ascending permutations of the same keys are equal, so the sorted key list does not depend on the dict's insertion order |
| JsonTree.IndexOf | json_compare.py:42 | `obj[k]` finds the first member carrying key `k` |
| JsonTree.IndexOfDistinct | json_compare.py:42 | with distinct keys, looking up the key of the `i`-th member finds that member |
| Normalize.SortJson | json_compare.py:40-46 | a dict comes back a dict with as many members, a list a list with as many elements, and any other value exactly as it was |
| Normalize.SortObject | json_compare.py:41-42 | a dict keeps its key set, its keys come out strictly ascending, and each key carries its own value normalised |
| Normalize.SortListOrScalar | json_compare.py:43-46 | a list keeps its length and each element's position, with each element normalised; any other value is returned unchanged |
| Normalize.SortJsonCanonical | json_compare.py:40-46 | the result has strictly ascending keys in every dict at every depth |
| Normalize.CanonicalFixed | json_compare.py:40-46 | a tree already in canonical form is returned unchanged |
| Normalize.SortJsonIdempotent | json_compare.py:40-46 | normalising twice gives the same tree as normalising once |
| Normalize.SortJsonReorders | json_compare.py:40-46 | the result differs from the input only in the order of dict members |
| Normalize.ReorderedNormalizeEqual | json_compare.py:40-46 | two trees equal up to the order of dict members normalise to the same tree |
| Normalize.SameKeysNormalizeEqual | json_compare.py:41-42 | two dicts with the same keys and matching normalised values normalise to the same dict |
| Normalize.PermutedObjectsNormalizeEqual | json_compare.py:41-42 | two dicts whose members are permutations of each other normalise to the same dict |
| Text.SpanFacts | json_compare.py:11-15 | the greedy repetition `c+`/`c*` takes a run of matching characters and stops only at a character that does not match, or at the end |
| Text.SpanIs | json_compare.py:11-15 | any run of matching characters that stops at a non-matching character or at the end is exactly what the greedy repetition takes |
| DslRewrite.MatchAt | json_compare.py:11-15 | a match, when there is one, spans at least one character and lies inside the text |
| DslRewrite.MatchKeyBeforeBrace | json_compare.py:11 | a match of `(\w+)\s+({)` spans at least three characters and ends on the brace, which the replacement keeps as its last character |
| DslRewrite.MatchKeyValue | json_compare.py:12 | a match of `(\w+)\s+(\w+)` spans at least three characters and never ends inside a word, because the second word is greedy |
| DslRewrite.LiteralSpan | json_compare.py:13 | the alternation `true\|false\|null\|\d+[a-zA-Z]*` takes no more than the text holds, and only digits and ASCII letters |
| DslRewrite.MatchQuotedLiteral | json_compare.py:13 | a match starts and ends with a double quote, and its replacement is exactly what lies between the two quotes |
| DslRewrite.MatchCommaBefore | json_compare.py:14-15 | a match is a comma, whitespace only, then the closer, and the closer alone replaces it |
| DslRewrite.StripEnd | json_compare.py:16 | dropping trailing whitespace leaves a prefix that does not end in whitespace, and only whitespace is dropped |
| DslRewrite.Strip | json_compare.py:16 | `strip()` returns a slice of the text that neither starts nor ends with whitespace, and only whitespace is cut away on either side |
| DslRewrite.ConvertDslToJson | json_compare.py:9-17 | the result is at least `{}`, starts with `{`, ends with `}`, and has no whitespace just inside the braces |
| DslMatches.KeyBeforeBraceMatchesShape | json_compare.py:11 | the scanner matches exactly a word, whitespace and `{`, and replaces them with the quoted word, a colon and the brace |
| DslMatches.KeyValueMatchesShape | json_compare.py:12 | every word-whitespace-word occurrence at the start is what the scanner reports, with the greedy second word, and everything it reports is such an occurrence |
| DslMatches.KeyValueShapeIsMatch | json_compare.py:12 | a word-whitespace-word occurrence is replaced by the quoted key and the quoted value |
| DslMatches.QuotedLiteralMatchesShape | json_compare.py:13 | the scanner matches exactly `"`, one of `true`/`false`/`null`/digits-then-letters, then `"`, and keeps what lies between the quotes |
| DslMatches.LiteralSpanOfLiteral | json_compare.py:13 | a literal standing before a quote is what the alternation takes |
| DslMatches.LiteralSpanIsLiteral | json_compare.py:13 | whatever the alternation takes before a quote is a literal |
| DslMatches.CommaBeforeMatchesShape | json_compare.py:14-15 | the scanner matches exactly a comma, optional whitespace and the closer, and keeps only the closer |
| DslLaws.SubKeeps | json_compare.py:11-15 | `re.sub` keeps the text outside a character class whenever every single replacement does |
| DslLaws.SubUnmatched | json_compare.py:11-15 | where the pattern matches at no position, `re.sub` returns the text unchanged |
| DslLaws.SubstituteUnmatched | json_compare.py:11-15 | text on which none of the five patterns matches anywhere comes through the five substitutions unchanged |
| DslLaws.SubShrinks | json_compare.py:11-15 | `re.sub` yields a subsequence of its input whenever every replacement is a subsequence of its match |
| DslLaws.KeyBeforeBraceKeepsText | json_compare.py:11 | the first pass only adds or drops quotes, colons and whitespace |
| DslLaws.KeyValueKeepsText | json_compare.py:12 | the second pass only adds or drops quotes, colons and whitespace |
| DslLaws.QuotedLiteralOnlyDropsQuotes | json_compare.py:13 | the third pass deletes only double quotes, an even number of them, and keeps every other character in order |
| DslLaws.CommaBeforeOnlyDropsCommas | json_compare.py:14-15 | the comma passes delete only commas and whitespace, and keep every other character in order |
| DslLaws.StripKeepsText | json_compare.py:16 | trimming drops only whitespace |
| DslLaws.SubstituteKeepsText | json_compare.py:11-15 | the five passes together keep every character other than quotes, colons, commas and whitespace, in order |
| DslLaws.ConvertKeepsText | json_compare.py:9-17 | the whole rewrite is the input's other characters, in order, inside one added pair of braces |
| DslLaws.QuoteFreeCopied | json_compare.py:13 | the third pass copies a stretch of text that holds no double quote unchanged and then goes on with what follows it |
| DslLaws.CommaFreeCopied | json_compare.py:14-15 | a comma pass copies a stretch of text that holds no comma unchanged and then goes on with what follows it |
| DslPairs.LiteralShape | json_compare.py:13 | a literal is non-empty, holds no quote and does not start with a colon |
| DslPairs.QuotedWordNoMatch | json_compare.py:13 | no match of the third pass starts at the quote that opens a word which is not a literal |
| DslPairs.QuotedWordCopied | json_compare.py:13 | a quoted word that is not a literal is copied up to its closing quote |
| DslPairs.QuotedLiteralUnquoted | json_compare.py:13 | a quoted literal is replaced by the literal alone |
| DslPairs.ColonCopied | json_compare.py:13 | the quote, colon and space after a key are copied |
| DslPairs.PairValueUnquoted | json_compare.py:12-13 | a pair from the second pass with a literal value and a non-literal key keeps the key quoted and loses the quotes around the value |
| DslPairs.PairKeptQuoted | json_compare.py:12-13 | a pair of which neither word is a literal comes through the third pass unchanged, and the pass goes on with whatever follows the pair |
| DslPairs.PairKeyUnquoted | json_compare.py:12-13 | a pair whose key and value are both literals loses all four quotes |
| DslExamples.KeyBeforeBraceExample | json_compare.py:11 | `USDCNY {` becomes `"USDCNY": {` |
| DslExamples.KeyValueExample | json_compare.py:12 | `enabled true` becomes `"enabled": "true"` |
| DslExamples.EnabledTrueUnquoted | json_compare.py:13 | `"enabled": "true"` becomes `"enabled": true` |
| DslExamples.DecimalSplit | json_compare.py:12 | `rate 7.2` becomes `"rate": "7".2`, because `\w` stops at the point |
| DslExamples.DecimalRejoined | json_compare.py:13 | `"rate": "7".2` becomes `"rate": 7.2` |
| DslExamples.NoRescanExample | json_compare.py:12 | `a b c` becomes `"a": "b" c`: replaced text is not rescanned |
| DslExamples.SinglePassExample | json_compare.py:14 | `,,}` becomes `,}`: one pass removes one comma |
| SmartParse.SmartParse | json_compare.py:21-36 | text the standard parser accepts is returned with the standard status; an exception other than a decode error at the first stage escapes; a rejected text never gets the standard status; the reply carries no value exactly when its status is a failure, a parsed `null` counting as a value |
| SmartParse.ValueFromFirstAcceptingStage | json_compare.py:24-33 | the rewrite status is given exactly when the text is rejected and its rewrite parses, with the rewrite's value; the lenient status is given exactly when both standard attempts are rejected and the lenient parser accepts the text, with its value |
| SmartParse.NoValueExactlyWhenAllFail | json_compare.py:21-36 | the reply carries no value (a parsed `null` counts as a value) exactly when the text is rejected and then either the rewrite raises another exception or the rewrite is rejected and the lenient parser fails |
| SmartParse.StandardShortCircuits | json_compare.py:22 | for text the standard parser accepts, the lenient parser plays no part |
| SmartParse.ConvertedShortCircuits | json_compare.py:28-29 | when the rewrite parses, the lenient parser plays no part |
| SmartParse.LenientSeesOriginalText | json_compare.py:32 | the lenient parser is applied to the original text, not to the rewrite |
| SmartParse.StandardSeesTextAndRewrite | json_compare.py:22-28 | the standard parser is consulted on the text and on its rewrite only |
| SmartParse.MessagesDistinguishStatuses | json_compare.py:22-36 | the four status messages differ from each other, so each tells which stage answered; a failure message is the fixed prefix followed by the error text |

## Left out

- The Streamlit page (json_compare.py:49-88): layout, text areas, the button and the displayed messages are user interface.
- `DeepDiff` (json_compare.py:83) is a third-party library. The model proves what the comparison relies on: normalisation forgets member order. It does not model the diff itself or `ignore_order=True` for lists.
- `json.dumps` of the diff (json_compare.py:86) is output formatting.
- `json.loads` and `demjson3.decode` are parameters of `SmartParse.SmartParse`. Their grammars are not modelled. A call either returns a value, raises its decode error, or raises another exception.
- Exception objects are reduced to the text of their message. The model does not distinguish `DemjsonDecodeError` from other exceptions, because the source catches both alike.
- Numbers are Dafny `real`s. Python's separate `int` and `float` types and floating-point rounding are not modelled, because normalisation never inspects a scalar.
- The regular-expression classes `\w`, `\d` and `\s`, and `str.strip()`, are modelled on ASCII only. Python's Unicode versions also accept letters, digits and spaces outside ASCII.
- Normalize.SortJsonCanonical, Normalize.SortJsonIdempotent and Normalize.SortJsonReorders require `WellFormed` input: no dict holds a key twice. Every Python dict satisfies this. The sequence-of-members representation could violate it, and the premise excludes that.
- Normalize.SortJson: dict keys are `str` only. Both parsers are assumed to return `str` keys. `json.loads` always does. The lenient `demjson3.decode` may accept non-string keys, which `sorted` would order by their own type or reject with a `TypeError` when types are mixed.
- SmartParse.SmartParse: the model tells a parsed JSON `null` (`Some(Null)`) apart from a missing value (`None`). The source's return value does not: `json.loads("null")` returns Python `None`, so the caller's `is None` test (json_compare.py:70) reports a failure for that valid input.
- DslExamples: the full rewrite of a multi-line DSL document is not proved as one example. Its passes are covered by the general laws and by the per-pass examples.
