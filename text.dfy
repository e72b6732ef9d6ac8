/**
 * Character classes and sequence facts shared by the DSL rewriter: the ASCII
 * parts of Python's `\w`, `\d` and `\s`, longest runs, erasure and
 * subsequences.
 */
module Text {

  /** `\w` on ASCII: a letter, a digit or an underscore. */
  predicate IsWordChar(c: char)
  {
    ('a' <= c <= 'z') || ('A' <= c <= 'Z') || ('0' <= c <= '9') || c == '_'
  }

  /** `\d` on ASCII. */
  predicate IsDigit(c: char)
  {
    '0' <= c <= '9'
  }

  /** The class `[a-zA-Z]`. */
  predicate IsAsciiLetter(c: char)
  {
    ('a' <= c <= 'z') || ('A' <= c <= 'Z')
  }

  /**
   * `\s` and `str.strip()` on ASCII: the characters for which Python's
   * `str.isspace()` holds, tab to carriage return, the four separators
   * U+001C to U+001F, and the space.
   */
  predicate IsSpace(c: char)
  {
    c == ' ' || ('\t' <= c <= '\r') || ('\U{1C}' <= c <= '\U{1F}')
  }

  predicate All(p: char -> bool, s: string)
  {
    forall i :: 0 <= i < |s| ==> p(s[i])
  }

  /** The length of the longest prefix of `s` whose characters all satisfy `p`. */
  function Span(p: char -> bool, s: string): (n: nat)
    ensures n <= |s|
  {
    if s == [] || !p(s[0]) then 0 else 1 + Span(p, s[1..])
  }

  /** `Span` is the longest run: its characters satisfy `p` and the next one does not. */
  lemma {:induction false} SpanFacts(p: char -> bool, s: string)
    ensures All(p, s[..Span(p, s)])
    ensures Span(p, s) < |s| ==> !p(s[Span(p, s)])
  {
    if s != [] && p(s[0]) {
      SpanFacts(p, s[1..]);
      var n := Span(p, s);
      assert forall i :: 1 <= i < n ==> s[i] == s[1..][i - 1];
    }
  }

  /** `SpanFacts` for the run starting at position `i`, stated on slices of `s`. */
  lemma {:induction false} RunFacts(p: char -> bool, s: string, i: nat, n: nat)
    requires i <= |s| && n == Span(p, s[i..])
    ensures i + n <= |s| && All(p, s[i..i + n]) && (i + n < |s| ==> !p(s[i + n]))
  {
    SpanFacts(p, s[i..]);
    SuffixPrefix(s, i, n);
    assert i + n < |s| ==> s[i..][n] == s[i + n];
  }

  /** A run of `p`-characters followed by a run of `q`-characters. */
  lemma {:induction false} TwoRuns(p: char -> bool, q: char -> bool, s: string, d: nat, e: nat)
    requires d == Span(p, s) && e == Span(q, s[d..])
    ensures d + e <= |s|
    ensures forall i :: 0 <= i < d ==> p(s[i])
    ensures forall i :: d <= i < d + e ==> q(s[i])
  {
    SpanFacts(p, s);
    RunFacts(q, s, d, e);
    assert forall i :: 0 <= i < d ==> s[..d][i] == s[i];
    assert forall i :: d <= i < d + e ==> s[d..d + e][i - d] == s[i];
  }

  /** Three consecutive runs: `p`-characters, `q`-characters, `p`-characters again. */
  lemma {:induction false} ThreeRuns(p: char -> bool, q: char -> bool, s: string, w: nat, sp: nat, v: nat)
    requires w == Span(p, s) && sp == Span(q, s[w..]) && v == Span(p, s[w + sp..])
    ensures w + sp + v <= |s|
    ensures All(p, s[..w]) && All(q, s[w..w + sp]) && All(p, s[w + sp..w + sp + v])
    ensures w + sp + v < |s| ==> !p(s[w + sp + v])
  {
    SpanFacts(p, s);
    RunFacts(q, s, w, sp);
    RunFacts(p, s, w + sp, v);
  }

  /** A prefix of `p`-characters that stops before a non-`p` character is the longest one. */
  lemma {:induction false} SpanIs(p: char -> bool, s: string, n: nat)
    requires n <= |s| && All(p, s[..n]) && (n < |s| ==> !p(s[n]))
    ensures Span(p, s) == n
  {
    if n > 0 {
      assert s[0] == s[..n][0];
      assert s[1..][..n - 1] == s[..n][1..];
      SpanIs(p, s[1..], n - 1);
    }
  }

  lemma {:induction false} SliceOfSuffix(s: string, i: nat, j: nat)
    requires i <= j <= |s|
    ensures s[i..][..j - i] == s[i..j]
  {
  }

  lemma {:induction false} SuffixPrefix(s: string, i: nat, n: nat)
    requires i + n <= |s|
    ensures s[i..][..n] == s[i..i + n]
  {
  }

  /** `p` holds from position `i` on. */
  lemma {:induction false} AllFrom(p: char -> bool, s: string, i: nat)
    requires i <= |s| && forall k | i <= k < |s| :: p(s[k])
    ensures All(p, s[i..])
  {
    assert forall k | 0 <= k < |s| - i :: s[i..][k] == s[i + k];
  }

  lemma {:induction false} PrefixOfPrefix(s: string, i: nat, j: nat)
    requires i <= j <= |s|
    ensures s[..j][..i] == s[..i]
  {
  }

  lemma {:induction false} SliceOfPrefix(s: string, i: nat, j: nat)
    requires i <= j <= |s|
    ensures s[..j][i..] == s[i..j]
  {
  }

  lemma {:induction false} SplitAt(s: string, n: nat)
    requires n <= |s|
    ensures s[..n] + s[n..] == s
  {
  }

  /** The first character and the rest of a concatenation that starts with `w`. */
  lemma {:induction false} TailOfConcat(w: string, rest: string)
    requires w != []
    ensures (w + rest)[0] == w[0] && (w + rest)[1..] == w[1..] + rest
    ensures w == [w[0]] + w[1..]
  {
  }

  lemma {:induction false} WholeSuffix(s: string)
    ensures s[0..] == s
  {
  }

  lemma {:induction false} SuffixOfSuffix(s: string, i: nat, k: nat)
    requires i + k <= |s|
    ensures s[i..][k..] == s[i + k..]
  {
  }

  lemma {:induction false} Assoc(a: string, b: string, c: string)
    ensures a + b + c == a + (b + c)
  {
  }

  /** `a == x + b` and `b == y + c` give `a == x + y + c`. */
  lemma {:induction false} Chain(a: string, x: string, b: string, y: string, c: string)
    requires a == x + b && b == y + c
    ensures a == x + y + c
  {
  }

  /** `s` with every character satisfying `gone` removed. */
  function Erase(s: string, gone: char -> bool): (r: string)
    ensures |r| <= |s|
  {
    if s == [] then []
    else if gone(s[0]) then Erase(s[1..], gone)
    else [s[0]] + Erase(s[1..], gone)
  }

  lemma {:induction false} EraseAppend(a: string, b: string, gone: char -> bool)
    ensures Erase(a + b, gone) == Erase(a, gone) + Erase(b, gone)
  {
    if a == [] {
      assert a + b == b;
    } else {
      assert (a + b)[1..] == a[1..] + b;
      EraseAppend(a[1..], b, gone);
    }
  }

  lemma {:induction false} EraseAllGone(s: string, gone: char -> bool)
    requires All(gone, s)
    ensures Erase(s, gone) == []
  {
    if s != [] {
      EraseAllGone(s[1..], gone);
    }
  }

  lemma {:induction false} EraseNoneGone(s: string, gone: char -> bool)
    requires forall i :: 0 <= i < |s| ==> !gone(s[i])
    ensures Erase(s, gone) == s
  {
    if s != [] {
      EraseNoneGone(s[1..], gone);
      assert s == [s[0]] + s[1..];
    }
  }

  /** Erasing a class and then a wider class is erasing the wider class. */
  lemma {:induction false} EraseWider(s: string, narrow: char -> bool, wide: char -> bool)
    requires forall c :: narrow(c) ==> wide(c)
    ensures Erase(Erase(s, narrow), wide) == Erase(s, wide)
  {
    if s != [] {
      EraseWider(s[1..], narrow, wide);
    }
  }

  /** `r` is `s` with some characters left out, the rest kept in order. */
  predicate IsSubsequence(r: string, s: string)
    decreases |s|
  {
    if r == [] then true
    else if s == [] then false
    else (r[0] == s[0] && IsSubsequence(r[1..], s[1..])) || IsSubsequence(r, s[1..])
  }

  lemma {:induction false} SubsequenceRefl(s: string)
    ensures IsSubsequence(s, s)
  {
    if s != [] {
      SubsequenceRefl(s[1..]);
    }
  }

  lemma {:induction false} SubsequenceAppend(a: string, b: string, c: string, d: string)
    requires IsSubsequence(a, b) && IsSubsequence(c, d)
    ensures IsSubsequence(a + c, b + d)
    decreases |b|
  {
    if a == [] {
      SubsequenceWiden(c, d, b);
      assert a + c == c;
    } else if a[0] == b[0] && IsSubsequence(a[1..], b[1..]) {
      SubsequenceAppend(a[1..], b[1..], c, d);
      assert (a + c)[1..] == a[1..] + c && (b + d)[1..] == b[1..] + d;
    } else {
      SubsequenceAppend(a, b[1..], c, d);
      assert (b + d)[1..] == b[1..] + d;
    }
  }

  /** Putting characters in front of the larger string keeps a subsequence one. */
  lemma {:induction false} SubsequenceWiden(r: string, s: string, front: string)
    requires IsSubsequence(r, s)
    ensures IsSubsequence(r, front + s)
    decreases |front|
  {
    if front == [] {
      assert front + s == s;
    } else if r != [] {
      SubsequenceWiden(r, s, front[1..]);
      assert (front + s)[1..] == front[1..] + s;
    }
  }

  /** A slice of `s` is a subsequence of `s`. */
  lemma {:induction false} SubsequenceSlice(s: string, i: nat, j: nat)
    requires i <= j <= |s|
    ensures IsSubsequence(s[i..j], s)
  {
    SubsequenceRefl(s[i..j]);
    assert IsSubsequence([], s[j..]);
    SubsequenceAppend(s[i..j], s[i..j], [], s[j..]);
    assert s[i..j] + [] == s[i..j] && s[i..j] + s[j..] == s[i..];
    SubsequenceWiden(s[i..j], s[i..], s[..i]);
    assert s[..i] + s[i..] == s;
  }

  /** Erasing a class from a string framed by characters of that class leaves the middle. */
  lemma {:induction false} EraseFramed(a: string, k: string, b: string, gone: char -> bool)
    requires All(gone, a) && All(gone, b)
    requires forall i :: 0 <= i < |k| ==> !gone(k[i])
    ensures Erase(a + k + b, gone) == k
  {
    EraseAppend(a + k, b, gone);
    EraseAppend(a, k, gone);
    EraseAllGone(a, gone);
    EraseAllGone(b, gone);
    EraseNoneGone(k, gone);
  }

  lemma {:induction false} AllWider(s: string, narrow: char -> bool, wide: char -> bool)
    requires forall c :: narrow(c) ==> wide(c)
    requires All(narrow, s)
    ensures All(wide, s)
  {
  }
}
