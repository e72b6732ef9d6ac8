/**
 * The order Python's `sorted` puts `str` keys in: lexicographic by code
 * point, a proper prefix first.
 */
module KeyOrder {

  predicate Less(a: string, b: string)
    decreases |a|
  {
    if |a| == 0 then |b| > 0
    else |b| > 0 && (a[0] < b[0] || (a[0] == b[0] && Less(a[1..], b[1..])))
  }

  predicate LessEq(a: string, b: string)
  {
    a == b || Less(a, b)
  }

  lemma {:induction false} LessIrreflexive(a: string)
    ensures !Less(a, a)
    decreases |a|
  {
    if |a| > 0 {
      LessIrreflexive(a[1..]);
    }
  }

  lemma {:induction false} LessAsymmetric(a: string, b: string)
    ensures !(Less(a, b) && Less(b, a))
    decreases |a|
  {
    if |a| > 0 && |b| > 0 && a[0] == b[0] {
      LessAsymmetric(a[1..], b[1..]);
    }
  }

  lemma {:induction false} LessTransitive(a: string, b: string, c: string)
    requires Less(a, b) && Less(b, c)
    ensures Less(a, c)
    decreases |a|
  {
    if |a| > 0 && a[0] == b[0] && b[0] == c[0] {
      LessTransitive(a[1..], b[1..], c[1..]);
    }
  }

  /** Any two different strings are ordered one way or the other. */
  lemma {:induction false} LessTotal(a: string, b: string)
    ensures a == b || Less(a, b) || Less(b, a)
    decreases |a|
  {
    if |a| > 0 && |b| > 0 && a[0] == b[0] {
      LessTotal(a[1..], b[1..]);
      if a[1..] == b[1..] {
        assert a == [a[0]] + a[1..] && b == [b[0]] + b[1..];
      }
    }
  }

  lemma {:induction false} LessEqTransitive(a: string, b: string, c: string)
    requires LessEq(a, b) && LessEq(b, c)
    ensures LessEq(a, c)
  {
    if a != b && b != c {
      LessTransitive(a, b, c);
    }
  }

  /** No key occurs twice. */
  predicate Distinct(ks: seq<string>)
  {
    forall i, j :: 0 <= i < j < |ks| ==> ks[i] != ks[j]
  }

  /** Keys in ascending order, ties allowed: what `sorted` returns. */
  predicate Sorted(ks: seq<string>)
  {
    forall i, j :: 0 <= i < j < |ks| ==> LessEq(ks[i], ks[j])
  }

  predicate StrictlyAscending(ks: seq<string>)
  {
    forall i, j :: 0 <= i < j < |ks| ==> Less(ks[i], ks[j])
  }

  /** Inserts `k` before the first key not below it. */
  function Insert(k: string, ks: seq<string>): (r: seq<string>)
    ensures multiset(r) == multiset(ks) + multiset{k}
  {
    if ks == [] || LessEq(k, ks[0]) then [k] + ks
    else
      assert ks == [ks[0]] + ks[1..];
      [ks[0]] + Insert(k, ks[1..])
  }

  lemma {:induction false} InsertSorted(k: string, ks: seq<string>)
    requires Sorted(ks)
    ensures Sorted(Insert(k, ks))
  {
    if ks == [] {
    } else if LessEq(k, ks[0]) {
      forall j | 0 < j < |ks| ensures LessEq(k, ks[j]) {
        LessEqTransitive(k, ks[0], ks[j]);
      }
    } else {
      var rest := Insert(k, ks[1..]);
      InsertSorted(k, ks[1..]);
      LessTotal(k, ks[0]);
      forall x | x in rest ensures LessEq(ks[0], x) {
        assert x in multiset(rest);
      }
    }
  }

  /** In a list with no repeats every key occurs at most once. */
  lemma {:induction false} DistinctCount(ks: seq<string>, x: string)
    requires Distinct(ks)
    ensures multiset(ks)[x] <= 1
    ensures x !in ks ==> multiset(ks)[x] == 0
  {
    if ks != [] {
      DistinctCount(ks[1..], x);
      assert ks == [ks[0]] + ks[1..];
      assert ks[0] !in ks[1..];
    }
  }

  /** A permutation of a list with no repeats has no repeats. */
  lemma {:induction false} DistinctPermutation(xs: seq<string>, ys: seq<string>)
    requires Distinct(xs) && multiset(xs) == multiset(ys)
    ensures Distinct(ys)
  {
    forall i, j | 0 <= i < j < |ys| ensures ys[i] != ys[j] {
      if ys[i] == ys[j] {
        assert ys == ys[..i] + [ys[i]] + ys[i+1..j] + [ys[j]] + ys[j+1..];
        assert multiset(ys)[ys[i]] >= 2;
        DistinctCount(xs, ys[i]);
      }
    }
  }

  /**
   * Python's `sorted` on a list of `str`, as an insertion sort: an ascending
   * permutation of its input, strictly ascending when no key repeats.
   */
  function SortKeys(ks: seq<string>): (r: seq<string>)
    ensures multiset(r) == multiset(ks)
    ensures Sorted(r)
    ensures Distinct(ks) ==> StrictlyAscending(r)
  {
    if ks == [] then []
    else
      var rest := SortKeys(ks[1..]);
      InsertStep(ks, rest);
      Insert(ks[0], rest)
  }

  /** Inserting the first key into the sorted rest sorts the whole list. */
  lemma {:induction false} InsertStep(ks: seq<string>, rest: seq<string>)
    requires ks != [] && multiset(rest) == multiset(ks[1..]) && Sorted(rest)
    ensures multiset(Insert(ks[0], rest)) == multiset(ks)
    ensures Sorted(Insert(ks[0], rest))
    ensures Distinct(ks) ==> StrictlyAscending(Insert(ks[0], rest))
  {
    HeadTail(ks);
    InsertSorted(ks[0], rest);
    if Distinct(ks) {
      DistinctPermutation(ks, Insert(ks[0], rest));
    }
  }

  lemma {:induction false} HeadTail(ks: seq<string>)
    requires ks != []
    ensures ks == [ks[0]] + ks[1..]
  {
  }

  /** Two lists without repeats holding the same keys are permutations of each other. */
  lemma {:induction false} DistinctSameElements(xs: seq<string>, ys: seq<string>)
    requires Distinct(xs) && Distinct(ys)
    requires forall x :: x in xs <==> x in ys
    ensures multiset(xs) == multiset(ys)
  {
    forall x ensures multiset(xs)[x] == multiset(ys)[x] {
      DistinctCount(xs, x);
      DistinctCount(ys, x);
    }
  }

  /** The first key of an ascending list is at most every key in it. */
  lemma {:induction false} SortedHeadLeast(xs: seq<string>, x: string)
    requires Sorted(xs) && x in xs
    ensures LessEq(xs[0], x)
  {
    var k :| 0 <= k < |xs| && xs[k] == x;
    if k > 0 {
      assert LessEq(xs[0], xs[k]);
    }
  }

  /** `sorted` has one answer: two ascending permutations of each other are equal. */
  lemma {:induction false} SortedUnique(xs: seq<string>, ys: seq<string>)
    requires Sorted(xs) && Sorted(ys) && multiset(xs) == multiset(ys)
    ensures xs == ys
    decreases |xs|
  {
    if xs == [] {
      assert |ys| == |multiset(ys)| == 0;
    } else {
      assert |ys| == |multiset(ys)| > 0;
      SortedHeadsEqual(xs, ys);
      TailMultiset(xs);
      TailMultiset(ys);
      SortedTail(xs);
      SortedTail(ys);
      SortedUnique(xs[1..], ys[1..]);
      assert xs == [xs[0]] + xs[1..] && ys == [ys[0]] + ys[1..];
    }
  }

  /** Two ascending permutations of each other start with the same key. */
  lemma {:induction false} SortedHeadsEqual(xs: seq<string>, ys: seq<string>)
    requires Sorted(xs) && Sorted(ys) && multiset(xs) == multiset(ys) && xs != [] && ys != []
    ensures xs[0] == ys[0]
  {
    assert xs[0] in multiset(ys);
    assert ys[0] in multiset(xs);
    SortedHeadLeast(ys, xs[0]);
    SortedHeadLeast(xs, ys[0]);
    LessAsymmetric(xs[0], ys[0]);
  }

  lemma {:induction false} TailMultiset(xs: seq<string>)
    requires xs != []
    ensures multiset(xs[1..]) == multiset(xs) - multiset{xs[0]}
  {
    assert xs == [xs[0]] + xs[1..];
  }

  lemma {:induction false} SortedTail(xs: seq<string>)
    requires Sorted(xs) && xs != []
    ensures Sorted(xs[1..])
  {
    forall i, j | 0 <= i < j < |xs| - 1 ensures LessEq(xs[1..][i], xs[1..][j]) {
      assert xs[1..][i] == xs[i + 1] && xs[1..][j] == xs[j + 1];
    }
  }
}
