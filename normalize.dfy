/**
 * `sort_json` of json_compare.py: rebuild every dict with its keys in sorted
 * order and every list element by element, leaving scalars alone.
 */
module Normalize {

  import opened KeyOrder
  import opened JsonTree

  /**
   * A dict is rebuilt over its keys in ascending order, each key carrying its
   * own value normalised; a list is rebuilt element by element; any other
   * value is returned as it is.
   */
  function SortJson(v: Json): (r: Json)
    ensures r.Obj? == v.Obj? && r.Arr? == v.Arr?
    ensures v.Obj? ==> |r.members| == |v.members|
    ensures v.Arr? ==> |r.items| == |v.items|
    ensures !v.Obj? && !v.Arr? ==> r == v
    decreases v
  {
    match v
    case Obj(ms) =>
      var ks := SortKeys(Keys(ms));
      assert |ks| == |multiset(ks)| == |multiset(Keys(ms))| == |ms|;
      Obj(seq(|ks|, i requires 0 <= i < |ks| =>
                  assert ks[i] in multiset(Keys(ms));
                  (ks[i], SortJson(ms[IndexOf(ms, ks[i])].1))))
    case Arr(xs) => Arr(seq(|xs|, i requires 0 <= i < |xs| => SortJson(xs[i])))
    case _ => v
  }

  /** Canonical form: every object's keys strictly ascending, at every depth. */
  predicate Canonical(v: Json)
    decreases v
  {
    match v
    case Arr(xs) => forall i :: 0 <= i < |xs| ==> Canonical(xs[i])
    case Obj(ms) => StrictlyAscending(Keys(ms)) && forall i :: 0 <= i < |ms| ==> Canonical(ms[i].1)
    case _ => true
  }

  /**
   * `a` and `b` are the same tree up to the order of members inside objects:
   * objects hold the same distinct keys and the values under equal keys are
   * again the same up to member order; lists match position by position;
   * scalars are equal.
   */
  predicate Reorders(a: Json, b: Json)
    decreases a
  {
    match a
    case Arr(xs) =>
      b.Arr? && |xs| == |b.items| &&
      forall i :: 0 <= i < |xs| ==> Reorders(xs[i], b.items[i])
    case Obj(ms) =>
      b.Obj? && DistinctKeys(ms) && DistinctKeys(b.members) &&
      multiset(Keys(ms)) == multiset(Keys(b.members)) &&
      forall i, j :: 0 <= i < |ms| && 0 <= j < |b.members| && ms[i].0 == b.members[j].0 ==>
        Reorders(ms[i].1, b.members[j].1)
    case _ => a == b
  }

  /**
   * A dict comes back with exactly its key set, keys strictly ascending, and
   * under each key the normalised value the dict held under that key.
   */
  lemma {:induction false} SortObject(ms: seq<Member>)
    requires DistinctKeys(ms)
    ensures SortJson(Obj(ms)).Obj?
    ensures var rs := SortJson(Obj(ms)).members;
      && multiset(Keys(rs)) == multiset(Keys(ms))
      && StrictlyAscending(Keys(rs))
      && forall i, j :: 0 <= i < |rs| && 0 <= j < |ms| && rs[i].0 == ms[j].0 ==>
           rs[i].1 == SortJson(ms[j].1)
  {
    var ks := SortKeys(Keys(ms));
    var rs := SortJson(Obj(ms)).members;
    assert Keys(rs) == ks;
    forall i, j | 0 <= i < |rs| && 0 <= j < |ms| && rs[i].0 == ms[j].0
      ensures rs[i].1 == SortJson(ms[j].1)
    {
      IndexOfDistinct(ms, j);
    }
  }

  /** A list keeps its length and each element's position; a scalar is unchanged. */
  lemma {:induction false} SortListOrScalar(v: Json)
    requires !v.Obj?
    ensures v.Arr? ==>
      && SortJson(v).Arr?
      && |SortJson(v).items| == |v.items|
      && (forall i :: 0 <= i < |v.items| ==> SortJson(v).items[i] == SortJson(v.items[i]))
    ensures !v.Arr? ==> SortJson(v) == v
  {
  }

  /** Normalising a Python value yields canonical form. */
  lemma {:induction false} SortJsonCanonical(v: Json)
    requires WellFormed(v)
    ensures Canonical(SortJson(v))
    decreases v
  {
    match v
    case Obj(ms) =>
      SortObject(ms);
      var rs := SortJson(v).members;
      forall i | 0 <= i < |rs| ensures Canonical(rs[i].1) {
        assert Keys(rs)[i] in multiset(Keys(ms));
        var j := IndexOf(ms, rs[i].0);
        SortJsonCanonical(ms[j].1);
      }
    case Arr(xs) =>
      forall i | 0 <= i < |xs| ensures Canonical(SortJson(v).items[i]) {
        SortJsonCanonical(xs[i]);
      }
    case _ =>
  }

  /** A tree already in canonical form is left exactly as it is. */
  lemma {:induction false} CanonicalFixed(v: Json)
    requires Canonical(v)
    ensures SortJson(v) == v
    decreases v
  {
    match v
    case Obj(ms) =>
      var ks := Keys(ms);
      assert Sorted(ks) && Distinct(ks) by {
        forall i, j | 0 <= i < j < |ks| ensures ks[i] != ks[j] {
          LessIrreflexive(ks[i]);
        }
      }
      SortedUnique(SortKeys(ks), ks);
      var rs := SortJson(v).members;
      assert |rs| == |ms|;
      forall i | 0 <= i < |ms| ensures rs[i] == ms[i] {
        IndexOfDistinct(ms, i);
        CanonicalFixed(ms[i].1);
      }
    case Arr(xs) =>
      forall i | 0 <= i < |xs| ensures SortJson(v).items[i] == xs[i] {
        CanonicalFixed(xs[i]);
      }
    case _ =>
  }

  /** Normalising twice is normalising once. */
  lemma {:induction false} SortJsonIdempotent(v: Json)
    requires WellFormed(v)
    ensures SortJson(SortJson(v)) == SortJson(v)
  {
    SortJsonCanonical(v);
    CanonicalFixed(SortJson(v));
  }

  /** Normalising changes nothing but the order of members inside objects. */
  lemma {:induction false} SortJsonReorders(v: Json)
    requires WellFormed(v)
    ensures Reorders(v, SortJson(v))
    decreases v
  {
    match v
    case Obj(ms) =>
      forall i | 0 <= i < |ms| ensures Reorders(ms[i].1, SortJson(ms[i].1)) {
        SortJsonReorders(ms[i].1);
      }
      SortObjectReorders(ms);
    case Arr(xs) =>
      forall i | 0 <= i < |xs| ensures Reorders(xs[i], SortJson(v).items[i]) {
        SortJsonReorders(xs[i]);
      }
    case _ =>
  }

  /** A dict whose values each reorder into their normal form reorders into its own. */
  lemma {:induction false} SortObjectReorders(ms: seq<Member>)
    requires DistinctKeys(ms)
    requires forall i :: 0 <= i < |ms| ==> Reorders(ms[i].1, SortJson(ms[i].1))
    ensures Reorders(Obj(ms), SortJson(Obj(ms)))
  {
    SortObject(ms);
    var rs := SortJson(Obj(ms)).members;
    AscendingDistinct(Keys(rs));
  }

  lemma {:induction false} AscendingDistinct(ks: seq<string>)
    requires StrictlyAscending(ks)
    ensures Distinct(ks)
  {
    forall i, j | 0 <= i < j < |ks| ensures ks[i] != ks[j] {
      LessIrreflexive(ks[i]);
    }
  }

  /**
   * Two dicts with the same distinct keys whose values normalise alike under
   * each key normalise to the same tree.
   */
  lemma {:induction false} SameKeysNormalizeEqual(ms: seq<Member>, ns: seq<Member>)
    requires DistinctKeys(ms) && DistinctKeys(ns)
    requires multiset(Keys(ms)) == multiset(Keys(ns))
    requires forall i, j {:trigger SortJson(ms[i].1), SortJson(ns[j].1)} ::
      0 <= i < |ms| && 0 <= j < |ns| && ms[i].0 == ns[j].0 ==> SortJson(ms[i].1) == SortJson(ns[j].1)
    ensures SortJson(Obj(ms)) == SortJson(Obj(ns))
  {
    var ks := SortKeys(Keys(ms));
    SortedUnique(ks, SortKeys(Keys(ns)));
    SortedLength(ms);
    SortedLength(ns);
    var rs, ts := SortJson(Obj(ms)).members, SortJson(Obj(ns)).members;
    forall i | 0 <= i < |rs| ensures rs[i] == ts[i] {
      SortedObjectMember(ms, i);
      SortedObjectMember(ns, i);
      var a, b := IndexOf(ms, ks[i]), IndexOf(ns, ks[i]);
      assert SortJson(ms[a].1) == SortJson(ns[b].1);
    }
    SameMembers(rs, ts);
  }

  lemma {:induction false} SortedLength(ms: seq<Member>)
    ensures |SortJson(Obj(ms)).members| == |SortKeys(Keys(ms))| == |ms|
  {
    var ks := SortKeys(Keys(ms));
    assert |ks| == |multiset(ks)| == |multiset(Keys(ms))| == |ms|;
  }

  lemma {:induction false} SameMembers(rs: seq<Member>, ts: seq<Member>)
    requires |rs| == |ts| && forall i :: 0 <= i < |rs| ==> rs[i] == ts[i]
    ensures rs == ts
  {
  }

  lemma {:induction false} SortedObjectMember(ms: seq<Member>, i: nat)
    requires i < |SortKeys(Keys(ms))|
    ensures SortKeys(Keys(ms))[i] in Keys(ms)
    ensures var ks := SortKeys(Keys(ms));
      SortJson(Obj(ms)).members[i] == (ks[i], SortJson(ms[IndexOf(ms, ks[i])].1))
  {
    var ks := SortKeys(Keys(ms));
    assert ks[i] in multiset(Keys(ms));
    var r := SortJson(Obj(ms));
    assert |r.members| == |ks|;
  }

  /**
   * Trees equal up to member order normalise to identical trees: key order in
   * the input never shows in the output.
   */
  lemma {:induction false} ReorderedNormalizeEqual(a: Json, b: Json)
    requires Reorders(a, b)
    ensures SortJson(a) == SortJson(b)
    decreases a
  {
    match a
    case Obj(ms) =>
      var ns := b.members;
      forall i, j | 0 <= i < |ms| && 0 <= j < |ns| && ms[i].0 == ns[j].0
        ensures SortJson(ms[i].1) == SortJson(ns[j].1)
      {
        ReorderedNormalizeEqual(ms[i].1, ns[j].1);
      }
      SameKeysNormalizeEqual(ms, ns);
    case Arr(xs) =>
      forall i | 0 <= i < |xs| ensures SortJson(xs[i]) == SortJson(b.items[i]) {
        ReorderedNormalizeEqual(xs[i], b.items[i]);
      }
    case _ =>
  }

  /** Two dicts whose members are permutations of each other normalise identically. */
  lemma {:induction false} PermutedObjectsNormalizeEqual(ms: seq<Member>, ns: seq<Member>)
    requires DistinctKeys(ms) && DistinctKeys(ns)
    requires multiset(ms) == multiset(ns)
    ensures SortJson(Obj(ms)) == SortJson(Obj(ns))
  {
    forall i, j | 0 <= i < |ms| && 0 <= j < |ns| && ms[i].0 == ns[j].0
      ensures ms[i] == ns[j]
    {
      assert ms[i] in multiset(ns);
      var k :| 0 <= k < |ns| && ns[k] == ms[i];
      assert Keys(ns)[k] == Keys(ns)[j];
    }
    forall k ensures k in Keys(ms) <==> k in Keys(ns) {
      if k in Keys(ms) {
        var i :| 0 <= i < |ms| && Keys(ms)[i] == k;
        assert ms[i] in multiset(ns);
        var j :| 0 <= j < |ns| && ns[j] == ms[i];
        assert Keys(ns)[j] == k;
      }
      if k in Keys(ns) {
        var j :| 0 <= j < |ns| && Keys(ns)[j] == k;
        assert ns[j] in multiset(ms);
        var i :| 0 <= i < |ms| && ms[i] == ns[j];
        assert Keys(ms)[i] == k;
      }
    }
    DistinctSameElements(Keys(ms), Keys(ns));
    SameKeysNormalizeEqual(ms, ns);
  }
}
