/**
 * The tree a JSON parser returns in json_compare.py: Python dicts, lists,
 * strings, numbers, booleans and None. A dict keeps its insertion order, so an
 * object is a sequence of key/value members, not a map.
 */
module JsonTree {

  import opened KeyOrder

  datatype Json =
    | Null
    | Bool(b: bool)
    | Num(n: real)
    | Str(s: string)
    | Arr(items: seq<Json>)
    | Obj(members: seq<Member>)

  type Member = (string, Json)

  /** The keys of an object, in member order. */
  function Keys(ms: seq<Member>): (ks: seq<string>)
    ensures |ks| == |ms|
    ensures forall i :: 0 <= i < |ms| ==> ks[i] == ms[i].0
  {
    if ms == [] then [] else [ms[0].0] + Keys(ms[1..])
  }

  /** A Python dict never holds one key twice. */
  predicate DistinctKeys(ms: seq<Member>)
  {
    Distinct(Keys(ms))
  }

  /** Every object in the tree has distinct keys, as every Python dict does. */
  predicate WellFormed(v: Json)
    decreases v
  {
    match v
    case Arr(xs) => forall i :: 0 <= i < |xs| ==> WellFormed(xs[i])
    case Obj(ms) => DistinctKeys(ms) && forall i :: 0 <= i < |ms| ==> WellFormed(ms[i].1)
    case _ => true
  }

  /**
   * The index of the first member whose key is `k`: the member that Python's
   * `obj[k]` reads.
   */
  function IndexOf(ms: seq<Member>, k: string): (j: nat)
    requires k in Keys(ms)
    ensures j < |ms| && ms[j].0 == k
    ensures forall i :: 0 <= i < j ==> ms[i].0 != k
  {
    if ms[0].0 == k then 0
    else
      assert Keys(ms) == [ms[0].0] + Keys(ms[1..]);
      1 + IndexOf(ms[1..], k)
  }

  /** With distinct keys, the member carrying key `ms[i].0` is the `i`-th one. */
  lemma {:induction false} IndexOfDistinct(ms: seq<Member>, i: nat)
    requires DistinctKeys(ms) && i < |ms|
    ensures ms[i].0 in Keys(ms) && IndexOf(ms, ms[i].0) == i
  {
    assert Keys(ms)[i] == ms[i].0;
  }
}
