/**
 * Python's `defaultdict(list)` and `defaultdict(int)` filled from a list of
 * matches: `groups[key(m)].append(m)` and `counts[key(m)] += 1`. A dict
 * iterates its keys in order of first insertion, which is `KeyOrder`.
 */
module Grouping {
  import opened Matching

  /** The distinct keys of `ms`, in order of first appearance. */
  function KeyOrder<K(==)>(ms: seq<Match>, key: Match -> K): seq<K> {
    if ms == [] then []
    else
      var ks := KeyOrder(ms[..|ms| - 1], key);
      if key(ms[|ms| - 1]) in ks then ks else ks + [key(ms[|ms| - 1])]
  }

  /** The matches with key `k`, in their order in `ms`. */
  function Select<K(==)>(ms: seq<Match>, key: Match -> K, k: K): seq<Match> {
    if ms == [] then []
    else Select(ms[..|ms| - 1], key, k) + (if key(ms[|ms| - 1]) == k then [ms[|ms| - 1]] else [])
  }

  predicate Distinct<K(==)>(ks: seq<K>) {
    forall i, j :: 0 <= i < j < |ks| ==> ks[i] != ks[j]
  }

  /** `KeyOrder` lists every key that occurs, and only those, each once. */
  lemma {:induction false} KeyOrderMem<K>(ms: seq<Match>, key: Match -> K)
    ensures forall k :: k in KeyOrder(ms, key) <==> exists m :: m in ms && key(m) == k
    ensures Distinct(KeyOrder(ms, key))
  {
    if ms != [] {
      var init := ms[..|ms| - 1];
      KeyOrderMem(init, key);
      assert forall m :: m in ms <==> m in init || m == ms[|ms| - 1];
    }
  }

  /** `Select` keeps exactly the matches of `ms` with key `k`. */
  lemma {:induction false} SelectMem<K>(ms: seq<Match>, key: Match -> K, k: K)
    ensures forall m :: m in Select(ms, key, k) <==> m in ms && key(m) == k
    ensures |Select(ms, key, k)| <= |ms|
  {
    if ms != [] {
      var init := ms[..|ms| - 1];
      SelectMem(init, key, k);
      assert forall m :: m in ms <==> m in init || m == ms[|ms| - 1];
    }
  }

  /** A group is non-empty exactly when its key is one of the dict's keys. */
  lemma SelectNonEmpty<K>(ms: seq<Match>, key: Match -> K, k: K)
    ensures Select(ms, key, k) != [] <==> k in KeyOrder(ms, key)
  {
    KeyOrderMem(ms, key);
    SelectMem(ms, key, k);
    if Select(ms, key, k) != [] {
      assert Select(ms, key, k)[0] in Select(ms, key, k);
    }
  }

  lemma {:induction false} SelectAppend<K>(a: seq<Match>, b: seq<Match>, key: Match -> K, k: K)
    ensures Select(a + b, key, k) == Select(a, key, k) + Select(b, key, k)
    decreases |b|
  {
    if b == [] {
      assert a + b == a;
    } else {
      var init := b[..|b| - 1];
      SelectAppend(a, init, key, k);
      assert (a + b)[..|a + b| - 1] == a + init;
    }
  }

  /** `groups = defaultdict(list); for m in ms: groups[key(m)].append(m)`. */
  method GroupBy<K(==)>(ms: seq<Match>, key: Match -> K) returns (keys: seq<K>, groups: map<K, seq<Match>>)
    ensures keys == KeyOrder(ms, key)
    ensures forall k :: k in groups <==> k in keys
    ensures forall k :: k in groups ==> groups[k] == Select(ms, key, k)
  {
    keys, groups := [], map[];
    for i := 0 to |ms|
      invariant keys == KeyOrder(ms[..i], key)
      invariant forall k :: k in groups <==> k in keys
      invariant forall k :: k in groups ==> groups[k] == Select(ms[..i], key, k)
    {
      var m := ms[i];
      assert ms[..i + 1][..i] == ms[..i];
      if key(m) !in groups {
        groups := groups[key(m) := []];
        keys := keys + [key(m)];
        SelectNonEmpty(ms[..i], key, key(m));
      }
      groups := groups[key(m) := groups[key(m)] + [m]];
    }
    assert ms[..|ms|] == ms;
  }

  /** `counts = defaultdict(int); for m in ms: counts[key(m)] += 1`. */
  method CountBy<K(==)>(ms: seq<Match>, key: Match -> K) returns (keys: seq<K>, counts: map<K, nat>)
    ensures keys == KeyOrder(ms, key)
    ensures forall k :: k in counts <==> k in keys
    ensures forall k :: k in counts ==> counts[k] == |Select(ms, key, k)|
  {
    keys, counts := [], map[];
    for i := 0 to |ms|
      invariant keys == KeyOrder(ms[..i], key)
      invariant forall k :: k in counts <==> k in keys
      invariant forall k :: k in counts ==> counts[k] == |Select(ms[..i], key, k)|
    {
      var m := ms[i];
      assert ms[..i + 1][..i] == ms[..i];
      if key(m) !in counts {
        counts := counts[key(m) := 0];
        keys := keys + [key(m)];
        SelectNonEmpty(ms[..i], key, key(m));
      }
      counts := counts[key(m) := counts[key(m)] + 1];
    }
    assert ms[..|ms|] == ms;
  }
}
