/** Dictionaries built from a list, {key(x): x for x in xs}. */
module Indexing {
  import opened Sequences

  /** The last element of a key wins. */
  function Index<K(==), V>(xs: seq<V>, key: V -> K): map<K, V> {
    if xs == [] then map[]
    else Index(xs[..|xs| - 1], key)[key(xs[|xs| - 1]) := xs[|xs| - 1]]
  }

  function Keys<K, V>(xs: seq<V>, key: V -> K): (ks: seq<K>)
    ensures |ks| == |xs| && forall i :: 0 <= i < |xs| ==> ks[i] == key(xs[i])
  {
    seq(|xs|, i requires 0 <= i < |xs| => key(xs[i]))
  }

  ghost predicate KeysDistinct<K, V>(xs: seq<V>, key: V -> K) {
    forall i, j :: 0 <= i < j < |xs| ==> key(xs[i]) != key(xs[j])
  }

  lemma {:induction false} IndexLookup<K, V(!new)>(xs: seq<V>, key: V -> K)
    ensures forall k :: k in Index(xs, key).Keys ==> Index(xs, key)[k] in xs && key(Index(xs, key)[k]) == k
    ensures forall x :: x in xs ==> key(x) in Index(xs, key)
  {
    if xs != [] {
      IndexLookup(xs[..|xs| - 1], key);
      assert xs == xs[..|xs| - 1] + [xs[|xs| - 1]];
    }
  }

  lemma IndexUnique<K, V(!new)>(xs: seq<V>, key: V -> K, x: V)
    requires KeysDistinct(xs, key) && x in xs
    ensures key(x) in Index(xs, key) && Index(xs, key)[key(x)] == x
  {
    IndexLookup(xs, key);
    var i :| 0 <= i < |xs| && xs[i] == x;
    var j :| 0 <= j < |xs| && xs[j] == Index(xs, key)[key(x)];
  }

  lemma IndexKeys<K(!new), V(!new)>(xs: seq<V>, key: V -> K)
    ensures forall k :: k in Keys(xs, key) <==> k in Index(xs, key)
    ensures |Index(xs, key)| == |xs| <==> KeysDistinct(xs, key)
  {
    IndexLookup(xs, key);
    var ks := Keys(xs, key);
    forall k | k in Index(xs, key) ensures k in ks {
      var i :| 0 <= i < |xs| && xs[i] == Index(xs, key)[k];
      assert ks[i] == k;
    }
    forall k | k in ks ensures k in Index(xs, key) {
      var i :| 0 <= i < |ks| && ks[i] == k;
      assert xs[i] in xs;
    }
    DistinctCard(ks);
    assert Index(xs, key).Keys == set k | k in ks;
    assert Distinct(ks) <==> KeysDistinct(xs, key);
  }
}
