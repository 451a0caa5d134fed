/** Python's sorted(): a stable sort by a total preorder. Descending order is the preorder reversed. */
module StableSort {
  import opened Sequences

  ghost predicate TotalPreorder<T(!new)>(le: (T, T) -> bool) {
    && (forall x, y :: le(x, y) || le(y, x))
    && (forall x, y, z :: le(x, y) && le(y, z) ==> le(x, z))
  }

  ghost predicate Sorted<T>(xs: seq<T>, le: (T, T) -> bool) {
    forall i, j :: 0 <= i < j < |xs| ==> le(xs[i], xs[j])
  }

  /** Puts x, which came before all of xs, in front of the first item it does not exceed. */
  function Insert<T>(x: T, xs: seq<T>, le: (T, T) -> bool): seq<T> {
    if xs == [] || le(x, xs[0]) then [x] + xs else [xs[0]] + Insert(x, xs[1..], le)
  }

  function Sort<T>(xs: seq<T>, le: (T, T) -> bool): seq<T> {
    if xs == [] then [] else Insert(xs[0], Sort(xs[1..], le), le)
  }

  lemma {:induction false} InsertMultiset<T>(x: T, xs: seq<T>, le: (T, T) -> bool)
    ensures multiset(Insert(x, xs, le)) == multiset(xs) + multiset{x}
  {
    if xs != [] {
      assert xs == [xs[0]] + xs[1..];
      InsertMultiset(x, xs[1..], le);
    }
  }

  lemma {:induction false} InsertSorted<T(!new)>(x: T, xs: seq<T>, le: (T, T) -> bool)
    requires TotalPreorder(le) && Sorted(xs, le)
    ensures Sorted(Insert(x, xs, le), le)
  {
    if xs != [] && !le(x, xs[0]) {
      InsertSorted(x, xs[1..], le);
      InsertMultiset(x, xs[1..], le);
      var rest := Insert(x, xs[1..], le);
      forall i | 0 <= i < |rest| ensures le(xs[0], rest[i]) {
        assert rest[i] in multiset(xs[1..]) + multiset{x};
      }
    }
  }

  lemma {:induction false} SortSorts<T(!new)>(xs: seq<T>, le: (T, T) -> bool)
    requires TotalPreorder(le)
    ensures Sorted(Sort(xs, le), le) && multiset(Sort(xs, le)) == multiset(xs)
  {
    if xs != [] {
      SortSorts(xs[1..], le);
      InsertSorted(xs[0], Sort(xs[1..], le), le);
      InsertMultiset(xs[0], Sort(xs[1..], le), le);
      assert xs == [xs[0]] + xs[1..];
    }
  }

  lemma HeadLeast<T(!new)>(us: seq<T>, x: T, le: (T, T) -> bool)
    requires TotalPreorder(le) && Sorted(us, le) && us != [] && x in multiset(us)
    ensures le(us[0], x)
  {
    var i :| 0 <= i < |us| && us[i] == x;
  }

  lemma TailMultiset<T>(us: seq<T>)
    requires us != []
    ensures multiset(us[1..]) == multiset(us) - multiset{us[0]}
  {
    assert us == [us[0]] + us[1..];
  }

  /** Under an antisymmetric order a list has one sorted rearrangement. */
  lemma {:induction false} SortedUnique<T(!new)>(us: seq<T>, vs: seq<T>, le: (T, T) -> bool)
    requires TotalPreorder(le) && forall x, y :: le(x, y) && le(y, x) ==> x == y
    requires Sorted(us, le) && Sorted(vs, le) && multiset(us) == multiset(vs)
    ensures us == vs
  {
    assert |us| == |multiset(us)| == |multiset(vs)| == |vs|;
    if us != [] {
      HeadLeast(us, vs[0], le);
      HeadLeast(vs, us[0], le);
      TailMultiset(us);
      TailMultiset(vs);
      SortedUnique(us[1..], vs[1..], le);
      assert us == [us[0]] + us[1..] && vs == [vs[0]] + vs[1..];
    }
  }

  lemma SortDetermined<T(!new)>(us: seq<T>, vs: seq<T>, le: (T, T) -> bool)
    requires TotalPreorder(le) && forall x, y :: le(x, y) && le(y, x) ==> x == y
    requires multiset(us) == multiset(vs)
    ensures Sort(us, le) == Sort(vs, le)
  {
    SortSorts(us, le);
    SortSorts(vs, le);
    SortedUnique(Sort(us, le), Sort(vs, le), le);
  }
}
