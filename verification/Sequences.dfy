/** Facts about sequences that several components share. */
module Sequences {

  ghost predicate Distinct<T>(xs: seq<T>) {
    forall i, j :: 0 <= i < j < |xs| ==> xs[i] != xs[j]
  }

  /** xs without the element at index i. */
  function Without<T>(xs: seq<T>, i: nat): (r: seq<T>)
    requires i < |xs|
    ensures |r| == |xs| - 1
  {
    xs[..i] + xs[i + 1..]
  }

  lemma WithoutMultiset<T>(xs: seq<T>, i: nat)
    requires i < |xs|
    ensures multiset(xs) == multiset(Without(xs, i)) + multiset{xs[i]}
  {
    assert xs == xs[..i] + [xs[i]] + xs[i + 1..];
  }

  /** p lists the indices 0..n-1, each once. */
  ghost predicate IsPermutation(p: seq<nat>, n: nat) {
    |p| == n && (forall i :: 0 <= i < n ==> p[i] < n) && Distinct(p)
  }

  /** vs is us with its elements taken in the order p. */
  ghost predicate Rearranges<T>(p: seq<nat>, us: seq<T>, vs: seq<T>) {
    && IsPermutation(p, |us|) && |vs| == |us|
    && forall i :: 0 <= i < |vs| ==> vs[i] == us[p[i]]
  }

  /** Indices of us other than j, renumbered as indices of Without(us, j). */
  function Renumber(p: seq<nat>, j: nat): (q: seq<nat>)
    ensures |q| == |p|
    ensures forall i :: 0 <= i < |p| ==> q[i] == if p[i] <= j then p[i] else p[i] - 1
  {
    seq(|p|, i requires 0 <= i < |p| => if p[i] <= j then p[i] else p[i] - 1)
  }

  lemma {:induction false} RearrangedMultiset<T>(p: seq<nat>, us: seq<T>, vs: seq<T>)
    requires Rearranges(p, us, vs)
    ensures multiset(us) == multiset(vs)
    decreases |us|
  {
    if us != [] {
      var j, q := p[0], Renumber(p[1..], p[0]);
      var rest := Without(us, j);
      forall i | 0 <= i < |q| ensures p[1..][i] == p[i + 1] != j && vs[1..][i] == rest[q[i]] {
      }
      forall i, k | 0 <= i < k < |q| ensures q[i] != q[k] {
        assert p[i + 1] != p[k + 1];
      }
      RearrangedMultiset(q, rest, vs[1..]);
      WithoutMultiset(us, j);
      WithoutMultiset(vs, 0);
      assert Without(vs, 0) == vs[1..];
    } else {
      assert vs == [];
    }
  }

  /** Takes index j first, then the rest as q takes the elements of Without(us, j). */
  function Prepend(j: nat, q: seq<nat>): (p: seq<nat>)
    ensures |p| == |q| + 1 && p[0] == j
    ensures forall i :: 0 <= i < |q| ==> p[i + 1] == if q[i] < j then q[i] else q[i] + 1
  {
    [j] + seq(|q|, i requires 0 <= i < |q| => if q[i] < j then q[i] else q[i] + 1)
  }

  lemma PrependRearranges<T>(us: seq<T>, vs: seq<T>, j: nat, q: seq<nat>)
    requires j < |us| && vs != [] && us[j] == vs[0]
    requires Rearranges(q, Without(us, j), vs[1..])
    ensures Rearranges(Prepend(j, q), us, vs)
  {
    var p := Prepend(j, q);
    forall i, k | 0 <= i < k < |p| ensures p[i] != p[k] {
      if i > 0 {
        assert q[i - 1] != q[k - 1];
      }
    }
    forall i | 0 < i < |vs| ensures vs[i] == us[p[i]] {
      assert vs[i] == vs[1..][i - 1] == Without(us, j)[q[i - 1]];
    }
  }

  lemma HeadTaken<T>(us: seq<T>, vs: seq<T>) returns (j: nat)
    requires multiset(us) == multiset(vs) && vs != []
    ensures j < |us| && us[j] == vs[0] && multiset(Without(us, j)) == multiset(vs[1..])
  {
    assert vs[0] in multiset(us);
    j :| 0 <= j < |us| && us[j] == vs[0];
    WithoutMultiset(us, j);
    WithoutMultiset(vs, 0);
    assert Without(vs, 0) == vs[1..];
    assert multiset(Without(us, j)) == multiset(us) - multiset{us[j]} == multiset(vs[1..]);
  }

  lemma {:induction false} MultisetRearranged<T>(us: seq<T>, vs: seq<T>) returns (p: seq<nat>)
    requires multiset(us) == multiset(vs)
    ensures Rearranges(p, us, vs)
    decreases |vs|
  {
    assert |us| == |multiset(us)| == |multiset(vs)| == |vs|;
    if vs == [] {
      p := [];
    } else {
      var j := HeadTaken(us, vs);
      var q := MultisetRearranged(Without(us, j), vs[1..]);
      PrependRearranges(us, vs, j, q);
      p := Prepend(j, q);
    }
  }

  /** Two duplicate-free lists of the same elements are rearrangements of each other. */
  lemma {:induction false} DistinctMultiset<T>(us: seq<T>, vs: seq<T>)
    requires Distinct(us) && Distinct(vs)
    requires forall x :: x in us <==> x in vs
    ensures multiset(us) == multiset(vs)
  {
    forall x ensures multiset(us)[x] == multiset(vs)[x] {
      DistinctCount(us, x);
      DistinctCount(vs, x);
    }
  }

  lemma {:induction false} DistinctCount<T>(us: seq<T>, x: T)
    requires Distinct(us)
    ensures multiset(us)[x] == if x in us then 1 else 0
  {
    if us != [] {
      var init := us[..|us| - 1];
      assert us == init + [us[|us| - 1]];
      DistinctCount(init, x);
    }
  }

  lemma {:induction false} DistinctCard<T>(us: seq<T>)
    ensures |set x | x in us| <= |us|
    ensures |set x | x in us| == |us| <==> Distinct(us)
  {
    if us != [] {
      var init, last := us[..|us| - 1], us[|us| - 1];
      DistinctCard(init);
      assert us == init + [last];
      var some := set x | x in init;
      assert (set x | x in us) == some + {last};
      if last in some {
        var i :| 0 <= i < |init| && init[i] == last;
        assert us[i] == us[|us| - 1];
      } else {
        assert forall i :: 0 <= i < |init| ==> init[i] in some;
      }
    }
  }
}
