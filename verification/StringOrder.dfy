/** The code-point order that Python uses to compare strings. */
module StringOrder {

  predicate LexLe(a: string, b: string) {
    a == [] || (b != [] && (a[0] < b[0] || (a[0] == b[0] && LexLe(a[1..], b[1..]))))
  }

  lemma LexTotal(a: string, b: string)
    ensures LexLe(a, b) || LexLe(b, a)
  {
  }

  lemma LexAntisymmetric(a: string, b: string)
    requires LexLe(a, b) && LexLe(b, a)
    ensures a == b
  {
    if a != [] && b != [] {
      LexAntisymmetric(a[1..], b[1..]);
      assert a == [a[0]] + a[1..] && b == [b[0]] + b[1..];
    }
  }

  lemma LexTransitive(a: string, b: string, c: string)
    requires LexLe(a, b) && LexLe(b, c)
    ensures LexLe(a, c)
  {
    if a != [] && a[0] == b[0] == c[0] {
      LexTransitive(a[1..], b[1..], c[1..]);
    }
  }

  predicate IsLeast(k: string, s: set<string>) {
    k in s && forall x | x in s :: LexLe(k, x)
  }

  lemma LeastExists(s: set<string>)
    requires s != {}
    ensures exists k :: IsLeast(k, s)
  {
    var k :| k in s;
    LexTotal(k, k);
    if s == {k} {
      assert IsLeast(k, s);
    } else {
      LeastExists(s - {k});
      var rest :| IsLeast(rest, s - {k});
      LexTotal(k, rest);
      var least := if LexLe(k, rest) then k else rest;
      forall x | x in s ensures LexLe(least, x) {
        if x != k && least == k {
          LexTransitive(k, rest, x);
        }
      }
      assert IsLeast(least, s);
    }
  }

  lemma LeastUnique(s: set<string>, k: string, l: string)
    requires IsLeast(k, s) && IsLeast(l, s)
    ensures k == l
  {
    LexAntisymmetric(k, l);
  }

  function Least(s: set<string>): (k: string)
    requires s != {}
    ensures IsLeast(k, s)
  {
    LeastExists(s);
    assert forall k, l | IsLeast(k, s) && IsLeast(l, s) :: k == l by {
      forall k, l | IsLeast(k, s) && IsLeast(l, s) ensures k == l {
        LeastUnique(s, k, l);
      }
    }
    var k :| k in s && IsLeast(k, s);
    k
  }

  /** The keys of a dictionary in the order sort_keys=True emits them. */
  function SortedKeys(s: set<string>): (ks: seq<string>)
    ensures |ks| == |s|
    ensures forall k :: k in ks <==> k in s
    ensures forall i, j :: 0 <= i < j < |ks| ==> ks[i] != ks[j]
  {
    if s == {} then [] else [Least(s)] + SortedKeys(s - {Least(s)})
  }

  ghost predicate Ascends(ks: seq<string>) {
    forall i, j :: 0 <= i < j < |ks| ==> LexLe(ks[i], ks[j])
  }

  lemma PrependAscends(k: string, ks: seq<string>)
    requires Ascends(ks) && forall x :: x in ks ==> LexLe(k, x)
    ensures Ascends([k] + ks)
  {
  }

  lemma {:induction false} SortedKeysAscend(s: set<string>)
    ensures Ascends(SortedKeys(s))
  {
    if s != {} {
      SortedKeysAscend(s - {Least(s)});
      assert IsLeast(Least(s), s);
      PrependAscends(Least(s), SortedKeys(s - {Least(s)}));
    }
  }
}
