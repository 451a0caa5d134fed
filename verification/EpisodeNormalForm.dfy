/** The legacy-v0 normal form of a rule-evaluation value: timestamps named evaluated_at are dropped
    at every depth and every list is sorted by the canonical text of its items. */
module EpisodeNormalForm {
  import opened Sequences
  import opened StableSort
  import opened StringOrder
  import opened CanonicalJson

  const TIMESTAMP_KEY := "evaluated_at"

  /** Order of two values by their canonical text, the sort key of the source. */
  predicate TextLe(a: Json, b: Json) {
    LexLe(Print(a, false), Print(b, false))
  }

  lemma TextLeOrders()
    ensures TotalPreorder(TextLe)
    ensures forall a, b :: TextLe(a, b) && TextLe(b, a) ==> a == b
  {
    forall a, b ensures TextLe(a, b) || TextLe(b, a) {
      LexTotal(Print(a, false), Print(b, false));
    }
    forall a, b, c | TextLe(a, b) && TextLe(b, c) ensures TextLe(a, c) {
      LexTransitive(Print(a, false), Print(b, false), Print(c, false));
    }
    forall a, b | TextLe(a, b) && TextLe(b, a) ensures a == b {
      LexAntisymmetric(Print(a, false), Print(b, false));
      PrintInjective(a, b, false);
    }
  }

  function SortByText(xs: seq<Json>): seq<Json> {
    Sort(xs, TextLe)
  }

  lemma SortByTextSorts(xs: seq<Json>)
    ensures multiset(SortByText(xs)) == multiset(xs)
  {
    TextLeOrders();
    SortSorts(xs, TextLe);
  }

  /** Sorting by an injective text leaves no choice: equal multisets sort to equal lists. */
  lemma SortByTextDetermined(us: seq<Json>, vs: seq<Json>)
    requires multiset(us) == multiset(vs)
    ensures SortByText(us) == SortByText(vs)
  {
    TextLeOrders();
    SortDetermined(us, vs, TextLe);
  }

  function Normal(j: Json): Json
    decreases j, 0
  {
    match j
    case Obj(m) => Obj(map k | k in m && k != TIMESTAMP_KEY :: Normal(m[k]))
    case Arr(xs) => Arr(SortByText(NormalItems(xs)))
    case _ => j
  }

  function NormalItems(xs: seq<Json>): (r: seq<Json>)
    ensures |r| == |xs|
    ensures forall i :: 0 <= i < |xs| ==> r[i] == Normal(xs[i])
    decreases xs, 0
  {
    if xs == [] then [] else [Normal(xs[0])] + NormalItems(xs[1..])
  }

  // ---- What the normal form means ----

  ghost function SemanticKeys(m: map<string, Json>): set<string> {
    m.Keys - {TIMESTAMP_KEY}
  }

  /** Equality up to the order of every list and the presence of every evaluated_at key, at every depth. */
  ghost predicate Equivalent(a: Json, b: Json)
    decreases a
  {
    match (a, b)
    case (Obj(m), Obj(n)) =>
      SemanticKeys(m) == SemanticKeys(n) && forall k :: k in SemanticKeys(m) ==> Equivalent(m[k], n[k])
    case (Arr(xs), Arr(ys)) =>
      |xs| == |ys| && exists p: seq<nat> :: IsPermutation(p, |xs|) && forall i :: 0 <= i < |ys| ==> Equivalent(xs[p[i]], ys[i])
    case _ => a == b
  }

  lemma NormalObjects(m: map<string, Json>, n: map<string, Json>)
    requires SemanticKeys(m) == SemanticKeys(n) && forall k :: k in SemanticKeys(m) ==> Normal(m[k]) == Normal(n[k])
    ensures Normal(Obj(m)) == Normal(Obj(n))
  {
    var x, y := Normal(Obj(m)).members, Normal(Obj(n)).members;
    assert x.Keys == SemanticKeys(m) && y.Keys == SemanticKeys(n);
    assert x == y;
  }

  lemma NormalLists(xs: seq<Json>, ys: seq<Json>, p: seq<nat>)
    requires |xs| == |ys| && IsPermutation(p, |xs|) && forall i :: 0 <= i < |ys| ==> Normal(ys[i]) == Normal(xs[p[i]])
    ensures Normal(Arr(xs)) == Normal(Arr(ys))
  {
    RearrangedMultiset(p, NormalItems(xs), NormalItems(ys));
    SortByTextDetermined(NormalItems(xs), NormalItems(ys));
  }

  lemma {:induction false} EquivalentNormal(a: Json, b: Json)
    requires Equivalent(a, b)
    ensures Normal(a) == Normal(b)
    decreases a
  {
    match (a, b)
    case (Obj(m), Obj(n)) =>
      forall k | k in SemanticKeys(m) ensures Normal(m[k]) == Normal(n[k]) {
        EquivalentNormal(m[k], n[k]);
      }
      NormalObjects(m, n);
    case (Arr(xs), Arr(ys)) =>
      var p: seq<nat> :| IsPermutation(p, |xs|) && forall i :: 0 <= i < |ys| ==> Equivalent(xs[p[i]], ys[i]);
      forall i | 0 <= i < |ys| ensures Normal(ys[i]) == Normal(xs[p[i]]) {
        EquivalentNormal(xs[p[i]], ys[i]);
      }
      NormalLists(xs, ys, p);
    case _ =>
  }

  lemma {:induction false} NormalEquivalent(a: Json, b: Json)
    requires Normal(a) == Normal(b)
    ensures Equivalent(a, b)
    decreases a
  {
    match (a, b)
    case (Obj(m), Obj(n)) =>
      assert Normal(a).members.Keys == SemanticKeys(m) && Normal(b).members.Keys == SemanticKeys(n);
      forall k | k in SemanticKeys(m) ensures Equivalent(m[k], n[k]) {
        assert Normal(m[k]) == Normal(a).members[k] == Normal(b).members[k] == Normal(n[k]);
        NormalEquivalent(m[k], n[k]);
      }
    case (Arr(xs), Arr(ys)) =>
      SortByTextSorts(NormalItems(xs));
      SortByTextSorts(NormalItems(ys));
      var p := MultisetRearranged(NormalItems(xs), NormalItems(ys));
      forall i | 0 <= i < |ys| ensures Equivalent(xs[p[i]], ys[i]) {
        NormalEquivalent(xs[p[i]], ys[i]);
      }
    case _ =>
  }

  /** The normal form is complete: it identifies exactly the equivalent values. */
  lemma NormalFormIff(a: Json, b: Json)
    ensures Normal(a) == Normal(b) <==> Equivalent(a, b)
  {
    if Normal(a) == Normal(b) {
      NormalEquivalent(a, b);
    }
    if Equivalent(a, b) {
      EquivalentNormal(a, b);
    }
  }

  lemma SortFixesNormalItems(xs: seq<Json>)
    requires forall i :: 0 <= i < |xs| ==> Normal(xs[i]) == xs[i]
    ensures Normal(Arr(SortByText(xs))) == Arr(SortByText(xs))
  {
    var items := SortByText(xs);
    SortByTextSorts(xs);
    forall i | 0 <= i < |items| ensures Normal(items[i]) == items[i] {
      assert items[i] in multiset(xs);
    }
    assert NormalItems(items) == items;
    SortByTextDetermined(items, xs);
  }

  /** Normalising twice changes nothing, so a stored normal form can be normalised again. */
  lemma {:induction false} NormalIdempotent(a: Json)
    ensures Normal(Normal(a)) == Normal(a)
    decreases a
  {
    match a
    case Obj(m) =>
      forall k | k in SemanticKeys(m) ensures Normal(Normal(m[k])) == Normal(m[k]) {
        NormalIdempotent(m[k]);
      }
      assert Normal(Normal(a)).members == Normal(a).members;
    case Arr(xs) =>
      forall i | 0 <= i < |xs| ensures Normal(NormalItems(xs)[i]) == NormalItems(xs)[i] {
        NormalIdempotent(xs[i]);
      }
      SortFixesNormalItems(NormalItems(xs));
    case _ =>
  }
}
