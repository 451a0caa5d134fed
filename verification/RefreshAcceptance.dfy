/** Which repair manifests a database takes: the outcome of the whole transaction, told from the tables as they were. */
module RefreshAcceptance {
  import opened Wrappers
  import opened RefreshDatabase
  import opened RefreshTransaction
  import opened RefreshOnce

  /** Some entry supersedes the fact. */
  ghost predicate Supersedes(entries: seq<Entry>, fact: nat) {
    exists i :: 0 <= i < |entries| && entries[i].action == Supersede && entries[i].predecessor == fact
  }

  /** Some entry extends the chain of definitions. */
  ghost predicate Defines(entries: seq<Entry>, root: nat) {
    exists i :: 0 <= i < |entries| && entries[i].definition.Some? && entries[i].definition.value.root == root
  }

  ghost predicate Introduces(entries: seq<Entry>, id: string) {
    exists i :: 0 <= i < |entries| && entries[i].definition.Some? && entries[i].definition.value.id == id
  }

  // ---- The conditions ----

  /** An entry finds its fact not superseded by an earlier one, unless it binds without a definition. */
  ghost predicate InOrder(entries: seq<Entry>) {
    forall i :: 0 <= i < |entries| && (entries[i].action == Supersede || entries[i].definition.Some?) ==>
      !Supersedes(entries[..i], entries[i].predecessor)
  }

  /** Every definition is new, and no two are for one root. */
  ghost predicate DefinitionsNew(db: Db, entries: seq<Entry>) {
    forall i :: 0 <= i < |entries| && entries[i].definition.Some? ==> DefinitionNew(db, entries[..i], entries[i].definition.value)
  }

  ghost predicate DefinitionNew(db: Db, earlier: seq<Entry>, d: Definition) {
    !DefinitionKnown(db, d.id) && !Introduces(earlier, d.id) && !Defines(earlier, d.root)
  }

  /** What the last entry on a fact does with it. */
  function LastOn(entries: seq<Entry>, fact: nat): Option<Action> {
    if entries == [] then None
    else
      var e := entries[|entries| - 1];
      if e.predecessor == fact then Some(e.action) else LastOn(entries[..|entries| - 1], fact)
  }

  /** No binding is followed by a supersession of its fact for good. */
  ghost predicate BindingsLast(entries: seq<Entry>) {
    forall e :: e in entries && e.action == BindExisting ==> LastOn(entries, e.predecessor) == Some(BindExisting)
  }

  ghost predicate AllAdmissible(s: Surroundings, db: Db, entries: seq<Entry>) {
    forall e :: e in entries ==> Admissible(s, db, e)
  }

  ghost predicate AllResolve(s: Surroundings, entries: seq<Entry>) {
    forall e :: e in entries ==> s.resolves(e)
  }

  // ---- The tables on the way ----

  /** How the tables stand after these entries, as far as it matters to the next. */
  ghost predicate Reached(pre: Db, db: Db, entries: seq<Entry>) {
    && WellFormed(db) && Grows(pre, db) && pre.nextFact <= db.nextFact
    && (forall f :: f in pre.facts ==> (Successors(db, f) == {} <==> Successors(pre, f) == {} && !Supersedes(entries, f)))
    && (forall root :: if Defines(entries, root) then |DefinitionsOf(db, root)| > |DefinitionsOf(pre, root)|
                       else DefinitionsOf(db, root) == DefinitionsOf(pre, root))
    && (forall id :: DefinitionKnown(db, id) <==> DefinitionKnown(pre, id) || Introduces(entries, id))
  }

  lemma SupersedesMore(init: seq<Entry>, e: Entry, fact: nat)
    ensures Supersedes(init + [e], fact) <==> Supersedes(init, fact) || (e.action == Supersede && e.predecessor == fact)
  {
    if Supersedes(init, fact) {
      var i :| 0 <= i < |init| && init[i].action == Supersede && init[i].predecessor == fact;
      assert (init + [e])[i] == init[i];
    }
    assert (init + [e])[|init|] == e;
  }

  lemma DefinesMore(init: seq<Entry>, e: Entry, root: nat)
    ensures Defines(init + [e], root) <==> Defines(init, root) || (e.definition.Some? && e.definition.value.root == root)
  {
    if Defines(init, root) {
      var i :| 0 <= i < |init| && init[i].definition.Some? && init[i].definition.value.root == root;
      assert (init + [e])[i] == init[i];
    }
    assert (init + [e])[|init|] == e;
  }

  lemma IntroducesMore(init: seq<Entry>, e: Entry, id: string)
    ensures Introduces(init + [e], id) <==> Introduces(init, id) || (e.definition.Some? && e.definition.value.id == id)
  {
    if Introduces(init, id) {
      var i :| 0 <= i < |init| && init[i].definition.Some? && init[i].definition.value.id == id;
      assert (init + [e])[i] == init[i];
    }
    assert (init + [e])[|init|] == e;
  }

  /** An entry makes its own definition known, and no other. */
  lemma KnownAfter(m: Manifest, db: Db, e: Entry, id: string)
    requires Written(m, db, e).Success?
    ensures DefinitionKnown(Written(m, db, e).value.0, id)
       <==> DefinitionKnown(db, id) || (e.definition.Some? && e.definition.value.id == id)
  {
    var next := Written(m, db, e).value.0;
    if e.definition.None? {
      assert next.definitions == db.definitions;
    } else {
      var d := e.definition.value;
      var extended := DefinitionsOf(db, d.root) + [d];
      assert next.definitions == db.definitions[d.root := extended];
      if DefinitionKnown(db, id) {
        var root :| root in db.definitions.Keys && exists c :: c in db.definitions[root] && c.id == id;
        var c :| c in db.definitions[root] && c.id == id;
        assert c in next.definitions[root];
      }
      assert d in next.definitions[d.root];
      if DefinitionKnown(next, id) {
        var root :| root in next.definitions.Keys && exists c :: c in next.definitions[root] && c.id == id;
        var c :| c in next.definitions[root] && c.id == id;
        assert c == d || (root in db.definitions && c in db.definitions[root]);
      }
    }
  }

  lemma StepReaches(s: Surroundings, m: Manifest, pre: Db, p: Progress, init: seq<Entry>, e: Entry)
    requires Reached(pre, p.db, init) && ApplyEntry(s, m, p, e).Success?
    ensures Reached(pre, ApplyEntry(s, m, p, e).value.db, init + [e])
  {
    var q := ApplyEntry(s, m, p, e).value;
    StepWrites(s, m, p, e);
    GrowsTransitive(pre, p.db, q.db);
    forall f | f in pre.facts
      ensures Successors(q.db, f) == {} <==> Successors(pre, f) == {} && !Supersedes(init + [e], f)
    {
      SupersedesMore(init, e, f);
    }
    forall root
      ensures if Defines(init + [e], root) then |DefinitionsOf(q.db, root)| > |DefinitionsOf(pre, root)|
              else DefinitionsOf(q.db, root) == DefinitionsOf(pre, root)
    {
      DefinesMore(init, e, root);
      assert DefinitionsOf(pre, root) <= DefinitionsOf(p.db, root);
    }
    forall id ensures DefinitionKnown(q.db, id) <==> DefinitionKnown(pre, id) || Introduces(init + [e], id) {
      IntroducesMore(init, e, id);
      KnownAfter(m, p.db, e, id);
      assert q.db.definitions == Written(m, p.db, e).value.0.definitions;
    }
  }

  lemma NothingReached(pre: Db)
    requires WellFormed(pre)
    ensures Reached(pre, pre, [])
  {
    assert Grows(pre, pre);
  }

  lemma {:induction false} EntriesReach(s: Surroundings, m: Manifest, pre: Db, entries: seq<Entry>)
    requires WellFormed(pre) && ApplyAll(s, m, pre, entries).Success?
    ensures Reached(pre, ApplyAll(s, m, pre, entries).value.db, entries)
  {
    if entries == [] {
      NothingReached(pre);
    } else {
      var init, e := entries[..|entries| - 1], entries[|entries| - 1];
      assert entries == init + [e];
      var p := ApplyAll(s, m, pre, init).value;
      assert ApplyAll(s, m, pre, entries) == ApplyEntry(s, m, p, e);
      EntriesReach(s, m, pre, init);
      StepReaches(s, m, pre, p, init, e);
    }
  }

  // ---- Application ----

  ghost predicate Fits(pre: Db, earlier: seq<Entry>, e: Entry) {
    && (e.action == Supersede || e.definition.Some? ==> !Supersedes(earlier, e.predecessor))
    && (e.definition.Some? ==> DefinitionNew(pre, earlier, e.definition.value))
  }

  lemma AdmissibleStands(s: Surroundings, pre: Db, e: Entry)
    requires Admissible(s, pre, e)
    ensures e.predecessor in pre.facts && Successors(pre, e.predecessor) == {}
    ensures e.definition.Some? ==>
              |DefinitionsOf(pre, e.definition.value.root)| == e.definitionRevision
              && DefinitionExpected(pre, e.definition.value.root, e.definitionHead, e.definitionRevision)
  {
  }

  lemma CapturesIff(s: Surroundings, pre: Db, db: Db, earlier: seq<Entry>, e: Entry)
    requires Reached(pre, db, earlier) && Admissible(s, pre, e) && e.definition.Some?
    ensures CaptureFor(db, e).Some? <==> DefinitionNew(pre, earlier, e.definition.value)
  {
    AdmissibleStands(s, pre, e);
    var d := e.definition.value;
    assert DefinitionKnown(db, d.id) <==> DefinitionKnown(pre, d.id) || Introduces(earlier, d.id);
    assert DefinitionExpected(db, d.root, e.definitionHead, e.definitionRevision) <==> !Defines(earlier, d.root) by {
      ExpectedIff(pre, db, earlier, d.root, e.definitionHead, e.definitionRevision);
    }
  }

  lemma ExpectedIff(pre: Db, db: Db, earlier: seq<Entry>, root: nat, head: Option<string>, revision: nat)
    requires DefinitionExpected(pre, root, head, revision)
    requires if Defines(earlier, root) then |DefinitionsOf(db, root)| > |DefinitionsOf(pre, root)|
             else DefinitionsOf(db, root) == DefinitionsOf(pre, root)
    ensures DefinitionExpected(db, root, head, revision) <==> !Defines(earlier, root)
  {
  }

  lemma NextAppliesIff(s: Surroundings, m: Manifest, pre: Db, p: Progress, earlier: seq<Entry>, e: Entry)
    requires Reached(pre, p.db, earlier) && Admissible(s, pre, e)
    ensures ApplyEntry(s, m, p, e).Success? <==> s.resolves(e) && Fits(pre, earlier, e)
  {
    AdmissibleStands(s, pre, e);
    if e.definition.Some? {
      CapturesIff(s, pre, p.db, earlier, e);
    }
  }

  lemma FitsNext(pre: Db, entries: seq<Entry>)
    requires entries != []
    ensures var init, e := entries[..|entries| - 1], entries[|entries| - 1];
            InOrder(entries) && DefinitionsNew(pre, entries)
            <==> InOrder(init) && DefinitionsNew(pre, init) && Fits(pre, init, e)
  {
    var init, e := entries[..|entries| - 1], entries[|entries| - 1];
    assert forall i :: 0 <= i < |init| ==> init[..i] == entries[..i] && init[i] == entries[i];
    assert entries[..|init|] == init;
  }

  lemma {:induction false} AppliesIff(s: Surroundings, m: Manifest, pre: Db, entries: seq<Entry>)
    requires WellFormed(pre) && AllAdmissible(s, pre, entries)
    ensures ApplyAll(s, m, pre, entries).Success?
       <==> AllResolve(s, entries) && InOrder(entries) && DefinitionsNew(pre, entries)
  {
    if entries != [] {
      var init, e := entries[..|entries| - 1], entries[|entries| - 1];
      assert entries == init + [e];
      AppliesIff(s, m, pre, init);
      FitsNext(pre, entries);
      if ApplyAll(s, m, pre, init).Success? {
        EntriesReach(s, m, pre, init);
        NextAppliesIff(s, m, pre, ApplyAll(s, m, pre, init).value, init, e);
      }
    }
  }

  // ---- The results are canonical ----

  /** Which results and predecessors are canonical after these entries. */
  ghost predicate Stands(pre: Db, p: Progress, entries: seq<Entry>) {
    pre.nextFact <= p.db.nextFact && ResultsStand(pre, p, entries) && PredecessorsStand(pre, p.db, entries)
  }

  ghost predicate ResultsStand(pre: Db, p: Progress, entries: seq<Entry>) {
    |p.heads| == |entries|
    && forall i :: 0 <= i < |entries| ==>
         if entries[i].action == BindExisting then p.heads[i] == entries[i].predecessor
         else pre.nextFact <= p.heads[i] < p.db.nextFact && p.heads[i] in p.db.canonical
  }

  ghost predicate PredecessorsStand(pre: Db, db: Db, entries: seq<Entry>) {
    forall f :: f in pre.facts && LastOn(entries, f).Some? ==> (f in db.canonical <==> LastOn(entries, f).value == BindExisting)
  }

  lemma StepResolves(s: Surroundings, m: Manifest, p: Progress, e: Entry)
    requires WellFormed(p.db) && ApplyEntry(s, m, p, e).Success?
    ensures var q, head := ApplyEntry(s, m, p, e).value, HeadOf(p.db, e);
            && q.heads == p.heads + [head] && p.db.nextFact <= q.db.nextFact && head < q.db.nextFact
            && q.db.canonical == (if e.action == Supersede then p.db.canonical - {e.predecessor} else p.db.canonical) + {head}
  {
    WritingWrites(m, p.db, e);
    StepWrites(s, m, p, e);
  }

  lemma StepStands(s: Surroundings, m: Manifest, pre: Db, p: Progress, init: seq<Entry>, e: Entry)
    requires WellFormed(pre) && WellFormed(p.db) && Stands(pre, p, init)
    requires e.predecessor in pre.facts && ApplyEntry(s, m, p, e).Success?
    ensures Stands(pre, ApplyEntry(s, m, p, e).value, init + [e])
  {
    StepResolves(s, m, p, e);
    StandsNext(pre, p, init, e, ApplyEntry(s, m, p, e).value, HeadOf(p.db, e));
  }

  lemma StandsNext(pre: Db, p: Progress, init: seq<Entry>, e: Entry, q: Progress, head: nat)
    requires Stands(pre, p, init) && (forall f :: f in pre.facts ==> f < pre.nextFact) && e.predecessor in pre.facts
    requires q.heads == p.heads + [head] && p.db.nextFact <= q.db.nextFact && head < q.db.nextFact
    requires if e.action == Supersede then head == p.db.nextFact else head == e.predecessor
    requires q.db.canonical == (if e.action == Supersede then p.db.canonical - {e.predecessor} else p.db.canonical) + {head}
    ensures Stands(pre, q, init + [e])
  {
    assert (init + [e])[..|init|] == init;
    assert ResultsStand(pre, q, init + [e]);
  }

  lemma {:induction false} EntriesStand(s: Surroundings, m: Manifest, pre: Db, entries: seq<Entry>)
    requires WellFormed(pre) && ApplyAll(s, m, pre, entries).Success?
    requires forall e :: e in entries ==> e.predecessor in pre.facts
    ensures Stands(pre, ApplyAll(s, m, pre, entries).value, entries)
  {
    if entries != [] {
      var init, e := entries[..|entries| - 1], entries[|entries| - 1];
      assert entries == init + [e];
      var p := ApplyAll(s, m, pre, init).value;
      assert ApplyAll(s, m, pre, entries) == ApplyEntry(s, m, p, e);
      EntriesStand(s, m, pre, init);
      assert WellFormed(p.db) by {
        ApplyAllGrows(s, m, pre, init);
      }
      StepStands(s, m, pre, p, init, e);
    }
  }

  lemma {:induction false} HasLast(entries: seq<Entry>, i: nat)
    requires i < |entries|
    ensures LastOn(entries, entries[i].predecessor).Some?
  {
    if i < |entries| - 1 {
      HasLast(entries[..|entries| - 1], i);
    }
  }

  lemma CanonicalIff(pre: Db, p: Progress, entries: seq<Entry>)
    requires WellFormed(pre) && Stands(pre, p, entries) && forall e :: e in entries ==> e.predecessor in pre.facts
    ensures (forall h :: h in p.heads ==> h in p.db.canonical) <==> BindingsLast(entries)
  {
    forall i | 0 <= i < |entries|
      ensures p.heads[i] in p.db.canonical
         <==> entries[i].action == Supersede || LastOn(entries, entries[i].predecessor) == Some(BindExisting)
    {
      HasLast(entries, i);
      assert entries[i] in entries;
    }
    if BindingsLast(entries) {
      forall h | h in p.heads ensures h in p.db.canonical {
        var i :| 0 <= i < |p.heads| && p.heads[i] == h;
        assert entries[i] in entries;
      }
    } else {
      var e :| e in entries && e.action == BindExisting && LastOn(entries, e.predecessor) != Some(BindExisting);
      var i :| 0 <= i < |entries| && entries[i] == e;
      assert p.heads[i] in p.heads;
    }
  }

  // ---- The transaction ----

  /** The repair commits exactly the manifests whose entries are all admissible on the tables as they were and resolve,
      whose definitions are new and for different roots, and whose entries on any one fact come in an order that
      works. */
  lemma TransactionSucceedsIff(s: Surroundings, m: Manifest, db: Db)
    requires WellFormed(db)
    ensures Transaction(s, m, db).Success?
       <==> && AllAdmissible(s, db, m.entries) && AllResolve(s, m.entries) && DefinitionsNew(db, m.entries)
            && InOrder(m.entries) && BindingsLast(m.entries)
  {
    AllValid(s, db, m.entries);
    forall i | 0 <= i < |m.entries| ensures Validate(s, db, m.entries[i]).None? <==> Admissible(s, db, m.entries[i]) {
      ValidatedIff(s, db, m.entries[i]);
    }
    assert FirstBlocker(s, db, m.entries).None? <==> AllAdmissible(s, db, m.entries);
    if AllAdmissible(s, db, m.entries) {
      AppliesIff(s, m, db, m.entries);
      if ApplyAll(s, m, db, m.entries).Success? {
        EntriesStand(s, m, db, m.entries);
        CanonicalIff(db, ApplyAll(s, m, db, m.entries).value, m.entries);
      }
    }
  }

  /** Entries on different facts are in order whatever they are. */
  lemma DifferentFactsInOrder(entries: seq<Entry>)
    requires forall i, j :: 0 <= i < j < |entries| ==> entries[i].predecessor != entries[j].predecessor
    ensures InOrder(entries) && BindingsLast(entries)
  {
    forall e | e in entries && e.action == BindExisting ensures LastOn(entries, e.predecessor) == Some(BindExisting) {
      var i: nat :| i < |entries| && entries[i] == e;
      OnlyOn(entries, i);
    }
  }

  lemma {:induction false} OnlyOn(entries: seq<Entry>, i: nat)
    requires i < |entries|
    requires forall j, k :: 0 <= j < k < |entries| ==> entries[j].predecessor != entries[k].predecessor
    ensures LastOn(entries, entries[i].predecessor) == Some(entries[i].action)
  {
    if i < |entries| - 1 {
      OnlyOn(entries[..|entries| - 1], i);
    }
  }

  /** It happens that a manifest names a fact twice and commits, and is not recognised: two bindings with different
      contexts. */
  lemma ConflictCommits(accepts: Entry -> bool)
    requires forall e :: accepts(e)
    ensures var fact := Fact(0, None, 5, "1 usd", "", None);
            var db := Db(map[0 := fact], map[], map[], {0}, 1, 0);
            var d := Entry(BindExisting, false, 0, None, 0, 5, 5, "1 usd", "", Context("a", None), "v", None, 0, None);
            var e := d.(context := Context("b", None));
            var s, m := Surroundings(accepts, accepts, accepts, accepts, {0}), Manifest("r", 1, [d, e]);
            && WellFormed(db) && Shaped(m) && Transaction(s, m, db).Success?
            && Detect(s, m, Transaction(s, m, db).value.db, m.entries) == None
  {
    var fact := Fact(0, None, 5, "1 usd", "", None);
    var db := Db(map[0 := fact], map[], map[], {0}, 1, 0);
    var d := Entry(BindExisting, false, 0, None, 0, 5, 5, "1 usd", "", Context("a", None), "v", None, 0, None);
    var e := d.(context := Context("b", None));
    var s, m := Surroundings(accepts, accepts, accepts, accepts, {0}), Manifest("r", 1, [d, e]);
    assert Admissible(s, db, d) && Admissible(s, db, e);
    TransactionSucceedsIff(s, m, db);
    assert PersistedContext(d).meaning != PersistedContext(e).meaning;
    ConflictNotDetected(s, m, db, 0, 1);
  }
}
