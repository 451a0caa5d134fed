/** A repair's effects happen at most once, and a committed repair is recognised. */
module RefreshOnce {
  import opened Wrappers
  import opened RefreshDatabase
  import opened RefreshTransaction

  // ---- One entry's step ----

  function HeadOf(db: Db, e: Entry): nat {
    if e.action == Supersede then db.nextFact else e.predecessor
  }

  ghost predicate WroteChains(db: Db, e: Entry, next: Db) {
    forall f :: f != HeadOf(db, e) ==> ChainOf(next, f) == ChainOf(db, f)
  }

  ghost predicate WroteSuccessors(db: Db, e: Entry, next: Db) {
    forall f: nat :: Successors(next, f)
                     == Successors(db, f) + if e.action == Supersede && f == e.predecessor then {HeadOf(db, e)} else {}
  }

  ghost predicate WroteDefinitions(db: Db, e: Entry, next: Db) {
    forall root :: !(e.definition.Some? && e.definition.value.root == root)
      ==> DefinitionsOf(next, root) == DefinitionsOf(db, root)
  }

  /** All that writing an entry does to the tables. */
  ghost predicate Wrote(db: Db, e: Entry, next: Db) {
    && WellFormed(next) && Grows(db, next) && HeadOf(db, e) in next.facts && next.canonical == db.canonical
    && db.nextFact <= next.nextFact
    && WroteChains(db, e, next) && WroteSuccessors(db, e, next) && WroteDefinitions(db, e, next) && WroteDefinition(db, e, next)
  }

  ghost predicate WroteDefinition(db: Db, e: Entry, next: Db) {
    e.definition.Some? ==>
      var root := e.definition.value.root;
      && DefinitionHead(next, root) == e.definition
      && |DefinitionsOf(next, root)| == |DefinitionsOf(db, root)| + 1 && |DefinitionsOf(db, root)| == e.definitionRevision
  }

  ghost predicate FreshContext(db: Db, e: Entry) {
    var head := ContextHead(db, e.predecessor);
    head.Some? ==> head.value.context != PersistedContext(e) || head.value.definition != DefinitionId(e)
  }

  /** The current context of a binding's fact, as it would be stored, came from this very manifest, or is another one. */
  ghost predicate Traceable(m: Manifest, db: Db, e: Entry) {
    var head := ContextHead(db, e.predecessor);
    e.action == BindExisting && !FreshContext(db, e) ==>
      head.value.reviewer == m.reviewer && head.value.knowledgeAt == m.knowledgeAt
  }

  /** The head's context is the entry's, whoever stored it. */
  ghost predicate Carries(db: Db, e: Entry, head: nat) {
    var row := ContextHead(db, head);
    row.Some? && row.value.context == PersistedContext(e) && row.value.definition == DefinitionId(e)
  }

  function InsertFor(m: Manifest, db: Db, e: Entry): Db
    requires e.predecessor in db.facts
  {
    if e.action == Supersede then InsertFact(db, ResultFact(m, db, e)) else db
  }

  lemma CaptureStep(db: Db, e: Entry)
    requires WellFormed(db) && CaptureFor(db, e).Some?
    ensures var captured := CaptureFor(db, e).value;
            && WellFormed(captured) && Grows(db, captured) && captured.facts == db.facts && captured.contexts == db.contexts
            && captured.canonical == db.canonical && captured.nextFact == db.nextFact
            && WroteDefinitions(db, e, captured) && WroteDefinition(db, e, captured)
  {
    if e.definition.Some? {
      CaptureGrows(db, e.definition.value, e.definitionHead, e.definitionRevision);
    }
  }

  lemma InsertStep(m: Manifest, db: Db, e: Entry)
    requires WellFormed(db) && e.predecessor in db.facts
    ensures var inserted := InsertFor(m, db, e);
            && WellFormed(inserted) && Grows(db, inserted) && HeadOf(db, e) in inserted.facts
            && inserted.contexts == db.contexts && inserted.definitions == db.definitions
            && inserted.canonical == db.canonical && db.nextFact <= inserted.nextFact && WroteSuccessors(db, e, inserted)
  {
    if e.action == Supersede {
      InsertGrows(db, ResultFact(m, db, e));
    }
  }

  lemma SameSuccessors(a: Db, b: Db)
    requires a.facts == b.facts
    ensures forall f: nat :: Successors(a, f) == Successors(b, f)
  {
    forall f: nat ensures Successors(a, f) == Successors(b, f) {
    }
  }

  lemma WritingWrites(m: Manifest, db: Db, e: Entry)
    requires WellFormed(db) && Written(m, db, e).Success?
    ensures var (next, head) := Written(m, db, e).value;
            head == HeadOf(db, e) && Wrote(db, e, next)
  {
    var captured, head := CaptureFor(db, e).value, HeadOf(db, e);
    CaptureStep(db, e);
    SameSuccessors(db, captured);
    var inserted := InsertFor(m, captured, e);
    InsertStep(m, captured, e);
    PersistGrows(inserted, head, PersistedContext(e), m.reviewer, m.knowledgeAt, DefinitionId(e));
    var next := PersistContext(inserted, head, PersistedContext(e), m.reviewer, m.knowledgeAt, DefinitionId(e));
    assert Written(m, db, e) == Success((next, head));
    SameSuccessors(inserted, next);
    GrowsTransitive(db, captured, inserted);
    GrowsTransitive(db, inserted, next);
    Composed(db, e, captured, inserted, next);
  }

  lemma Composed(db: Db, e: Entry, captured: Db, inserted: Db, next: Db)
    requires captured.facts == db.facts && captured.contexts == db.contexts && captured.nextFact == db.nextFact
    requires inserted.contexts == captured.contexts && inserted.definitions == captured.definitions
    requires next.facts == inserted.facts && next.definitions == inserted.definitions
    requires WroteDefinitions(db, e, captured) && WroteDefinition(db, e, captured) && WroteSuccessors(captured, e, inserted)
    requires forall f :: f != HeadOf(db, e) ==> ChainOf(next, f) == ChainOf(inserted, f)
    ensures WroteChains(db, e, next) && WroteSuccessors(db, e, next)
    ensures WroteDefinitions(db, e, next) && WroteDefinition(db, e, next)
  {
    SameSuccessors(db, captured);
    SameSuccessors(inserted, next);
    forall root ensures DefinitionsOf(next, root) == DefinitionsOf(captured, root) {
    }
    forall f | f != HeadOf(db, e) ensures ChainOf(next, f) == ChainOf(db, f) {
      assert ChainOf(inserted, f) == ChainOf(db, f);
    }
  }

  lemma WritingFills(m: Manifest, db: Db, e: Entry)
    requires WellFormed(db) && Written(m, db, e).Success?
    ensures var (next, head) := Written(m, db, e).value;
            && (e.action == Supersede ==> head in next.facts && next.facts[head] == ResultFact(m, db, e))
            && Carries(next, e, head) && (ContextInPlace(m, next, e, head) <==> Traceable(m, db, e))
  {
    var captured, head := CaptureFor(db, e).value, HeadOf(db, e);
    CaptureStep(db, e);
    var inserted := InsertFor(m, captured, e);
    InsertStep(m, captured, e);
    NoSuccessorYet(db);
    assert e.action == Supersede ==> ChainOf(inserted, head) == [];
    assert e.action == BindExisting ==> ChainOf(inserted, head) == ChainOf(db, head);
    PersistFills(m, inserted, e, head);
  }

  lemma PersistFills(m: Manifest, db: Db, e: Entry, head: nat)
    requires WellFormed(db) && head in db.facts
    ensures var next := PersistContext(db, head, PersistedContext(e), m.reviewer, m.knowledgeAt, DefinitionId(e));
            && next.facts == db.facts && Carries(next, e, head)
            && (ContextInPlace(m, next, e, head)
                <==> ContextHead(db, head).None? || ContextHead(db, head).value.context != PersistedContext(e)
                     || ContextHead(db, head).value.definition != DefinitionId(e)
                     || (ContextHead(db, head).value.reviewer == m.reviewer
                         && ContextHead(db, head).value.knowledgeAt == m.knowledgeAt))
  {
    PersistGrows(db, head, PersistedContext(e), m.reviewer, m.knowledgeAt, DefinitionId(e));
  }

  lemma ApplyGrows(s: Surroundings, m: Manifest, p: Progress, e: Entry)
    requires WellFormed(p.db) && ApplyEntry(s, m, p, e).Success?
    ensures var q := ApplyEntry(s, m, p, e).value;
            WellFormed(q.db) && Grows(p.db, q.db)
  {
    WritingWrites(m, p.db, e);
  }

  lemma {:induction false} ApplyAllGrows(s: Surroundings, m: Manifest, db: Db, entries: seq<Entry>)
    requires WellFormed(db) && ApplyAll(s, m, db, entries).Success?
    ensures var p := ApplyAll(s, m, db, entries).value;
            WellFormed(p.db) && Grows(db, p.db)
  {
    if entries != [] {
      var init := entries[..|entries| - 1];
      ApplyAllGrows(s, m, db, init);
      ApplyGrows(s, m, ApplyAll(s, m, db, init).value, entries[|entries| - 1]);
      GrowsTransitive(db, ApplyAll(s, m, db, init).value.db, ApplyAll(s, m, db, entries).value.db);
    }
  }

  /** What validation has established about the tables. */
  ghost predicate Valid(pre: Db, e: Entry) {
    && e.predecessor in pre.facts && Successors(pre, e.predecessor) == {}
    && |ChainOf(pre, e.predecessor)| == e.contextRevision && pre.facts[e.predecessor].source == e.oldSource
    && (e.action == BindExisting ==> e.source == pre.facts[e.predecessor].source && e.amount == pre.facts[e.predecessor].amount)
    && (e.definition.Some? ==> |DefinitionsOf(pre, e.definition.value.root)| == e.definitionRevision)
    && (e.quarantined ==> e.predecessor !in pre.canonical)
  }

  lemma ValidatedIsValid(s: Surroundings, pre: Db, e: Entry)
    requires Validate(s, pre, e).None?
    ensures Valid(pre, e)
  {
  }

  // ---- At most once ----

  /** A valid entry whose step added a row is invalid ever after. */
  lemma ChangedEntryBlocks(s: Surroundings, m: Manifest, pre: Db, p: Progress, e: Entry, t: Surroundings, later: Db)
    requires WellFormed(pre) && WellFormed(p.db) && Grows(pre, p.db) && Valid(pre, e)
    requires ApplyEntry(s, m, p, e).Success? && !SameRows(p.db, ApplyEntry(s, m, p, e).value.db)
    requires Grows(ApplyEntry(s, m, p, e).value.db, later)
    ensures Validate(t, later, e).Some?
  {
    var q := ApplyEntry(s, m, p, e).value;
    StepWrites(s, m, p, e);
    if e.action == Supersede {
      SupersededBlocks(t, q.db, e, HeadOf(p.db, e), later);
    } else if e.definition.Some? {
      DefinedBlocks(t, pre, q.db, e, later);
    } else {
      BindLengthens(s, m, p, e);
      assert ChainOf(pre, e.predecessor) <= ChainOf(p.db, e.predecessor);
      LengthenedBlocks(t, pre, q.db, e, later);
    }
  }

  lemma BindLengthens(s: Surroundings, m: Manifest, p: Progress, e: Entry)
    requires WellFormed(p.db) && e.action == BindExisting && e.definition.None? && ApplyEntry(s, m, p, e).Success?
    requires !SameRows(p.db, ApplyEntry(s, m, p, e).value.db)
    ensures |ChainOf(ApplyEntry(s, m, p, e).value.db, e.predecessor)| > |ChainOf(p.db, e.predecessor)|
  {
    PersistGrows(p.db, e.predecessor, PersistedContext(e), m.reviewer, m.knowledgeAt, DefinitionId(e));
  }

  lemma SupersededBlocks(t: Surroundings, next: Db, e: Entry, head: nat, later: Db)
    requires head in Successors(next, e.predecessor) && Grows(next, later)
    ensures Validate(t, later, e).Some?
  {
    assert head in Successors(later, e.predecessor);
  }

  lemma LengthenedBlocks(t: Surroundings, pre: Db, next: Db, e: Entry, later: Db)
    requires |ChainOf(pre, e.predecessor)| == e.contextRevision && |ChainOf(next, e.predecessor)| > e.contextRevision
    requires Grows(next, later)
    ensures Validate(t, later, e).Some?
  {
    assert ChainOf(next, e.predecessor) <= ChainOf(later, e.predecessor);
  }

  lemma DefinedBlocks(t: Surroundings, pre: Db, next: Db, e: Entry, later: Db)
    requires e.definition.Some? && |DefinitionsOf(next, e.definition.value.root)| > e.definitionRevision
    requires Grows(next, later)
    ensures Validate(t, later, e).Some?
  {
    var root := e.definition.value.root;
    assert DefinitionsOf(next, root) <= DefinitionsOf(later, root);
  }

  // ---- Entries that change no row ----

  /** Writing the entry changes nothing: a binding without a definition whose context is stored already. */
  predicate Idle(m: Manifest, db: Db, e: Entry) {
    Written(m, db, e) == Success((db, e.predecessor))
  }

  /** Whether an entry is idle depends only on its fact's current context. */
  lemma IdleElsewhere(m: Manifest, db: Db, e: Entry, other: Db)
    requires WellFormed(db) && Idle(m, db, e)
    requires e.predecessor in other.facts && ChainOf(other, e.predecessor) == ChainOf(db, e.predecessor)
    ensures e.action == BindExisting && e.definition.None? && Idle(m, other, e)
  {
    WritingWrites(m, db, e);
    NoSuccessorYet(db);
    assert ContextHead(other, e.predecessor) == ContextHead(db, e.predecessor);
  }

  lemma StepAddsRow(s: Surroundings, m: Manifest, p: Progress, e: Entry)
    requires WellFormed(p.db) && ApplyEntry(s, m, p, e).Success? && (e.action == Supersede || e.definition.Some?)
    ensures !SameRows(p.db, ApplyEntry(s, m, p, e).value.db)
  {
    var q := ApplyEntry(s, m, p, e).value;
    StepWrites(s, m, p, e);
    NoSuccessorYet(p.db);
    if e.definition.Some? {
      assert DefinitionsOf(p.db, e.definition.value.root) != DefinitionsOf(q.db, e.definition.value.root);
    }
  }

  lemma StepIdles(s: Surroundings, m: Manifest, p: Progress, e: Entry)
    requires WellFormed(p.db) && ApplyEntry(s, m, p, e).Success?
    requires SameRows(p.db, ApplyEntry(s, m, p, e).value.db)
    ensures Idle(m, p.db, e) && s.resolves(e)
  {
    if e.action == Supersede || e.definition.Some? {
      StepAddsRow(s, m, p, e);
    }
    PersistGrows(p.db, e.predecessor, PersistedContext(e), m.reviewer, m.knowledgeAt, DefinitionId(e));
  }

  function Facts(entries: seq<Entry>): set<nat> {
    set e | e in entries :: e.predecessor
  }

  predicate AllIdle(s: Surroundings, m: Manifest, db: Db, entries: seq<Entry>) {
    forall i :: 0 <= i < |entries| ==> Idle(m, db, entries[i]) && s.resolves(entries[i])
  }

  /** Idle entries only make their facts canonical. */
  lemma {:induction false} IdleRun(s: Surroundings, m: Manifest, db: Db, entries: seq<Entry>)
    requires WellFormed(db) && AllIdle(s, m, db, entries)
    ensures ApplyAll(s, m, db, entries).Success?
    ensures ApplyAll(s, m, db, entries).value.db == db.(canonical := db.canonical + Facts(entries))
  {
    if entries == [] {
      assert db.canonical + Facts(entries) == db.canonical;
    } else {
      var init, e := entries[..|entries| - 1], entries[|entries| - 1];
      assert entries == init + [e];
      IdleRun(s, m, db, init);
      assert Idle(m, db, e) && s.resolves(e);
      IdleStep(s, m, db, ApplyAll(s, m, db, init).value, e);
      FactsOfMore(init, e);
    }
  }

  lemma IdleStep(s: Surroundings, m: Manifest, db: Db, p: Progress, e: Entry)
    requires WellFormed(db) && Idle(m, db, e) && s.resolves(e) && p.db == db.(canonical := p.db.canonical)
    ensures ApplyEntry(s, m, p, e).Success?
    ensures ApplyEntry(s, m, p, e).value.db == db.(canonical := p.db.canonical + {e.predecessor})
  {
    IdleElsewhere(m, db, e, p.db);
  }

  lemma FactsOfMore(init: seq<Entry>, e: Entry)
    ensures Facts(init + [e]) == Facts(init) + {e.predecessor}
  {
    assert e in init + [e];
    forall f | f in Facts(init) ensures f in Facts(init + [e]) {
      var d :| d in init && d.predecessor == f;
      assert d in init + [e];
    }
  }

  /** A run that added a row leaves some entry invalid ever after; otherwise all its entries are idle. */
  lemma {:induction false} BlocksOrIdles(s: Surroundings, m: Manifest, pre: Db, entries: seq<Entry>, t: Surroundings,
      later: Db)
    requires WellFormed(pre) && FirstBlocker(s, pre, entries).None? && ApplyAll(s, m, pre, entries).Success?
    requires Grows(ApplyAll(s, m, pre, entries).value.db, later)
    ensures FirstBlocker(t, later, entries).Some? || AllIdle(s, m, pre, entries)
  {
    if entries != [] {
      var init, e := entries[..|entries| - 1], entries[|entries| - 1];
      var p := ApplyAll(s, m, pre, init).value;
      ApplyAllGrows(s, m, pre, init);
      assert Grows(p.db, later) by {
        ApplyGrows(s, m, p, e);
        GrowsTransitive(p.db, ApplyEntry(s, m, p, e).value.db, later);
      }
      BlocksOrIdles(s, m, pre, init, t, later);
      if AllIdle(s, m, pre, init) {
        LastBlocksOrIdles(s, m, pre, init, e, t, later);
        assert entries == init + [e];
      }
    }
  }

  lemma LastBlocksOrIdles(s: Surroundings, m: Manifest, pre: Db, init: seq<Entry>, e: Entry, t: Surroundings, later: Db)
    requires WellFormed(pre) && AllIdle(s, m, pre, init) && Validate(s, pre, e).None? && ApplyAll(s, m, pre, init).Success?
    requires var p := ApplyAll(s, m, pre, init).value;
             && WellFormed(p.db) && Grows(pre, p.db)
             && ApplyEntry(s, m, p, e).Success? && Grows(ApplyEntry(s, m, p, e).value.db, later)
    ensures Validate(t, later, e).Some? || AllIdle(s, m, pre, init + [e])
  {
    var p := ApplyAll(s, m, pre, init).value;
    if SameRows(p.db, ApplyEntry(s, m, p, e).value.db) {
      IdleNext(s, m, pre, init, e);
    } else {
      ValidatedIsValid(s, pre, e);
      ChangedEntryBlocks(s, m, pre, p, e, t, later);
    }
  }

  lemma IdleNext(s: Surroundings, m: Manifest, pre: Db, init: seq<Entry>, e: Entry)
    requires WellFormed(pre) && AllIdle(s, m, pre, init) && ApplyAll(s, m, pre, init).Success?
    requires var p := ApplyAll(s, m, pre, init).value;
             ApplyEntry(s, m, p, e).Success? && SameRows(p.db, ApplyEntry(s, m, p, e).value.db)
    ensures AllIdle(s, m, pre, init + [e])
  {
    var p := ApplyAll(s, m, pre, init).value;
    IdleRun(s, m, pre, init);
    StepIdles(s, m, p, e);
    IdleElsewhere(m, p.db, e, pre);
    assert p.db.(canonical := pre.canonical) == pre;
  }

  /** At most once: after a commit that added rows, however the tables grow and whatever else changes, the manifest
      never commits again. */
  lemma CommittedRowsBlockForever(s: Surroundings, m: Manifest, db: Db, t: Surroundings, later: Db)
    requires WellFormed(db) && Transaction(s, m, db).Success? && !SameRows(db, Transaction(s, m, db).value.db)
    requires Grows(Transaction(s, m, db).value.db, later)
    ensures Transaction(t, m, later).Failure?
  {
    BlocksOrIdles(s, m, db, m.entries, t, later);
    if FirstBlocker(t, later, m.entries).None? {
      IdleRun(s, m, db, m.entries);
    }
  }

  /** The manifest has nothing more to add: it is blocked, or all its entries are idle and their facts canonical. */
  ghost predicate Settled(s: Surroundings, m: Manifest, db: Db) {
    FirstBlocker(s, db, m.entries).Some? || (AllIdle(s, m, db, m.entries) && Facts(m.entries) <= db.canonical)
  }

  lemma CommitSettles(s: Surroundings, m: Manifest, db: Db)
    requires WellFormed(db) && Transaction(s, m, db).Success?
    ensures Settled(s, m, Transaction(s, m, db).value.db)
  {
    var next := Transaction(s, m, db).value.db;
    ApplyAllGrows(s, m, db, m.entries);
    BlocksOrIdles(s, m, db, m.entries, s, next);
    if AllIdle(s, m, db, m.entries) {
      IdleRun(s, m, db, m.entries);
      forall i | 0 <= i < |m.entries| ensures Idle(m, next, m.entries[i]) && s.resolves(m.entries[i]) {
        IdleElsewhere(m, db, m.entries[i], next);
      }
    }
  }

  lemma SettledChangesNothing(s: Surroundings, m: Manifest, db: Db)
    requires WellFormed(db) && Settled(s, m, db)
    ensures Transaction(s, m, db).Success? ==> Transaction(s, m, db).value.db == db
  {
    if AllIdle(s, m, db, m.entries) {
      IdleRun(s, m, db, m.entries);
      if Facts(m.entries) <= db.canonical {
        assert db.canonical + Facts(m.entries) == db.canonical;
      }
    }
  }

  /** The transaction is idempotent: run again on what it has committed, it is blocked or changes nothing at all. */
  lemma SecondCommitChangesNothing(s: Surroundings, m: Manifest, db: Db)
    requires WellFormed(db) && Transaction(s, m, db).Success?
    ensures var next := Transaction(s, m, db).value.db;
            Transaction(s, m, next).Success? ==> Transaction(s, m, next).value.db == next
  {
    ApplyAllGrows(s, m, db, m.entries);
    CommitSettles(s, m, db);
    SettledChangesNothing(s, m, Transaction(s, m, db).value.db);
  }

  // ---- Writers that have nothing to do with the manifest ----

  /** A fact that an entry names, or a successor of one. */
  ghost predicate Involved(m: Manifest, db: Db, fact: nat) {
    exists i :: 0 <= i < |m.entries| && (fact == m.entries[i].predecessor || fact in Successors(db, m.entries[i].predecessor))
  }

  ghost predicate FactsExist(m: Manifest, db: Db) {
    forall i :: 0 <= i < |m.entries| ==> m.entries[i].predecessor in db.facts
  }

  /** Between the two states, only rows of other facts and other definitions have been added. */
  ghost predicate LeavesAlone(m: Manifest, db: Db, later: Db) {
    && WellFormed(later) && Grows(db, later)
    && (forall f: nat :: Involved(m, db, f) ==> SameFact(db, later, f))
    && (forall i :: 0 <= i < |m.entries| && m.entries[i].definition.Some? ==>
          var root := m.entries[i].definition.value.root; DefinitionsOf(later, root) == DefinitionsOf(db, root))
  }

  ghost predicate SameFact(db: Db, later: Db, fact: nat) {
    ChainOf(later, fact) == ChainOf(db, fact) && Successors(later, fact) == Successors(db, fact)
    && (fact in later.canonical <==> fact in db.canonical)
  }

  lemma PostconditionKept(s: Surroundings, m: Manifest, db: Db, later: Db, i: nat, head: nat)
    requires FactsExist(m, db) && LeavesAlone(m, db, later) && i < |m.entries|
    ensures Postcondition(s, m, later, m.entries[i], head) <==> Postcondition(s, m, db, m.entries[i], head)
  {
    var e := m.entries[i];
    assert Involved(m, db, e.predecessor);
    assert SameFact(db, later, e.predecessor);
    if Postcondition(s, m, later, e, head) || Postcondition(s, m, db, e, head) {
      assert head == e.predecessor || head in Successors(db, e.predecessor);
      assert Involved(m, db, head);
      assert SameFact(db, later, head) && head in db.facts;
    }
  }

  lemma DetectKept(s: Surroundings, m: Manifest, db: Db, later: Db)
    requires FactsExist(m, db) && LeavesAlone(m, db, later)
    ensures Detect(s, m, later, m.entries) == Detect(s, m, db, m.entries)
  {
    forall heads: seq<nat>
      ensures Detect(s, m, later, m.entries) == Some(heads) <==> Detect(s, m, db, m.entries) == Some(heads)
    {
      DetectHeads(s, m, db, m.entries, heads);
      DetectHeads(s, m, later, m.entries, heads);
      forall i | 0 <= i < |m.entries| && |heads| == |m.entries|
        ensures Postcondition(s, m, later, m.entries[i], heads[i]) <==> Postcondition(s, m, db, m.entries[i], heads[i])
      {
        PostconditionKept(s, m, db, later, i, heads[i]);
      }
    }
    var found, still := Detect(s, m, db, m.entries), Detect(s, m, later, m.entries);
    assert found.Some? ==> still == Some(found.value);
    assert still.Some? ==> found == Some(still.value);
  }

  lemma ValidateKept(s: Surroundings, m: Manifest, db: Db, later: Db, i: nat)
    requires FactsExist(m, db) && LeavesAlone(m, db, later) && i < |m.entries|
    ensures Validate(s, later, m.entries[i]) == Validate(s, db, m.entries[i])
  {
    var e := m.entries[i];
    assert Involved(m, db, e.predecessor);
    SameTablesValidate(s, db, later, e);
  }

  lemma SameTablesValidate(s: Surroundings, db: Db, later: Db, e: Entry)
    requires e.predecessor in db.facts && e.predecessor in later.facts && db.facts[e.predecessor] == later.facts[e.predecessor]
    requires SameFact(db, later, e.predecessor)
    requires e.definition.Some? ==>
               DefinitionsOf(later, e.definition.value.root) == DefinitionsOf(db, e.definition.value.root)
    ensures Validate(s, later, e) == Validate(s, db, e)
  {
    assert ContextHead(later, e.predecessor) == ContextHead(db, e.predecessor);
    assert ContextExpected(later, e) == ContextExpected(db, e);
    if e.definition.Some? {
      var root := e.definition.value.root;
      assert DefinitionHead(later, root) == DefinitionHead(db, root);
    }
  }

  lemma SettledStays(s: Surroundings, m: Manifest, db: Db, later: Db)
    requires WellFormed(db) && FactsExist(m, db) && LeavesAlone(m, db, later) && Settled(s, m, db)
    ensures Settled(s, m, later)
  {
    forall i | 0 <= i < |m.entries|
      ensures Validate(s, later, m.entries[i]) == Validate(s, db, m.entries[i])
      ensures SameFact(db, later, m.entries[i].predecessor)
    {
      ValidateKept(s, m, db, later, i);
      assert Involved(m, db, m.entries[i].predecessor);
    }
    AllValid(s, db, m.entries);
    AllValid(s, later, m.entries);
    if FirstBlocker(s, db, m.entries).None? {
      forall i | 0 <= i < |m.entries| ensures Idle(m, later, m.entries[i]) && s.resolves(m.entries[i]) {
        IdleElsewhere(m, db, m.entries[i], later);
      }
      forall f | f in Facts(m.entries) ensures f in later.canonical {
        var e :| e in m.entries && e.predecessor == f;
        var i :| 0 <= i < |m.entries| && m.entries[i] == e;
        assert SameFact(db, later, f);
      }
    }
  }

  // ---- A commit is recognised ----

  /** The entry's predecessor is as it was before the transaction. */
  ghost predicate Untouched(pre: Db, db: Db, e: Entry) {
    && ChainOf(db, e.predecessor) == ChainOf(pre, e.predecessor) && Successors(db, e.predecessor) == {}
    && (e.quarantined ==> e.predecessor !in db.canonical)
  }

  ghost predicate DefinitionLanded(pre: Db, db: Db, e: Entry) {
    e.definition.Some? ==>
      var root := e.definition.value.root;
      DefinitionHead(db, root) == e.definition && |DefinitionsOf(db, root)| > |DefinitionsOf(pre, root)|
  }

  ghost predicate FactLanded(m: Manifest, pre: Db, db: Db, e: Entry, head: nat) {
    && head in db.facts && Successors(db, head) == {} && ExactFact(m, db, e, head)
    && (e.action == Supersede ==> head >= pre.nextFact)
  }

  ghost predicate PredecessorKept(pre: Db, db: Db, e: Entry) {
    && (e.action == Supersede ==> ChainOf(db, e.predecessor) == ChainOf(pre, e.predecessor))
    && (e.quarantined ==> e.predecessor !in db.canonical)
  }

  /** The entry's result is in place, all but its resolution, and its context is the manifest's if it is traceable. */
  ghost predicate Landed(m: Manifest, pre: Db, db: Db, e: Entry, head: nat) {
    && FactLanded(m, pre, db, e, head) && DefinitionLanded(pre, db, e) && PredecessorKept(pre, db, e)
    && Carries(db, e, head) && (ContextInPlace(m, db, e, head) <==> Traceable(m, pre, e))
  }

  lemma NoSuccessorYet(db: Db)
    requires WellFormed(db)
    ensures Successors(db, db.nextFact) == {} && db.nextFact !in db.facts && ChainOf(db, db.nextFact) == []
  {
  }

  lemma ResolveKeepsRows(db: Db, fact: nat, replaced: Option<nat>)
    ensures var q := Resolve(db, fact, replaced);
            && SameRows(q, db) && q.nextFact == db.nextFact
            && (forall f: nat :: Successors(q, f) == Successors(db, f) && ChainOf(q, f) == ChainOf(db, f))
            && (forall root :: DefinitionsOf(q, root) == DefinitionsOf(db, root))
  {
    SameSuccessors(Resolve(db, fact, replaced), db);
  }

  /** The tables after an entry's step are those it wrote. */
  lemma StepWrites(s: Surroundings, m: Manifest, p: Progress, e: Entry)
    requires WellFormed(p.db) && ApplyEntry(s, m, p, e).Success?
    ensures var q := ApplyEntry(s, m, p, e).value;
            && WellFormed(q.db) && Grows(p.db, q.db) && p.db.nextFact <= q.db.nextFact && HeadOf(p.db, e) in q.db.facts
            && WroteChains(p.db, e, q.db) && WroteSuccessors(p.db, e, q.db)
            && WroteDefinitions(p.db, e, q.db) && WroteDefinition(p.db, e, q.db)
            && q.db.canonical <= p.db.canonical + {HeadOf(p.db, e)}
            && e.predecessor in p.db.facts && q.heads == p.heads + [HeadOf(p.db, e)]
  {
    WritingWrites(m, p.db, e);
    var (next, head) := Written(m, p.db, e).value;
    ResolveKeepsRows(next, head, if e.action == Supersede then Some(e.predecessor) else None);
  }

  lemma SameChainsFill(m: Manifest, a: Db, b: Db, e: Entry, head: nat)
    requires a.contexts == b.contexts
    ensures Carries(a, e, head) <==> Carries(b, e, head)
    ensures ContextInPlace(m, a, e, head) <==> ContextInPlace(m, b, e, head)
  {
    assert ContextHead(a, head) == ContextHead(b, head);
  }

  lemma StepFills(s: Surroundings, m: Manifest, p: Progress, e: Entry)
    requires WellFormed(p.db) && ApplyEntry(s, m, p, e).Success?
    ensures var q, head := ApplyEntry(s, m, p, e).value, HeadOf(p.db, e);
            && (e.action == Supersede ==> head in q.db.facts && q.db.facts[head] == ResultFact(m, p.db, e))
            && Carries(q.db, e, head) && (ContextInPlace(m, q.db, e, head) <==> Traceable(m, p.db, e))
  {
    WritingWrites(m, p.db, e);
    WritingFills(m, p.db, e);
    var (next, head) := Written(m, p.db, e).value;
    SameChainsFill(m, next, ApplyEntry(s, m, p, e).value.db, e, head);
  }

  lemma StepLands(s: Surroundings, m: Manifest, pre: Db, p: Progress, e: Entry)
    requires WellFormed(pre) && WellFormed(p.db) && Grows(pre, p.db) && pre.nextFact <= p.db.nextFact
    requires Valid(pre, e) && Untouched(pre, p.db, e)
    requires (e.quarantined ==> e.action == Supersede) && ApplyEntry(s, m, p, e).Success?
    ensures Landed(m, pre, ApplyEntry(s, m, p, e).value.db, e, HeadOf(p.db, e))
  {
    var q, head := ApplyEntry(s, m, p, e).value, HeadOf(p.db, e);
    StepWrites(s, m, p, e);
    StepFills(s, m, p, e);
    FactLands(s, m, pre, p.db, e, q.db);
    TraceableStays(m, pre, p.db, e);
    DefinitionLands(pre, p.db, e, q.db);
    if e.action == Supersede {
      NoSuccessorYet(p.db);
      assert ChainOf(q.db, e.predecessor) == ChainOf(p.db, e.predecessor);
    }
  }

  lemma TraceableStays(m: Manifest, pre: Db, db: Db, e: Entry)
    requires ChainOf(db, e.predecessor) == ChainOf(pre, e.predecessor)
    ensures Traceable(m, db, e) <==> Traceable(m, pre, e)
  {
    assert ContextHead(db, e.predecessor) == ContextHead(pre, e.predecessor);
  }

  lemma DefinitionLands(pre: Db, db: Db, e: Entry, next: Db)
    requires Grows(pre, db) && WroteDefinition(db, e, next)
    ensures DefinitionLanded(pre, next, e)
  {
    if e.definition.Some? {
      assert DefinitionsOf(pre, e.definition.value.root) <= DefinitionsOf(db, e.definition.value.root);
    }
  }

  lemma FactLands(s: Surroundings, m: Manifest, pre: Db, db: Db, e: Entry, next: Db)
    requires WellFormed(pre) && WellFormed(db) && Grows(pre, db) && pre.nextFact <= db.nextFact && Grows(db, next)
    requires Valid(pre, e) && Successors(db, e.predecessor) == {} && WroteSuccessors(db, e, next)
    requires HeadOf(db, e) in next.facts && e.predecessor in db.facts
    requires e.action == Supersede ==> next.facts[HeadOf(db, e)] == ResultFact(m, db, e)
    ensures FactLanded(m, pre, next, e, HeadOf(db, e))
  {
    NoSuccessorYet(db);
    var head := HeadOf(db, e);
    assert Successors(next, head) == {};
    assert e.action == Supersede ==> Successors(next, e.predecessor) == {head};
    assert pre.facts[e.predecessor] == db.facts[e.predecessor] == next.facts[e.predecessor];
  }

  /** Two entries on different facts, one applied after the other, do not disturb each other. */
  lemma StepKeepsLanded(s: Surroundings, m: Manifest, pre: Db, p: Progress, e: Entry, head: nat, d: Entry)
    requires WellFormed(pre) && WellFormed(p.db) && Grows(pre, p.db) && pre.nextFact <= p.db.nextFact
    requires Valid(pre, d) && ApplyEntry(s, m, p, d).Success? && e.predecessor != d.predecessor
    requires Landed(m, pre, p.db, e, head) && e.predecessor in pre.facts
    ensures Landed(m, pre, ApplyEntry(s, m, p, d).value.db, e, head)
  {
    var q := ApplyEntry(s, m, p, d).value;
    StepWrites(s, m, p, d);
    assert head < p.db.nextFact && e.predecessor < pre.nextFact && d.predecessor < pre.nextFact;
    FactKept(m, pre, p.db, e, head, d, q.db);
    ContextKept(m, p.db, e, head, d, q.db);
    KeepsDefinition(s, pre, p.db, e, d, q.db);
  }

  lemma ContextKept(m: Manifest, db: Db, e: Entry, head: nat, d: Entry, next: Db)
    requires WroteChains(db, d, next) && head != HeadOf(db, d)
    ensures Carries(next, e, head) <==> Carries(db, e, head)
    ensures ContextInPlace(m, next, e, head) <==> ContextInPlace(m, db, e, head)
  {
    assert ChainOf(next, head) == ChainOf(db, head);
  }

  lemma FactKept(m: Manifest, pre: Db, db: Db, e: Entry, head: nat, d: Entry, next: Db)
    requires FactLanded(m, pre, db, e, head) && Grows(db, next) && WroteSuccessors(db, d, next)
    requires head != d.predecessor && e.predecessor != d.predecessor
    ensures FactLanded(m, pre, next, e, head)
  {
    assert Successors(next, head) == Successors(db, head);
    assert Successors(next, e.predecessor) == Successors(db, e.predecessor);
  }

  /** A definition that has landed makes a second one for its root fail, so the others leave it alone. */
  lemma KeepsDefinition(s: Surroundings, pre: Db, db: Db, e: Entry, d: Entry, next: Db)
    requires Valid(pre, d) && WroteDefinition(db, d, next) && DefinitionLanded(pre, db, e)
    requires WroteDefinitions(db, d, next)
    ensures DefinitionLanded(pre, next, e)
  {
    if e.definition.Some? {
      assert d.definition.Some? ==> e.definition.value.root != d.definition.value.root;
      assert DefinitionsOf(next, e.definition.value.root) == DefinitionsOf(db, e.definition.value.root);
    }
  }

  lemma StepKeepsUntouched(s: Surroundings, m: Manifest, pre: Db, p: Progress, e: Entry, d: Entry)
    requires WellFormed(pre) && WellFormed(p.db) && Grows(pre, p.db)
    requires ApplyEntry(s, m, p, d).Success? && e.predecessor != d.predecessor
    requires Untouched(pre, p.db, e) && e.predecessor in pre.facts
    ensures Untouched(pre, ApplyEntry(s, m, p, d).value.db, e)
  {
    StepWrites(s, m, p, d);
    var q := ApplyEntry(s, m, p, d).value;
    assert e.predecessor in p.db.facts && e.predecessor < p.db.nextFact;
    assert Successors(q.db, e.predecessor) == Successors(p.db, e.predecessor);
    assert ChainOf(q.db, e.predecessor) == ChainOf(p.db, e.predecessor);
  }

  /** Bindings that ask for the same context and definition. */
  predicate Twins(d: Entry, e: Entry) {
    d.action == e.action == BindExisting && PersistedContext(d) == PersistedContext(e) && DefinitionId(d) == DefinitionId(e)
  }

  /** Two entries on one fact are bindings that ask for the same. */
  ghost predicate Compatible(entries: seq<Entry>) {
    forall i, j :: 0 <= i < j < |entries| && entries[i].predecessor == entries[j].predecessor ==> Twins(entries[i], entries[j])
  }

  /** One of the first k entries is on the fact too. */
  ghost predicate Repeats(entries: seq<Entry>, fact: nat, k: nat)
    requires k <= |entries|
  {
    exists j :: 0 <= j < k && entries[j].predecessor == fact
  }

  /** A binding that an earlier one has already provided for changes no row. */
  lemma TwinChangesNothing(s: Surroundings, m: Manifest, pre: Db, p: Progress, d: Entry, head: nat, e: Entry)
    requires Landed(m, pre, p.db, d, head) && Twins(d, e) && d.predecessor == e.predecessor
    requires ApplyEntry(s, m, p, e).Success?
    ensures var q := ApplyEntry(s, m, p, e).value;
            && e.definition.None? && head == e.predecessor && q.heads == p.heads + [head]
            && q.db == p.db.(canonical := p.db.canonical + {head})
  {
    if e.definition.Some? {
      assert d.definition.value in p.db.definitions[d.definition.value.root];
      assert DefinitionKnown(p.db, e.definition.value.id);
    }
  }

  /** Results stay in place when another fact becomes canonical. */
  lemma CanonicalKeepsLanded(m: Manifest, pre: Db, db: Db, e: Entry, head: nat, fact: nat)
    requires Landed(m, pre, db, e, head) && (e.quarantined ==> e.predecessor != fact)
    ensures Landed(m, pre, db.(canonical := db.canonical + {fact}), e, head)
  {
    SameSuccessors(db, db.(canonical := db.canonical + {fact}));
  }

  lemma TwinLands(m: Manifest, pre: Db, db: Db, d: Entry, head: nat, e: Entry)
    requires Landed(m, pre, db, d, head) && Twins(d, e) && d.predecessor == e.predecessor && e.definition.None?
    requires Grows(pre, db) && Valid(pre, e) && !e.quarantined
    ensures Landed(m, pre, db.(canonical := db.canonical + {head}), e, head)
  {
    SameSuccessors(db, db.(canonical := db.canonical + {head}));
    assert ContextHead(pre, e.predecessor) == ContextHead(pre, d.predecessor);
    assert Traceable(m, pre, e) <==> Traceable(m, pre, d);
    assert pre.facts[e.predecessor] == db.facts[head];
  }

  /** After the first k entries: their results are in place, and the facts that only other entries name are
      untouched. */
  ghost predicate LandedUpTo(m: Manifest, pre: Db, p: Progress, k: nat) {
    && k <= |m.entries| && WellFormed(p.db) && Grows(pre, p.db) && pre.nextFact <= p.db.nextFact
    && ResultsLanded(m, pre, p, k) && OthersUntouched(m, pre, p.db, k)
  }

  ghost predicate ResultsLanded(m: Manifest, pre: Db, p: Progress, k: nat)
    requires k <= |m.entries|
  {
    |p.heads| == k && forall i :: 0 <= i < k ==> Landed(m, pre, p.db, m.entries[i], p.heads[i])
  }

  ghost predicate OthersUntouched(m: Manifest, pre: Db, db: Db, k: nat)
    requires k <= |m.entries|
  {
    forall i :: k <= i < |m.entries| ==>
      Untouched(pre, db, m.entries[i]) || Repeats(m.entries, m.entries[i].predecessor, k)
  }

  lemma NewFactLandsNext(s: Surroundings, m: Manifest, pre: Db, p: Progress, k: nat)
    requires WellFormed(pre) && Shaped(m) && FirstBlocker(s, pre, m.entries).None?
    requires k < |m.entries| && LandedUpTo(m, pre, p, k) && ApplyEntry(s, m, p, m.entries[k]).Success?
    requires !Repeats(m.entries, m.entries[k].predecessor, k)
    ensures LandedUpTo(m, pre, ApplyEntry(s, m, p, m.entries[k]).value, k + 1)
  {
    AllValid(s, pre, m.entries);
    var d, q := m.entries[k], ApplyEntry(s, m, p, m.entries[k]).value;
    StepWrites(s, m, p, d);
    GrowsTransitive(pre, p.db, q.db);
    assert Validate(s, pre, d).None?;
    ValidatedIsValid(s, pre, d);
    StepLands(s, m, pre, p, d);
    forall i | 0 <= i < k ensures Landed(m, pre, q.db, m.entries[i], q.heads[i]) {
      ValidatedIsValid(s, pre, m.entries[i]);
      StepKeepsLanded(s, m, pre, p, m.entries[i], p.heads[i], d);
    }
    forall i | k < i < |m.entries|
      ensures Untouched(pre, q.db, m.entries[i]) || Repeats(m.entries, m.entries[i].predecessor, k + 1)
    {
      ValidatedIsValid(s, pre, m.entries[i]);
      if m.entries[i].predecessor != d.predecessor && !Repeats(m.entries, m.entries[i].predecessor, k) {
        StepKeepsUntouched(s, m, pre, p, m.entries[i], d);
      }
    }
  }

  lemma TwinLandsNext(s: Surroundings, m: Manifest, pre: Db, p: Progress, k: nat, j: nat)
    requires Shaped(m) && Compatible(m.entries) && FirstBlocker(s, pre, m.entries).None?
    requires k < |m.entries| && LandedUpTo(m, pre, p, k) && ApplyEntry(s, m, p, m.entries[k]).Success?
    requires j < k && m.entries[j].predecessor == m.entries[k].predecessor
    ensures LandedUpTo(m, pre, ApplyEntry(s, m, p, m.entries[k]).value, k + 1)
  {
    var d := m.entries[k];
    AllValid(s, pre, m.entries);
    assert Validate(s, pre, d).None?;
    ValidatedIsValid(s, pre, d);
    TwinChangesNothing(s, m, pre, p, m.entries[j], p.heads[j], d);
    TwinExtends(m, pre, p, k, j, ApplyEntry(s, m, p, d).value);
  }

  lemma TwinExtends(m: Manifest, pre: Db, p: Progress, k: nat, j: nat, q: Progress)
    requires Shaped(m) && Compatible(m.entries) && j < k < |m.entries| && LandedUpTo(m, pre, p, k)
    requires var d := m.entries[k];
             && m.entries[j].predecessor == d.predecessor && d.definition.None? && Valid(pre, d)
             && p.heads[j] == d.predecessor && q.heads == p.heads + [d.predecessor]
             && q.db == p.db.(canonical := p.db.canonical + {d.predecessor})
    ensures LandedUpTo(m, pre, q, k + 1)
  {
    TwinKeepsLanded(m, pre, p, k, j, q);
    CanonicalKeepsUntouched(m, pre, p.db, k, m.entries[k].predecessor);
    CanonicalKeepsTables(pre, p.db, q.db.canonical);
  }

  lemma CanonicalKeepsTables(pre: Db, db: Db, canonical: set<nat>)
    requires WellFormed(db) && Grows(pre, db)
    ensures WellFormed(db.(canonical := canonical)) && Grows(pre, db.(canonical := canonical))
  {
  }

  lemma TwinKeepsLanded(m: Manifest, pre: Db, p: Progress, k: nat, j: nat, q: Progress)
    requires Shaped(m) && Compatible(m.entries) && j < k < |m.entries| && ResultsLanded(m, pre, p, k) && Grows(pre, p.db)
    requires var d := m.entries[k];
             && m.entries[j].predecessor == d.predecessor && d.definition.None? && Valid(pre, d)
             && p.heads[j] == d.predecessor && q.heads == p.heads + [d.predecessor]
             && q.db == p.db.(canonical := p.db.canonical + {d.predecessor})
    ensures ResultsLanded(m, pre, q, k + 1)
  {
    var d := m.entries[k];
    TwinLands(m, pre, p.db, m.entries[j], p.heads[j], d);
    forall i | 0 <= i < k ensures Landed(m, pre, q.db, m.entries[i], q.heads[i]) {
      assert m.entries[i].predecessor == d.predecessor ==> Twins(m.entries[i], d);
      CanonicalKeepsLanded(m, pre, p.db, m.entries[i], p.heads[i], d.predecessor);
    }
  }

  lemma CanonicalKeepsUntouched(m: Manifest, pre: Db, db: Db, k: nat, fact: nat)
    requires k < |m.entries| && OthersUntouched(m, pre, db, k) && Repeats(m.entries, fact, k)
    ensures OthersUntouched(m, pre, db.(canonical := db.canonical + {fact}), k + 1)
  {
    SameSuccessors(db, db.(canonical := db.canonical + {fact}));
    forall i | k < i < |m.entries|
      ensures Untouched(pre, db.(canonical := db.canonical + {fact}), m.entries[i])
              || Repeats(m.entries, m.entries[i].predecessor, k + 1)
    {
      assert Repeats(m.entries, m.entries[i].predecessor, k) ==> Repeats(m.entries, m.entries[i].predecessor, k + 1);
    }
  }

  lemma {:induction false} EntriesLand(s: Surroundings, m: Manifest, pre: Db, k: nat)
    requires WellFormed(pre) && Shaped(m) && Compatible(m.entries) && FirstBlocker(s, pre, m.entries).None?
    requires k <= |m.entries| && ApplyAll(s, m, pre, m.entries[..k]).Success?
    ensures LandedUpTo(m, pre, ApplyAll(s, m, pre, m.entries[..k]).value, k)
  {
    if k == 0 {
      AllValid(s, pre, m.entries);
      assert m.entries[..k] == [];
      forall i | 0 <= i < |m.entries| ensures Untouched(pre, pre, m.entries[i]) {
        ValidatedIsValid(s, pre, m.entries[i]);
      }
    } else {
      assert m.entries[..k][..k - 1] == m.entries[..k - 1];
      EntriesLand(s, m, pre, k - 1);
      var p := ApplyAll(s, m, pre, m.entries[..k - 1]).value;
      if Repeats(m.entries, m.entries[k - 1].predecessor, k - 1) {
        var j: nat :| j < k - 1 && m.entries[j].predecessor == m.entries[k - 1].predecessor;
        TwinLandsNext(s, m, pre, p, k - 1, j);
      } else {
        NewFactLandsNext(s, m, pre, p, k - 1);
      }
    }
  }

  lemma LandedHolds(s: Surroundings, m: Manifest, pre: Db, db: Db, e: Entry, head: nat)
    requires Validate(s, pre, e).None? && Grows(pre, db) && Landed(m, pre, db, e, head) && head in db.canonical
    requires e.quarantined ==> e.action == Supersede
    ensures Postcondition(s, m, db, e, head) <==> Traceable(m, pre, e)
  {
    assert ContextHead(db, e.predecessor) == ContextHead(pre, e.predecessor) || e.action == BindExisting;
  }

  ghost predicate AllTraceable(m: Manifest, db: Db) {
    forall i :: 0 <= i < |m.entries| ==> Traceable(m, db, m.entries[i])
  }

  /** The heads after a commit, entry by entry: an entry's postcondition holds of its own head, and of no other, exactly
      if it is traceable. */
  lemma CommittedHeads(s: Surroundings, m: Manifest, db: Db, i: nat, head: nat)
    requires WellFormed(db) && Shaped(m) && Compatible(m.entries) && Transaction(s, m, db).Success? && i < |m.entries|
    ensures var p := Transaction(s, m, db).value;
            |p.heads| == |m.entries|
            && (Postcondition(s, m, p.db, m.entries[i], head) <==> head == p.heads[i] && Traceable(m, db, m.entries[i]))
  {
    var p := Transaction(s, m, db).value;
    assert m.entries[..|m.entries|] == m.entries;
    EntriesLand(s, m, db, |m.entries|);
    AllValid(s, db, m.entries);
    assert p.heads[i] in p.heads;
    LandedHolds(s, m, db, p.db, m.entries[i], p.heads[i]);
    assert ExactFact(m, p.db, m.entries[i], p.heads[i]);
  }

  lemma CompatibleDetectedIff(s: Surroundings, m: Manifest, db: Db)
    requires WellFormed(db) && Shaped(m) && Compatible(m.entries) && Transaction(s, m, db).Success?
    ensures var p := Transaction(s, m, db).value;
            Detect(s, m, p.db, m.entries) == if AllTraceable(m, db) then Some(p.heads) else None
  {
    var p := Transaction(s, m, db).value;
    var found := Detect(s, m, p.db, m.entries);
    DetectHeads(s, m, p.db, m.entries, p.heads);
    assert |p.heads| == |m.entries| by {
      assert m.entries[..|m.entries|] == m.entries;
      EntriesLand(s, m, db, |m.entries|);
    }
    forall i | 0 <= i < |m.entries|
      ensures Postcondition(s, m, p.db, m.entries[i], p.heads[i]) <==> Traceable(m, db, m.entries[i])
    {
      CommittedHeads(s, m, db, i, p.heads[i]);
    }
    if found.Some? {
      DetectHeads(s, m, p.db, m.entries, found.value);
      forall i | 0 <= i < |m.entries| ensures Traceable(m, db, m.entries[i]) {
        CommittedHeads(s, m, db, i, found.value[i]);
      }
    }
  }

  // ---- Entries on one fact ----

  lemma {:induction false} SupersededRemains(s: Surroundings, m: Manifest, db: Db, entries: seq<Entry>, i: nat)
    requires WellFormed(db) && ApplyAll(s, m, db, entries).Success?
    requires i < |entries| && entries[i].action == Supersede
    ensures Successors(ApplyAll(s, m, db, entries).value.db, entries[i].predecessor) != {}
  {
    var last := |entries| - 1;
    var p, q := ApplyAll(s, m, db, entries[..last]).value, ApplyAll(s, m, db, entries).value;
    ApplyAllGrows(s, m, db, entries[..last]);
    StepWrites(s, m, p, entries[last]);
    if i == last {
      assert HeadOf(p.db, entries[i]) in Successors(q.db, entries[i].predecessor);
    } else {
      SupersededRemains(s, m, db, entries[..last], i);
      assert Successors(p.db, entries[i].predecessor) <= Successors(q.db, entries[i].predecessor);
    }
  }

  /** After a supersession, a second one of the same fact or a binding of it to a new definition fails. */
  lemma {:induction false} SupersedesOnce(s: Surroundings, m: Manifest, db: Db, entries: seq<Entry>, i: nat, j: nat)
    requires WellFormed(db) && i < j < |entries| && entries[i].predecessor == entries[j].predecessor
    requires entries[i].action == Supersede && (entries[j].action == Supersede || entries[j].definition.Some?)
    ensures ApplyAll(s, m, db, entries).Failure?
  {
    var init, e := entries[..|entries| - 1], entries[|entries| - 1];
    assert init[i] == entries[i];
    if ApplyAll(s, m, db, init).Success? {
      if j < |init| {
        assert init[j] == entries[j];
        SupersedesOnce(s, m, db, init, i, j);
      } else {
        SupersededRemains(s, m, db, init, i);
        NotTwice(s, m, ApplyAll(s, m, db, init).value, e);
      }
    }
  }

  lemma NotTwice(s: Surroundings, m: Manifest, p: Progress, e: Entry)
    requires Successors(p.db, e.predecessor) != {} && (e.action == Supersede || e.definition.Some?)
    ensures ApplyEntry(s, m, p, e).Failure?
  {
  }

  /** Entries on one fact that are not alike are never all recognised. */
  lemma ConflictNotDetected(s: Surroundings, m: Manifest, db: Db, i: nat, j: nat)
    requires WellFormed(db) && Transaction(s, m, db).Success? && i < j < |m.entries|
    requires m.entries[i].predecessor == m.entries[j].predecessor && !Twins(m.entries[i], m.entries[j])
    ensures Detect(s, m, Transaction(s, m, db).value.db, m.entries) == None
  {
    var p := Transaction(s, m, db).value;
    var found := Detect(s, m, p.db, m.entries);
    if found.Some? {
      DetectHeads(s, m, p.db, m.entries, found.value);
      assert Postcondition(s, m, p.db, m.entries[i], found.value[i]);
      assert Postcondition(s, m, p.db, m.entries[j], found.value[j]);
      if m.entries[i].action == m.entries[j].action == Supersede {
        SupersedesOnce(s, m, db, m.entries, i, j);
      }
    }
  }

  /** An attempt after a commit, with no marker and no other writer in between, finds exactly the committed heads if
      every binding is traceable and the entries on any one fact are bindings that ask for the same; otherwise it finds
      nothing. */
  lemma CommitIsDetectedIff(s: Surroundings, m: Manifest, db: Db)
    requires WellFormed(db) && Shaped(m) && Transaction(s, m, db).Success?
    ensures var p := Transaction(s, m, db).value;
            Detect(s, m, p.db, m.entries) == if Compatible(m.entries) && AllTraceable(m, db) then Some(p.heads) else None
  {
    if Compatible(m.entries) {
      CompatibleDetectedIff(s, m, db);
    } else {
      var i: nat, j: nat :| i < j < |m.entries| && m.entries[i].predecessor == m.entries[j].predecessor
                            && !Twins(m.entries[i], m.entries[j]);
      ConflictNotDetected(s, m, db, i, j);
    }
  }

  /** It happens that a commit is not recognised: the fact's context is stored already, by another reviewer, so the
      binding passes validation, reports a row, adds none, and cannot be told from one never applied. */
  lemma CommitNotDetected(bound: Entry -> bool)
    requires forall e :: bound(e)
    ensures var fact := Fact(0, None, 5, "1 usd", "", None);
            var row := ContextRow(0, Context("m", Some("v")), "old", 1, None);
            var db := Db(map[0 := fact], map[0 := [row]], map[], {0}, 1, 1);
            var e := Entry(BindExisting, false, 0, Some(0), 1, 5, 5, "1 usd", "", Context("m", None), "v", None, 0, None);
            var s, m := Surroundings(bound, bound, bound, bound, {0}), Manifest("new", 2, [e]);
            && WellFormed(db) && Shaped(m) && Transaction(s, m, db).Success?
            && SameRows(db, Transaction(s, m, db).value.db) && Transaction(s, m, db).value.contextRows == 1
            && Detect(s, m, Transaction(s, m, db).value.db, m.entries) == None
  {
    var fact := Fact(0, None, 5, "1 usd", "", None);
    var row := ContextRow(0, Context("m", Some("v")), "old", 1, None);
    var db := Db(map[0 := fact], map[0 := [row]], map[], {0}, 1, 1);
    var e := Entry(BindExisting, false, 0, Some(0), 1, 5, 5, "1 usd", "", Context("m", None), "v", None, 0, None);
    var s, m := Surroundings(bound, bound, bound, bound, {0}), Manifest("new", 2, [e]);
    assert m.entries[..0] == [] && m.entries[0] == e;
    assert Successors(db, 0) == {};
    assert Validate(s, db, e) == None;
    assert FirstBlocker(s, db, m.entries) == Validate(s, db, e);
    assert Written(m, db, e) == Success((db, 0));
    var p := ApplyEntry(s, m, Start(db), e).value;
    assert ApplyAll(s, m, db, m.entries) == Success(p) && p.heads == [0] && p.db.canonical == {0};
    assert !Traceable(m, db, m.entries[0]);
    CommitIsDetectedIff(s, m, db);
  }

  /** A binding always reports one context row; it adds one exactly when its fact's current context, as it would be
      stored, is another one or is bound to another definition. */
  lemma BindAddsRowIff(s: Surroundings, m: Manifest, p: Progress, e: Entry)
    requires WellFormed(p.db) && e.action == BindExisting && ApplyEntry(s, m, p, e).Success?
    ensures var q := ApplyEntry(s, m, p, e).value;
            && q.contextRows == p.contextRows + 1
            && |ChainOf(q.db, e.predecessor)| == |ChainOf(p.db, e.predecessor)| + (if FreshContext(p.db, e) then 1 else 0)
  {
    var captured := CaptureFor(p.db, e).value;
    CaptureStep(p.db, e);
    assert ChainOf(captured, e.predecessor) == ChainOf(p.db, e.predecessor);
    PersistGrows(captured, e.predecessor, PersistedContext(e), m.reviewer, m.knowledgeAt, DefinitionId(e));
  }
}
