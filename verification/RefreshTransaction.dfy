/** One repair transaction: every entry validated against the expected heads, then every entry applied, then the
    results checked; and how an already committed transaction is recognised. */
module RefreshTransaction {
  import opened Wrappers
  import opened RefreshDatabase

  datatype Action = BindExisting | Supersede

  /** A manifest entry. Its shape rules are built in: the expected fact head is the old fact itself, a supersession
      inserts one fact and a binding none. */
  datatype Entry = Entry(
    action: Action, quarantined: bool, predecessor: nat,
    contextHead: Option<nat>, contextRevision: nat, oldSource: nat,
    source: nat, amount: string, detail: string, context: Context, valueText: string,
    definitionHead: Option<string>, definitionRevision: nat, definition: Option<Definition>)

  datatype Manifest = Manifest(reviewer: string, knowledgeAt: int, entries: seq<Entry>)

  /** What the code reads outside these tables, per entry: whether the source binding and the issuer check out, who
      may see the fact, whether a quarantined legacy context was captured, whether the resolver accepts the result. */
  datatype Surroundings = Surroundings(
    bound: Entry -> bool, owned: Entry -> bool, captured: Entry -> bool, resolves: Entry -> bool, allowed: set<nat>)

  datatype Blocker =
    | OldFactMissing | OutsideOwnerScope | PredecessorNotCanonical | PredecessorCanonical | OldSourceChanged
    | FactHeadChanged | ContextHeadChanged | QuarantinedHasContext | ContextAlreadyCurrent | SourceNotBound
    | DefinitionRootMismatch | DefinitionHeadChanged | BindMismatch
    | CaptureFailed | ResolutionFailed | ResultNotCanonical

  /** A quarantined legacy fact may only be superseded. */
  predicate Shaped(m: Manifest) {
    forall i :: 0 <= i < |m.entries| ==> m.entries[i].quarantined ==> m.entries[i].action == Supersede
  }

  function PersistedContext(e: Entry): Context {
    e.context.(valueText := Some(e.valueText))
  }

  function DefinitionId(e: Entry): Option<string> {
    if e.definition.Some? then Some(e.definition.value.id) else None
  }

  predicate ContextExpected(db: Db, e: Entry) {
    var head := ContextHead(db, e.predecessor);
    |ChainOf(db, e.predecessor)| == e.contextRevision
    && (if head.None? then e.contextHead == None else e.contextHead == Some(head.value.id))
  }

  // ---- Validation ----

  function Validate(s: Surroundings, db: Db, e: Entry): Option<Blocker> {
    if e.predecessor !in db.facts then Some(OldFactMissing)
    else
      var fact := db.facts[e.predecessor];
      var head := ContextHead(db, e.predecessor);
      if !e.quarantined && fact.root !in s.allowed then Some(OutsideOwnerScope)
      else if !e.quarantined && e.predecessor !in db.canonical then Some(PredecessorNotCanonical)
      else if e.quarantined && !s.owned(e) then Some(OutsideOwnerScope)
      else if e.quarantined && e.predecessor in db.canonical then Some(PredecessorCanonical)
      else if fact.source != e.oldSource then Some(OldSourceChanged)
      else if Successors(db, e.predecessor) != {} then Some(FactHeadChanged)
      else if !ContextExpected(db, e) then Some(ContextHeadChanged)
      else if e.quarantined && head.Some? && !s.captured(e) then Some(QuarantinedHasContext)
      else if head.Some? && head.value.context == e.context then Some(ContextAlreadyCurrent)
      else if !s.bound(e) then Some(SourceNotBound)
      else if e.definition.Some? && e.definition.value.root != fact.root then Some(DefinitionRootMismatch)
      else if e.definition.Some? && !DefinitionExpected(db, fact.root, e.definitionHead, e.definitionRevision)
      then Some(DefinitionHeadChanged)
      else if e.action == BindExisting && (e.source != fact.source || e.amount != fact.amount) then Some(BindMismatch)
      else None
  }

  /** What an entry may be applied on, independently of the order of the checks. */
  ghost predicate Admissible(s: Surroundings, db: Db, e: Entry) {
    && e.predecessor in db.facts && db.facts[e.predecessor].source == e.oldSource && s.bound(e)
    && (e.quarantined <==> e.predecessor !in db.canonical)
    && (if e.quarantined then s.owned(e) else db.facts[e.predecessor].root in s.allowed)
    && (forall f :: f in db.facts ==> db.facts[f].supersedes != Some(e.predecessor))
    && ContextExpected(db, e)
    && (ChainOf(db, e.predecessor) != [] ==>
          var current := ChainOf(db, e.predecessor)[|ChainOf(db, e.predecessor)| - 1];
          current.context != e.context && (e.quarantined ==> s.captured(e)))
    && (e.definition.Some? ==>
          && e.definition.value.root == db.facts[e.predecessor].root
          && DefinitionExpected(db, e.definition.value.root, e.definitionHead, e.definitionRevision))
    && (e.action == BindExisting ==> db.facts[e.predecessor].source == e.source && db.facts[e.predecessor].amount == e.amount)
  }

  /** Validation passes exactly the admissible entries. */
  lemma ValidatedIff(s: Surroundings, db: Db, e: Entry)
    ensures Validate(s, db, e).None? <==> Admissible(s, db, e)
  {
    if e.predecessor in db.facts {
      assert Successors(db, e.predecessor) == {} <==>
        forall f :: f in db.facts ==> f !in Successors(db, e.predecessor);
    }
  }

  function FirstBlocker(s: Surroundings, db: Db, entries: seq<Entry>): Option<Blocker> {
    if entries == [] then None
    else
      var earlier := FirstBlocker(s, db, entries[..|entries| - 1]);
      if earlier.Some? then earlier else Validate(s, db, entries[|entries| - 1])
  }

  lemma {:induction false} AllValid(s: Surroundings, db: Db, entries: seq<Entry>)
    ensures FirstBlocker(s, db, entries).None? <==> forall i :: 0 <= i < |entries| ==> Validate(s, db, entries[i]).None?
  {
    if entries != [] {
      AllValid(s, db, entries[..|entries| - 1]);
    }
  }

  // ---- Application ----

  /** Work done so far: the database, the head of each entry's result, and the reported row counts. */
  datatype Progress = Progress(db: Db, heads: seq<nat>, factRows: nat, contextRows: nat, definitionRows: nat)

  function Start(db: Db): Progress {
    Progress(db, [], 0, 0, 0)
  }

  function CaptureFor(db: Db, e: Entry): Option<Db> {
    if e.definition.None? then Some(db)
    else CaptureDefinition(db, e.definition.value, e.definitionHead, e.definitionRevision)
  }

  function ResultFact(m: Manifest, db: Db, e: Entry): Fact
    requires e.predecessor in db.facts
  {
    Fact(db.facts[e.predecessor].root, Some(e.predecessor), e.source, e.amount, e.detail, Some(m.reviewer))
  }

  /** The tables after one entry and the head of its result, before resolution. */
  function Written(m: Manifest, db: Db, e: Entry): (r: Result<(Db, nat), Blocker>) {
    if e.predecessor !in db.facts then Failure(OldFactMissing)
    else if (e.action == Supersede || e.definition.Some?) && Successors(db, e.predecessor) != {} then Failure(FactHeadChanged)
    else
      match CaptureFor(db, e)
      case None => Failure(CaptureFailed)
      case Some(captured) =>
        var head := if e.action == Supersede then captured.nextFact else e.predecessor;
        var inserted := if e.action == Supersede then InsertFact(captured, ResultFact(m, captured, e)) else captured;
        Success((PersistContext(inserted, head, PersistedContext(e), m.reviewer, m.knowledgeAt, DefinitionId(e)), head))
  }

  function ApplyEntry(s: Surroundings, m: Manifest, p: Progress, e: Entry): Result<Progress, Blocker> {
    match Written(m, p.db, e)
    case Failure(blocker) => Failure(blocker)
    case Success((db, head)) =>
      if !s.resolves(e) then Failure(ResolutionFailed)
      else Success(Progress(Resolve(db, head, if e.action == Supersede then Some(e.predecessor) else None),
                            p.heads + [head],
                            p.factRows + (if e.action == Supersede then 1 else 0),
                            p.contextRows + 1,
                            p.definitionRows + (if e.definition.Some? then 1 else 0)))
  }

  function ApplyAll(s: Surroundings, m: Manifest, db: Db, entries: seq<Entry>): Result<Progress, Blocker> {
    if entries == [] then Success(Start(db))
    else
      match ApplyAll(s, m, db, entries[..|entries| - 1])
      case Failure(blocker) => Failure(blocker)
      case Success(p) => ApplyEntry(s, m, p, entries[|entries| - 1])
  }

  /** What the transaction would commit, or why it does not. */
  function Transaction(s: Surroundings, m: Manifest, db: Db): Result<Progress, Blocker> {
    match FirstBlocker(s, db, m.entries)
    case Some(blocker) => Failure(blocker)
    case None =>
      match ApplyAll(s, m, db, m.entries)
      case Failure(blocker) => Failure(blocker)
      case Success(p) => if forall h :: h in p.heads ==> h in p.db.canonical then Success(p) else Failure(ResultNotCanonical)
  }

  // ---- Recognising a committed result ----

  predicate ExactFact(m: Manifest, db: Db, e: Entry, head: nat)
    requires head in db.facts
  {
    var fact := db.facts[head];
    if e.action == BindExisting then head == e.predecessor && fact.source == e.source && fact.amount == e.amount
    else && head != e.predecessor && Successors(db, e.predecessor) == {head} && fact.source == e.source && fact.amount == e.amount
         && fact.detail == e.detail && fact.reviewer == Some(m.reviewer)
  }

  predicate ContextInPlace(m: Manifest, db: Db, e: Entry, head: nat) {
    var row := ContextHead(db, head);
    row.Some? && row.value.context == PersistedContext(e) && row.value.reviewer == m.reviewer
    && row.value.knowledgeAt == m.knowledgeAt && row.value.definition == DefinitionId(e)
  }

  predicate DefinitionInPlace(db: Db, e: Entry) {
    e.definition.Some? ==> DefinitionHead(db, e.definition.value.root) == e.definition
  }

  predicate QuarantineIntact(s: Surroundings, db: Db, e: Entry) {
    e.quarantined ==>
      && ContextExpected(db, e) && e.predecessor in db.facts && db.facts[e.predecessor].source == e.oldSource && e.predecessor !in db.canonical
      && (ContextHead(db, e.predecessor).Some? ==> s.captured(e))
  }

  predicate Postcondition(s: Surroundings, m: Manifest, db: Db, e: Entry, head: nat) {
    && head in db.facts && Successors(db, head) == {} && ExactFact(m, db, e, head) && s.bound(e) && head in db.canonical
    && ContextInPlace(m, db, e, head) && DefinitionInPlace(db, e) && QuarantineIntact(s, db, e)
  }

  /** The newest successor of a fact. */
  function Newest(fs: set<nat>): (r: Option<nat>)
    ensures r.Some? ==> r.value in fs && forall f :: f in fs ==> f <= r.value
    ensures r.None? <==> fs == {}
  {
    if fs == {} then None
    else
      var f := Largest(fs);
      Some(f)
  }

  function Largest(fs: set<nat>): (f: nat)
    requires fs != {}
    ensures f in fs && forall g :: g in fs ==> g <= f
  {
    HasLargest(fs);
    var f :| f in fs && forall g :: g in fs ==> g <= f;
    f
  }

  lemma HasLargest(fs: set<nat>)
    requires fs != {}
    ensures exists f :: f in fs && forall g :: g in fs ==> g <= f
  {
    var f := LargestOf(fs);
  }

  lemma {:induction false} LargestOf(fs: set<nat>) returns (f: nat)
    requires fs != {}
    ensures f in fs && forall g :: g in fs ==> g <= f
  {
    f :| f in fs;
    var rest := fs - {f};
    if rest == {} {
      forall g | g in fs ensures g <= f {
        assert g !in rest;
      }
    } else {
      var top := LargestOf(rest);
      forall g | g in fs ensures g <= f || g <= top {
        assert g == f || g in rest;
      }
      if f < top {
        f := top;
      }
    }
  }

  function CandidateHead(db: Db, e: Entry): Option<nat> {
    if e.action == BindExisting then Some(e.predecessor) else Newest(Successors(db, e.predecessor))
  }

  /** Looks up each entry's head and proves its postcondition. */
  function Detect(s: Surroundings, m: Manifest, db: Db, entries: seq<Entry>): Option<seq<nat>> {
    if entries == [] then Some([])
    else
      match Detect(s, m, db, entries[..|entries| - 1])
      case None => None
      case Some(heads) =>
        var e := entries[|entries| - 1];
        match CandidateHead(db, e)
        case None => None
        case Some(head) => if Postcondition(s, m, db, e, head) then Some(heads + [head]) else None
  }

  /** Proves the postconditions for heads that a marker claims. */
  predicate VerifyReplay(s: Surroundings, m: Manifest, db: Db, heads: seq<nat>) {
    |heads| == |m.entries|
    && forall i :: 0 <= i < |heads| ==>
         (m.entries[i].action == BindExisting ==> heads[i] == m.entries[i].predecessor)
         && Postcondition(s, m, db, m.entries[i], heads[i])
  }

  lemma PostconditionHead(s: Surroundings, m: Manifest, db: Db, e: Entry, head: nat)
    requires Postcondition(s, m, db, e, head)
    ensures CandidateHead(db, e) == Some(head)
  {
    if e.action == Supersede {
      assert Newest(Successors(db, e.predecessor)).value in {head};
    }
  }

  lemma {:induction false} DetectHeads(s: Surroundings, m: Manifest, db: Db, entries: seq<Entry>, heads: seq<nat>)
    ensures Detect(s, m, db, entries) == Some(heads)
       <==> |heads| == |entries| && forall i :: 0 <= i < |heads| ==> Postcondition(s, m, db, entries[i], heads[i])
  {
    if entries == [] {
      assert |heads| == 0 ==> heads == [];
    } else {
      var init, e := entries[..|entries| - 1], entries[|entries| - 1];
      if heads != [] {
        var most, head := heads[..|heads| - 1], heads[|heads| - 1];
        assert heads == most + [head];
        DetectHeads(s, m, db, init, most);
        if Postcondition(s, m, db, e, head) {
          PostconditionHead(s, m, db, e, head);
        }
        if Detect(s, m, db, entries) == Some(heads) {
          var earlier := Detect(s, m, db, init).value;
          assert (earlier + [CandidateHead(db, e).value])[..|earlier|] == earlier;
          assert earlier == most;
        }
      }
    }
  }

  /** Recovery without a marker and replay with one accept the same results: some head vector verifies exactly when
      detection finds it, and no other vector verifies. */
  lemma DetectionAgreesWithReplay(s: Surroundings, m: Manifest, db: Db, heads: seq<nat>)
    ensures VerifyReplay(s, m, db, heads) <==> Detect(s, m, db, m.entries) == Some(heads)
  {
    DetectHeads(s, m, db, m.entries, heads);
  }
}
