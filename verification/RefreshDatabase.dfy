/** The tables a KPI repair reads and appends to: facts that supersede one another, and revision chains of semantic
    contexts and of definitions. */
module RefreshDatabase {
  import opened Wrappers

  /** A semantic context; the text of the source value is part of it. */
  datatype Context = Context(meaning: string, valueText: Option<string>)

  /** A fact. The amount is its value and unit, the detail its currency, excerpt and locator. */
  datatype Fact = Fact(root: nat, supersedes: Option<nat>, source: nat, amount: string, detail: string, reviewer: Option<string>)

  datatype ContextRow = ContextRow(id: nat, context: Context, reviewer: string, knowledgeAt: int, definition: Option<string>)

  datatype Definition = Definition(id: string, commitment: string, root: nat)

  datatype Db = Db(
    facts: map<nat, Fact>,
    contexts: map<nat, seq<ContextRow>>,
    definitions: map<nat, seq<Definition>>,
    canonical: set<nat>,
    nextFact: nat,
    nextContext: nat)

  /** Identities are handed out in order, and references are to existing facts. */
  ghost predicate WellFormed(db: Db) {
    && (forall f :: f in db.facts ==> f < db.nextFact && (db.facts[f].supersedes.Some? ==> db.facts[f].supersedes.value in db.facts))
    && (forall f :: f in db.contexts ==> f in db.facts)
  }

  function ChainOf(db: Db, fact: nat): seq<ContextRow> {
    if fact in db.contexts then db.contexts[fact] else []
  }

  function DefinitionsOf(db: Db, root: nat): seq<Definition> {
    if root in db.definitions then db.definitions[root] else []
  }

  function Successors(db: Db, fact: nat): set<nat> {
    set f | f in db.facts && db.facts[f].supersedes == Some(fact)
  }

  function ContextHead(db: Db, fact: nat): Option<ContextRow> {
    var chain := ChainOf(db, fact);
    if chain == [] then None else Some(chain[|chain| - 1])
  }

  function DefinitionHead(db: Db, root: nat): Option<Definition> {
    var chain := DefinitionsOf(db, root);
    if chain == [] then None else Some(chain[|chain| - 1])
  }

  predicate DefinitionKnown(db: Db, id: string) {
    exists root :: root in db.definitions.Keys && exists d :: d in db.definitions[root] && d.id == id
  }

  /** What every writer of these tables respects: rows are only added. Which facts are canonical may change freely. */
  ghost predicate Grows(db: Db, later: Db) {
    && (forall f :: f in db.facts ==> f in later.facts && later.facts[f] == db.facts[f])
    && (forall f :: ChainOf(db, f) <= ChainOf(later, f))
    && (forall root :: DefinitionsOf(db, root) <= DefinitionsOf(later, root))
  }

  lemma GrowsTransitive(a: Db, b: Db, c: Db)
    requires Grows(a, b) && Grows(b, c)
    ensures Grows(a, c)
  {
    forall f ensures ChainOf(a, f) <= ChainOf(c, f) {
      assert ChainOf(a, f) <= ChainOf(b, f) <= ChainOf(c, f);
    }
    forall root ensures DefinitionsOf(a, root) <= DefinitionsOf(c, root) {
      assert DefinitionsOf(a, root) <= DefinitionsOf(b, root) <= DefinitionsOf(c, root);
    }
  }

  predicate SameRows(a: Db, b: Db) {
    a.facts == b.facts && a.contexts == b.contexts && a.definitions == b.definitions
  }

  // ---- Appending ----

  /** Appends a context revision unless the head already has this context and definition. */
  function PersistContext(db: Db, fact: nat, context: Context, reviewer: string, knowledgeAt: int,
      definition: Option<string>): Db {
    var head := ContextHead(db, fact);
    if head.Some? && head.value.context == context && head.value.definition == definition then db
    else
      var row := ContextRow(db.nextContext, context, reviewer, knowledgeAt, definition);
      db.(contexts := db.contexts[fact := ChainOf(db, fact) + [row]], nextContext := db.nextContext + 1)
  }

  /** Appends a definition revision if the chain's head is the expected one. */
  function CaptureDefinition(db: Db, d: Definition, expectedHead: Option<string>, expectedRevision: nat): Option<Db> {
    if DefinitionKnown(db, d.id) || !DefinitionExpected(db, d.root, expectedHead, expectedRevision) then None
    else Some(db.(definitions := db.definitions[d.root := DefinitionsOf(db, d.root) + [d]]))
  }

  predicate DefinitionExpected(db: Db, root: nat, expectedHead: Option<string>, expectedRevision: nat) {
    var head := DefinitionHead(db, root);
    |DefinitionsOf(db, root)| == expectedRevision
    && (if head.None? then expectedHead == None else expectedHead == Some(head.value.id))
  }

  /** Appends a fact under the next identity. */
  function InsertFact(db: Db, fact: Fact): Db {
    db.(facts := db.facts[db.nextFact := fact], nextFact := db.nextFact + 1)
  }

  /** A fact has been resolved as the canonical one, in place of what it supersedes. */
  function Resolve(db: Db, fact: nat, replaced: Option<nat>): Db {
    db.(canonical := (if replaced.Some? then db.canonical - {replaced.value} else db.canonical) + {fact})
  }

  lemma PersistGrows(db: Db, fact: nat, context: Context, reviewer: string, knowledgeAt: int,
      definition: Option<string>)
    requires WellFormed(db) && fact in db.facts
    ensures var next := PersistContext(db, fact, context, reviewer, knowledgeAt, definition);
            && WellFormed(next) && Grows(db, next) && next.facts == db.facts && next.definitions == db.definitions
            && next.canonical == db.canonical && next.nextFact == db.nextFact
            && (forall f :: f != fact ==> ChainOf(next, f) == ChainOf(db, f))
            && ContextHead(next, fact).Some?
            && ContextHead(next, fact).value.context == context && ContextHead(next, fact).value.definition == definition
            && (next != db ==> && |ChainOf(next, fact)| == |ChainOf(db, fact)| + 1
                               && ContextHead(next, fact).value.reviewer == reviewer
                               && ContextHead(next, fact).value.knowledgeAt == knowledgeAt)
  {
  }

  lemma CaptureGrows(db: Db, d: Definition, expectedHead: Option<string>, expectedRevision: nat)
    requires WellFormed(db) && CaptureDefinition(db, d, expectedHead, expectedRevision).Some?
    ensures var next := CaptureDefinition(db, d, expectedHead, expectedRevision).value;
            && WellFormed(next) && Grows(db, next) && next.facts == db.facts && next.contexts == db.contexts
            && next.canonical == db.canonical && next.nextFact == db.nextFact
            && DefinitionHead(next, d.root) == Some(d) && |DefinitionsOf(next, d.root)| == |DefinitionsOf(db, d.root)| + 1
            && |DefinitionsOf(db, d.root)| == expectedRevision
            && (forall root :: root != d.root ==> DefinitionsOf(next, root) == DefinitionsOf(db, root))
  {
  }

  lemma InsertGrows(db: Db, fact: Fact)
    requires WellFormed(db) && (fact.supersedes.Some? ==> fact.supersedes.value in db.facts)
    ensures var next := InsertFact(db, fact);
            && WellFormed(next) && Grows(db, next) && next.contexts == db.contexts && next.definitions == db.definitions
            && next.canonical == db.canonical && ChainOf(next, db.nextFact) == [] && Successors(next, db.nextFact) == {}
            && (forall f: nat :: Successors(next, f) == Successors(db, f) + if fact.supersedes == Some(f) then {db.nextFact} else {})
  {
    var next := InsertFact(db, fact);
    forall f: nat ensures Successors(next, f) == Successors(db, f) + if fact.supersedes == Some(f) then {db.nextFact} else {} {
    }
  }
}
