/** Disposition manifests: appended rows and the commit row that accounts for them, written in one transaction. */
module Dispositions {
  import opened Sequences
  import opened Wrappers

  /** A fact's semantic context or a report reference. */
  datatype Target = FactContext(fact: nat) | Reference(ticker: string, path: string, pointer: string)

  /** A revision; the author is the manifest that appended it, if one did. */
  datatype Row = Row(id: nat, content: string, author: Option<nat>)

  datatype Entry = Entry(target: Target, content: string, expectedHead: Option<nat>, expectedRevision: nat, legacy: bool)

  /** Entries in the order they are applied: facts first, then references. */
  datatype Manifest = Manifest(key: string, review: string, backup: string, entries: seq<Entry>)

  datatype CommitRow = CommitRow(key: string, review: string, backup: string, code: string, facts: nat, references: nat,
                                 insertedContexts: nat, insertedReferences: nat)

  datatype Db = Db(chains: map<Target, seq<Row>>, commits: map<nat, CommitRow>, next: nat)

  /** What the entries are checked against outside these tables. */
  datatype Surroundings = Surroundings(current: Entry -> bool, captured: Entry -> bool)

  datatype Counts = Counts(insertedContexts: nat, replayedContexts: nat, insertedReferences: nat, replayedReferences: nat)

  datatype Blocker = TargetChanged | CaptureChanged | HeadChanged | AlreadyDispositioned

  function Chain(db: Db, t: Target): seq<Row> {
    if t in db.chains then db.chains[t] else []
  }

  function Head(db: Db, t: Target): Option<Row> {
    var chain := Chain(db, t);
    if chain == [] then None else Some(chain[|chain| - 1])
  }

  predicate Expected(db: Db, e: Entry) {
    var head := Head(db, e.target);
    |Chain(db, e.target)| == e.expectedRevision
    && (if head.None? then e.expectedHead == None else e.expectedHead == Some(head.value.id))
  }

  function Append(db: Db, t: Target, content: string, author: Option<nat>): Db {
    db.(chains := db.chains[t := Chain(db, t) + [Row(db.next, content, author)]], next := db.next + 1)
  }

  /** Either the entry is in place already, or its target's head must be the expected one and a row is appended. */
  function ApplyEntry(s: Surroundings, id: nat, db: Db, e: Entry): Result<(Db, bool), Blocker> {
    if !s.current(e) then Failure(TargetChanged)
    else
      var head := Head(db, e.target);
      if head.Some? && head.value.content == e.content then
        if e.legacy && !s.captured(e) then Failure(CaptureChanged) else Success((db, false))
      else if !Expected(db, e) then Failure(HeadChanged)
      else if e.legacy && head.Some? then Failure(AlreadyDispositioned)
      else Success((Append(db, e.target, e.content, Some(id)), true))
  }

  function Count(c: Counts, e: Entry, inserted: bool): Counts {
    match e.target
    case FactContext(_) =>
      if inserted then c.(insertedContexts := c.insertedContexts + 1) else c.(replayedContexts := c.replayedContexts + 1)
    case Reference(_, _, _) =>
      if inserted then c.(insertedReferences := c.insertedReferences + 1)
      else c.(replayedReferences := c.replayedReferences + 1)
  }

  function ApplyAll(s: Surroundings, id: nat, db: Db, entries: seq<Entry>): Result<(Db, Counts), Blocker> {
    if entries == [] then Success((db, Counts(0, 0, 0, 0)))
    else
      match ApplyAll(s, id, db, entries[..|entries| - 1])
      case Failure(blocker) => Failure(blocker)
      case Success((mid, counts)) =>
        match ApplyEntry(s, id, mid, entries[|entries| - 1])
        case Failure(blocker) => Failure(blocker)
        case Success((last, inserted)) => Success((last, Count(counts, entries[|entries| - 1], inserted)))
  }

  function FactCount(entries: seq<Entry>): nat {
    if entries == [] then 0
    else FactCount(entries[..|entries| - 1]) + if entries[|entries| - 1].target.FactContext? then 1 else 0
  }

  function RowFor(m: Manifest, code: string, c: Counts): CommitRow {
    var facts := FactCount(m.entries);
    CommitRow(m.key, m.review, m.backup, code, facts, References(m.entries), c.insertedContexts, c.insertedReferences)
  }

  function References(entries: seq<Entry>): nat {
    if entries == [] then 0
    else References(entries[..|entries| - 1]) + if entries[|entries| - 1].target.FactContext? then 0 else 1
  }

  /** The manifest's rows and its commit row, together. The commit row's key is unique. */
  function Transaction(s: Surroundings, id: nat, m: Manifest, code: string, db: Db): Option<(Db, Counts)> {
    match ApplyAll(s, id, db, m.entries)
    case Failure(_) => None
    case Success((done, counts)) =>
      if id in done.commits then None
      else Some((done.(commits := done.commits[id := RowFor(m, code, counts)]), counts))
  }

  // ---- The transaction as it runs ----

  class Connection {
    var db: Db

    constructor (db: Db)
      ensures this.db == db
    {
      this.db := db;
    }

    method ApplyEntries(s: Surroundings, id: nat, entries: seq<Entry>) returns (r: Result<Counts, Blocker>)
      modifies this
      ensures r.Success? ==> ApplyAll(s, id, old(db), entries) == Success((db, r.value))
      ensures r.Failure? ==> ApplyAll(s, id, old(db), entries) == Failure(r.error)
    {
      var counts := Counts(0, 0, 0, 0);
      for i := 0 to |entries|
        invariant ApplyAll(s, id, old(db), entries[..i]) == Success((db, counts))
      {
        assert entries[..i + 1][..i] == entries[..i];
        var step := ApplyEntry(s, id, db, entries[i]);
        if step.Failure? {
          FailureStays(s, id, old(db), entries, i + 1);
          return Failure(step.error);
        }
        db := step.value.0;
        counts := Count(counts, entries[i], step.value.1);
      }
      assert entries[..|entries|] == entries;
      return Success(counts);
    }

    /** Rows and commit row are committed together, or neither is; a dry run commits nothing. The checks after the
        writes may still block. */
    method ExecuteTransaction(s: Surroundings, id: nat, m: Manifest, code: string, apply: bool, checksPass: bool)
        returns (counts: Option<Counts>, refused: bool)
      modifies this
      ensures var t := Transaction(s, id, m, code, old(db));
              && (apply && t.Some? && checksPass ==> db == t.value.0 && counts == Some(t.value.1))
              && (!apply || t.None? || !checksPass ==> db == old(db))
              && (apply && (t.None? || !checksPass) ==> counts == None)
              && (apply ==> refused == t.None?)
      ensures !apply ==>
                var done := ApplyAll(s, id, old(db), m.entries);
                refused == done.Failure? && counts == if done.Success? && checksPass then Some(done.value.1) else None
    {
      var saved := db;
      var applied := ApplyEntries(s, id, m.entries);
      refused := applied.Failure? || (apply && id in db.commits);
      if refused || !checksPass {
        db := saved;
        return None, refused;
      }
      if apply {
        db := db.(commits := db.commits[id := RowFor(m, code, applied.value)]);
      } else {
        db := saved;
      }
      return Some(applied.value), false;
    }
  }

  lemma {:induction false} FailureStays(s: Surroundings, id: nat, db: Db, entries: seq<Entry>, k: nat)
    requires k <= |entries| && ApplyAll(s, id, db, entries[..k]).Failure?
    ensures ApplyAll(s, id, db, entries) == ApplyAll(s, id, db, entries[..k])
    decreases |entries| - k
  {
    if k == |entries| {
      assert entries[..k] == entries;
    } else {
      assert entries[..k + 1][..k] == entries[..k];
      FailureStays(s, id, db, entries, k + 1);
    }
  }

  // ---- Accounting ----

  function Written(chain: seq<Row>, id: nat): nat {
    if chain == [] then 0
    else Written(chain[..|chain| - 1], id) + if chain[|chain| - 1].author == Some(id) then 1 else 0
  }

  /** The rows a manifest has written, over the given targets. */
  function WrittenTo(db: Db, targets: seq<Target>, id: nat): nat {
    if targets == [] then 0
    else WrittenTo(db, targets[..|targets| - 1], id) + Written(Chain(db, targets[|targets| - 1]), id)
  }

  /** Distinct targets that include all of a manifest's. */
  ghost predicate Holds(ts: seq<Target>, m: Manifest) {
    Distinct(ts) && forall e :: e in m.entries ==> e.target in ts
  }

  lemma AppendWrites(db: Db, t: Target, content: string, author: Option<nat>, u: Target, id: nat)
    ensures Written(Chain(Append(db, t, content, author), u), id)
         == Written(Chain(db, u), id) + if u == t && author == Some(id) then 1 else 0
  {
    if u == t {
      var chain := Chain(db, t);
      assert (chain + [Row(db.next, content, author)])[..|chain|] == chain;
    }
  }

  lemma {:induction false} AppendWritesTo(db: Db, t: Target, content: string, author: Option<nat>, ts: seq<Target>,
      id: nat)
    requires Distinct(ts)
    ensures WrittenTo(Append(db, t, content, author), ts, id)
         == WrittenTo(db, ts, id) + if t in ts && author == Some(id) then 1 else 0
  {
    if ts != [] {
      var init, last := ts[..|ts| - 1], ts[|ts| - 1];
      AppendWritesTo(db, t, content, author, init, id);
      AppendWrites(db, t, content, author, last, id);
      assert forall u :: u in ts <==> u in init || u == last;
    }
  }

  /** The rows a transaction writes are those it counts, and every entry is in place somewhere in its chain. */
  lemma {:induction false} TransactionAccounts(s: Surroundings, id: nat, db: Db, entries: seq<Entry>,
      ts: seq<Target>, other: nat)
    requires Distinct(ts) && (forall e :: e in entries ==> e.target in ts)
    requires ApplyAll(s, id, db, entries).Success?
    ensures var (done, c) := ApplyAll(s, id, db, entries).value;
            && WrittenTo(done, ts, id) == WrittenTo(db, ts, id) + c.insertedContexts + c.insertedReferences
            && (other != id ==> WrittenTo(done, ts, other) == WrittenTo(db, ts, other))
            && done.commits == db.commits && Grows(db, done)
            && forall e :: e in entries ==> InPlace(done, e)
  {
    if entries != [] {
      var init, e := entries[..|entries| - 1], entries[|entries| - 1];
      assert forall d :: d in entries <==> d in init || d == e;
      TransactionAccounts(s, id, db, init, ts, other);
      var (mid, _) := ApplyAll(s, id, db, init).value;
      EntryAccounts(s, id, mid, e, ts, other);
      EntryInPlace(s, id, mid, e);
      GrowsKeepsPlaces(db, mid, ApplyEntry(s, id, mid, e).value.0, init);
    }
  }

  lemma EntryAccounts(s: Surroundings, id: nat, db: Db, e: Entry, ts: seq<Target>, other: nat)
    requires Distinct(ts) && e.target in ts && ApplyEntry(s, id, db, e).Success?
    ensures var (done, inserted) := ApplyEntry(s, id, db, e).value;
            && WrittenTo(done, ts, id) == WrittenTo(db, ts, id) + (if inserted then 1 else 0)
            && (other != id ==> WrittenTo(done, ts, other) == WrittenTo(db, ts, other))
            && done.commits == db.commits && Grows(db, done)
  {
    var (done, inserted) := ApplyEntry(s, id, db, e).value;
    if inserted {
      AppendWritesTo(db, e.target, e.content, Some(id), ts, id);
      AppendWritesTo(db, e.target, e.content, Some(id), ts, other);
      AppendGrows(db, e.target, e.content, Some(id));
    }
  }

  // ---- Which transactions go through ----

  function Targets(entries: seq<Entry>): seq<Target> {
    seq(|entries|, i requires 0 <= i < |entries| => entries[i].target)
  }

  /** The entry's content is its target's head. */
  predicate There(db: Db, e: Entry) {
    Chain(db, e.target) != [] && Chain(db, e.target)[|Chain(db, e.target)| - 1].content == e.content
  }

  /** The target is current, and the entry is there already or the head is the expected one. */
  predicate Applicable(s: Surroundings, db: Db, e: Entry) {
    && s.current(e)
    && if There(db, e) then e.legacy ==> s.captured(e) else Expected(db, e) && (e.legacy ==> Chain(db, e.target) == [])
  }

  function NotThere(db: Db, entries: seq<Entry>): nat {
    if entries == [] then 0
    else NotThere(db, entries[..|entries| - 1]) + if There(db, entries[|entries| - 1]) then 0 else 1
  }

  lemma StepApplies(s: Surroundings, id: nat, db: Db, mid: Db, e: Entry)
    requires Chain(mid, e.target) == Chain(db, e.target)
    ensures ApplyEntry(s, id, mid, e).Success? <==> Applicable(s, db, e)
    ensures ApplyEntry(s, id, mid, e).Success? ==>
              var (next, inserted) := ApplyEntry(s, id, mid, e).value;
              && inserted == !There(db, e) && mid.next <= next.next
              && (forall t :: t != e.target ==> Chain(next, t) == Chain(mid, t))
              && (There(db, e) ==> Chain(next, e.target) == Chain(db, e.target))
              && (!There(db, e) ==> Chain(next, e.target) == Chain(db, e.target) + [Row(mid.next, e.content, Some(id))])
  {
  }

  /** One chain after a transaction: as it was, or with one row of this manifest added. */
  ghost predicate Dispositioned(id: nat, db: Db, done: Db, e: Entry) {
    var before, after := Chain(db, e.target), Chain(done, e.target);
    if There(db, e) then after == before
    else |after| == |before| + 1 && after[..|before|] == before
         && after[|before|].content == e.content && after[|before|].author == Some(id)
  }

  lemma OwnTarget(entries: seq<Entry>)
    requires entries != [] && Distinct(Targets(entries))
    ensures var init, e := entries[..|entries| - 1], entries[|entries| - 1];
            && Targets(entries) == Targets(init) + [e.target] && Distinct(Targets(init)) && e.target !in Targets(init)
  {
    var init, e := entries[..|entries| - 1], entries[|entries| - 1];
    forall i, j | 0 <= i < j < |init| ensures Targets(init)[i] != Targets(init)[j] {
      assert Targets(entries)[i] != Targets(entries)[j];
    }
    forall i | 0 <= i < |init| ensures Targets(init)[i] != e.target {
      assert Targets(entries)[i] != Targets(entries)[|init|];
    }
  }

  lemma {:induction false} OthersUntouched(s: Surroundings, id: nat, db: Db, entries: seq<Entry>, t: Target)
    requires Distinct(Targets(entries)) && t !in Targets(entries) && ApplyAll(s, id, db, entries).Success?
    ensures Chain(ApplyAll(s, id, db, entries).value.0, t) == Chain(db, t)
  {
    if entries != [] {
      OwnTarget(entries);
      OthersUntouched(s, id, db, entries[..|entries| - 1], t);
    }
  }

  /** The last entry of a list meets its target as the transaction found it. */
  lemma LastApplies(s: Surroundings, id: nat, db: Db, entries: seq<Entry>)
    requires entries != [] && Distinct(Targets(entries)) && ApplyAll(s, id, db, entries[..|entries| - 1]).Success?
    ensures var mid, e := ApplyAll(s, id, db, entries[..|entries| - 1]).value.0, entries[|entries| - 1];
            && Chain(mid, e.target) == Chain(db, e.target)
            && (ApplyAll(s, id, db, entries).Success? <==> Applicable(s, db, e))
  {
    var init, e := entries[..|entries| - 1], entries[|entries| - 1];
    OwnTarget(entries);
    OthersUntouched(s, id, db, init, e.target);
    StepApplies(s, id, db, ApplyAll(s, id, db, init).value.0, e);
  }

  lemma {:induction false} AppliesIff(s: Surroundings, id: nat, db: Db, entries: seq<Entry>)
    requires Distinct(Targets(entries))
    ensures ApplyAll(s, id, db, entries).Success? <==> forall i :: 0 <= i < |entries| ==> Applicable(s, db, entries[i])
  {
    if entries != [] {
      var init := entries[..|entries| - 1];
      OwnTarget(entries);
      AppliesIff(s, id, db, init);
      assert forall i :: 0 <= i < |init| ==> init[i] == entries[i];
      if ApplyAll(s, id, db, init).Success? {
        LastApplies(s, id, db, entries);
      }
    }
  }

  lemma {:induction false} InsertionsCounted(s: Surroundings, id: nat, db: Db, entries: seq<Entry>)
    requires Distinct(Targets(entries)) && ApplyAll(s, id, db, entries).Success?
    ensures var c := ApplyAll(s, id, db, entries).value.1;
            && c.insertedContexts + c.insertedReferences == NotThere(db, entries)
            && c.replayedContexts + c.replayedReferences == |entries| - NotThere(db, entries)
  {
    if entries != [] {
      var init, e := entries[..|entries| - 1], entries[|entries| - 1];
      OwnTarget(entries);
      InsertionsCounted(s, id, db, init);
      LastApplies(s, id, db, entries);
      StepApplies(s, id, db, ApplyAll(s, id, db, init).value.0, e);
    }
  }

  lemma {:induction false} EachDispositioned(s: Surroundings, id: nat, db: Db, entries: seq<Entry>, i: nat)
    requires Distinct(Targets(entries)) && ApplyAll(s, id, db, entries).Success? && i < |entries|
    ensures Dispositioned(id, db, ApplyAll(s, id, db, entries).value.0, entries[i])
  {
    var init, e := entries[..|entries| - 1], entries[|entries| - 1];
    var mid := ApplyAll(s, id, db, init).value.0;
    OwnTarget(entries);
    LastApplies(s, id, db, entries);
    StepApplies(s, id, db, mid, e);
    if i < |init| {
      EachDispositioned(s, id, db, init, i);
      assert Targets(init)[i] in Targets(init);
    }
  }

  /** A transaction goes through exactly when every entry is applicable to the tables as it found them; it then inserts
      one row for each entry that was not there, counts the others as replayed, and leaves all other chains alone. */
  lemma TransactionAppliedIff(s: Surroundings, id: nat, db: Db, entries: seq<Entry>)
    requires Distinct(Targets(entries))
    ensures ApplyAll(s, id, db, entries).Success? <==> forall i :: 0 <= i < |entries| ==> Applicable(s, db, entries[i])
    ensures ApplyAll(s, id, db, entries).Success? ==>
              var (done, c) := ApplyAll(s, id, db, entries).value;
              && c.insertedContexts + c.insertedReferences == NotThere(db, entries)
              && c.replayedContexts + c.replayedReferences == |entries| - NotThere(db, entries)
              && (forall i :: 0 <= i < |entries| ==> Dispositioned(id, db, done, entries[i]))
              && forall t :: t !in Targets(entries) ==> Chain(done, t) == Chain(db, t)
  {
    AppliesIff(s, id, db, entries);
    if ApplyAll(s, id, db, entries).Success? {
      InsertionsCounted(s, id, db, entries);
      forall i | 0 <= i < |entries| ensures Dispositioned(id, db, ApplyAll(s, id, db, entries).value.0, entries[i]) {
        EachDispositioned(s, id, db, entries, i);
      }
      forall t | t !in Targets(entries) ensures Chain(ApplyAll(s, id, db, entries).value.0, t) == Chain(db, t) {
        OthersUntouched(s, id, db, entries, t);
      }
    }
  }

  // ---- Places ----

  /** Some revision of the entry's target has its content. */
  ghost predicate InPlace(db: Db, e: Entry) {
    exists i :: 0 <= i < |Chain(db, e.target)| && Chain(db, e.target)[i].content == e.content
  }

  ghost predicate Grows(db: Db, later: Db) {
    forall t :: Chain(db, t) <= Chain(later, t)
  }

  lemma AppendGrows(db: Db, t: Target, content: string, author: Option<nat>)
    ensures Grows(db, Append(db, t, content, author))
  {
  }

  lemma EntryInPlace(s: Surroundings, id: nat, db: Db, e: Entry)
    requires ApplyEntry(s, id, db, e).Success?
    ensures InPlace(ApplyEntry(s, id, db, e).value.0, e)
  {
    var done := ApplyEntry(s, id, db, e).value.0;
    var chain := Chain(done, e.target);
    assert chain[|chain| - 1].content == e.content;
  }

  lemma GrowsKeepsPlaces(db: Db, mid: Db, later: Db, entries: seq<Entry>)
    requires Grows(db, mid) && Grows(mid, later) && forall e :: e in entries ==> InPlace(mid, e)
    ensures Grows(db, later) && forall e :: e in entries ==> InPlace(later, e)
  {
    forall t ensures Chain(db, t) <= Chain(later, t) {
      assert Chain(db, t) <= Chain(mid, t) <= Chain(later, t);
    }
    forall e | e in entries ensures InPlace(later, e) {
      var i :| 0 <= i < |Chain(mid, e.target)| && Chain(mid, e.target)[i].content == e.content;
      assert Chain(mid, e.target) <= Chain(later, e.target);
      assert Chain(later, e.target)[i].content == e.content;
    }
  }
}
