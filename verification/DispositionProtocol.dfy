/** Apply attempts of any number of disposition manifests, with crashes and other writers: the commit row and the rows
    it accounts for stay together. */
module DispositionProtocol {
  import opened Sequences
  import opened Wrappers
  import opened Dispositions

  datatype State = Applied | Passed | Replayed | Blocked | Failed

  /** A sealed dry-run receipt, and a judge's receipt that names it. */
  datatype DryRun = DryRun(dry: bool, passed: bool, manifest: nat, review: string, backup: string, code: string)

  datatype Judge = Judge(dryRun: DryRun, pass: bool, tier3: bool, purpose: bool, manifest: nat, review: string, code: string,
                         observedAt: int, expiresAt: int)

  predicate JudgeAuthorizes(d: DryRun, j: Judge, id: nat, m: Manifest, code: string, now: int) {
    && d.dry && d.passed && d.manifest == id && d.review == m.review && d.backup == m.backup && d.code == code
    && j.dryRun == d && j.pass && j.tier3 && j.manifest == id && j.review == m.review && j.code == code
    && j.purpose && j.observedAt <= now < j.expiresAt
  }

  /** What an attempt meets: its mode, whether the lock is free, the executor's code and receipts, the clock at its last
      check, whether the other authority checks hold, whether the recovered result and the proofs are accepted, whether
      the last diagnostics can be written, and the copy a dry run works on. */
  datatype Setting = Setting(s: Surroundings, apply: bool, lockFree: bool, code: string, dryRun: DryRun, judge: Judge, now: int,
                             reviewed: bool, recoverable: bool, proven: bool, checksPass: bool, diagnostics: bool, copy: Db)

  datatype Outcome = Outcome(state: State, counts: Counts)

  datatype World = World(db: Db, authority: map<nat, (DryRun, Judge)>)

  /** An attempt that crashes before its commit is no event; one that crashes later is the attempt itself. */
  datatype Event = Attempt(id: nat, setting: Setting) | Foreign(db: Db)

  function Nothing(state: State): Outcome {
    Outcome(state, Counts(0, 0, 0, 0))
  }

  /** The commit row was written for this manifest by this executor. */
  predicate Bound(row: CommitRow, m: Manifest, code: string) {
    && row.key == m.key && row.review == m.review && row.backup == m.backup && row.code == code
    && row.facts == FactCount(m.entries) && row.references == References(m.entries)
  }

  /** Only an apply attempt needs a judge. */
  predicate Authorized(t: Setting, id: nat, m: Manifest) {
    t.reviewed && (t.apply ==> JudgeAuthorizes(t.dryRun, t.judge, id, m, t.code, t.now))
  }

  /** An attempt up to its publication: the database it leaves and what it reports. */
  function Locked(t: Setting, id: nat, m: Manifest, db: Db): (Db, Outcome) {
    if !Authorized(t, id, m) || !t.lockFree then (db, Nothing(Blocked))
    else if t.apply && id in db.commits then
      if !Bound(db.commits[id], m, t.code) || !t.recoverable then (db, Nothing(Blocked))
      else (db, Outcome(Replayed, Counts(0, FactCount(m.entries), 0, References(m.entries))))
    else if !t.proven then (db, Nothing(Blocked))
    else if t.apply then
      match Transaction(t.s, id, m, t.code, db)
      case None => (db, Nothing(Failed))
      case Some((done, counts)) =>
        if !t.checksPass then (db, Nothing(Blocked))
        else if t.diagnostics then (done, Outcome(Applied, counts))
        else (done, Nothing(Failed))
    else
      match ApplyAll(t.s, id, t.copy, m.entries)
      case Failure(_) => (db, Nothing(Failed))
      case Success((_, counts)) =>
        if !t.checksPass then (db, Nothing(Blocked))
        else if t.diagnostics then (db, Outcome(Passed, counts))
        else (db, Nothing(Failed))
  }

  function Step(book: nat -> Manifest, w: World, ev: Event): World {
    match ev
    case Foreign(db) => w.(db := db)
    case Attempt(id, t) =>
      var (db, _) := Locked(t, id, book(id), w.db);
      World(db, if id in db.commits && id !in w.db.commits then w.authority[id := (t.dryRun, t.judge)] else w.authority)
  }

  function Run(book: nat -> Manifest, w: World, events: seq<Event>): World {
    if events == [] then w else Step(book, Run(book, w, events[..|events| - 1]), events[|events| - 1])
  }

  /** Other writers append rows of their own and leave the commit table alone. */
  ghost predicate Lawful(ts: seq<Target>, w: World, ev: Event) {
    ev.Foreign? ==>
      && Grows(w.db, ev.db) && ev.db.commits == w.db.commits
      && forall id :: WrittenTo(ev.db, ts, id) == WrittenTo(w.db, ts, id)
  }

  ghost predicate LawfulRun(book: nat -> Manifest, ts: seq<Target>, w: World, events: seq<Event>) {
    events != [] ==>
      && LawfulRun(book, ts, w, events[..|events| - 1])
      && Lawful(ts, Run(book, w, events[..|events| - 1]), events[|events| - 1])
  }

  // ---- The commit row and its effects ----

  function Recorded(db: Db, id: nat): nat {
    if id in db.commits then db.commits[id].insertedContexts + db.commits[id].insertedReferences else 0
  }

  /** The rows written for a manifest are those its commit row counts, none without one; with one, every entry is in
      place, and a judge passed the dry run of that manifest under that code. */
  ghost predicate Accounted(book: nat -> Manifest, ts: seq<Target>, w: World, id: nat) {
    && WrittenTo(w.db, ts, id) == Recorded(w.db, id)
    && (id in w.db.commits ==>
          && (forall e :: e in book(id).entries ==> InPlace(w.db, e))
          && Bound(w.db.commits[id], book(id), w.db.commits[id].code)
          && id in w.authority
          && exists now :: JudgeAuthorizes(w.authority[id].0, w.authority[id].1, id, book(id), w.db.commits[id].code, now))
  }

  ghost predicate AllAccounted(book: nat -> Manifest, ts: seq<Target>, w: World) {
    forall id :: Accounted(book, ts, w, id)
  }

  lemma TransactionKeepsAccounts(book: nat -> Manifest, ts: seq<Target>, w: World, id: nat, t: Setting, other: nat)
    requires Holds(ts, book(id)) && Accounted(book, ts, w, other)
    ensures Accounted(book, ts, Step(book, w, Attempt(id, t)), other)
  {
    var m := book(id);
    if Authorized(t, id, m) && t.lockFree && t.apply && id !in w.db.commits && t.proven && t.checksPass
       && Transaction(t.s, id, m, t.code, w.db).Some? {
      TransactionAccounts(t.s, id, w.db, m.entries, ts, other);
      var (done, counts) := ApplyAll(t.s, id, w.db, m.entries).value;
      var next := done.(commits := done.commits[id := RowFor(m, t.code, counts)]);
      SameChains(done, next, ts, other);
      if other == id {
        assert JudgeAuthorizes(t.dryRun, t.judge, id, m, t.code, t.now);
        GrowsKeepsPlaces(done, done, next, m.entries);
      } else if other in w.db.commits {
        GrowsKeepsPlaces(w.db, w.db, next, book(other).entries);
      }
    }
  }

  lemma {:induction false} SameChains(a: Db, b: Db, ts: seq<Target>, id: nat)
    requires a.chains == b.chains
    ensures WrittenTo(a, ts, id) == WrittenTo(b, ts, id) && Grows(a, b)
  {
    if ts != [] {
      SameChains(a, b, ts[..|ts| - 1], id);
    }
    forall t ensures Chain(a, t) <= Chain(b, t) {
    }
  }

  /** In every reachable state, for every manifest: its rows are in the database exactly as its commit row says. */
  lemma {:induction false} CommitRowIffEffects(book: nat -> Manifest, ts: seq<Target>, w: World, events: seq<Event>)
    requires (forall id :: Holds(ts, book(id))) && AllAccounted(book, ts, w) && LawfulRun(book, ts, w, events)
    ensures AllAccounted(book, ts, Run(book, w, events))
  {
    if events != [] {
      var init, ev := events[..|events| - 1], events[|events| - 1];
      var before := Run(book, w, init);
      CommitRowIffEffects(book, ts, w, init);
      forall id ensures Accounted(book, ts, Run(book, w, events), id) {
        assert Accounted(book, ts, before, id);
        match ev
        case Attempt(a, t) => TransactionKeepsAccounts(book, ts, before, a, t, id);
        case Foreign(db) => ForeignKeepsAccounts(book, ts, before, db, id);
      }
    }
  }

  lemma ForeignKeepsAccounts(book: nat -> Manifest, ts: seq<Target>, w: World, db: Db, id: nat)
    requires Accounted(book, ts, w, id) && Lawful(ts, w, Foreign(db))
    ensures Accounted(book, ts, w.(db := db), id)
  {
    if id in w.db.commits {
      GrowsKeepsPlaces(w.db, w.db, db, book(id).entries);
    }
  }

  // ---- After a commit ----

  lemma {:induction false} CommitsStay(book: nat -> Manifest, ts: seq<Target>, w: World, events: seq<Event>, id: nat)
    requires id in w.db.commits && LawfulRun(book, ts, w, events)
    ensures var v := Run(book, w, events);
            id in v.db.commits && v.db.commits[id] == w.db.commits[id]
  {
    if events != [] {
      CommitsStay(book, ts, w, events[..|events| - 1], id);
      var before := Run(book, w, events[..|events| - 1]);
      match events[|events| - 1]
      case Attempt(a, t) => LockedKeepsCommits(t, a, book(a), before.db);
      case Foreign(_) =>
    }
  }

  lemma LockedKeepsCommits(t: Setting, id: nat, m: Manifest, db: Db)
    ensures var next := Locked(t, id, m, db).0;
            forall k :: k in db.commits ==> k in next.commits && next.commits[k] == db.commits[k]
  {
    if Transaction(t.s, id, m, t.code, db).Some? {
      ApplyKeepsCommits(t.s, id, db, m.entries);
    }
  }

  lemma {:induction false} ApplyKeepsCommits(s: Surroundings, id: nat, db: Db, entries: seq<Entry>)
    requires ApplyAll(s, id, db, entries).Success?
    ensures ApplyAll(s, id, db, entries).value.0.commits == db.commits
  {
    if entries != [] {
      ApplyKeepsCommits(s, id, db, entries[..|entries| - 1]);
    }
  }

  /** Once its commit row exists, whatever happens next and even if the diagnostics of the committing attempt failed, no
      attempt on the manifest changes the database. An apply attempt counts no insertion: it replays, exactly when it is
      authorized, gets the lock, runs the code that committed and its recovery checks hold, and is blocked otherwise. */
  lemma LaterAttemptReplaysIff(book: nat -> Manifest, ts: seq<Target>, w: World, events: seq<Event>, id: nat,
      later: Setting)
    requires Accounted(book, ts, w, id) && id in w.db.commits && LawfulRun(book, ts, w, events)
    ensures var v := Run(book, w, events);
            var (db, outcome) := Locked(later, id, book(id), v.db);
            && db == v.db
            && (later.apply ==>
                  && outcome.counts.insertedContexts == 0 && outcome.counts.insertedReferences == 0
                  && (outcome.state == Replayed <==> Authorized(later, id, book(id)) && later.lockFree
                                                     && later.code == w.db.commits[id].code && later.recoverable)
                  && (outcome.state == Replayed || outcome.state == Blocked))
  {
    CommitsStay(book, ts, w, events, id);
  }

  /** Diagnostics that raise after the commit turn the report into a failure, and change nothing else. */
  lemma FailedDiagnosticsOnlyReport(t: Setting, id: nat, m: Manifest, db: Db)
    requires id !in db.commits
    ensures var (next, outcome) := Locked(t, id, m, db);
            var (same, quiet) := Locked(t.(diagnostics := true), id, m, db);
            && next == same
            && (id in next.commits <==> quiet.state == Applied)
            && (id in next.commits && !t.diagnostics ==> outcome.state == Failed)
  {
    if Transaction(t.s, id, m, t.code, db).Some? {
      ApplyKeepsCommits(t.s, id, db, m.entries);
    }
  }
}
