/** Apply attempts of one repair manifest as a step machine: the locked section with its commit, the receipt, the
    marker, crashes between any two of them, and other writers. */
module RefreshProtocol {
  import opened Wrappers
  import opened RefreshDatabase
  import opened RefreshTransaction
  import opened RefreshOnce
  import opened RepairAuthority

  datatype State = Applied | Passed | Replayed | Blocked | Failed

  datatype Receipt = Receipt(state: State, heads: seq<nat>, factRows: nat, contextRows: nat, definitionRows: nat)

  /** The idempotency marker, sealed to one attempt's receipt. */
  datatype Marker = Marker(attempt: nat, sealed: Receipt)

  datatype Outcome = Outcome(receipt: Receipt, publish: bool)

  datatype Phase = Finished(outcome: Outcome) | Published(outcome: Outcome) | Over

  /** The clock readings of an attempt, by the check they are made for. */
  datatype Clock = Clock(
    preflight: int, judged: int, replayed: int, beforeProof: int, afterProof: int, validated: int, begun: int,
    written: int, last: int)

  /** What one attempt meets: its mode and its clock, the review's limits, whether the lock is free, whether the
      documents entitle it and the backup proof passes, whether a recovered result is in scope, whether the diagnostics
      of its end can be written, and the copy a dry run works on. */
  datatype Setting = Setting(
    s: Surroundings, apply: bool, limits: Limits, started: int, clock: Clock, lockFree: bool, entitled: bool,
    proven: bool, inScope: bool, diagnostics: bool, copy: Db)

  datatype World = World(db: Db, receipts: map<nat, Receipt>, marker: Option<Marker>, attempts: map<nat, Phase>, additions: nat)

  datatype Event =
    | Begin(attempt: nat, setting: Setting)
    | PublishReceipt(attempt: nat)
    | PublishMarker(attempt: nat)
    | Crash(attempt: nat)
    | Foreign(db: Db)

  datatype Recovery = Refused | NotCommitted | Recovered(heads: seq<nat>, publish: bool)

  function BlockedOutcome(): Outcome {
    Outcome(Receipt(Blocked, [], 0, 0, 0), false)
  }

  // ---- Authority ----

  /** The checks before the lock. */
  function EntryChecks(t: Setting): seq<Reading> {
    [Reading(t.clock.preflight, Plain)] + if t.apply then [Reading(t.clock.judged, Judged)] else []
  }

  function Current(t: Setting, now: int): Reading {
    Reading(now, if t.apply then Judged else Timed)
  }

  /** The checks around the proof of the sources and up to the transaction. */
  function ProofChecks(t: Setting): seq<Reading> {
    [Reading(t.clock.beforeProof, Plain), Reading(t.clock.afterProof, Plain), Current(t, t.clock.validated),
     Current(t, t.clock.begun)]
  }

  /** The checks in the transaction, after the last write. */
  function CommitChecks(t: Setting): seq<Reading> {
    [Current(t, t.clock.written), Current(t, t.clock.last)]
  }

  function ReplayChecks(t: Setting): seq<Reading> {
    EntryChecks(t) + [Reading(t.clock.replayed, Judged)]
  }

  function RunChecks(t: Setting): seq<Reading> {
    EntryChecks(t) + ProofChecks(t) + CommitChecks(t)
  }

  predicate Entitled(t: Setting) {
    t.entitled && t.limits.maxAge > 0 && t.limits.knowledgeAt <= t.started + SKEW
  }

  predicate Authorized(t: Setting) {
    Entitled(t) && AllPass(t.limits, EntryChecks(t), t.started)
  }

  // ---- The locked section ----

  /** A marker counts only if it is bound to a receipt of an applied or replayed attempt. */
  predicate MarkerBound(receipts: map<nat, Receipt>, k: Marker) {
    && k.attempt in receipts && receipts[k.attempt] == k.sealed
    && (k.sealed.state == Applied || k.sealed.state == Replayed)
  }

  function Recover(s: Surroundings, inScope: bool, m: Manifest, db: Db, receipts: map<nat, Receipt>,
      marker: Option<Marker>): Recovery {
    match marker
    case Some(k) =>
      if MarkerBound(receipts, k) && VerifyReplay(s, m, db, k.sealed.heads) && inScope
      then Recovered(k.sealed.heads, false) else Refused
    case None =>
      match Detect(s, m, db, m.entries)
      case None => NotCommitted
      case Some(heads) => if inScope then Recovered(heads, true) else Refused
  }

  /** The new tables and the outcome of an attempt up to its publication. */
  function Locked(t: Setting, m: Manifest, db: Db, receipts: map<nat, Receipt>, marker: Option<Marker>): (Db, Outcome) {
    if !Authorized(t) || !t.lockFree then (db, BlockedOutcome())
    else
      match if t.apply then Recover(t.s, t.inScope, m, db, receipts, marker) else NotCommitted
      case Refused => (db, BlockedOutcome())
      case Recovered(heads, publish) =>
        if !AllPass(t.limits, ReplayChecks(t), t.started) then (db, BlockedOutcome())
        else (db, Outcome(Receipt(Replayed, heads, 0, 0, 0), publish))
      case NotCommitted => FreshRun(t, m, db)
  }

  /** An attempt that has found nothing committed. A dry run works on a copy. */
  function FreshRun(t: Setting, m: Manifest, db: Db): (Db, Outcome) {
    if !t.proven || !AllPass(t.limits, RunChecks(t), t.started) then (db, BlockedOutcome())
    else
      match Transaction(t.s, m, if t.apply then db else t.copy)
      case Failure(_) => (db, BlockedOutcome())
      case Success(p) => (if t.apply then p.db else db, Outcome(Ended(t, p), t.apply))
  }

  /** The receipt of a transaction that went through: committed, or rolled back by a dry run. */
  function Ended(t: Setting, p: Progress): Receipt {
    Receipt(if !t.diagnostics then Failed else if t.apply then Applied else Passed,
            p.heads, p.factRows, p.contextRows, p.definitionRows)
  }

  // ---- The step machine ----

  function Step(m: Manifest, w: World, ev: Event): World {
    match ev
    case Begin(a, t) =>
      if a in w.attempts then w
      else
        var (db, outcome) := Locked(t, m, w.db, w.receipts, w.marker);
        w.(db := db, attempts := w.attempts[a := Finished(outcome)],
           additions := w.additions + if SameRows(w.db, db) then 0 else 1)
    case PublishReceipt(a) =>
      if a in w.attempts && w.attempts[a].Finished?
      then w.(receipts := w.receipts[a := w.attempts[a].outcome.receipt], attempts := w.attempts[a := Published(w.attempts[a].outcome)])
      else w
    case PublishMarker(a) =>
      if a in w.attempts && w.attempts[a].Published? && w.attempts[a].outcome.publish
      then w.(marker := if w.marker.Some? then w.marker else Some(Marker(a, w.attempts[a].outcome.receipt)),
              attempts := w.attempts[a := Over])
      else w
    case Crash(a) => w.(attempts := w.attempts[a := Over])
    case Foreign(db) => w.(db := db)
  }

  function Run(m: Manifest, w: World, events: seq<Event>): World {
    if events == [] then w else Step(m, Run(m, w, events[..|events| - 1]), events[|events| - 1])
  }

  /** Other writers only append, and never violate the tables' own rules. */
  ghost predicate Lawful(w: World, ev: Event) {
    ev.Foreign? ==> WellFormed(ev.db) && Grows(w.db, ev.db)
  }

  ghost predicate LawfulRun(m: Manifest, w: World, events: seq<Event>) {
    events != [] ==>
      && LawfulRun(m, w, events[..|events| - 1])
      && Lawful(Run(m, w, events[..|events| - 1]), events[|events| - 1])
  }

  // ---- At most once, over every run ----

  /** No attempt can commit any more, however the tables grow. */
  ghost predicate Spent(m: Manifest, db: Db) {
    forall t: Surroundings, later: Db :: Grows(db, later) ==> Transaction(t, m, later).Failure?
  }

  ghost predicate Safe(m: Manifest, w: World) {
    WellFormed(w.db) && w.additions <= 1 && (w.additions == 1 ==> Spent(m, w.db))
  }

  lemma SpentStays(m: Manifest, db: Db, later: Db)
    requires Spent(m, db) && Grows(db, later)
    ensures Spent(m, later)
  {
    forall t: Surroundings, last: Db | Grows(later, last) ensures Transaction(t, m, last).Failure? {
      GrowsTransitive(db, later, last);
    }
  }

  lemma CommitSpends(s: Surroundings, m: Manifest, db: Db)
    requires WellFormed(db) && Transaction(s, m, db).Success?
    ensures var p := Transaction(s, m, db).value;
            WellFormed(p.db) && (SameRows(db, p.db) || Spent(m, p.db))
  {
    var p := Transaction(s, m, db).value;
    ApplyAllGrows(s, m, db, m.entries);
    if !SameRows(db, p.db) {
      forall t: Surroundings, later: Db | Grows(p.db, later) ensures Transaction(t, m, later).Failure? {
        CommittedRowsBlockForever(s, m, db, t, later);
      }
    }
  }

  /** The locked section leaves the database alone, or commits what the transaction computes. */
  lemma LockedCommits(t: Setting, m: Manifest, db: Db, receipts: map<nat, Receipt>, marker: Option<Marker>)
    ensures var (next, outcome) := Locked(t, m, db, receipts, marker);
            next == db || (t.apply && Transaction(t.s, m, db).Success? && next == Transaction(t.s, m, db).value.db && marker.None?
                           && Detect(t.s, m, db, m.entries).None?)
  {
  }

  lemma StepKeepsSafe(m: Manifest, w: World, ev: Event)
    requires Safe(m, w) && Lawful(w, ev)
    ensures Safe(m, Step(m, w, ev))
  {
    match ev
    case Foreign(db) =>
      if w.additions == 1 {
        SpentStays(m, w.db, db);
      }
    case Begin(a, t) =>
      LockedCommits(t, m, w.db, w.receipts, w.marker);
      GrowsItself(w.db);
      if Transaction(t.s, m, w.db).Success? {
        CommitSpends(t.s, m, w.db);
      }
    case _ =>
  }

  lemma GrowsItself(db: Db)
    ensures Grows(db, db)
  {
  }

  /** Over any sequence of attempts, with crashes anywhere and other writers appending, the manifest's rows are added
      at most once. */
  lemma {:induction false} RowsAddedAtMostOnce(m: Manifest, w: World, events: seq<Event>)
    requires WellFormed(w.db) && w.additions == 0 && LawfulRun(m, w, events)
    ensures Run(m, w, events).additions <= 1 && Safe(m, Run(m, w, events))
  {
    if events != [] {
      RowsAddedAtMostOnce(m, w, events[..|events| - 1]);
      StepKeepsSafe(m, Run(m, w, events[..|events| - 1]), events[|events| - 1]);
    }
  }

  // ---- After a commit ----

  predicate Pending(phase: Phase) {
    !phase.Over? && phase.outcome.publish
  }

  /** The manifest's result is in the database; the marker and everything still to be published tell of it. A receipt
      in state failed exists only if the diagnostics after the commit failed. */
  ghost predicate Committed(m: Manifest, s: Surroundings, w: World, heads: seq<nat>, diagnosed: bool) {
    && Detect(s, m, w.db, m.entries) == Some(heads)
    && (w.marker.Some? ==>
          var k := w.marker.value;
          && k.attempt in w.receipts && w.receipts[k.attempt] == k.sealed && Tells(k.sealed, heads, diagnosed)
          && k.attempt in w.attempts && w.attempts[k.attempt].Over?)
    && (forall a :: a in w.attempts && Pending(w.attempts[a]) ==> Tells(w.attempts[a].outcome.receipt, heads, diagnosed))
    && (forall a :: a in w.attempts && w.attempts[a].Published? ==>
          a in w.receipts && w.receipts[a] == w.attempts[a].outcome.receipt)
  }

  predicate Tells(r: Receipt, heads: seq<nat>, diagnosed: bool) {
    r.heads == heads && (r.state == Applied || r.state == Replayed || (r.state == Failed && !diagnosed))
  }

  /** An apply attempt whose checks on the way to a replay pass. */
  predicate MayReplay(t: Setting) {
    t.apply && t.lockFree && Authorized(t) && t.inScope && AllPass(t.limits, ReplayChecks(t), t.started)
  }

  /** An attempt with current authority after the commit, when nothing outside has changed: it adds nothing, and it
      replays the committed heads exactly when there is no marker or the marker is sealed to an attempt that did not
      end as failed; otherwise it is blocked. */
  lemma AttemptAfterCommit(m: Manifest, w: World, heads: seq<nat>, diagnosed: bool, t: Setting)
    requires Committed(m, t.s, w, heads, diagnosed) && MayReplay(t)
    ensures var (db, outcome) := Locked(t, m, w.db, w.receipts, w.marker);
            && db == w.db && outcome.receipt.factRows == outcome.receipt.contextRows == outcome.receipt.definitionRows == 0
            && (outcome.receipt.state == Replayed && outcome.receipt.heads == heads
                <==> w.marker.None? || w.marker.value.sealed.state != Failed)
            && (outcome.receipt.state == Replayed || outcome.receipt.state == Blocked)
  {
    DetectionAgreesWithReplay(t.s, m, w.db, heads);
  }

  lemma BeginKeepsCommitted(m: Manifest, w: World, heads: seq<nat>, diagnosed: bool, a: nat, t: Setting)
    requires Committed(m, t.s, w, heads, diagnosed)
    ensures Committed(m, t.s, Step(m, w, Begin(a, t)), heads, diagnosed) && Step(m, w, Begin(a, t)).db == w.db
  {
    LockedCommits(t, m, w.db, w.receipts, w.marker);
    LockedTells(m, w, heads, diagnosed, t);
    if a !in w.attempts {
      FinishedKeepsCommitted(m, t.s, w, heads, diagnosed, a, Locked(t, m, w.db, w.receipts, w.marker).1, Step(m, w, Begin(a, t)));
    }
  }

  lemma FinishedKeepsCommitted(m: Manifest, s: Surroundings, w: World, heads: seq<nat>, diagnosed: bool, a: nat,
      outcome: Outcome, v: World)
    requires Committed(m, s, w, heads, diagnosed) && a !in w.attempts
    requires outcome.publish ==> Tells(outcome.receipt, heads, diagnosed)
    requires v.db == w.db && v.marker == w.marker && v.receipts == w.receipts && v.attempts == w.attempts[a := Finished(outcome)]
    ensures Committed(m, s, v, heads, diagnosed)
  {
  }

  lemma PublishKeepsCommitted(m: Manifest, s: Surroundings, w: World, heads: seq<nat>, diagnosed: bool, ev: Event)
    requires Committed(m, s, w, heads, diagnosed) && (ev.PublishReceipt? || ev.PublishMarker?)
    ensures Committed(m, s, Step(m, w, ev), heads, diagnosed) && Step(m, w, ev).db == w.db
  {
  }

  lemma LockedTells(m: Manifest, w: World, heads: seq<nat>, diagnosed: bool, t: Setting)
    requires Committed(m, t.s, w, heads, diagnosed)
    ensures var outcome := Locked(t, m, w.db, w.receipts, w.marker).1;
            outcome.publish ==> Tells(outcome.receipt, heads, diagnosed)
  {
    DetectionAgreesWithReplay(t.s, m, w.db, heads);
  }

  lemma StepKeepsCommitted(m: Manifest, s: Surroundings, w: World, heads: seq<nat>, diagnosed: bool, ev: Event)
    requires Committed(m, s, w, heads, diagnosed) && FactsExist(m, w.db) && Undisturbing(m, s, w.db, ev)
    ensures Committed(m, s, Step(m, w, ev), heads, diagnosed) && Step(m, w, ev).db == After(w.db, ev)
  {
    match ev
    case Begin(a, t) => BeginKeepsCommitted(m, w, heads, diagnosed, a, t);
    case Foreign(db) => DetectKept(s, m, w.db, db);
    case Crash(_) =>
    case _ => PublishKeepsCommitted(m, s, w, heads, diagnosed, ev);
  }

  // ---- Runs in which nothing disturbs the manifest ----

  /** An attempt meets the same surroundings; another writer leaves the manifest's facts and definitions alone. */
  ghost predicate Undisturbing(m: Manifest, s: Surroundings, db: Db, ev: Event) {
    (ev.Begin? ==> ev.setting.s == s) && (ev.Foreign? ==> LeavesAlone(m, db, ev.db))
  }

  /** The tables if the attempts add nothing: as the last other writer left them. */
  function After(db: Db, ev: Event): Db {
    if ev.Foreign? then ev.db else db
  }

  function Left(db: Db, events: seq<Event>): Db {
    if events == [] then db else After(Left(db, events[..|events| - 1]), events[|events| - 1])
  }

  ghost predicate Undisturbed(m: Manifest, s: Surroundings, db: Db, events: seq<Event>) {
    events != [] ==>
      && Undisturbed(m, s, db, events[..|events| - 1])
      && Undisturbing(m, s, Left(db, events[..|events| - 1]), events[|events| - 1])
  }

  lemma {:induction false} RunKeepsCommitted(m: Manifest, s: Surroundings, w: World, heads: seq<nat>,
      diagnosed: bool, events: seq<Event>)
    requires Committed(m, s, w, heads, diagnosed) && FactsExist(m, w.db) && Undisturbed(m, s, w.db, events)
    ensures Committed(m, s, Run(m, w, events), heads, diagnosed) && FactsExist(m, Left(w.db, events))
    ensures Run(m, w, events).db == Left(w.db, events)
  {
    if events != [] {
      var init := events[..|events| - 1];
      RunKeepsCommitted(m, s, w, heads, diagnosed, init);
      StepKeepsCommitted(m, s, Run(m, w, init), heads, diagnosed, events[|events| - 1]);
    }
  }

  /** Committed, but not to be recognised: nothing is detected, and there is nothing more to add. */
  ghost predicate Unrecognised(m: Manifest, s: Surroundings, db: Db) {
    WellFormed(db) && FactsExist(m, db) && Detect(s, m, db, m.entries).None? && Settled(s, m, db)
  }

  lemma AttemptOnUnrecognised(m: Manifest, t: Setting, db: Db, receipts: map<nat, Receipt>, marker: Option<Marker>)
    requires Unrecognised(m, t.s, db)
    ensures var (next, outcome) := Locked(t, m, db, receipts, marker);
            next == db && outcome.receipt.state != Replayed
  {
    SettledChangesNothing(t.s, m, db);
    LockedCommits(t, m, db, receipts, marker);
    if marker.Some? {
      DetectionAgreesWithReplay(t.s, m, db, marker.value.sealed.heads);
    }
  }

  lemma {:induction false} RunKeepsUnrecognised(m: Manifest, s: Surroundings, w: World, events: seq<Event>)
    requires Unrecognised(m, s, w.db) && Undisturbed(m, s, w.db, events)
    ensures Unrecognised(m, s, Left(w.db, events)) && Run(m, w, events).db == Left(w.db, events)
  {
    if events != [] {
      var init, ev := events[..|events| - 1], events[|events| - 1];
      RunKeepsUnrecognised(m, s, w, init);
      var before := Run(m, w, init);
      if ev.Foreign? {
        DetectKept(s, m, before.db, ev.db);
        SettledStays(s, m, before.db, ev.db);
      } else if ev.Begin? {
        AttemptOnUnrecognised(m, ev.setting, before.db, before.receipts, before.marker);
      }
    }
  }

  // ---- Exactly once ----

  /** No attempt has anything left to publish, and nothing has been published. */
  ghost predicate Fresh(w: World) {
    w.marker.None? && forall a :: a in w.attempts ==> w.attempts[a].Over?
  }

  /** The first attempt that commits, from a world with no earlier attempt under way. */
  ghost predicate Commits(m: Manifest, w: World, a: nat, t: Setting) {
    && WellFormed(w.db) && Fresh(w) && a !in w.attempts && Shaped(m)
    && t.apply && t.lockFree && Authorized(t) && t.proven && AllPass(t.limits, RunChecks(t), t.started)
    && Detect(t.s, m, w.db, m.entries).None? && Transaction(t.s, m, w.db).Success?
  }

  /** What makes a commit of the manifest on these tables recognisable afterwards. */
  ghost predicate Recognisable(m: Manifest, db: Db) {
    Compatible(m.entries) && AllTraceable(m, db)
  }

  lemma BeginCommits(m: Manifest, w: World, a: nat, t: Setting)
    requires Commits(m, w, a, t)
    ensures var p, v := Transaction(t.s, m, w.db).value, Step(m, w, Begin(a, t));
            && v.db == p.db && v.marker.None? && v.receipts == w.receipts
            && v.attempts == w.attempts[a := Finished(Outcome(Ended(t, p), true))]
  {
  }

  lemma CommitEstablishes(m: Manifest, w: World, a: nat, t: Setting)
    requires Commits(m, w, a, t)
    ensures var p, v := Transaction(t.s, m, w.db).value, Step(m, w, Begin(a, t));
            && v.db == p.db && FactsExist(m, p.db)
            && if Recognisable(m, w.db) then Committed(m, t.s, v, p.heads, t.diagnostics) else Unrecognised(m, t.s, p.db)
  {
    var p := Transaction(t.s, m, w.db).value;
    var outcome := Outcome(Ended(t, p), true);
    CommittedFactsExist(t.s, m, w.db);
    CommitIsDetectedIff(t.s, m, w.db);
    BeginCommits(m, w, a, t);
    if Recognisable(m, w.db) {
      FreshTells(m, t.s, w, Step(m, w, Begin(a, t)), a, outcome, t.diagnostics);
    } else {
      CommitSettles(t.s, m, w.db);
    }
  }

  lemma FreshTells(m: Manifest, s: Surroundings, w: World, v: World, a: nat, outcome: Outcome, diagnosed: bool)
    requires Fresh(w) && v.marker.None? && v.attempts == w.attempts[a := Finished(outcome)]
    requires Tells(outcome.receipt, outcome.receipt.heads, diagnosed)
    requires Detect(s, m, v.db, m.entries) == Some(outcome.receipt.heads)
    ensures Committed(m, s, v, outcome.receipt.heads, diagnosed)
  {
  }

  lemma CommittedFactsExist(s: Surroundings, m: Manifest, db: Db)
    requires WellFormed(db) && Transaction(s, m, db).Success?
    ensures WellFormed(Transaction(s, m, db).value.db) && FactsExist(m, Transaction(s, m, db).value.db)
  {
    ApplyAllGrows(s, m, db, m.entries);
    AllValid(s, db, m.entries);
    forall i | 0 <= i < |m.entries| ensures m.entries[i].predecessor in db.facts {
      ValidatedIsValid(s, db, m.entries[i]);
    }
  }

  /** Exactly once: after the commit, whatever receipts and markers are or are not published, wherever attempts crash
      and whatever others write elsewhere, the attempts change no table any more. A later authorized attempt replays the
      committed heads exactly when the commit is recognisable and no marker is sealed to a receipt in state failed,
      which takes diagnostics that failed after the commit; on a recognisable commit it is blocked otherwise. */
  lemma LaterAttemptReplaysIff(m: Manifest, w: World, a: nat, t: Setting, events: seq<Event>, later: Setting)
    requires Commits(m, w, a, t) && Undisturbed(m, t.s, Transaction(t.s, m, w.db).value.db, events)
    requires later.s == t.s && MayReplay(later)
    ensures var p := Transaction(t.s, m, w.db).value;
            var v := Run(m, Step(m, w, Begin(a, t)), events);
            var (db, outcome) := Locked(later, m, v.db, v.receipts, v.marker);
            && db == v.db == Left(p.db, events)
            && (outcome.receipt.state == Replayed
                <==> Recognisable(m, w.db) && (v.marker.None? || v.marker.value.sealed.state != Failed))
            && (outcome.receipt.state == Replayed ==> outcome.receipt.heads == p.heads)
            && (Recognisable(m, w.db) ==> outcome.receipt.state == Replayed || outcome.receipt.state == Blocked)
            && (Recognisable(m, w.db) && t.diagnostics ==> outcome.receipt.state == Replayed)
  {
    var heads := Transaction(t.s, m, w.db).value.heads;
    var after := Step(m, w, Begin(a, t));
    CommitEstablishes(m, w, a, t);
    if Recognisable(m, w.db) {
      CommittedReplaysIff(m, after, heads, t.diagnostics, events, later);
    } else {
      RunKeepsUnrecognised(m, t.s, after, events);
      var v := Run(m, after, events);
      AttemptOnUnrecognised(m, later, v.db, v.receipts, v.marker);
    }
  }

  lemma CommittedReplaysIff(m: Manifest, w: World, heads: seq<nat>, diagnosed: bool, events: seq<Event>, later: Setting)
    requires Committed(m, later.s, w, heads, diagnosed) && FactsExist(m, w.db) && Undisturbed(m, later.s, w.db, events)
    requires MayReplay(later)
    ensures var v := Run(m, w, events);
            var (db, outcome) := Locked(later, m, v.db, v.receipts, v.marker);
            && db == v.db == Left(w.db, events)
            && (outcome.receipt.state == Replayed <==> v.marker.None? || v.marker.value.sealed.state != Failed)
            && (outcome.receipt.state == Replayed ==> outcome.receipt.heads == heads)
            && (outcome.receipt.state == Replayed || outcome.receipt.state == Blocked)
            && (diagnosed ==> outcome.receipt.state == Replayed)
  {
    RunKeepsCommitted(m, later.s, w, heads, diagnosed, events);
    AttemptAfterCommit(m, Run(m, w, events), heads, diagnosed, later);
  }

  /** The failing case happens: diagnostics that raise after the commit leave a receipt in state failed, and the marker
      sealed to it blocks every later attempt, for good and whatever else is done. */
  lemma FailedDiagnosticsBlock(m: Manifest, w: World, a: nat, t: Setting)
    requires Commits(m, w, a, t) && !t.diagnostics
    ensures var v := Run(m, w, [Begin(a, t), PublishReceipt(a), PublishMarker(a)]);
            v.marker.Some? && v.marker.value.sealed.state == Failed && v.db == Transaction(t.s, m, w.db).value.db
  {
    BeginCommits(m, w, a, t);
    PublishesSeal(m, Step(m, w, Begin(a, t)), a);
    ThreeSteps(m, w, Begin(a, t), PublishReceipt(a), PublishMarker(a));
  }

  lemma PublishesSeal(m: Manifest, w: World, a: nat)
    requires w.marker.None? && a in w.attempts && w.attempts[a].Finished? && w.attempts[a].outcome.publish
    ensures var v := Step(m, Step(m, w, PublishReceipt(a)), PublishMarker(a));
            v.marker == Some(Marker(a, w.attempts[a].outcome.receipt)) && v.db == w.db
  {
  }

  lemma RunNext(m: Manifest, w: World, events: seq<Event>, ev: Event)
    ensures Run(m, w, events + [ev]) == Step(m, Run(m, w, events), ev)
  {
    assert (events + [ev])[..|events|] == events;
  }

  lemma ThreeSteps(m: Manifest, w: World, x: Event, y: Event, z: Event)
    ensures Run(m, w, [x, y, z]) == Step(m, Step(m, Step(m, w, x), y), z)
  {
    assert Run(m, w, [x]) == Step(m, w, x) by {
      assert [] + [x] == [x];
      RunNext(m, w, [], x);
    }
    assert Run(m, w, [x, y]) == Step(m, Run(m, w, [x]), y) by {
      assert [x] + [y] == [x, y];
      RunNext(m, w, [x], y);
    }
    assert [x, y] + [z] == [x, y, z];
    RunNext(m, w, [x, y], z);
  }

  lemma {:induction false} FailedMarkerBlocksForGood(m: Manifest, w: World, events: seq<Event>, t: Setting)
    requires w.marker.Some? && w.marker.value.sealed.state == Failed
    ensures var v := Run(m, w, events);
            && v.marker == w.marker && v.additions == w.additions
            && (t.apply ==> Locked(t, m, v.db, v.receipts, v.marker) == (v.db, BlockedOutcome()))
  {
    if events != [] {
      FailedMarkerBlocksForGood(m, w, events[..|events| - 1], t);
      var before, ev := Run(m, w, events[..|events| - 1]), events[|events| - 1];
      if ev.Begin? {
        LockedCommits(ev.setting, m, before.db, before.receipts, before.marker);
      }
    }
  }

  // ---- Fresh authority ----

  /** The attempt commits a transaction: no replay, no dry run. */
  predicate CommitsNow(m: Manifest, w: World, ev: Event) {
    && ev.Begin? && ev.attempt !in w.attempts
    && var outcome := Locked(ev.setting, m, w.db, w.receipts, w.marker).1; outcome.publish && outcome.receipt.state != Replayed
  }

  /** From the start of the run, the clock does not step back up to the commit; the first reading is not behind the
      evidence by more than the skew; the last is within both age bounds and the judge's qualification. */
  ghost predicate UnderFreshAuthority(t: Setting) {
    && Ascending(RunChecks(t), t.started) && NotFromFuture(t.limits, t.clock.preflight) && Young(t.limits, t.clock.last)
    && t.limits.knowledgeAt <= t.started + SKEW && t.limits.judgeFrom <= t.clock.last < t.limits.judgeUntil
    && RunChecks(t)[|RunChecks(t)| - 1].now == t.clock.last
  }

  /** Whatever has gone before, a step of these attempts changes the database only by a commit, and commits only under
      fresh authority. */
  lemma CommitUnderFreshAuthority(m: Manifest, w: World, ev: Event)
    requires !ev.Foreign?
    ensures Step(m, w, ev).db != w.db ==> CommitsNow(m, w, ev)
    ensures CommitsNow(m, w, ev) ==> ev.setting.apply && UnderFreshAuthority(ev.setting)
  {
    if CommitsNow(m, w, ev) {
      var t := ev.setting;
      var rs := RunChecks(t);
      AuthorityIff(t.limits, rs, t.started);
      assert rs[0].now == t.clock.preflight && rs[|rs| - 1] == Current(t, t.clock.last);
    }
  }

  /** A backward step of the clock between any two checks of a run leaves the database as it was, and nothing is
      committed. */
  lemma BackwardStepCommitsNothing(m: Manifest, w: World, a: nat, t: Setting, i: nat, j: nat)
    requires i < j < |RunChecks(t)| && RunChecks(t)[j].now < RunChecks(t)[i].now
    ensures Step(m, w, Begin(a, t)).db == w.db && !CommitsNow(m, w, Begin(a, t))
  {
    BackwardStepBlocks(t.limits, RunChecks(t), t.started, i, j);
  }
}
