/** The repair as the executor runs it: a connection whose tables change entry by entry and roll back, and the locked
    section around it. */
module RefreshExecutor {
  import opened Wrappers
  import opened RefreshDatabase
  import opened RefreshTransaction
  import P = RefreshProtocol
  import A = RepairAuthority

  class Connection {
    var db: Db

    constructor (db: Db)
      ensures this.db == db
    {
      this.db := db;
    }

    method ValidateEntries(s: Surroundings, m: Manifest) returns (blocker: Option<Blocker>)
      ensures blocker == FirstBlocker(s, db, m.entries)
    {
      for i := 0 to |m.entries|
        invariant FirstBlocker(s, db, m.entries[..i]).None?
      {
        assert m.entries[..i + 1][..i] == m.entries[..i];
        blocker := Validate(s, db, m.entries[i]);
        if blocker.Some? {
          BlockerStays(s, db, m.entries, i + 1);
          return;
        }
      }
      assert m.entries[..|m.entries|] == m.entries;
      return None;
    }

    /** Applies one entry on top of the progress made so far. */
    method ApplyOne(s: Surroundings, m: Manifest, p: Progress, e: Entry) returns (r: Result<Progress, Blocker>)
      requires p.db == db
      modifies this
      ensures r == ApplyEntry(s, m, p, e)
      ensures db == if r.Success? then r.value.db else old(db)
    {
      var written := Written(m, db, e);
      if written.Failure? {
        return Failure(written.error);
      }
      if !s.resolves(e) {
        return Failure(ResolutionFailed);
      }
      var (next, head) := written.value;
      db := next;
      var superseding := e.action == Supersede;
      db := Resolve(db, head, if superseding then Some(e.predecessor) else None);
      var definitions := if e.definition.Some? then 1 else 0;
      r := Success(Progress(db, p.heads + [head], p.factRows + (if superseding then 1 else 0),
                            p.contextRows + 1, p.definitionRows + definitions));
    }

    /** Applies the entries in order; a failure leaves the work done so far for the caller to roll back. */
    method ApplyEntries(s: Surroundings, m: Manifest) returns (r: Result<Progress, Blocker>)
      modifies this
      ensures r == ApplyAll(s, m, old(db), m.entries)
      ensures r.Success? ==> db == r.value.db
    {
      r := Success(Start(db));
      for i := 0 to |m.entries|
        invariant r.Success? && db == r.value.db && r == ApplyAll(s, m, old(db), m.entries[..i])
      {
        PrefixStep(s, m, old(db), m.entries, i);
        r := ApplyOne(s, m, r.value, m.entries[i]);
        if r.Failure? {
          FailureStays(s, m, old(db), m.entries, i + 1);
          return;
        }
      }
      assert m.entries[..|m.entries|] == m.entries;
    }

    /** Commits all of the transaction or none of it: none in a dry run, or when authority lapses before the commit. */
    method RunTransaction(s: Surroundings, m: Manifest, apply: bool, authority: A.Authority, l: A.Limits,
        checks: seq<A.Reading>)
        returns (r: Result<Progress, Blocker>, held: bool)
      modifies this, authority
      ensures r == Transaction(s, m, old(db))
      ensures held <==> r.Success? && A.AllPass(l, checks, old(authority.checkedAt))
      ensures db == if apply && held then r.value.db else old(db)
    {
      var saved := db;
      var blocker := ValidateEntries(s, m);
      if blocker.Some? {
        return Failure(blocker.value), false;
      }
      r := ApplyEntries(s, m);
      if r.Success? && !AllCanonical(r.value) {
        r := Failure(ResultNotCanonical);
      }
      held := false;
      if r.Success? {
        var passed := authority.ValidateAll(l, checks);
        held := passed == |checks|;
      }
      if !apply || !held {
        db := saved;
      }
    }
  }

  /** Recognises a committed result, by its marker or without one. */
  method RecoverCommitted(conn: Connection, t: P.Setting, m: Manifest, receipts: map<nat, P.Receipt>,
      marker: Option<P.Marker>)
      returns (recovery: P.Recovery)
    ensures recovery == P.Recover(t.s, t.inScope, m, conn.db, receipts, marker)
  {
    if marker.Some? {
      var heads := marker.value.sealed.heads;
      if !P.MarkerBound(receipts, marker.value) || !VerifyReplay(t.s, m, conn.db, heads) || !t.inScope {
        return P.Refused;
      }
      return P.Recovered(heads, false);
    }
    var detected := Detect(t.s, m, conn.db, m.entries);
    if detected.None? {
      return P.NotCommitted;
    }
    if !t.inScope {
      return P.Refused;
    }
    return P.Recovered(detected.value, true);
  }

  /** From the proof of the sources to the end of the transaction. A dry run works on a copy. */
  method RunProven(conn: Connection, t: P.Setting, m: Manifest, authority: A.Authority) returns (outcome: P.Outcome)
    requires A.AllPass(t.limits, P.EntryChecks(t), t.started)
    requires authority.checkedAt == A.LastChecked(P.EntryChecks(t), t.started)
    modifies conn, authority
    ensures (conn.db, outcome) == P.FreshRun(t, m, old(conn.db))
  {
    RunInTurn(t);
    var passed := authority.ValidateAll(t.limits, P.ProofChecks(t));
    if !t.proven || passed < |P.ProofChecks(t)| {
      return P.BlockedOutcome();
    }
    assert P.ProofChecks(t)[..passed] == P.ProofChecks(t);
    var target := conn;
    if !t.apply {
      target := new Connection(t.copy);
    }
    var r, held := target.RunTransaction(t.s, m, t.apply, authority, t.limits, P.CommitChecks(t));
    if !held {
      return P.BlockedOutcome();
    }
    var state := if t.apply then P.Applied else P.Passed;
    if !t.diagnostics {
      state := P.Failed;
    }
    outcome := P.Outcome(
      P.Receipt(state, r.value.heads, r.value.factRows, r.value.contextRows, r.value.definitionRows), t.apply);
  }

  /** An attempt from its first check to the end of the locked section, with the state it reports and the counters it
      keeps. */
  method RunLocked(conn: Connection, t: P.Setting, m: Manifest, receipts: map<nat, P.Receipt>, marker: Option<P.Marker>)
      returns (outcome: P.Outcome)
    modifies conn
    ensures (conn.db, outcome) == P.Locked(t, m, old(conn.db), receipts, marker)
  {
    var authority := new A.Authority(t.started);
    if !P.Entitled(t) {
      return P.BlockedOutcome();
    }
    var passed := authority.ValidateAll(t.limits, P.EntryChecks(t));
    if passed < |P.EntryChecks(t)| || !t.lockFree {
      return P.BlockedOutcome();
    }
    assert P.EntryChecks(t)[..passed] == P.EntryChecks(t);
    var recovery := P.NotCommitted;
    if t.apply {
      recovery := RecoverCommitted(conn, t, m, receipts, marker);
    }
    if recovery.Refused? {
      return P.BlockedOutcome();
    }
    if recovery.Recovered? {
      OneMore(t.limits, P.EntryChecks(t), A.Reading(t.clock.replayed, A.Judged), t.started);
      var blocker := authority.Validate(t.limits, A.Reading(t.clock.replayed, A.Judged));
      if blocker.Some? {
        return P.BlockedOutcome();
      }
      return P.Outcome(P.Receipt(P.Replayed, recovery.heads, 0, 0, 0), recovery.publish);
    }
    outcome := RunProven(conn, t, m, authority);
  }

  lemma OneMore(l: A.Limits, xs: seq<A.Reading>, x: A.Reading, started: int)
    ensures A.AllPass(l, xs + [x], started)
       <==> A.AllPass(l, xs, started) && A.Check(l, x, A.LastChecked(xs, started)).None?
  {
    assert (xs + [x])[..|xs|] == xs;
  }

  lemma RunInTurn(t: P.Setting)
    ensures var entered := A.LastChecked(P.EntryChecks(t), t.started);
            A.AllPass(t.limits, P.RunChecks(t), t.started)
            <==> && A.AllPass(t.limits, P.EntryChecks(t), t.started)
                 && A.AllPass(t.limits, P.ProofChecks(t), entered)
                 && A.AllPass(t.limits, P.CommitChecks(t), A.LastChecked(P.ProofChecks(t), entered))
  {
    A.PassInTurn(t.limits, P.EntryChecks(t), P.ProofChecks(t), t.started);
    A.PassInTurn(t.limits, P.EntryChecks(t) + P.ProofChecks(t), P.CommitChecks(t), t.started);
  }

  predicate AllCanonical(p: Progress) {
    forall h :: h in p.heads ==> h in p.db.canonical
  }

  lemma PrefixStep(s: Surroundings, m: Manifest, db: Db, entries: seq<Entry>, i: nat)
    requires i < |entries| && ApplyAll(s, m, db, entries[..i]).Success?
    ensures ApplyAll(s, m, db, entries[..i + 1]) == ApplyEntry(s, m, ApplyAll(s, m, db, entries[..i]).value, entries[i])
  {
    assert entries[..i + 1][..i] == entries[..i];
  }

  lemma {:induction false} BlockerStays(s: Surroundings, db: Db, entries: seq<Entry>, k: nat)
    requires k <= |entries| && FirstBlocker(s, db, entries[..k]).Some?
    ensures FirstBlocker(s, db, entries) == FirstBlocker(s, db, entries[..k])
    decreases |entries| - k
  {
    if k == |entries| {
      assert entries[..k] == entries;
    } else {
      assert entries[..k + 1][..k] == entries[..k];
      BlockerStays(s, db, entries, k + 1);
    }
  }

  lemma {:induction false} FailureStays(s: Surroundings, m: Manifest, db: Db, entries: seq<Entry>, k: nat)
    requires k <= |entries| && ApplyAll(s, m, db, entries[..k]).Failure?
    ensures ApplyAll(s, m, db, entries) == ApplyAll(s, m, db, entries[..k])
    decreases |entries| - k
  {
    if k == |entries| {
      assert entries[..k] == entries;
    } else {
      assert entries[..k + 1][..k] == entries[..k];
      FailureStays(s, m, db, entries, k + 1);
    }
  }
}
