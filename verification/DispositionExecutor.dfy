/** The locked section of a disposition attempt as the executor runs it. */
module DispositionExecutor {
  import opened Wrappers
  import opened Dispositions
  import P = DispositionProtocol

  method RunLocked(conn: Connection, t: P.Setting, id: nat, m: Manifest) returns (outcome: P.Outcome)
    modifies conn
    ensures (conn.db, outcome) == P.Locked(t, id, m, old(conn.db))
  {
    var result := Counts(0, 0, 0, 0);
    if !t.reviewed || (t.apply && !P.JudgeAuthorizes(t.dryRun, t.judge, id, m, t.code, t.now)) || !t.lockFree {
      return P.Outcome(P.Blocked, result);
    }
    if t.apply && id in conn.db.commits {
      var row := conn.db.commits[id];
      if !P.Bound(row, m, t.code) || !t.recoverable {
        return P.Outcome(P.Blocked, result);
      }
      result := Counts(0, FactCount(m.entries), 0, References(m.entries));
      return P.Outcome(P.Replayed, result);
    }
    if !t.proven {
      return P.Outcome(P.Blocked, result);
    }
    var target := conn;
    if !t.apply {
      target := new Connection(t.copy);
    }
    var counts, refused := target.ExecuteTransaction(t.s, id, m, t.code, t.apply, t.checksPass);
    if counts.None? {
      return P.Outcome(if refused then P.Failed else P.Blocked, result);
    }
    if !t.diagnostics {
      return P.Outcome(P.Failed, result);
    }
    return P.Outcome(if t.apply then P.Applied else P.Passed, counts.value);
  }
}
