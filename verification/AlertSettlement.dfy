/** What crash-free sequential use of the approval operations keeps, and what each settles. */
module AlertSettlement {
  import opened Wrappers
  import opened Approvals

  predicate PendingOn(action: Action, alert: nat) {
    action.alert == alert && action.status == Pending
  }

  ghost predicate NonePending(st: Store, alert: nat) {
    forall a :: 0 <= a < |st.actions| ==> !PendingOn(st.actions[a], alert)
  }

  lemma {:induction false} PendingMembers(st: Store, alert: nat, n: nat)
    requires n <= |st.actions|
    ensures forall a :: a in PendingOf(st, alert, n) <==> 0 <= a < n && PendingOn(st.actions[a], alert)
    ensures forall i, j :: 0 <= i < j < |PendingOf(st, alert, n)| ==> PendingOf(st, alert, n)[i] < PendingOf(st, alert, n)[j]
  {
    if n > 0 {
      PendingMembers(st, alert, n - 1);
      var earlier := PendingOf(st, alert, n - 1);
      forall i | 0 <= i < |earlier| ensures earlier[i] < n - 1 {
        assert earlier[i] in earlier;
      }
    }
  }

  lemma EmptyIffNone(st: Store, alert: nat)
    ensures AllPending(st, alert) == [] <==> NonePending(st, alert)
  {
    PendingMembers(st, alert, |st.actions|);
    if AllPending(st, alert) != [] {
      assert AllPending(st, alert)[0] in AllPending(st, alert);
    } else {
      forall a | 0 <= a < |st.actions| ensures !PendingOn(st.actions[a], alert) {
        assert a !in AllPending(st, alert);
      }
    }
  }

  /** An alert that is no longer pending has no pending action, and an approved one has an applied action. */
  ghost predicate SettledAlert(st: Store, alert: nat)
    requires alert in st.alerts
  {
    && (st.alerts[alert].status != AlertPending ==> NonePending(st, alert))
    && (st.alerts[alert].status == AlertApproved ==> AnyApplied(st, alert))
  }

  ghost predicate Settled(st: Store) {
    WellFormed(st) && forall alert :: alert in st.alerts ==> SettledAlert(st, alert)
  }

  lemma OpenAlert(st: Store, a: nat)
    requires Settled(st) && IsPending(st, a)
    ensures st.alerts[st.actions[a].alert].status == AlertPending
  {
    assert SettledAlert(st, st.actions[a].alert);
    assert PendingOn(st.actions[a], st.actions[a].alert);
  }

  lemma StatusKeepsOthers(st: Store, a: nat, status: ActionStatus, alert: nat)
    requires Settled(st) && IsPending(st, a) && status != Pending && alert in st.alerts
    ensures SettledAlert(SetStatus(st, a, status), alert)
  {
    var next := SetStatus(st, a, status);
    assert SettledAlert(st, alert);
    OpenAlert(st, a);
    if NonePending(st, alert) {
      forall b | 0 <= b < |next.actions| ensures !PendingOn(next.actions[b], alert) {
        assert !PendingOn(st.actions[b], alert);
      }
    }
    if AnyApplied(st, alert) {
      var b :| 0 <= b < |st.actions| && AppliedTo(st.actions[b], alert);
      assert AppliedTo(next.actions[b], alert);
    }
  }

  lemma StatusKeepsSettled(st: Store, a: nat, status: ActionStatus)
    requires Settled(st) && IsPending(st, a) && status != Pending
    ensures Settled(SetStatus(st, a, status))
  {
    forall alert | alert in st.alerts ensures SettledAlert(SetStatus(st, a, status), alert) {
      StatusKeepsOthers(st, a, status, alert);
    }
  }

  lemma DismissKeepsSettled(st: Store, alert: nat)
    requires Settled(st) && NonePending(st, alert)
    ensures Settled(DismissAlert(st, alert).0)
  {
    var next := DismissAlert(st, alert).0;
    assert next.actions == st.actions;
    forall b | b in next.alerts ensures SettledAlert(next, b) {
      assert SettledAlert(st, b);
      assert NonePending(next, b) <==> NonePending(st, b);
      assert AnyApplied(next, b) <==> AnyApplied(st, b);
    }
  }

  lemma SettleKeepsSettled(st: Store, alert: nat)
    requires Settled(st)
    ensures Settled(Settle(st, alert))
  {
    EmptyIffNone(st, alert);
    if alert in st.alerts && st.alerts[alert].status == AlertPending && AllPending(st, alert) == [] {
      if AnyApplied(st, alert) {
        var next := Settle(st, alert);
        forall b | b in next.alerts ensures SettledAlert(next, b) {
          assert SettledAlert(st, b);
          assert NonePending(next, b) <==> NonePending(st, b);
          assert AnyApplied(next, b) <==> AnyApplied(st, b);
        }
      } else {
        DismissKeepsSettled(st, alert);
      }
    }
  }

  lemma WriteKeepsSettled(st: Store, a: nat)
    requires Settled(st) && a < |st.actions|
    ensures Settled(WriteRow(st, a))
  {
    var next := WriteRow(st, a);
    forall alert | alert in next.alerts ensures SettledAlert(next, alert) {
      assert SettledAlert(st, alert);
      assert NonePending(next, alert) <==> NonePending(st, alert);
      assert AnyApplied(next, alert) <==> AnyApplied(st, alert);
    }
  }

  lemma ApproveKeepsSettled(st: Store, a: nat)
    requires Settled(st)
    ensures Settled(ApproveAndApply(st, a).0)
  {
    if ApproveBlocker(st, a).None? {
      WriteKeepsSettled(st, a);
      StatusKeepsSettled(WriteRow(st, a), a, Applied);
      SettleKeepsSettled(SetStatus(WriteRow(st, a), a, Applied), st.actions[a].alert);
    }
  }

  lemma {:induction false} ApproveEachKeepsSettled(st: Store, ids: seq<nat>)
    requires Settled(st)
    ensures Settled(ApproveEach(st, ids).0)
  {
    if ids != [] {
      ApproveEachKeepsSettled(st, ids[..|ids| - 1]);
      ApproveKeepsSettled(ApproveEach(st, ids[..|ids| - 1]).0, ids[|ids| - 1]);
    }
  }

  /** Cancelling distinct pending actions changes exactly them. */
  lemma {:induction false} CancelEachCancels(st: Store, ids: seq<nat>)
    requires Settled(st) && (forall i :: 0 <= i < |ids| ==> IsPending(st, ids[i]))
    requires forall i, j :: 0 <= i < j < |ids| ==> ids[i] < ids[j]
    ensures var next := CancelEach(st, ids);
            && Settled(next) && next.alerts == st.alerts && next.rows == st.rows && |next.actions| == |st.actions|
            && forall a :: 0 <= a < |st.actions| ==>
                 next.actions[a] == if a in ids then st.actions[a].(status := Cancelled) else st.actions[a]
  {
    if ids != [] {
      var init, last := ids[..|ids| - 1], ids[|ids| - 1];
      CancelEachCancels(st, init);
      var mid := CancelEach(st, init);
      assert IsPending(st, last) && last !in init && (forall a :: a in ids <==> a in init || a == last);
      StatusKeepsSettled(mid, last, Cancelled);
    }
  }

  lemma DismissAllKeepsSettled(st: Store, alert: nat)
    requires Settled(st)
    ensures Settled(DismissAll(st, alert).0)
  {
    var ids := AllPending(st, alert);
    PendingMembers(st, alert, |st.actions|);
    forall i | 0 <= i < |ids| ensures IsPending(st, ids[i]) {
      assert ids[i] in ids;
    }
    CancelEachCancels(st, ids);
    var mid := CancelEach(st, ids);
    forall a | 0 <= a < |mid.actions| ensures !PendingOn(mid.actions[a], alert) {
      assert a in ids <==> PendingOn(st.actions[a], alert);
    }
    DismissKeepsSettled(mid, alert);
  }

  /** Every operation keeps the settlement invariant, whether it succeeds or fails part of the way. */
  lemma OperationsKeepSettled(st: Store, op: Operation)
    requires Settled(st)
    ensures Settled(Perform(st, op).0)
  {
    match op
    case Approve(a) => ApproveKeepsSettled(st, a);
    case Dismiss(a) =>
      if IsPending(st, a) {
        StatusKeepsSettled(st, a, Cancelled);
        SettleKeepsSettled(SetStatus(st, a, Cancelled), st.actions[a].alert);
      }
    case ApproveWhole(alert) => ApproveEachKeepsSettled(st, AllPending(st, alert));
    case DismissWhole(alert) => DismissAllKeepsSettled(st, alert);
  }

  function PerformAll(st: Store, ops: seq<Operation>): Store
    requires |st.rows| == |st.actions|
    ensures |PerformAll(st, ops).rows| == |PerformAll(st, ops).actions|
  {
    if ops == [] then st
    else
      var mid := PerformAll(st, ops[..|ops| - 1]);
      PerformKeepsShape(mid, ops[|ops| - 1]);
      Perform(mid, ops[|ops| - 1]).0
  }

  lemma PerformKeepsShape(st: Store, op: Operation)
    requires |st.rows| == |st.actions|
    ensures |Perform(st, op).0.rows| == |Perform(st, op).0.actions|
  {
    if op.DismissWhole? {
      CancelKeepsShape(st, AllPending(st, op.alert));
    }
  }

  lemma {:induction false} CancelKeepsShape(st: Store, ids: seq<nat>)
    ensures |CancelEach(st, ids).actions| == |st.actions| && CancelEach(st, ids).rows == st.rows
  {
    if ids != [] {
      CancelKeepsShape(st, ids[..|ids| - 1]);
    }
  }

  /** Over any sequence of operations: no alert is closed over a pending action, and none is approved without an
      applied one. */
  lemma {:induction false} SettledAlways(st: Store, ops: seq<Operation>)
    requires Settled(st)
    ensures Settled(PerformAll(st, ops))
  {
    if ops != [] {
      SettledAlways(st, ops[..|ops| - 1]);
      OperationsKeepSettled(PerformAll(st, ops[..|ops| - 1]), ops[|ops| - 1]);
    }
  }

  // ---- What settling an action does to its alert ----

  /** Settling an alert's last pending action closes it: as approved if this action is applied or another one was,
      otherwise as dismissed. Exactly one alert stays open: that of an episode, with nothing applied, whose last action is
      dismissed. */
  lemma LastActionClosesIff(st: Store, a: nat, approve: bool)
    requires Settled(st) && IsPending(st, a) && (approve ==> ApproveBlocker(st, a).None?)
    requires forall b :: 0 <= b < |st.actions| && b != a ==> !PendingOn(st.actions[b], st.actions[a].alert)
    ensures var alert := st.actions[a].alert;
            var next := Perform(st, if approve then Approve(a) else Dismiss(a)).0;
            && alert in next.alerts
            && (next.alerts[alert].status == AlertPending
                <==> !approve && st.alerts[alert].episode && !AnyApplied(st, alert))
            && (next.alerts[alert].status == AlertApproved <==> approve || AnyApplied(st, alert))
  {
    var alert := st.actions[a].alert;
    var mid := SetStatus(if approve then WriteRow(st, a) else st, a, if approve then Applied else Cancelled);
    OpenAlert(st, a);
    forall b | 0 <= b < |mid.actions| ensures !PendingOn(mid.actions[b], alert) {
    }
    EmptyIffNone(mid, alert);
    SettledApplied(st, a, approve);
  }

  lemma SettledApplied(st: Store, a: nat, approve: bool)
    requires WellFormed(st) && IsPending(st, a)
    ensures var alert := st.actions[a].alert;
            var mid := SetStatus(if approve then WriteRow(st, a) else st, a, if approve then Applied else Cancelled);
            AnyApplied(mid, alert) <==> approve || AnyApplied(st, alert)
  {
    var alert := st.actions[a].alert;
    var mid := SetStatus(if approve then WriteRow(st, a) else st, a, if approve then Applied else Cancelled);
    forall b | 0 <= b < |st.actions| && b != a ensures mid.actions[b] == st.actions[b] {
    }
    if approve {
      assert AppliedTo(mid.actions[a], alert);
    } else if AnyApplied(st, alert) {
      var b :| 0 <= b < |st.actions| && AppliedTo(st.actions[b], alert);
      assert AppliedTo(mid.actions[b], alert);
    }
  }

  /** It does happen: the only action of an episode's alert is dismissed, and the alert stays pending. */
  lemma EpisodeStaysOpen(alert: nat, kind: Kind)
    ensures var st := Store(map[alert := Alert(AlertPending, true, false)], [Action(alert, kind, Pending, true)], [0]);
            var next := Perform(st, Dismiss(0)).0;
            && Settled(st) && IsPending(st, 0) && next.actions[0].status == Cancelled && NonePending(next, alert)
            && next.alerts[alert].status == AlertPending
  {
    var st := Store(map[alert := Alert(AlertPending, true, false)], [Action(alert, kind, Pending, true)], [0]);
    assert !AnyApplied(st, alert);
    LastActionClosesIff(st, 0, false);
  }

  /** While an alert has another pending action, settling one leaves its alert open. */
  lemma AlertStaysOpen(st: Store, alert: nat)
    requires !NonePending(st, alert)
    ensures Settle(st, alert) == st
  {
    EmptyIffNone(st, alert);
  }

  // ---- Approving a whole alert ----

  /** The first k listed actions are applied, each with a row of its own; everything else is as it was. */
  ghost predicate AppliedFirst(st: Store, next: Store, ids: seq<nat>, k: nat)
    requires k <= |ids|
  {
    && |next.actions| == |st.actions| && |next.rows| == |st.rows| && |st.rows| == |st.actions|
    && forall a :: 0 <= a < |st.actions| ==>
         && next.actions[a] == (if a in ids[..k] then st.actions[a].(status := Applied) else st.actions[a])
         && next.rows[a] == if a in ids[..k] then WriteRow(st, a).rows[a] else st.rows[a]
  }

  /** How many of the listed actions can be approved before one cannot. */
  function Approvable(st: Store, ids: seq<nat>): (k: nat)
    ensures k <= |ids|
  {
    if ids == [] then 0
    else
      var k := Approvable(st, ids[..|ids| - 1]);
      if k == |ids| - 1 && ApproveBlocker(st, ids[|ids| - 1]).None? then |ids| else k
  }

  lemma ApproveOne(st: Store, mid: Store, ids: seq<nat>, k: nat, alert: nat)
    requires Settled(st) && k < |ids| && |mid.rows| == |mid.actions| == |st.actions| == |st.rows|
    requires AppliedFirst(st, mid, ids, k) && mid.alerts == st.alerts && alert in st.alerts
    requires st.alerts[alert].status == AlertPending
    requires (forall i :: 0 <= i < |ids| ==> IsPending(st, ids[i]) && st.actions[ids[i]].alert == alert)
    requires forall i, j :: 0 <= i < j < |ids| ==> ids[i] < ids[j]
    requires ApproveBlocker(st, ids[k]).None?
    ensures ApproveBlocker(mid, ids[k]).None?
    ensures AppliedFirst(st, ApproveAndApply(mid, ids[k]).0, ids, k + 1)
    ensures k + 1 < |ids| ==> ApproveAndApply(mid, ids[k]).0.alerts == st.alerts
  {
    var a := ids[k];
    assert a !in ids[..k];
    assert ids[..k + 1] == ids[..k] + [a];
    var done := SetStatus(WriteRow(mid, a), a, Applied);
    if k + 1 < |ids| {
      var b := ids[k + 1];
      assert IsPending(st, b) && b !in ids[..k + 1];
      assert PendingOn(done.actions[b], alert);
      AlertStaysOpen(done, alert);
    }
  }

  /** The next listed action meets the same obstacle as before the others were approved. */
  lemma SameBlocker(st: Store, mid: Store, ids: seq<nat>, k: nat)
    requires k < |ids| && AppliedFirst(st, mid, ids, k) && mid.alerts == st.alerts && IsPending(st, ids[k])
    requires forall i, j :: 0 <= i < j < |ids| ==> ids[i] < ids[j]
    ensures ApproveBlocker(mid, ids[k]) == ApproveBlocker(st, ids[k])
  {
    assert ids[k] !in ids[..k];
    assert mid.actions[ids[k]] == st.actions[ids[k]];
  }

  lemma {:induction false} ApprovePrefix(st: Store, ids: seq<nat>, n: nat, alert: nat)
    requires Settled(st) && n <= |ids| && alert in st.alerts && st.alerts[alert].status == AlertPending
    requires (forall i :: 0 <= i < |ids| ==> IsPending(st, ids[i]) && st.actions[ids[i]].alert == alert)
    requires forall i, j :: 0 <= i < j < |ids| ==> ids[i] < ids[j]
    ensures var (next, error) := ApproveEach(st, ids[..n]);
            var k := Approvable(st, ids[..n]);
            && k <= n && AppliedFirst(st, next, ids, k) && (error.None? <==> k == n)
            && (k < |ids| ==> next.alerts == st.alerts)
  {
    if n > 0 {
      assert ids[..n][..n - 1] == ids[..n - 1];
      ApprovePrefix(st, ids, n - 1, alert);
      var (mid, error) := ApproveEach(st, ids[..n - 1]);
      if error.None? {
        SameBlocker(st, mid, ids, n - 1);
        if ApproveBlocker(st, ids[n - 1]).None? {
          ApproveOne(st, mid, ids, n - 1, alert);
        }
      }
    }
  }

  /** Approving a whole alert applies its pending actions in order up to the first that cannot be approved. If it gets
      through them all, the alert is approved; if it fails, exactly the actions before the failing one are applied and
      the alert is still pending. */
  lemma ApproveAllOutcome(st: Store, alert: nat)
    requires Settled(st) && alert in st.alerts && st.alerts[alert].status == AlertPending && AllPending(st, alert) != []
    ensures var ids := AllPending(st, alert);
            var k := Approvable(st, ids);
            var (next, error) := ApproveAll(st, alert);
            && AppliedFirst(st, next, ids, k) && (error.None? <==> k == |ids|)
            && alert in next.alerts && next.alerts[alert].status == (if k == |ids| then AlertApproved else AlertPending)
  {
    var ids := AllPending(st, alert);
    PendingMembers(st, alert, |st.actions|);
    forall i | 0 <= i < |ids| ensures IsPending(st, ids[i]) && st.actions[ids[i]].alert == alert {
      assert ids[i] in ids;
    }
    assert ids[..|ids|] == ids;
    ApprovePrefix(st, ids, |ids|, alert);
    if Approvable(st, ids) == |ids| {
      ApproveAllCloses(st, ids, alert);
    }
  }

  lemma ApproveAllCloses(st: Store, ids: seq<nat>, alert: nat)
    requires Settled(st) && alert in st.alerts && st.alerts[alert].status == AlertPending && ids != []
    requires ids == AllPending(st, alert) && Approvable(st, ids) == |ids|
    requires (forall i :: 0 <= i < |ids| ==> IsPending(st, ids[i]) && st.actions[ids[i]].alert == alert)
    requires forall i, j :: 0 <= i < j < |ids| ==> ids[i] < ids[j]
    ensures var next := ApproveEach(st, ids).0; alert in next.alerts && next.alerts[alert].status == AlertApproved
  {
    var n := |ids| - 1;
    ApprovePrefix(st, ids, n, alert);
    ApproveEachKeepsSettled(st, ids[..n]);
    var mid, last := ApproveEach(st, ids[..n]).0, ids[n];
    assert last !in ids[..n];
    OnlyLastPending(st, mid, ids, alert);
    LastActionClosesIff(mid, last, true);
  }

  lemma OnlyLastPending(st: Store, mid: Store, ids: seq<nat>, alert: nat)
    requires ids != [] && ids == AllPending(st, alert) && AppliedFirst(st, mid, ids, |ids| - 1)
    ensures forall b :: 0 <= b < |mid.actions| && b != ids[|ids| - 1] ==> !PendingOn(mid.actions[b], alert)
  {
    PendingMembers(st, alert, |st.actions|);
    assert ids == ids[..|ids| - 1] + [ids[|ids| - 1]];
    forall b | 0 <= b < |mid.actions| && b != ids[|ids| - 1] ensures !PendingOn(mid.actions[b], alert) {
      assert PendingOn(st.actions[b], alert) ==> b in ids;
    }
  }
}
