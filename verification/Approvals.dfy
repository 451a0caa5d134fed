/** Settling alerts: approving, dismissing and cancelling queued actions one store call after another. */
module Approvals {
  import opened Wrappers

  datatype AlertStatus = AlertPending | AlertApproved | AlertDismissed
  datatype ActionStatus = Pending | Applied | Cancelled

  datatype Kind = Sizing | Question | Ledger | Unsupported

  /** An alert; one that belongs to a thesis episode is acknowledged instead of dismissed. */
  datatype Alert = Alert(status: AlertStatus, episode: bool, acknowledged: bool)

  /** A queued action. Writable says that its payload and its alert allow the downstream write. */
  datatype Action = Action(alert: nat, kind: Kind, status: ActionStatus, writable: bool)

  /** The store; actions are numbered in the order they are listed, oldest first. Rows counts what was written
      downstream for each action. */
  datatype Store = Store(alerts: map<nat, Alert>, actions: seq<Action>, rows: seq<nat>)

  datatype Error = NotFound | Conflict | NothingPending | UnsupportedKind | WriteFailed

  ghost predicate WellFormed(st: Store) {
    |st.rows| == |st.actions| && forall a :: 0 <= a < |st.actions| ==> st.actions[a].alert in st.alerts
  }

  // ---- Store primitives ----

  predicate IsPending(st: Store, a: nat) {
    a < |st.actions| && st.actions[a].status == Pending
  }

  function SetStatus(st: Store, a: nat, status: ActionStatus): Store
    requires a < |st.actions|
  {
    st.(actions := st.actions[a := st.actions[a].(status := status)])
  }

  /** The pending actions of an alert among the first n, oldest first. */
  function PendingOf(st: Store, alert: nat, n: nat): seq<nat>
    requires n <= |st.actions|
  {
    if n == 0 then []
    else if st.actions[n - 1].alert == alert && st.actions[n - 1].status == Pending
    then PendingOf(st, alert, n - 1) + [n - 1]
    else PendingOf(st, alert, n - 1)
  }

  function AllPending(st: Store, alert: nat): seq<nat> {
    PendingOf(st, alert, |st.actions|)
  }

  predicate AnyApplied(st: Store, alert: nat) {
    exists a :: 0 <= a < |st.actions| && AppliedTo(st.actions[a], alert)
  }

  predicate AppliedTo(action: Action, alert: nat) {
    action.alert == alert && action.status == Applied
  }

  /** Moves a pending alert to dismissed, or acknowledges its episode and leaves its status. */
  function DismissAlert(st: Store, alert: nat): (Store, Option<Error>) {
    if alert !in st.alerts then (st, Some(NotFound))
    else if st.alerts[alert].episode then (st.(alerts := st.alerts[alert := st.alerts[alert].(acknowledged := true)]), None)
    else if st.alerts[alert].status != AlertPending then (st, Some(Conflict))
    else (st.(alerts := st.alerts[alert := st.alerts[alert].(status := AlertDismissed)]), None)
  }

  /** What is written downstream: questions are keyed and written once, the other kinds are appended. */
  function WriteRow(st: Store, a: nat): Store
    requires a < |st.actions| && a < |st.rows|
  {
    st.(rows := st.rows[a := if st.actions[a].kind == Question then 1 else st.rows[a] + 1])
  }

  // ---- Operations ----

  /** Closes the alert once nothing is pending on it; what is raised on the way is swallowed. */
  function Settle(st: Store, alert: nat): Store {
    if alert !in st.alerts || st.alerts[alert].status != AlertPending || AllPending(st, alert) != [] then st
    else if AnyApplied(st, alert) then st.(alerts := st.alerts[alert := st.alerts[alert].(status := AlertApproved)])
    else DismissAlert(st, alert).0
  }

  /** Why an action cannot be approved, if it cannot. */
  function ApproveBlocker(st: Store, a: nat): Option<Error> {
    if a >= |st.actions| then Some(NotFound)
    else if st.actions[a].status != Pending then Some(Conflict)
    else if st.actions[a].kind == Unsupported then Some(UnsupportedKind)
    else if !st.actions[a].writable then Some(WriteFailed)
    else None
  }

  function ApproveAndApply(st: Store, a: nat): (Store, Option<Error>)
    requires |st.rows| == |st.actions|
  {
    var blocker := ApproveBlocker(st, a);
    if blocker.Some? then (st, blocker)
    else (Settle(SetStatus(WriteRow(st, a), a, Applied), st.actions[a].alert), None)
  }

  function DismissAction(st: Store, a: nat): (Store, Option<Error>) {
    if a >= |st.actions| then (st, Some(NotFound))
    else if st.actions[a].status != Pending then (st, Some(Conflict))
    else (Settle(SetStatus(st, a, Cancelled), st.actions[a].alert), None)
  }

  /** Approves the listed actions until one fails. */
  function ApproveEach(st: Store, ids: seq<nat>): (Store, Option<Error>)
    requires |st.rows| == |st.actions|
    ensures |ApproveEach(st, ids).0.rows| == |ApproveEach(st, ids).0.actions|
  {
    if ids == [] then (st, None)
    else
      var (mid, error) := ApproveEach(st, ids[..|ids| - 1]);
      if error.Some? then (mid, error) else ApproveAndApply(mid, ids[|ids| - 1])
  }

  function ApproveAll(st: Store, alert: nat): (Store, Option<Error>)
    requires |st.rows| == |st.actions|
  {
    if alert !in st.alerts then (st, Some(NotFound))
    else if st.alerts[alert].status != AlertPending then (st, Some(Conflict))
    else if AllPending(st, alert) == [] then (st, Some(NothingPending))
    else ApproveEach(st, AllPending(st, alert))
  }

  /** Cancels the listed actions. */
  function CancelEach(st: Store, ids: seq<nat>): Store {
    if ids == [] then st
    else
      var mid, a := CancelEach(st, ids[..|ids| - 1]), ids[|ids| - 1];
      if a < |mid.actions| then SetStatus(mid, a, Cancelled) else mid
  }

  function DismissAll(st: Store, alert: nat): (Store, Option<Error>) {
    DismissAlert(CancelEach(st, AllPending(st, alert)), alert)
  }

  datatype Operation = Approve(action: nat) | Dismiss(action: nat) | ApproveWhole(alert: nat) | DismissWhole(alert: nat)

  function Perform(st: Store, op: Operation): (Store, Option<Error>)
    requires |st.rows| == |st.actions|
  {
    match op
    case Approve(a) => ApproveAndApply(st, a)
    case Dismiss(a) => DismissAction(st, a)
    case ApproveWhole(alert) => ApproveAll(st, alert)
    case DismissWhole(alert) => DismissAll(st, alert)
  }

  // ---- The store as it is updated ----

  class AlertStore {
    var st: Store

    constructor (st: Store)
      ensures this.st == st
    {
      this.st := st;
    }

    method ListPending(alert: nat) returns (ids: seq<nat>)
      ensures ids == AllPending(st, alert)
    {
      ids := [];
      for a := 0 to |st.actions|
        invariant ids == PendingOf(st, alert, a)
      {
        if st.actions[a].alert == alert && st.actions[a].status == Pending {
          ids := ids + [a];
        }
      }
    }

    method SettleParentAlert(alert: nat)
      modifies this
      ensures st == Settle(old(st), alert)
    {
      if alert !in st.alerts || st.alerts[alert].status != AlertPending {
        return;
      }
      var remaining := ListPending(alert);
      if remaining != [] {
        return;
      }
      if AnyApplied(st, alert) {
        st := st.(alerts := st.alerts[alert := st.alerts[alert].(status := AlertApproved)]);
      } else {
        st := DismissAlert(st, alert).0;
      }
    }

    method ApproveAction(a: nat) returns (error: Option<Error>)
      requires |st.rows| == |st.actions|
      modifies this
      ensures (st, error) == ApproveAndApply(old(st), a)
    {
      error := ApproveBlocker(st, a);
      if error.Some? {
        return;
      }
      st := WriteRow(st, a);
      st := SetStatus(st, a, Applied);
      SettleParentAlert(st.actions[a].alert);
    }

    method DismissQueued(a: nat) returns (error: Option<Error>)
      modifies this
      ensures (st, error) == DismissAction(old(st), a)
    {
      if a >= |st.actions| {
        return Some(NotFound);
      }
      if st.actions[a].status != Pending {
        return Some(Conflict);
      }
      st := SetStatus(st, a, Cancelled);
      SettleParentAlert(st.actions[a].alert);
      return None;
    }

    method ApproveAlert(alert: nat) returns (error: Option<Error>)
      requires |st.rows| == |st.actions|
      modifies this
      ensures (st, error) == ApproveAll(old(st), alert)
    {
      if alert !in st.alerts {
        return Some(NotFound);
      }
      if st.alerts[alert].status != AlertPending {
        return Some(Conflict);
      }
      var pending := ListPending(alert);
      if pending == [] {
        return Some(NothingPending);
      }
      error := None;
      for i := 0 to |pending|
        invariant error.None? && (st, error) == ApproveEach(old(st), pending[..i])
      {
        assert pending[..i + 1][..i] == pending[..i];
        error := ApproveAction(pending[i]);
        if error.Some? {
          ApproveEachStops(old(st), pending, i + 1);
          return;
        }
      }
      assert pending[..|pending|] == pending;
    }

    method DismissAlertAndCancel(alert: nat) returns (error: Option<Error>)
      modifies this
      ensures (st, error) == DismissAll(old(st), alert)
    {
      var pending := ListPending(alert);
      for i := 0 to |pending|
        invariant st == CancelEach(old(st), pending[..i])
      {
        assert pending[..i + 1][..i] == pending[..i];
        if pending[i] < |st.actions| {
          st := SetStatus(st, pending[i], Cancelled);
        }
      }
      assert pending[..|pending|] == pending;
      var (next, failed) := DismissAlert(st, alert);
      st := next;
      return failed;
    }
  }

  lemma {:induction false} ApproveEachStops(st: Store, ids: seq<nat>, k: nat)
    requires |st.rows| == |st.actions| && k <= |ids| && ApproveEach(st, ids[..k]).1.Some?
    ensures ApproveEach(st, ids) == ApproveEach(st, ids[..k])
    decreases |ids| - k
  {
    if k == |ids| {
      assert ids[..k] == ids;
    } else {
      assert ids[..k + 1][..k] == ids[..k];
      ApproveEachStops(st, ids, k + 1);
    }
  }
}
