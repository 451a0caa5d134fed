/** The review authority of a repair run, read off the clock again and again up to the commit. Times are in seconds. */
module RepairAuthority {
  import opened Wrappers

  const SKEW := 300
  const REVIEW_LIMIT := 1200
  const RECEIPT_TTL := 900

  /** What the checks compare the clock with. Fixed says that every check that does not read the clock holds. */
  datatype Limits = Limits(
    fixed: bool, observedAt: int, schedulerAt: Option<int>, maxAge: int, knowledgeAt: int, judgeFrom: int, judgeUntil: int)

  datatype Blocker =
    | ClockMovedBackwards | FixedMismatch | ReviewFromFuture | ReviewStale | SchedulerFromFuture | SchedulerStale
    | KnowledgeFromFuture | JudgeNotCurrent

  /** What a check asks for beside the review's preconditions: nothing, the knowledge time, or also the judge. */
  datatype Kind = Plain | Timed | Judged

  /** A clock reading and the check it is for. */
  datatype Reading = Reading(now: int, kind: Kind)

  function Min(x: int, y: int): int {
    if x <= y then x else y
  }

  function Preconditions(l: Limits, now: int, notBefore: int): Option<Blocker> {
    if now < notBefore then Some(ClockMovedBackwards)
    else if !l.fixed then Some(FixedMismatch)
    else if l.observedAt > now + SKEW then Some(ReviewFromFuture)
    else if now - l.observedAt > Min(l.maxAge, REVIEW_LIMIT) then Some(ReviewStale)
    else if l.schedulerAt.Some? && l.schedulerAt.value > now + SKEW then Some(SchedulerFromFuture)
    else if l.schedulerAt.None? || now - l.schedulerAt.value > Min(RECEIPT_TTL, l.maxAge) then Some(SchedulerStale)
    else None
  }

  function Check(l: Limits, r: Reading, notBefore: int): Option<Blocker> {
    if r.kind != Plain && l.knowledgeAt > r.now + SKEW then Some(KnowledgeFromFuture)
    else
      var blocker := Preconditions(l, r.now, notBefore);
      if blocker.Some? then blocker
      else if r.kind == Judged && !(l.judgeFrom <= r.now < l.judgeUntil) then Some(JudgeNotCurrent)
      else None
  }

  /** The authority of one run: the time of its last successful check. */
  class Authority {
    var checkedAt: int

    constructor (started: int)
      ensures checkedAt == started
    {
      checkedAt := started;
    }

    /** A successful check moves the time forward, or leaves it; a failed one leaves it. */
    method Validate(l: Limits, r: Reading) returns (blocker: Option<Blocker>)
      modifies this
      ensures blocker == Check(l, r, old(checkedAt))
      ensures checkedAt == if blocker.None? then r.now else old(checkedAt)
      ensures checkedAt >= old(checkedAt)
    {
      blocker := Check(l, r, checkedAt);
      if blocker.None? {
        checkedAt := r.now;
      }
    }

    /** All checks of a run, in order, up to the first that blocks it. */
    method ValidateAll(l: Limits, readings: seq<Reading>) returns (passed: nat)
      modifies this
      ensures passed <= |readings| && AllPass(l, readings[..passed], old(checkedAt))
      ensures passed == |readings| <==> AllPass(l, readings, old(checkedAt))
      ensures checkedAt == LastChecked(readings[..passed], old(checkedAt))
    {
      passed := 0;
      while passed < |readings|
        invariant passed <= |readings| && AllPass(l, readings[..passed], old(checkedAt))
        invariant checkedAt == LastChecked(readings[..passed], old(checkedAt))
      {
        assert readings[..passed + 1][..passed] == readings[..passed];
        var blocker := Validate(l, readings[passed]);
        if blocker.Some? {
          BlockedStays(l, readings, old(checkedAt), passed + 1);
          return;
        }
        passed := passed + 1;
      }
      assert readings[..|readings|] == readings;
    }
  }

  function LastChecked(readings: seq<Reading>, started: int): int {
    if readings == [] then started else readings[|readings| - 1].now
  }

  /** Every check passes, each against the time of the one before. */
  predicate AllPass(l: Limits, readings: seq<Reading>, started: int) {
    readings != [] ==>
      var init := readings[..|readings| - 1];
      AllPass(l, init, started) && Check(l, readings[|readings| - 1], LastChecked(init, started)).None?
  }

  lemma {:induction false} BlockedStays(l: Limits, readings: seq<Reading>, started: int, k: nat)
    requires k <= |readings| && !AllPass(l, readings[..k], started)
    ensures !AllPass(l, readings, started)
    decreases |readings| - k
  {
    if k == |readings| {
      assert readings[..k] == readings;
    } else {
      assert readings[..k + 1][..k] == readings[..k];
      BlockedStays(l, readings, started, k + 1);
    }
  }

  // ---- What the checks amount to ----

  /** The clock never steps back, from the start of the run on. */
  ghost predicate Ascending(readings: seq<Reading>, started: int) {
    && (forall i :: 0 <= i < |readings| ==> started <= readings[i].now)
    && (forall i, j :: 0 <= i < j < |readings| ==> readings[i].now <= readings[j].now)
  }

  /** Neither the review nor the scheduler's evidence lies beyond the allowed skew. */
  predicate NotFromFuture(l: Limits, now: int) {
    l.observedAt <= now + SKEW && l.schedulerAt.Some? && l.schedulerAt.value <= now + SKEW
  }

  /** Both are young enough. */
  predicate Young(l: Limits, now: int) {
    && now - l.observedAt <= l.maxAge && now - l.observedAt <= REVIEW_LIMIT
    && l.schedulerAt.Some? && now - l.schedulerAt.value <= l.maxAge && now - l.schedulerAt.value <= RECEIPT_TTL
  }

  /** What a reading's own check asks for beside the review's preconditions. */
  predicate MeetsKind(l: Limits, r: Reading) {
    && (r.kind != Plain ==> l.knowledgeAt <= r.now + SKEW)
    && (r.kind == Judged ==> l.judgeFrom <= r.now < l.judgeUntil)
  }

  ghost predicate MeetsKinds(l: Limits, readings: seq<Reading>) {
    forall i :: 0 <= i < |readings| ==> MeetsKind(l, readings[i])
  }

  ghost predicate MeetsLimits(l: Limits, readings: seq<Reading>) {
    forall i :: 0 <= i < |readings| ==> l.fixed && NotFromFuture(l, readings[i].now) && Young(l, readings[i].now)
  }

  lemma CheckMeans(l: Limits, r: Reading, notBefore: int)
    ensures Check(l, r, notBefore).None?
       <==> notBefore <= r.now && l.fixed && NotFromFuture(l, r.now) && Young(l, r.now) && MeetsKind(l, r)
  {
  }

  lemma AscendingNext(readings: seq<Reading>, started: int)
    requires readings != []
    ensures var init := readings[..|readings| - 1];
            Ascending(readings, started)
            <==> Ascending(init, started) && LastChecked(init, started) <= readings[|readings| - 1].now
  {
    var init, last := readings[..|readings| - 1], readings[|readings| - 1];
    if Ascending(init, started) && LastChecked(init, started) <= last.now {
      forall i | 0 <= i < |init| ensures readings[i].now <= last.now && started <= last.now {
        assert init[i].now <= init[|init| - 1].now;
      }
    }
    if Ascending(readings, started) {
      forall i, j | 0 <= i < j < |init| ensures init[i].now <= init[j].now {
        assert readings[i].now <= readings[j].now;
      }
    }
  }

  lemma {:induction false} PassesMean(l: Limits, readings: seq<Reading>, started: int)
    ensures AllPass(l, readings, started)
       <==> Ascending(readings, started) && MeetsKinds(l, readings) && MeetsLimits(l, readings)
  {
    if readings != [] {
      var init, last := readings[..|readings| - 1], readings[|readings| - 1];
      PassesMean(l, init, started);
      AscendingNext(readings, started);
      CheckMeans(l, last, LastChecked(init, started));
      assert readings == init + [last];
    }
  }

  /** A run gets through all its checks exactly when the clock never steps back, the first reading is not ahead of its
      evidence by more than the skew, and the last one is within both age bounds. */
  lemma AuthorityIff(l: Limits, readings: seq<Reading>, started: int)
    requires readings != []
    ensures AllPass(l, readings, started)
       <==> && l.fixed && Ascending(readings, started) && MeetsKinds(l, readings)
            && NotFromFuture(l, readings[0].now) && Young(l, readings[|readings| - 1].now)
  {
    PassesMean(l, readings, started);
    if Ascending(readings, started) {
      forall i | 0 <= i < |readings|
        ensures readings[0].now <= readings[i].now <= readings[|readings| - 1].now
      {
      }
    }
  }

  /** Any backward step of the clock, anywhere before the commit, blocks the run. */
  lemma BackwardStepBlocks(l: Limits, readings: seq<Reading>, started: int, i: nat, j: nat)
    requires i < j < |readings| && readings[j].now < readings[i].now
    ensures !AllPass(l, readings, started)
  {
    PassesMean(l, readings, started);
  }

  /** The checks of one stretch of a run go on from those of the stretch before. */
  lemma {:induction false} PassInTurn(l: Limits, xs: seq<Reading>, ys: seq<Reading>, started: int)
    ensures AllPass(l, xs + ys, started) <==> AllPass(l, xs, started) && AllPass(l, ys, LastChecked(xs, started))
    ensures LastChecked(xs + ys, started) == LastChecked(ys, LastChecked(xs, started))
  {
    if ys == [] {
      assert xs + ys == xs;
    } else {
      assert (xs + ys)[..|xs + ys| - 1] == xs + ys[..|ys| - 1];
      PassInTurn(l, xs, ys[..|ys| - 1], started);
    }
  }
}
