/** The cohort audit: one closure state per ticker and artifact, counted while one of them may still be demoted. */
module CoverageCohort {
  import opened Wrappers

  datatype Status = Satisfied | SourceUnavailable | PolicyBlocked | ProviderGap | RepairMissing | OperationalError

  datatype Evidence = Evidence(complete: bool, reference: string, sha: string)

  /** The latest disposition of an artifact; valid says that its chain and its policy were verified. */
  datatype Disposition = Disposition(valid: bool, status: Status, reference: string, sha: string)

  datatype State = EvidenceComplete | Accepted | Actionable | Missing | Invalid

  datatype Artifact = Artifact(evidence: Evidence, disposition: Option<Disposition>)

  /** A ticker of the cohort: not an active target, or its transcript, scan and surprise. */
  datatype Ticker = Absent | Target(transcript: Artifact, scan: Artifact, surprise: Artifact)

  function Classify(a: Artifact): State {
    var d := a.disposition;
    var broken := d.Some? && !d.value.valid;
    if a.evidence.complete then
      if broken || (d.Some? && d.value.status == Satisfied
                    && (d.value.reference != a.evidence.reference || d.value.sha != a.evidence.sha))
      then Invalid else EvidenceComplete
    else if d.None? then Missing
    else if d.value.status == Satisfied then Invalid
    else if d.value.status != OperationalError && !broken then Accepted
    else Actionable
  }

  /** A scan accepted because its source is unavailable, although the transcript does not say so. */
  predicate Contradicts(t: Ticker)
    requires t.Target?
  {
    && Classify(t.scan) == Accepted && t.scan.disposition.value.status == SourceUnavailable
    && (t.transcript.disposition.None?
        || (t.transcript.disposition.value.status != SourceUnavailable && t.transcript.disposition.value.status != PolicyBlocked))
  }

  /** The closure states the report shows, in artifact order. */
  function States(t: Ticker): seq<State> {
    if t.Absent? then [Invalid, Invalid, Invalid]
    else [Classify(t.transcript), if Contradicts(t) then Invalid else Classify(t.scan), Classify(t.surprise)]
  }

  function AllStates(ts: seq<Ticker>): seq<State> {
    if ts == [] then [] else AllStates(ts[..|ts| - 1]) + States(ts[|ts| - 1])
  }

  function CountIn(states: seq<State>, s: State): nat {
    if states == [] then 0 else CountIn(states[..|states| - 1], s) + if states[|states| - 1] == s then 1 else 0
  }

  /** The counters, exactly as the final states stand. */
  ghost predicate Tallies(counts: map<State, int>, states: seq<State>) {
    forall s :: s in counts && counts[s] == CountIn(states, s)
  }

  function Bump(counts: map<State, int>, s: State, k: int): (next: map<State, int>)
    requires s in counts
  {
    counts[s := counts[s] + k]
  }

  lemma {:induction false} CountAppend(xs: seq<State>, ys: seq<State>, s: State)
    ensures CountIn(xs + ys, s) == CountIn(xs, s) + CountIn(ys, s)
    decreases |ys|
  {
    if ys == [] {
      assert xs + ys == xs;
    } else {
      assert (xs + ys)[..|xs + ys| - 1] == xs + ys[..|ys| - 1];
      CountAppend(xs, ys[..|ys| - 1], s);
    }
  }

  lemma CountThree(x: State, y: State, z: State, s: State)
    ensures CountIn([x, y, z], s) == (if x == s then 1 else 0) + (if y == s then 1 else 0) + (if z == s then 1 else 0)
  {
    assert [x, y, z][..2] == [x, y] && [x, y][..1] == [x] && [x][..0] == [];
    assert CountIn([x], s) == if x == s then 1 else 0;
    assert CountIn([x, y], s) == CountIn([x], s) + if y == s then 1 else 0;
  }

  lemma Counted(counts: map<State, int>, states: seq<State>, x: State)
    requires Tallies(counts, states)
    ensures Tallies(Bump(counts, x, 1), states + [x])
  {
    assert (states + [x])[..|states|] == states;
  }

  /** Moving one count from accepted to invalid follows a scan's demotion. */
  lemma Demoted(counts: map<State, int>, before: seq<State>, x: State, z: State)
    requires Tallies(counts, before + [x, Accepted, z])
    ensures Tallies(Bump(Bump(counts, Accepted, -1), Invalid, 1), before + [x, Invalid, z])
  {
    forall s ensures CountIn(before + [x, Accepted, z], s) == CountIn(before, s) + CountIn([x, Accepted, z], s)
             ensures CountIn(before + [x, Invalid, z], s) == CountIn(before, s) + CountIn([x, Invalid, z], s)
    {
      CountAppend(before, [x, Accepted, z], s);
      CountAppend(before, [x, Invalid, z], s);
    }
    forall s ensures CountIn([x, Invalid, z], s)
                  == CountIn([x, Accepted, z], s) - (if s == Accepted then 1 else 0) + (if s == Invalid then 1 else 0)
    {
      CountThree(x, Accepted, z, s);
      CountThree(x, Invalid, z, s);
    }
  }

  method CountThreeMore(counts: map<State, int>, x: State, y: State, z: State, ghost before: seq<State>)
      returns (next: map<State, int>)
    requires Tallies(counts, before)
    ensures Tallies(next, before + [x, y, z])
  {
    Counted(counts, before, x);
    next := Bump(counts, x, 1);
    Counted(next, before + [x], y);
    next := Bump(next, y, 1);
    Counted(next, before + [x] + [y], z);
    next := Bump(next, z, 1);
    assert before + [x] + [y] + [z] == before + [x, y, z];
  }

  method CountTicker(counts: map<State, int>, t: Ticker, ghost before: seq<State>) returns (next: map<State, int>)
    requires Tallies(counts, before)
    ensures Tallies(next, before + States(t))
  {
    if t.Absent? {
      next := CountThreeMore(counts, Invalid, Invalid, Invalid, before);
      return;
    }
    var transcript, scan, surprise := Classify(t.transcript), Classify(t.scan), Classify(t.surprise);
    next := CountThreeMore(counts, transcript, scan, surprise, before);
    if Contradicts(t) {
      Demoted(next, before, transcript, surprise);
      next := Bump(next, Accepted, -1);
      next := Bump(next, Invalid, 1);
    }
  }

  // ---- What the final states mean ----

  /** Complete evidence that no disposition contradicts. */
  predicate Proven(a: Artifact) {
    && a.evidence.complete
    && (a.disposition.Some? ==>
          && a.disposition.value.valid
          && (a.disposition.value.status == Satisfied ==>
                a.disposition.value.reference == a.evidence.reference && a.disposition.value.sha == a.evidence.sha))
  }

  /** No complete evidence, but a verified disposition that names a gap. */
  predicate Excused(a: Artifact) {
    && !a.evidence.complete && a.disposition.Some? && a.disposition.value.valid
    && a.disposition.value.status !in {Satisfied, OperationalError}
  }

  /** A scan is excused by an unavailable source only if the transcript's disposition agrees. */
  predicate ScanAgrees(t: Ticker)
    requires t.Target?
  {
    Excused(t.scan) && t.scan.disposition.value.status == SourceUnavailable ==>
      t.transcript.disposition.Some? && t.transcript.disposition.value.status in {SourceUnavailable, PolicyBlocked}
  }

  predicate Complete(t: Ticker) {
    t.Target? && Proven(t.transcript) && Proven(t.scan) && Proven(t.surprise)
  }

  predicate Closed(t: Ticker) {
    && t.Target? && ScanAgrees(t) && (Proven(t.transcript) || Excused(t.transcript))
    && (Proven(t.scan) || Excused(t.scan)) && (Proven(t.surprise) || Excused(t.surprise))
  }

  ghost predicate AllComplete(states: seq<State>) {
    forall s :: s in states ==> s == EvidenceComplete
  }

  ghost predicate AllClosed(states: seq<State>) {
    forall s :: s in states ==> s == EvidenceComplete || s == Accepted
  }

  lemma TickerMeans(t: Ticker)
    ensures AllComplete(States(t)) <==> Complete(t)
    ensures AllClosed(States(t)) <==> Closed(t)
  {
    assert States(t)[0] in States(t) && States(t)[1] in States(t) && States(t)[2] in States(t);
  }

  /** The states are all complete, or all closed, exactly when every ticker is. */
  lemma {:induction false} CohortMeans(ts: seq<Ticker>)
    ensures AllComplete(AllStates(ts)) <==> forall i :: 0 <= i < |ts| ==> Complete(ts[i])
    ensures AllClosed(AllStates(ts)) <==> forall i :: 0 <= i < |ts| ==> Closed(ts[i])
  {
    if ts != [] {
      var init, last := ts[..|ts| - 1], ts[|ts| - 1];
      CohortMeans(init);
      TickerMeans(last);
      BothMean(AllStates(init), States(last));
      assert forall i :: 0 <= i < |init| ==> ts[i] == init[i];
    }
  }

  lemma BothMean(a: seq<State>, b: seq<State>)
    ensures AllComplete(a + b) <==> AllComplete(a) && AllComplete(b)
    ensures AllClosed(a + b) <==> AllClosed(a) && AllClosed(b)
  {
    assert forall s :: s in a + b <==> s in a || s in b;
  }

  /** The audit counts the final states, and its exit code says what the evidence is: 0 if every artifact of every
      ticker is proven, 1 if all are proven or excused but not all proven, 2 otherwise. */
  method AuditCohort(ts: seq<Ticker>, rosterMatches: bool) returns (counts: map<State, int>, rc: int)
    ensures Tallies(counts, AllStates(ts))
    ensures rc == 0 <==> rosterMatches && forall i :: 0 <= i < |ts| ==> Complete(ts[i])
    ensures rc == 1 <==> rosterMatches && (forall i :: 0 <= i < |ts| ==> Closed(ts[i]))
                         && exists i :: 0 <= i < |ts| && !Complete(ts[i])
    ensures rc == 0 || rc == 1 || rc == 2
  {
    counts := map[EvidenceComplete := 0, Accepted := 0, Actionable := 0, Missing := 0, Invalid := 0];
    assert Tallies(counts, []) by {
      forall s: State ensures s in counts && counts[s] == 0 {
        StateIs(s);
      }
    }
    for i := 0 to |ts|
      invariant Tallies(counts, AllStates(ts[..i]))
    {
      assert ts[..i + 1][..i] == ts[..i];
      counts := CountTicker(counts, ts[i], AllStates(ts[..i]));
    }
    assert ts[..|ts|] == ts;
    CountsSay(counts, AllStates(ts));
    CohortMeans(ts);
    if !rosterMatches || counts[Invalid] != 0 || counts[Missing] != 0 || counts[Actionable] != 0 {
      rc := 2;
    } else if counts[Accepted] != 0 {
      rc := 1;
    } else {
      rc := 0;
    }
  }

  lemma StateIs(s: State)
    ensures s == EvidenceComplete || s == Accepted || s == Actionable || s == Missing || s == Invalid
  {
  }

  /** What the counters say about the states they count. */
  lemma CountsSay(counts: map<State, int>, states: seq<State>)
    requires Tallies(counts, states)
    ensures var open := counts[Invalid] != 0 || counts[Missing] != 0 || counts[Actionable] != 0;
            && (AllClosed(states) <==> !open) && (Accepted in states <==> counts[Accepted] != 0)
            && (AllComplete(states) <==> !open && counts[Accepted] == 0)
  {
    CountPositive(states, Invalid);
    CountPositive(states, Missing);
    CountPositive(states, Actionable);
    CountPositive(states, Accepted);
    forall s | s in states
      ensures s == EvidenceComplete || s == Accepted || s == Actionable || s == Missing || s == Invalid
    {
      StateIs(s);
    }
  }

  lemma {:induction false} CountPositive(states: seq<State>, s: State)
    ensures CountIn(states, s) > 0 <==> s in states
  {
    if states != [] {
      CountPositive(states[..|states| - 1], s);
      assert s in states <==> s in states[..|states| - 1] || s == states[|states| - 1];
    }
  }

  /** Every ticker contributes three states, and each state is counted under exactly one heading. */
  lemma {:induction false} CountsAddUp(ts: seq<Ticker>)
    ensures var states := AllStates(ts);
            && |states| == 3 * |ts|
            && CountIn(states, EvidenceComplete) + CountIn(states, Accepted) + CountIn(states, Actionable)
               + CountIn(states, Missing) + CountIn(states, Invalid) == 3 * |ts|
  {
    if ts != [] {
      CountsAddUp(ts[..|ts| - 1]);
    }
    HeadingsCover(AllStates(ts));
  }

  lemma {:induction false} HeadingsCover(states: seq<State>)
    ensures CountIn(states, EvidenceComplete) + CountIn(states, Accepted) + CountIn(states, Actionable)
            + CountIn(states, Missing) + CountIn(states, Invalid) == |states|
  {
    if states != [] {
      HeadingsCover(states[..|states| - 1]);
    }
  }
}
