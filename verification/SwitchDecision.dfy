/** Applying model switches: what one candidate's evidence does to a purpose's pin, and what repeated runs settle on. */
module SwitchDecision {
  import opened Wrappers

  /** An active pin. The loop itself only writes automatic ones. */
  datatype Override = Override(model: string, manual: bool)

  type Slot = Option<Override>

  /** All that a run reads off the verdicts of one candidate. */
  datatype Evidence = Evidence(errored: bool, ready: bool, cleared: bool, failing: bool)

  datatype Action = Errored | AlreadyActive | Locked | CostHeld | WilsonHeld | Switch | Revert | Quiet

  function Incumbent(slot: Slot, base: string): string {
    if slot.Some? && slot.value.model != "" then slot.value.model else base
  }

  /** The ratio of list prices; one where either model is unranked or the incumbent is free. */
  function CostRatio(ranks: map<string, real>, candidate: string, incumbent: string): real {
    if candidate !in ranks || incumbent !in ranks || ranks[incumbent] <= 0.0 then 1.0
    else ranks[candidate] / ranks[incumbent]
  }

  function Decide(e: Evidence, ranks: map<string, real>, base: string, slot: Slot, candidate: string): Action {
    if e.errored then Errored
    else if e.ready then
      if slot.Some? && slot.value.model == candidate then AlreadyActive
      else if slot.Some? && slot.value.manual then Locked
      else if CostRatio(ranks, candidate, Incumbent(slot, base)) >= 0.90 then CostHeld
      else if !e.cleared then WilsonHeld
      else Switch
    else if slot.Some? && slot.value.model == candidate && e.failing then Revert
    else Quiet
  }

  function After(action: Action, slot: Slot, candidate: string): Slot {
    match action
    case Switch => Some(Override(candidate, false))
    case Revert => None
    case _ => slot
  }

  function Step(e: Evidence, ranks: map<string, real>, base: string, slot: Slot, candidate: string): Slot {
    After(Decide(e, ranks, base, slot, candidate), slot, candidate)
  }

  /** One purpose's slot after a run over its candidates, in order. */
  function RunSlot(ev: string -> Evidence, ranks: map<string, real>, base: string, slot: Slot, cs: seq<string>): Slot {
    if cs == [] then slot
    else
      var before := RunSlot(ev, ranks, base, slot, cs[..|cs| - 1]);
      Step(ev(cs[|cs| - 1]), ranks, base, before, cs[|cs| - 1])
  }

  lemma {:induction false} RunSlotAppend(ev: string -> Evidence, ranks: map<string, real>, base: string, slot: Slot,
      cs: seq<string>, ds: seq<string>)
    ensures RunSlot(ev, ranks, base, slot, cs + ds)
         == RunSlot(ev, ranks, base, RunSlot(ev, ranks, base, slot, cs), ds)
    decreases |ds|
  {
    if ds == [] {
      assert cs + ds == cs;
    } else {
      assert (cs + ds)[..|cs + ds| - 1] == cs + ds[..|ds| - 1];
      RunSlotAppend(ev, ranks, base, slot, cs, ds[..|ds| - 1]);
    }
  }

  /** The cost gate opens exactly for a candidate priced below 90% of a ranked, priced incumbent. */
  lemma CostGate(ranks: map<string, real>, candidate: string, incumbent: string)
    ensures CostRatio(ranks, candidate, incumbent) < 0.90
       <==> candidate in ranks && incumbent in ranks && ranks[incumbent] > 0.0
            && ranks[candidate] < 0.90 * ranks[incumbent]
  {
    if candidate in ranks && incumbent in ranks && ranks[incumbent] > 0.0 {
      QuotientBelow(ranks[candidate], ranks[incumbent], 0.90);
    }
  }

  lemma QuotientBelow(x: real, y: real, t: real)
    requires y > 0.0
    ensures x / y < t <==> x < t * y
  {
    var q := x / y;
    assert q * y == x;
    if q < t {
      assert (t - q) * y > 0.0;
    } else {
      assert (q - t) * y >= 0.0;
    }
  }

  /** A switch lowers the price of the incumbent below 90% of what it was. */
  lemma SwitchCutsCost(e: Evidence, ranks: map<string, real>, base: string, slot: Slot, candidate: string)
    requires "" !in ranks && Decide(e, ranks, base, slot, candidate) == Switch
    ensures var was := Incumbent(slot, base);
            var next := Incumbent(Step(e, ranks, base, slot, candidate), base);
            next in ranks && was in ranks && ranks[next] < 0.90 * ranks[was]
  {
    CostGate(ranks, candidate, Incumbent(slot, base));
  }

  ghost predicate Settled(e: Evidence, ranks: map<string, real>, base: string, slot: Slot, candidate: string) {
    Step(e, ranks, base, slot, candidate) == slot
  }

  lemma StepSettles(e: Evidence, ranks: map<string, real>, base: string, slot: Slot, candidate: string)
    ensures Settled(e, ranks, base, Step(e, ranks, base, slot, candidate), candidate)
  {
  }

  /** A switch to another candidate, d, never unsettles c. */
  lemma SwitchKeepsSettled(c: string, ec: Evidence, d: string, ed: Evidence, ranks: map<string, real>, base: string,
      slot: Slot)
    requires "" !in ranks && (c == d ==> ec == ed)
    requires Settled(ec, ranks, base, slot, c) && Decide(ed, ranks, base, slot, d) == Switch
    ensures Settled(ec, ranks, base, Some(Override(d, false)), c)
  {
    var next := Some(Override(d, false));
    CostGate(ranks, d, Incumbent(slot, base));
    CostGate(ranks, c, Incumbent(slot, base));
    CostGate(ranks, c, d);
  }

  /** Some step of the run is a revert. */
  ghost predicate Reverts(ev: string -> Evidence, ranks: map<string, real>, base: string, slot: Slot, cs: seq<string>) {
    exists i :: 0 <= i < |cs| && RevertsAt(ev, ranks, base, slot, cs, i)
  }

  ghost predicate RevertsAt(ev: string -> Evidence, ranks: map<string, real>, base: string, slot: Slot,
      cs: seq<string>, i: nat)
    requires i < |cs|
  {
    Decide(ev(cs[i]), ranks, base, RunSlot(ev, ranks, base, slot, cs[..i]), cs[i]) == Revert
  }

  ghost predicate AllSettled(ev: string -> Evidence, ranks: map<string, real>, base: string, slot: Slot,
      cs: seq<string>) {
    forall c :: c in cs ==> Settled(ev(c), ranks, base, slot, c)
  }

  lemma {:induction false} SettledStays(ev: string -> Evidence, ranks: map<string, real>, base: string, slot: Slot,
      cs: seq<string>)
    requires AllSettled(ev, ranks, base, slot, cs)
    ensures RunSlot(ev, ranks, base, slot, cs) == slot
  {
    if cs != [] {
      var init := cs[..|cs| - 1];
      assert forall c :: c in init ==> c in cs;
      SettledStays(ev, ranks, base, slot, init);
      assert cs[|cs| - 1] in cs;
    }
  }

  /** Past every revert, a run leaves all its candidates settled. */
  lemma {:induction false} QuietRunSettles(ev: string -> Evidence, ranks: map<string, real>, base: string,
      slot: Slot, cs: seq<string>)
    requires "" !in ranks && !Reverts(ev, ranks, base, slot, cs)
    ensures AllSettled(ev, ranks, base, RunSlot(ev, ranks, base, slot, cs), cs)
  {
    if cs != [] {
      var init, d := cs[..|cs| - 1], cs[|cs| - 1];
      forall i | 0 <= i < |init| ensures !RevertsAt(ev, ranks, base, slot, init, i) {
        assert init[..i] == cs[..i] && init[i] == cs[i];
        assert !RevertsAt(ev, ranks, base, slot, cs, i);
      }
      QuietRunSettles(ev, ranks, base, slot, init);
      var before := RunSlot(ev, ranks, base, slot, init);
      assert !RevertsAt(ev, ranks, base, slot, cs, |cs| - 1);
      StepSettles(ev(d), ranks, base, before, d);
      forall c | c in cs ensures Settled(ev(c), ranks, base, RunSlot(ev, ranks, base, slot, cs), c) {
        if c != d {
          assert c in init;
          if Decide(ev(d), ranks, base, before, d) == Switch {
            SwitchKeepsSettled(c, ev(c), d, ev(d), ranks, base, before);
          }
        }
      }
    }
  }

  /** One run suffices when no revert fires. */
  lemma OneRunSuffices(ev: string -> Evidence, ranks: map<string, real>, base: string, slot: Slot, cs: seq<string>)
    requires "" !in ranks && !Reverts(ev, ranks, base, slot, cs)
    ensures var once := RunSlot(ev, ranks, base, slot, cs);
            RunSlot(ev, ranks, base, once, cs) == once
  {
    QuietRunSettles(ev, ranks, base, slot, cs);
    SettledStays(ev, ranks, base, RunSlot(ev, ranks, base, slot, cs), cs);
  }

  /** A slot no revert can touch: empty, or pinned to a model whose own evidence does not call for one. */
  ghost predicate Immune(ev: string -> Evidence, slot: Slot) {
    slot.Some? ==> var e := ev(slot.value.model); e.errored || e.ready || !e.failing
  }

  lemma StepKeepsImmune(ev: string -> Evidence, ranks: map<string, real>, base: string, slot: Slot, c: string)
    requires Immune(ev, slot)
    ensures Immune(ev, Step(ev(c), ranks, base, slot, c)) && Decide(ev(c), ranks, base, slot, c) != Revert
  {
  }

  lemma {:induction false} ImmuneRun(ev: string -> Evidence, ranks: map<string, real>, base: string, slot: Slot,
      cs: seq<string>)
    requires Immune(ev, slot)
    ensures Immune(ev, RunSlot(ev, ranks, base, slot, cs)) && !Reverts(ev, ranks, base, slot, cs)
  {
    if cs != [] {
      var init := cs[..|cs| - 1];
      ImmuneRun(ev, ranks, base, slot, init);
      StepKeepsImmune(ev, ranks, base, RunSlot(ev, ranks, base, slot, init), cs[|cs| - 1]);
      forall i | 0 <= i < |cs| ensures !RevertsAt(ev, ranks, base, slot, cs, i) {
        if i < |init| {
          assert init[..i] == cs[..i] && init[i] == cs[i];
          assert !RevertsAt(ev, ranks, base, slot, init, i);
        }
      }
    }
  }

  lemma ImmuneAfterRevert(ev: string -> Evidence, ranks: map<string, real>, base: string, slot: Slot,
      cs: seq<string>, i: nat)
    requires i < |cs| && RevertsAt(ev, ranks, base, slot, cs, i)
    ensures RunSlot(ev, ranks, base, slot, cs[..i + 1]) == None
    ensures RunSlot(ev, ranks, base, slot, cs) == RunSlot(ev, ranks, base, None, cs[i + 1..])
    ensures Immune(ev, RunSlot(ev, ranks, base, slot, cs))
  {
    assert cs[..i + 1][..i] == cs[..i];
    assert cs == cs[..i + 1] + cs[i + 1..];
    RunSlotAppend(ev, ranks, base, slot, cs[..i + 1], cs[i + 1..]);
    ImmuneRun(ev, ranks, base, None, cs[i + 1..]);
  }

  /** Two runs reach a fixed point, whatever the order of the candidates and wherever they start. */
  lemma TwoRunsConverge(ev: string -> Evidence, ranks: map<string, real>, base: string, slot: Slot, cs: seq<string>)
    requires "" !in ranks
    ensures var twice := RunSlot(ev, ranks, base, RunSlot(ev, ranks, base, slot, cs), cs);
            RunSlot(ev, ranks, base, twice, cs) == twice
  {
    var once := RunSlot(ev, ranks, base, slot, cs);
    if Reverts(ev, ranks, base, slot, cs) {
      var i :| 0 <= i < |cs| && RevertsAt(ev, ranks, base, slot, cs, i);
      ImmuneAfterRevert(ev, ranks, base, slot, cs, i);
      ImmuneRun(ev, ranks, base, once, cs);
      OneRunSuffices(ev, ranks, base, once, cs);
    } else {
      OneRunSuffices(ev, ranks, base, slot, cs);
    }
  }

  function RevertCount(ev: string -> Evidence, ranks: map<string, real>, base: string, slot: Slot,
      cs: seq<string>): nat {
    if cs == [] then 0
    else
      var init, last := cs[..|cs| - 1], cs[|cs| - 1];
      RevertCount(ev, ranks, base, slot, init)
      + if Decide(ev(last), ranks, base, RunSlot(ev, ranks, base, slot, init), last) == Revert then 1 else 0
  }

  /** Any number of runs, in any candidate orders, revert a purpose at most once: their concatenation is one list. */
  lemma {:induction false} AtMostOneRevert(ev: string -> Evidence, ranks: map<string, real>, base: string,
      slot: Slot, cs: seq<string>)
    ensures RevertCount(ev, ranks, base, slot, cs) <= 1
    ensures RevertCount(ev, ranks, base, slot, cs) == 1 ==> Immune(ev, RunSlot(ev, ranks, base, slot, cs))
  {
    if cs != [] {
      var init := cs[..|cs| - 1];
      AtMostOneRevert(ev, ranks, base, slot, init);
      var before := RunSlot(ev, ranks, base, slot, init);
      if Immune(ev, before) {
        StepKeepsImmune(ev, ranks, base, before, cs[|cs| - 1]);
      }
    }
  }

  /** The candidate's evidence lets it displace a dearer incumbent. */
  predicate Qualifies(e: Evidence) {
    !e.errored && e.ready && e.cleared
  }

  /** The candidate would displace an automatic or empty pin whose model is the incumbent. */
  predicate Displaces(e: Evidence, ranks: map<string, real>, candidate: string, incumbent: string) {
    Qualifies(e) && CostRatio(ranks, candidate, incumbent) < 0.90
  }

  function Qualified(ev: string -> Evidence, cs: seq<string>): seq<string> {
    if cs == [] then []
    else Qualified(ev, cs[..|cs| - 1]) + if Qualifies(ev(cs[|cs| - 1])) then [cs[|cs| - 1]] else []
  }

  /** The model that prices alone lead to: each in turn takes over if it costs less than 90% of the one before. */
  function Cheapened(ranks: map<string, real>, first: string, models: seq<string>): string {
    if models == [] then first
    else
      var before, last := Cheapened(ranks, first, models[..|models| - 1]), models[|models| - 1];
      if CostRatio(ranks, last, before) < 0.90 then last else before
  }

  /** A slot that no revert can touch changes its model exactly when it is displaced. */
  lemma ImmuneStep(e: Evidence, ranks: map<string, real>, base: string, slot: Slot, c: string)
    requires "" !in ranks && (slot.Some? ==> !slot.value.manual)
    requires slot.Some? && slot.value.model == c ==> e.errored || e.ready || !e.failing
    ensures var was, next := Incumbent(slot, base), Step(e, ranks, base, slot, c);
            && (next.Some? ==> !next.value.manual)
            && Incumbent(next, base) == if Displaces(e, ranks, c, was) then c else was
  {
    CostGate(ranks, c, Incumbent(slot, base));
  }

  lemma {:induction false} QualifiedNext(ev: string -> Evidence, ranks: map<string, real>, base: string, cs: seq<string>)
    requires cs != []
    ensures var before, c := Cheapened(ranks, base, Qualified(ev, cs[..|cs| - 1])), cs[|cs| - 1];
            Cheapened(ranks, base, Qualified(ev, cs)) == if Displaces(ev(c), ranks, c, before) then c else before
  {
    var models, c := Qualified(ev, cs[..|cs| - 1]), cs[|cs| - 1];
    assert (models + [c])[..|models|] == models && models + [] == models;
  }

  /** Where nothing is pinned, a run leads to the model that the prices of the qualified candidates lead to. */
  lemma {:induction false} UnpinnedRun(ev: string -> Evidence, ranks: map<string, real>, base: string, cs: seq<string>)
    requires "" !in ranks
    ensures var end := RunSlot(ev, ranks, base, None, cs);
            && Immune(ev, end) && (end.Some? ==> !end.value.manual)
            && Incumbent(end, base) == Cheapened(ranks, base, Qualified(ev, cs))
  {
    if cs != [] {
      var init, c := cs[..|cs| - 1], cs[|cs| - 1];
      UnpinnedRun(ev, ranks, base, init);
      StepKeepsImmune(ev, ranks, base, RunSlot(ev, ranks, base, None, init), c);
      ImmuneStep(ev(c), ranks, base, RunSlot(ev, ranks, base, None, init), c);
      QualifiedNext(ev, ranks, base, cs);
    }
  }

  lemma DisplacingUnsettles(e: Evidence, ranks: map<string, real>, base: string, slot: Slot, candidate: string)
    requires "" !in ranks && (slot.Some? ==> !slot.value.manual)
    requires Displaces(e, ranks, candidate, Incumbent(slot, base))
    ensures !Settled(e, ranks, base, slot, candidate)
  {
    CostGate(ranks, candidate, Incumbent(slot, base));
  }

  /** Position i reverts the pin, and an earlier candidate j, held until then, would displace the model that the prices
      of the later qualified candidates lead to. */
  ghost predicate Unfinished(ev: string -> Evidence, ranks: map<string, real>, base: string, slot: Slot,
      cs: seq<string>,
      i: nat, j: nat)
    requires j < i < |cs|
  {
    && slot.Some? && slot.value.model == cs[i]
    && !ev(cs[i]).errored && !ev(cs[i]).ready && ev(cs[i]).failing
    && (forall h :: 0 <= h < i ==> Decide(ev(cs[h]), ranks, base, slot, cs[h]) !in {Switch, Revert})
    && Displaces(ev(cs[j]), ranks, cs[j], Cheapened(ranks, base, Qualified(ev, cs[i + 1..])))
  }

  /** Nothing switches the slot on the way to a revert of it. */
  lemma {:induction false} PinStaysUntilRevert(ev: string -> Evidence, ranks: map<string, real>, base: string,
      slot: Slot,
      cs: seq<string>, m: string)
    requires !ev(m).errored && !ev(m).ready && ev(m).failing
    requires var end := RunSlot(ev, ranks, base, slot, cs); end.Some? && end.value.model == m
    ensures RunSlot(ev, ranks, base, slot, cs) == slot
    ensures forall h :: 0 <= h < |cs| ==> Decide(ev(cs[h]), ranks, base, slot, cs[h]) !in {Switch, Revert}
  {
    if cs != [] {
      var init := cs[..|cs| - 1];
      PinStaysUntilRevert(ev, ranks, base, slot, init, m);
    }
  }

  lemma PrefixStays(ev: string -> Evidence, ranks: map<string, real>, base: string, slot: Slot, cs: seq<string>)
    requires forall h :: 0 <= h < |cs| ==> Decide(ev(cs[h]), ranks, base, slot, cs[h]) !in {Switch, Revert}
    ensures RunSlot(ev, ranks, base, slot, cs) == slot
  {
    forall c | c in cs ensures Settled(ev(c), ranks, base, slot, c) {
      var h :| 0 <= h < |cs| && cs[h] == c;
    }
    SettledStays(ev, ranks, base, slot, cs);
  }

  /** A second run changes the slot exactly when the first one left a displacing candidate behind its revert. */
  lemma SecondRunChangesIff(ev: string -> Evidence, ranks: map<string, real>, base: string, slot: Slot, cs: seq<string>)
    requires "" !in ranks
    ensures var once := RunSlot(ev, ranks, base, slot, cs);
            RunSlot(ev, ranks, base, once, cs) != once
            <==> exists i, j :: 0 <= j < i < |cs| && Unfinished(ev, ranks, base, slot, cs, i, j)
  {
    var once := RunSlot(ev, ranks, base, slot, cs);
    if RunSlot(ev, ranks, base, once, cs) != once {
      ChangeIsUnfinished(ev, ranks, base, slot, cs);
    }
    if i, j :| 0 <= j < i < |cs| && Unfinished(ev, ranks, base, slot, cs, i, j) {
      UnfinishedChanges(ev, ranks, base, slot, cs, i, j);
    }
  }

  lemma UnfinishedReverts(ev: string -> Evidence, ranks: map<string, real>, base: string, slot: Slot, cs: seq<string>,
      i: nat, j: nat)
    requires j < i < |cs| && Unfinished(ev, ranks, base, slot, cs, i, j)
    ensures RevertsAt(ev, ranks, base, slot, cs, i)
  {
    PrefixStays(ev, ranks, base, slot, cs[..i]);
  }

  lemma UnfinishedChanges(ev: string -> Evidence, ranks: map<string, real>, base: string, slot: Slot, cs: seq<string>,
      i: nat, j: nat)
    requires "" !in ranks
    requires j < i < |cs| && Unfinished(ev, ranks, base, slot, cs, i, j)
    ensures var once := RunSlot(ev, ranks, base, slot, cs);
            RunSlot(ev, ranks, base, once, cs) != once
  {
    var once := RunSlot(ev, ranks, base, slot, cs);
    var c := cs[j];
    UnfinishedReverts(ev, ranks, base, slot, cs, i, j);
    ImmuneAfterRevert(ev, ranks, base, slot, cs, i);
    UnpinnedRun(ev, ranks, base, cs[i + 1..]);
    DisplacingUnsettles(ev(c), ranks, base, once, c);
    ImmuneRun(ev, ranks, base, once, cs);
    QuietRunSettles(ev, ranks, base, once, cs);
    assert c in cs;
  }

  lemma ChangeIsUnfinished(ev: string -> Evidence, ranks: map<string, real>, base: string, slot: Slot, cs: seq<string>)
    requires "" !in ranks
    requires var once := RunSlot(ev, ranks, base, slot, cs); RunSlot(ev, ranks, base, once, cs) != once
    ensures exists i, j :: 0 <= j < i < |cs| && Unfinished(ev, ranks, base, slot, cs, i, j)
  {
    if !Reverts(ev, ranks, base, slot, cs) {
      OneRunSuffices(ev, ranks, base, slot, cs);
    } else {
      var i :| 0 <= i < |cs| && RevertsAt(ev, ranks, base, slot, cs, i);
      ImmuneAfterRevert(ev, ranks, base, slot, cs, i);
      var j := LeftBehind(ev, ranks, base, RunSlot(ev, ranks, base, slot, cs), cs, i);
      UnpinnedRun(ev, ranks, base, cs[i + 1..]);
      PinStaysUntilRevert(ev, ranks, base, slot, cs[..i], cs[i]);
      assert forall h :: 0 <= h < i ==> cs[..i][h] == cs[h];
      assert Unfinished(ev, ranks, base, slot, cs, i, j);
    }
  }

  lemma LeftBehind(ev: string -> Evidence, ranks: map<string, real>, base: string, once: Slot, cs: seq<string>, i: nat)
      returns (j: nat)
    requires i < |cs| && "" !in ranks && !ev(cs[i]).ready && Immune(ev, once)
    requires once == RunSlot(ev, ranks, base, None, cs[i + 1..]) && RunSlot(ev, ranks, base, once, cs) != once
    ensures j < i && Displaces(ev(cs[j]), ranks, cs[j], Incumbent(once, base))
  {
    var rest := cs[i + 1..];
    ImmuneRun(ev, ranks, base, None, rest);
    QuietRunSettles(ev, ranks, base, None, rest);
    StepKeepsImmune(ev, ranks, base, once, cs[i]);
    j := UnsettledBefore(ev, ranks, base, once, cs, i);
    StepKeepsImmune(ev, ranks, base, once, cs[j]);
  }

  lemma UnsettledBefore(ev: string -> Evidence, ranks: map<string, real>, base: string, once: Slot, cs: seq<string>,
      i: nat)
      returns (j: nat)
    requires i < |cs| && RunSlot(ev, ranks, base, once, cs) != once
    requires AllSettled(ev, ranks, base, once, cs[i + 1..]) && Settled(ev(cs[i]), ranks, base, once, cs[i])
    ensures j < i && !Settled(ev(cs[j]), ranks, base, once, cs[j])
  {
    if AllSettled(ev, ranks, base, once, cs[..i]) {
      forall c | c in cs ensures Settled(ev(c), ranks, base, once, c) {
        var h :| 0 <= h < |cs| && cs[h] == c;
        if h > i {
          assert cs[i + 1..][h - i - 1] == c;
        } else if h < i {
          assert cs[..i][h] == c;
        }
      }
      SettledStays(ev, ranks, base, once, cs);
      assert false;
    }
    j :| 0 <= j < i && !Settled(ev(cs[j]), ranks, base, once, cs[j]);
  }

  /** Evidence under which a is switchable and m, pinned, calls for a revert. */
  function RevertAfter(a: string, m: string): string -> Evidence {
    c => if c == a then Evidence(false, true, true, false) else Evidence(false, false, false, c == m)
  }

  /** One run need not be enough: a, met first, is held by the price of the pinned m; the run then reverts m, and the
      second run switches to a, which is half the price of the configured model. */
  lemma SecondRunCanSwitch(a: string, m: string, base: string)
    requires a != m && m != base && a != base && a != "" && m != "" && base != ""
    ensures var ranks := map[a := 5.0, m := 5.0, base := 10.0];
            var once := RunSlot(RevertAfter(a, m), ranks, base, Some(Override(m, false)), [a, m]);
            once == None && RunSlot(RevertAfter(a, m), ranks, base, once, [a, m]) == Some(Override(a, false))
  {
    var ranks, ev := map[a := 5.0, m := 5.0, base := 10.0], RevertAfter(a, m);
    var start := Some(Override(m, false));
    CostGate(ranks, a, m);
    CostGate(ranks, a, base);
    TwoSteps(ev, ranks, base, start, a, m);
    TwoSteps(ev, ranks, base, None, a, m);
  }

  lemma TwoSteps(ev: string -> Evidence, ranks: map<string, real>, base: string, slot: Slot, a: string, m: string)
    ensures RunSlot(ev, ranks, base, slot, [a, m])
         == Step(ev(m), ranks, base, Step(ev(a), ranks, base, slot, a), m)
  {
    assert [a, m][..1] == [a] && [a][..0] == [];
    assert RunSlot(ev, ranks, base, slot, [a]) == Step(ev(a), ranks, base, slot, a);
  }
}
