/** Runs of the switch loop over every evaluated pair and the store of active pins. */
module SwitchRuns {
  import opened Wrappers
  import opened SwitchDecision
  import SwitchEvidence

  datatype Pair = Pair(purpose: string, candidate: string)

  type Pins = map<string, Override>

  /** What is fixed while the loop runs: the evidence, the list prices and the configured models. */
  datatype Setting = Setting(ev: Pair -> Evidence, ranks: map<string, real>, base: string -> string)

  function SlotOf(active: Pins, purpose: string): Slot {
    if purpose in active then Some(active[purpose]) else None
  }

  function WithSlot(active: Pins, purpose: string, slot: Slot): Pins {
    if slot.Some? then active[purpose := slot.value] else active - {purpose}
  }

  function DecidePair(s: Setting, active: Pins, pair: Pair): Action {
    Decide(s.ev(pair), s.ranks, s.base(pair.purpose), SlotOf(active, pair.purpose), pair.candidate)
  }

  function StepPair(s: Setting, active: Pins, pair: Pair): Pins {
    WithSlot(active, pair.purpose, After(DecidePair(s, active, pair), SlotOf(active, pair.purpose), pair.candidate))
  }

  function Run(s: Setting, active: Pins, pairs: seq<Pair>): Pins {
    if pairs == [] then active else StepPair(s, Run(s, active, pairs[..|pairs| - 1]), pairs[|pairs| - 1])
  }

  /** A purpose's candidates, in the order the run meets them. */
  function CandidatesOf(pairs: seq<Pair>, purpose: string): seq<string> {
    if pairs == [] then []
    else if pairs[|pairs| - 1].purpose == purpose
    then CandidatesOf(pairs[..|pairs| - 1], purpose) + [pairs[|pairs| - 1].candidate]
    else CandidatesOf(pairs[..|pairs| - 1], purpose)
  }

  function EvidenceFor(s: Setting, purpose: string): string -> Evidence {
    candidate => s.ev(Pair(purpose, candidate))
  }

  function SlotRun(s: Setting, purpose: string, slot: Slot, pairs: seq<Pair>): Slot {
    RunSlot(EvidenceFor(s, purpose), s.ranks, s.base(purpose), slot, CandidatesOf(pairs, purpose))
  }

  /** A run treats each purpose on its own, whatever the order of the pairs. */
  lemma {:induction false} RunByPurpose(s: Setting, active: Pins, pairs: seq<Pair>, purpose: string)
    ensures SlotOf(Run(s, active, pairs), purpose) == SlotRun(s, purpose, SlotOf(active, purpose), pairs)
  {
    if pairs != [] {
      var init, last := pairs[..|pairs| - 1], pairs[|pairs| - 1];
      RunByPurpose(s, active, init, purpose);
      var before := CandidatesOf(init, purpose);
      assert (before + [last.candidate])[..|before|] == before;
    }
  }

  lemma SamePins(p: Pins, q: Pins)
    requires forall purpose :: SlotOf(p, purpose) == SlotOf(q, purpose)
    ensures p == q
  {
    forall purpose ensures purpose in p <==> purpose in q {
      assert SlotOf(p, purpose) == SlotOf(q, purpose);
    }
    forall purpose | purpose in p ensures p[purpose] == q[purpose] {
      assert SlotOf(p, purpose) == SlotOf(q, purpose);
    }
  }

  /** After two runs over fixed verdicts and prices, every further run leaves the store alone. */
  lemma TwoRunsSettle(s: Setting, active: Pins, pairs: seq<Pair>)
    requires "" !in s.ranks
    ensures var twice := Run(s, Run(s, active, pairs), pairs);
            Run(s, twice, pairs) == twice
  {
    var once := Run(s, active, pairs);
    var twice := Run(s, once, pairs);
    forall purpose ensures SlotOf(Run(s, twice, pairs), purpose) == SlotOf(twice, purpose) {
      RunByPurpose(s, active, pairs, purpose);
      RunByPurpose(s, once, pairs, purpose);
      RunByPurpose(s, twice, pairs, purpose);
      TwoRunsConverge(EvidenceFor(s, purpose), s.ranks, s.base(purpose), SlotOf(active, purpose), CandidatesOf(pairs, purpose));
    }
    SamePins(Run(s, twice, pairs), twice);
  }

  /** A purpose whose first run leaves a displacing candidate behind its revert. */
  ghost predicate Unsettled(s: Setting, active: Pins, pairs: seq<Pair>, purpose: string) {
    var cs := CandidatesOf(pairs, purpose);
    exists i, j :: 0 <= j < i < |cs|
      && Unfinished(EvidenceFor(s, purpose), s.ranks, s.base(purpose), SlotOf(active, purpose), cs, i, j)
  }

  /** Running twice has the outcome of running once exactly when no purpose's revert leaves such a candidate behind. */
  lemma IdempotentIff(s: Setting, active: Pins, pairs: seq<Pair>)
    requires "" !in s.ranks
    ensures var once := Run(s, active, pairs);
            Run(s, once, pairs) == once <==> forall purpose :: !Unsettled(s, active, pairs, purpose)
  {
    var once := Run(s, active, pairs);
    forall purpose
      ensures Unsettled(s, active, pairs, purpose) <==> SlotOf(Run(s, once, pairs), purpose) != SlotOf(once, purpose)
    {
      RunByPurpose(s, active, pairs, purpose);
      RunByPurpose(s, once, pairs, purpose);
      SecondRunChangesIff(EvidenceFor(s, purpose), s.ranks, s.base(purpose), SlotOf(active, purpose), CandidatesOf(pairs, purpose));
    }
    if forall purpose :: !Unsettled(s, active, pairs, purpose) {
      SamePins(Run(s, once, pairs), once);
    }
  }

  // ---- The loop ----

  /** The line of the summary a pair produces; a quiet pair produces none. */
  datatype Line = Line(pair: Pair, action: Action, model: Option<string>)

  function LinesOf(action: Action, slot: Slot, pair: Pair): seq<Line> {
    match action
    case Quiet => []
    case AlreadyActive => [Line(pair, action, Some(pair.candidate))]
    case Switch => [Line(pair, action, Some(pair.candidate))]
    case Locked => [Line(pair, action, if slot.Some? then Some(slot.value.model) else None)]
    case _ => [Line(pair, action, None)]
  }

  /** Each pair is decided against the pins as the run has left them, or as they were when it is a dry run. */
  function Summary(s: Setting, active: Pins, pairs: seq<Pair>, dryRun: bool): seq<Line> {
    if pairs == [] then []
    else
      var init, last := pairs[..|pairs| - 1], pairs[|pairs| - 1];
      var before := if dryRun then active else Run(s, active, init);
      Summary(s, active, init, dryRun) + LinesOf(DecidePair(s, before, last), SlotOf(before, last.purpose), last)
  }

  lemma RunStep(s: Setting, active: Pins, pairs: seq<Pair>, i: nat, dryRun: bool)
    requires i < |pairs|
    ensures Run(s, active, pairs[..i + 1]) == StepPair(s, Run(s, active, pairs[..i]), pairs[i])
    ensures var before := if dryRun then active else Run(s, active, pairs[..i]);
            Summary(s, active, pairs[..i + 1], dryRun)
            == Summary(s, active, pairs[..i], dryRun)
               + LinesOf(DecidePair(s, before, pairs[i]), SlotOf(before, pairs[i].purpose), pairs[i])
  {
    assert pairs[..i + 1][..i] == pairs[..i];
  }

  lemma QuietStep(active: Pins, purpose: string)
    ensures WithSlot(active, purpose, SlotOf(active, purpose)) == active
  {
  }

  type Table = map<Pair, seq<SwitchEvidence.Row>>

  function RowsOf(table: Table, pair: Pair): seq<SwitchEvidence.Row> {
    if pair in table then table[pair] else []
  }

  function SettingOf(table: Table, ranks: map<string, real>, models: map<string, string>, fallback: string,
      switchRun: int, keepRun: int): Setting
  {
    Setting((pair: Pair) => SwitchEvidence.EvidenceOf(RowsOf(table, pair), switchRun, keepRun), ranks,
            (purpose: string) => if purpose in models then models[purpose] else fallback)
  }

  class PinStore {
    var active: Pins

    constructor (active: Pins)
      ensures this.active == active
    {
      this.active := active;
    }

    method EvaluateSwitches(table: Table, ranks: map<string, real>, models: map<string, string>, fallback: string,
        pairs: seq<Pair>, switchRun: int, keepRun: int, dryRun: bool) returns (lines: seq<Line>)
      modifies this
      ensures var s := SettingOf(table, ranks, models, fallback, switchRun, keepRun);
              && active == (if dryRun then old(active) else Run(s, old(active), pairs))
              && lines == Summary(s, old(active), pairs, dryRun)
    {
      ghost var s := SettingOf(table, ranks, models, fallback, switchRun, keepRun);
      lines := [];
      for i := 0 to |pairs|
        invariant active == if dryRun then old(active) else Run(s, old(active), pairs[..i])
        invariant lines == Summary(s, old(active), pairs[..i], dryRun)
      {
        RunStep(s, old(active), pairs, i, dryRun);
        var pair := pairs[i];
        var base := if pair.purpose in models then models[pair.purpose] else fallback;
        var slot := SlotOf(active, pair.purpose);
        var action := DecideFrom(RowsOf(table, pair), ranks, base, slot, pair.candidate, switchRun, keepRun);
        if !dryRun {
          if action == Switch {
            active := active[pair.purpose := Override(pair.candidate, false)];
          } else if action == Revert {
            active := active - {pair.purpose};
          } else {
            QuietStep(active, pair.purpose);
          }
        }
        lines := lines + LinesOf(action, slot, pair);
      }
      assert pairs[..|pairs|] == pairs;
    }
  }

  /** One pair's decision, reading the verdict rows only as far as the branches need them. */
  method DecideFrom(rows: seq<SwitchEvidence.Row>, ranks: map<string, real>, base: string, slot: Slot,
      candidate: string,
      switchRun: int, keepRun: int) returns (action: Action)
    ensures action == Decide(SwitchEvidence.EvidenceOf(rows, switchRun, keepRun), ranks, base, slot, candidate)
  {
    if rows != [] && rows[0].verdict == SwitchEvidence.CandidateErrored {
      return Errored;
    }
    var recent := SwitchEvidence.RecentVerdicts(rows, switchRun, SwitchEvidence.STREAK_NEUTRAL);
    if SwitchEvidence.IsConsecutive(recent, SwitchEvidence.SwitchDown, switchRun) {
      if slot.Some? && slot.value.model == candidate {
        return AlreadyActive;
      }
      if slot.Some? && slot.value.manual {
        return Locked;
      }
      if CostRatio(ranks, candidate, Incumbent(slot, base)) >= 0.90 {
        return CostHeld;
      }
      var pool := SwitchEvidence.PoolEvidence(SwitchEvidence.PooledRows(rows, switchRun));
      var open := SwitchEvidence.Gate(pool);
      return if open then Switch else WilsonHeld;
    }
    if slot.None? || slot.value.model != candidate {
      return Quiet;
    }
    var kept := SwitchEvidence.RecentVerdicts(rows, keepRun, SwitchEvidence.STREAK_NEUTRAL);
    if SwitchEvidence.IsConsecutive(kept, SwitchEvidence.KeepIncumbent, keepRun) {
      return Revert;
    }
    return Quiet;
  }
}
