/** Clients that approve the same actions side by side: each approval checks, writes downstream and then moves the
    action, in three atomic store calls that may interleave with others or be cut off by a crash. */
module ApprovalRace {
  datatype Status = Pending | Applied | Cancelled

  datatype Phase = Idle | Checked(action: nat) | Wrote(action: nat)

  /** Keyed actions write one row per key, the others append. Applies counts successful moves to applied; orphans the
      rows whose client crashed, or lost the move, after writing. */
  datatype World = World(status: map<nat, Status>, keyed: set<nat>, rows: map<nat, nat>,
                         applies: map<nat, nat>, orphans: map<nat, nat>, clients: map<nat, Phase>)

  datatype Event =
    | Check(client: nat, action: nat)
    | Write(client: nat)
    | Apply(client: nat)
    | Crash(client: nat)
    | Cancel(action: nat)
    | Restore(action: nat)

  function Of(counts: map<nat, nat>, a: nat): nat {
    if a in counts then counts[a] else 0
  }

  function PhaseOf(w: World, c: nat): Phase {
    if c in w.clients then w.clients[c] else Idle
  }

  function Moved(w: World, c: nat, phase: Phase): World {
    w.(clients := w.clients[c := phase])
  }

  function Orphaned(w: World, a: nat): World {
    w.(orphans := w.orphans[a := Of(w.orphans, a) + 1])
  }

  function WithRow(w: World, a: nat): World {
    w.(rows := w.rows[a := if a in w.keyed then 1 else Of(w.rows, a) + 1])
  }

  /** The move to applied succeeds only from pending. */
  function ApplyAction(w: World, c: nat, a: nat): World {
    if a in w.status && w.status[a] == Pending
    then Moved(w.(status := w.status[a := Applied], applies := w.applies[a := Of(w.applies, a) + 1]), c, Idle)
    else Moved(Orphaned(w, a), c, Idle)
  }

  function Step(w: World, ev: Event): World {
    match ev
    case Check(c, a) =>
      if PhaseOf(w, c).Idle? && a in w.status && w.status[a] == Pending then Moved(w, c, Checked(a)) else w
    case Write(c) =>
      var phase := PhaseOf(w, c);
      if phase.Checked? then Moved(WithRow(w, phase.action), c, Wrote(phase.action)) else w
    case Apply(c) =>
      var phase := PhaseOf(w, c);
      if phase.Wrote? then ApplyAction(w, c, phase.action) else w
    case Crash(c) =>
      var phase := PhaseOf(w, c);
      if phase.Wrote? then Moved(Orphaned(w, phase.action), c, Idle) else Moved(w, c, Idle)
    case Cancel(a) =>
      if a in w.status && w.status[a] == Pending then w.(status := w.status[a := Cancelled]) else w
    case Restore(a) =>
      if a in w.status && w.status[a] == Cancelled then w.(status := w.status[a := Pending]) else w
  }

  function Run(w: World, events: seq<Event>): World {
    if events == [] then w else Step(Run(w, events[..|events| - 1]), events[|events| - 1])
  }

  // ---- What every interleaving keeps ----

  /** The clients that have written for an action and not yet moved it. */
  function InFlight(w: World, a: nat): set<nat> {
    set c | c in w.clients && w.clients[c] == Wrote(a)
  }

  ghost predicate IsApplied(w: World, a: nat) {
    a in w.status && w.status[a] == Applied
  }

  /** At most one apply; an applied action has a row; and rows are accounted for. */
  ghost predicate Accounts(applied: bool, keyed: bool, rows: nat, applies: nat, flights: nat, orphans: nat) {
    && applies == (if applied then 1 else 0)
    && (keyed ==> rows == if applies + flights + orphans > 0 then 1 else 0)
    && (!keyed ==> rows == applies + flights + orphans)
  }

  ghost predicate Sound(w: World, a: nat) {
    Accounts(IsApplied(w, a), a in w.keyed, Of(w.rows, a), Of(w.applies, a), |InFlight(w, a)|, Of(w.orphans, a))
  }

  lemma InFlightMoved(w: World, c: nat, phase: Phase, a: nat)
    ensures InFlight(Moved(w, c, phase), a)
         == if phase == Wrote(a) then InFlight(w, a) + {c} else InFlight(w, a) - {c}
  {
  }

  lemma WriteKeepsSound(w: World, c: nat, a: nat)
    requires Sound(w, a)
    ensures Sound(Step(w, Write(c)), a)
  {
    if PhaseOf(w, c).Checked? {
      var b := PhaseOf(w, c).action;
      var wrote := WithRow(w, b);
      InFlightMoved(wrote, c, Wrote(b), a);
      assert InFlight(wrote, a) == InFlight(w, a) && c !in InFlight(w, a);
      assert InFlight(Step(w, Write(c)), a) == if a == b then InFlight(w, a) + {c} else InFlight(w, a);
    }
  }

  /** A client that has written leaves its action: as an orphan, or by applying it. */
  lemma LeavesFlight(w: World, mid: World, c: nat, b: nat, a: nat)
    requires PhaseOf(w, c) == Wrote(b) && mid.clients == w.clients
    ensures |InFlight(Moved(mid, c, Idle), a)| == |InFlight(w, a)| - if a == b then 1 else 0
  {
    assert InFlight(mid, a) == InFlight(w, a);
    InFlightMoved(mid, c, Idle, a);
    assert c in InFlight(w, a) <==> a == b;
    if a != b {
      assert InFlight(w, a) - {c} == InFlight(w, a);
    }
  }

  lemma OrphanKeepsSound(w: World, c: nat, b: nat, a: nat)
    requires Sound(w, a) && PhaseOf(w, c) == Wrote(b)
    ensures Sound(Moved(Orphaned(w, b), c, Idle), a)
  {
    LeavesFlight(w, Orphaned(w, b), c, b, a);
  }

  lemma ApplyKeepsSound(w: World, c: nat, b: nat, a: nat)
    requires Sound(w, a) && PhaseOf(w, c) == Wrote(b) && b in w.status && w.status[b] == Pending
    ensures Sound(ApplyAction(w, c, b), a)
  {
    var mid := w.(status := w.status[b := Applied], applies := w.applies[b := Of(w.applies, b) + 1]);
    LeavesFlight(w, mid, c, b, a);
  }

  lemma IdleKeepsSound(w: World, c: nat, phase: Phase, a: nat)
    requires Sound(w, a) && !PhaseOf(w, c).Wrote? && !phase.Wrote?
    ensures Sound(Moved(w, c, phase), a)
  {
    InFlightMoved(w, c, phase, a);
    assert InFlight(Moved(w, c, phase), a) == InFlight(w, a);
  }

  lemma StepKeepsSound(w: World, ev: Event, a: nat)
    requires Sound(w, a)
    ensures Sound(Step(w, ev), a)
  {
    match ev
    case Check(c, b) =>
      if PhaseOf(w, c).Idle? {
        IdleKeepsSound(w, c, Checked(b), a);
      }
    case Write(c) => WriteKeepsSound(w, c, a);
    case Apply(c) =>
      if PhaseOf(w, c).Wrote? {
        var b := PhaseOf(w, c).action;
        OrphanKeepsSound(w, c, b, a);
        if b in w.status && w.status[b] == Pending {
          ApplyKeepsSound(w, c, b, a);
        }
      }
    case Crash(c) =>
      if PhaseOf(w, c).Wrote? {
        OrphanKeepsSound(w, c, PhaseOf(w, c).action, a);
      } else {
        IdleKeepsSound(w, c, Idle, a);
      }
    case Cancel(_) => assert InFlight(Step(w, ev), a) == InFlight(w, a);
    case Restore(_) => assert InFlight(Step(w, ev), a) == InFlight(w, a);
  }

  ghost predicate AllSound(w: World) {
    forall a :: Sound(w, a)
  }

  lemma {:induction false} RunKeepsSound(w: World, events: seq<Event>)
    requires AllSound(w)
    ensures AllSound(Run(w, events))
  {
    if events != [] {
      RunKeepsSound(w, events[..|events| - 1]);
      forall a ensures Sound(Run(w, events), a) {
        assert Sound(Run(w, events[..|events| - 1]), a);
        StepKeepsSound(Run(w, events[..|events| - 1]), events[|events| - 1], a);
      }
    }
  }

  /** Whatever the interleaving and the crashes: an action is applied at most once, an applied one has a downstream row,
      a keyed one exactly one, and an appended one exactly one if and only if no other write of it is under way or was
      orphaned. */
  lemma AppliedOnceAndWritten(w: World, events: seq<Event>, a: nat)
    requires AllSound(w)
    ensures var v := Run(w, events);
            var applied := a in v.status && v.status[a] == Applied;
            && Of(v.applies, a) <= 1 && (Of(v.applies, a) == 1 <==> applied)
            && (applied ==> Of(v.rows, a) >= 1)
            && (applied && a in v.keyed ==> Of(v.rows, a) == 1)
            && (applied && a !in v.keyed ==> (Of(v.rows, a) == 1 <==> Of(v.orphans, a) == 0 && InFlight(v, a) == {}))
  {
    RunKeepsSound(w, events);
    assert Sound(Run(w, events), a);
  }

  // ---- One approval at a time ----

  /** A whole approval of one action by one client, with nothing in between. */
  function Approval(c: nat, a: nat): seq<Event> {
    [Check(c, a), Write(c), Apply(c)]
  }

  ghost predicate Quiet(w: World) {
    forall c :: PhaseOf(w, c).Idle?
  }

  lemma RunThree(w: World, x: Event, y: Event, z: Event)
    ensures Run(w, [x, y, z]) == Step(Step(Step(w, x), y), z)
  {
    assert [x, y, z][..2] == [x, y] && [x, y][..1] == [x] && [x][..0] == [];
    assert Run(w, [x]) == Step(w, x);
    assert Run(w, [x, y]) == Step(Run(w, [x]), y);
  }

  /** An undisturbed approval orphans nothing, and applies the action if it was pending. */
  lemma ApprovalIsClean(w: World, c: nat, a: nat)
    requires Quiet(w)
    ensures var v := Run(w, Approval(c, a));
            && Quiet(v) && v.orphans == w.orphans && v.keyed == w.keyed
            && (a in w.status && w.status[a] == Pending ==> a in v.status && v.status[a] == Applied)
            && forall b :: InFlight(v, b) == {}
  {
    RunThree(w, Check(c, a), Write(c), Apply(c));
    var v := Run(w, Approval(c, a));
    ApprovalPhases(w, c, a);
    forall b ensures InFlight(v, b) == {} {
      forall d | d in v.clients ensures v.clients[d] != Wrote(b) {
        assert PhaseOf(v, d).Idle?;
      }
    }
  }

  lemma ApprovalPhases(w: World, c: nat, a: nat)
    requires Quiet(w)
    ensures var v := Step(Step(Step(w, Check(c, a)), Write(c)), Apply(c));
            && Quiet(v) && v.orphans == w.orphans && v.keyed == w.keyed
            && (a in w.status && w.status[a] == Pending ==> a in v.status && v.status[a] == Applied)
  {
    var checked := Step(w, Check(c, a));
    var wrote := Step(checked, Write(c));
    var v := Step(wrote, Apply(c));
    if a in w.status && w.status[a] == Pending {
      assert PhaseOf(checked, c) == Checked(a);
      assert PhaseOf(wrote, c) == Wrote(a) && wrote.status == w.status;
    }
    forall d ensures PhaseOf(v, d).Idle? {
      assert PhaseOf(w, d).Idle?;
    }
  }

  function Approvals(pairs: seq<(nat, nat)>, w: World): World {
    if pairs == [] then w
    else Run(Approvals(pairs[..|pairs| - 1], w), Approval(pairs[|pairs| - 1].0, pairs[|pairs| - 1].1))
  }

  /** Without crashes and overlap, an applied action has exactly one downstream row, whatever its kind. */
  lemma {:induction false} OneRowWithoutOverlap(w: World, pairs: seq<(nat, nat)>, a: nat)
    requires AllSound(w) && Quiet(w) && w.orphans == map[] && forall b :: InFlight(w, b) == {}
    ensures var v := Approvals(pairs, w);
            && AllSound(v) && Quiet(v) && v.orphans == map[] && (forall b :: InFlight(v, b) == {})
            && (a in v.status && v.status[a] == Applied ==> Of(v.rows, a) == 1)
  {
    if pairs != [] {
      var mid, last := Approvals(pairs[..|pairs| - 1], w), pairs[|pairs| - 1];
      OneRowWithoutOverlap(w, pairs[..|pairs| - 1], a);
      ApprovalIsClean(mid, last.0, last.1);
      RunKeepsSound(mid, Approval(last.0, last.1));
    }
    var v := Approvals(pairs, w);
    assert Sound(v, a);
    assert InFlight(v, a) == {};
  }

  // ---- Double writes ----

  /** A store with one pending action of an appended kind. */
  function OnePending(a: nat): World {
    World(map[a := Pending], {}, map[], map[], map[], map[])
  }

  lemma OnePendingSound(a: nat)
    ensures AllSound(OnePending(a))
  {
    forall b ensures Sound(OnePending(a), b) {
      assert InFlight(OnePending(a), b) == {};
    }
  }

  lemma BothChecked(a: nat, c: nat, d: nat)
    requires c != d
    ensures Run(OnePending(a), [Check(c, a), Check(d, a), Write(c)])
         == World(map[a := Pending], {}, map[a := 1], map[], map[], map[c := Wrote(a), d := Checked(a)])
  {
    RunThree(OnePending(a), Check(c, a), Check(d, a), Write(c));
  }

  lemma BothApply(w: World, a: nat, c: nat, d: nat)
    requires c != d && w == World(map[a := Pending], {}, map[a := 1], map[], map[], map[c := Wrote(a), d := Checked(a)])
    ensures var v := Run(w, [Write(d), Apply(c), Apply(d)]);
            a in v.status && v.status[a] == Applied && Of(v.applies, a) == 1 && Of(v.rows, a) == 2
  {
    RunThree(w, Write(d), Apply(c), Apply(d));
    var wrote := Step(w, Write(d));
    assert PhaseOf(wrote, c) == Wrote(a) && PhaseOf(wrote, d) == Wrote(a) && Of(wrote.rows, a) == 2;
    var applied := Step(wrote, Apply(c));
    assert applied.status[a] == Applied && PhaseOf(applied, d) == Wrote(a) && applied.rows == wrote.rows;
  }

  /** Two clients that both check before either applies leave one applied action with two rows. */
  lemma OverlapWritesTwice(a: nat, c: nat, d: nat)
    requires c != d
    ensures var v := Run(OnePending(a), [Check(c, a), Check(d, a), Write(c), Write(d), Apply(c), Apply(d)]);
            a in v.status && v.status[a] == Applied && Of(v.applies, a) == 1 && Of(v.rows, a) == 2
  {
    var w := OnePending(a);
    var first, second := [Check(c, a), Check(d, a), Write(c)], [Write(d), Apply(c), Apply(d)];
    RunAppend(w, first, second);
    assert first + second == [Check(c, a), Check(d, a), Write(c), Write(d), Apply(c), Apply(d)];
    BothChecked(a, c, d);
    BothApply(Run(w, first), a, c, d);
  }

  /** A crash between the write and the move, and a second try, do the same. */
  lemma RetryAfterCrashWritesTwice(a: nat, c: nat)
    ensures var v := Run(OnePending(a), [Check(c, a), Write(c), Crash(c)] + Approval(c, a));
            a in v.status && v.status[a] == Applied && Of(v.applies, a) == 1 && Of(v.rows, a) == 2
  {
    var w := OnePending(a);
    RunAppend(w, [Check(c, a), Write(c), Crash(c)], Approval(c, a));
    RunThree(w, Check(c, a), Write(c), Crash(c));
    RunThree(Run(w, [Check(c, a), Write(c), Crash(c)]), Check(c, a), Write(c), Apply(c));
  }

  lemma {:induction false} RunAppend(w: World, xs: seq<Event>, ys: seq<Event>)
    ensures Run(w, xs + ys) == Run(Run(w, xs), ys)
    decreases |ys|
  {
    if ys == [] {
      assert xs + ys == xs;
    } else {
      assert (xs + ys)[..|xs + ys| - 1] == xs + ys[..|ys| - 1];
      RunAppend(w, xs, ys[..|ys| - 1]);
    }
  }
}
