/** What the verdict history of one candidate says: streaks that skip neutral weeks, and the pooled parity tallies of
    the weeks that form a streak. */
module SwitchEvidence {
  import opened Sequences
  import SwitchDecision
  import Wilson

  datatype Verdict =
    | SwitchDown | KeepIncumbent
    | InsufficientData | InsufficientFrame | CandidateErrored | JudgeDegraded
    | Other(name: string)

  /** Rows is the synthetic judge of tallies taken from the columns of the rows. */
  datatype Judge = Judge(name: string) | Rows

  /** A case of a graded sweep: who judged it and which model won, or that the candidate failed on it. */
  datatype Entry = Graded(judge: Judge, winner: string) | CandidateError | Unusable

  /** A verdict row. A summary that does not parse has no entries. */
  datatype Row = Row(verdict: Verdict, incumbent: string, parity: nat, cases: nat, entries: seq<Entry>)

  datatype Tally = Tally(wins: nat, n: nat)

  const Z := 1.96
  const SWITCH_BOUND := 0.70

  /** The labels that neither extend nor reset a streak. */
  const STREAK_NEUTRAL: set<Verdict> := {InsufficientData, InsufficientFrame, CandidateErrored, JudgeDegraded}

  /** SQL's LIMIT: a negative limit is none. */
  function Limit<T>(xs: seq<T>, limit: int): seq<T> {
    if 0 <= limit <= |xs| then xs[..limit] else xs
  }

  /** The verdicts that are not excluded, in order, newest first. */
  function VerdictsBut(rows: seq<Row>, exclude: set<Verdict>): seq<Verdict> {
    if rows == [] then []
    else if rows[0].verdict in exclude then VerdictsBut(rows[1..], exclude)
    else [rows[0].verdict] + VerdictsBut(rows[1..], exclude)
  }

  /** The query for a streak: verdict labels only. */
  function RecentVerdicts(rows: seq<Row>, limit: int, exclude: set<Verdict>): seq<Verdict> {
    Limit(VerdictsBut(rows, exclude), limit)
  }

  /** The rows that are not neutral, in order, newest first. */
  function Scored(rows: seq<Row>): seq<Row> {
    if rows == [] then []
    else if rows[0].verdict in STREAK_NEUTRAL then Scored(rows[1..])
    else [rows[0]] + Scored(rows[1..])
  }

  /** The query for a pool: whole rows. */
  function PooledRows(rows: seq<Row>, limit: int): seq<Row> {
    Limit(Scored(rows), limit)
  }

  /** Python's xs[:n]. */
  function Slice<T>(xs: seq<T>, n: int): seq<T> {
    if n >= |xs| then xs else if n >= 0 then xs[..n] else if |xs| + n >= 0 then xs[..|xs| + n] else []
  }

  predicate IsConsecutive(verdicts: seq<Verdict>, target: Verdict, n: int) {
    |verdicts| >= n && forall v :: v in Slice(verdicts, n) ==> v == target
  }

  predicate Streak(rows: seq<Row>, target: Verdict, n: int) {
    IsConsecutive(RecentVerdicts(rows, n, STREAK_NEUTRAL), target, n)
  }

  function VerdictsOf(rows: seq<Row>): (vs: seq<Verdict>)
    ensures |vs| == |rows| && forall i :: 0 <= i < |rows| ==> vs[i] == rows[i].verdict
  {
    seq(|rows|, i requires 0 <= i < |rows| => rows[i].verdict)
  }

  lemma {:induction false} ScoredVerdicts(rows: seq<Row>)
    ensures VerdictsBut(rows, STREAK_NEUTRAL) == VerdictsOf(Scored(rows))
  {
    if rows != [] {
      ScoredVerdicts(rows[1..]);
    }
  }

  /** The two queries, made apart, select the same rows. */
  lemma QueriesAgree(rows: seq<Row>, limit: int)
    ensures RecentVerdicts(rows, limit, STREAK_NEUTRAL) == VerdictsOf(PooledRows(rows, limit))
  {
    ScoredVerdicts(rows);
  }

  /** A streak of n is the newest n scored rows, all of the target verdict. */
  lemma StreakRows(rows: seq<Row>, target: Verdict, n: int)
    requires n >= 1
    ensures Streak(rows, target, n)
       <==> |Scored(rows)| >= n && forall i :: 0 <= i < n ==> Scored(rows)[i].verdict == target
  {
    var scored, recent := Scored(rows), RecentVerdicts(rows, n, STREAK_NEUTRAL);
    QueriesAgree(rows, n);
    if |scored| >= n {
      assert Slice(recent, n) == recent;
      assert forall i :: 0 <= i < n ==> recent[i] == scored[i].verdict;
      assert Streak(rows, target, n) ==> forall i :: 0 <= i < n ==> recent[i] in Slice(recent, n);
    }
  }

  // ---- Tallies ----

  // Both columns of a tally are counted by the same functions: with wins set, only the parities count, that is every
  // winner that is not the incumbent.

  predicate Counts(e: Entry, incumbent: string, wins: bool) {
    e.Graded? && (wins ==> e.winner != incumbent)
  }

  /** The graded entries of one judge. */
  function GradedBy(entries: seq<Entry>, incumbent: string, judge: Judge, wins: bool): nat {
    if entries == [] then 0
    else
      var last := entries[|entries| - 1];
      GradedBy(entries[..|entries| - 1], incumbent, judge, wins)
      + if Counts(last, incumbent, wins) && last.judge == judge then 1 else 0
  }

  /** The graded entries of all judges. */
  function GradedCount(entries: seq<Entry>, incumbent: string, wins: bool): nat {
    if entries == [] then 0
    else GradedCount(entries[..|entries| - 1], incumbent, wins) + if Counts(entries[|entries| - 1], incumbent, wins) then 1 else 0
  }

  function Errors(entries: seq<Entry>): nat {
    if entries == [] then 0
    else Errors(entries[..|entries| - 1]) + if entries[|entries| - 1].CandidateError? then 1 else 0
  }

  /** The graded entries, in order. */
  function GradedOf(entries: seq<Entry>): seq<Entry> {
    if entries == [] then []
    else if entries[|entries| - 1].Graded? then GradedOf(entries[..|entries| - 1]) + [entries[|entries| - 1]]
    else GradedOf(entries[..|entries| - 1])
  }

  function JudgesOf(entries: seq<Entry>): set<Judge> {
    if entries == [] then {}
    else if entries[|entries| - 1].Graded? then JudgesOf(entries[..|entries| - 1]) + {entries[|entries| - 1].judge}
    else JudgesOf(entries[..|entries| - 1])
  }

  /** A candidate error is a lost case for every judge of its row. */
  function Charge(row: Row, wins: bool): nat {
    if wins then 0 else Errors(row.entries)
  }

  /** What one row adds to a judge's bucket. */
  function RowCount(row: Row, judge: Judge, wins: bool): nat {
    GradedBy(row.entries, row.incumbent, judge, wins) + if judge in JudgesOf(row.entries) then Charge(row, wins) else 0
  }

  function PoolCount(rows: seq<Row>, judge: Judge, wins: bool): nat {
    if rows == [] then 0
    else PoolCount(rows[..|rows| - 1], judge, wins) + RowCount(rows[|rows| - 1], judge, wins)
  }

  function Judges(rows: seq<Row>): set<Judge> {
    if rows == [] then {} else Judges(rows[..|rows| - 1]) + JudgesOf(rows[|rows| - 1].entries)
  }

  predicate AllGraded(rows: seq<Row>) {
    forall r :: r in rows ==> JudgesOf(r.entries) != {}
  }

  /** One row without regard to judges: by its columns if it has no graded case. */
  function RowTotal(row: Row, wins: bool): nat {
    if JudgesOf(row.entries) == {} then Column(row, wins)
    else GradedCount(row.entries, row.incumbent, wins) + |JudgesOf(row.entries)| * Charge(row, wins)
  }

  function Column(row: Row, wins: bool): nat {
    if wins then row.parity else row.cases
  }

  function Degraded(rows: seq<Row>, wins: bool): nat {
    if rows == [] then 0 else Degraded(rows[..|rows| - 1], wins) + RowTotal(rows[|rows| - 1], wins)
  }

  function TallyOf(rows: seq<Row>, judge: Judge): Tally {
    Tally(PoolCount(rows, judge, true), PoolCount(rows, judge, false))
  }

  function Pool(rows: seq<Row>): map<Judge, Tally> {
    if AllGraded(rows) && Judges(rows) != {} then map j | j in Judges(rows) :: TallyOf(rows, j)
    else if Degraded(rows, false) == 0 then map[]
    else map[Rows := Tally(Degraded(rows, true), Degraded(rows, false))]
  }

  /** The gate passes when every pooled judge clears the bound, and fails closed on an empty pool. */
  predicate Cleared(pool: map<Judge, Tally>) {
    pool.Keys != {} && forall j :: j in pool.Keys ==> Wilson.Clears(pool[j].wins, pool[j].n, Z, SWITCH_BOUND)
  }

  function EvidenceOf(rows: seq<Row>, switchRun: int, keepRun: int): SwitchDecision.Evidence {
    SwitchDecision.Evidence(
      rows != [] && rows[0].verdict == CandidateErrored,
      Streak(rows, SwitchDown, switchRun),
      Cleared(Pool(PooledRows(rows, switchRun))),
      Streak(rows, KeepIncumbent, keepRun))
  }

  // ---- Pooling ----

  function Bucket(buckets: map<Judge, Tally>, judge: Judge, wins: bool): nat {
    if judge !in buckets then 0 else if wins then buckets[judge].wins else buckets[judge].n
  }

  lemma GradedAppend(entries: seq<Entry>, e: Entry, incumbent: string, judge: Judge, wins: bool)
    ensures GradedBy(entries + [e], incumbent, judge, wins)
         == GradedBy(entries, incumbent, judge, wins) + if Counts(e, incumbent, wins) && e.judge == judge then 1 else 0
  {
    assert (entries + [e])[..|entries|] == entries;
  }

  lemma {:induction false} GradedOfKeeps(entries: seq<Entry>, incumbent: string, judge: Judge, wins: bool)
    ensures GradedBy(GradedOf(entries), incumbent, judge, wins) == GradedBy(entries, incumbent, judge, wins)
  {
    if entries != [] {
      var init, last := entries[..|entries| - 1], entries[|entries| - 1];
      GradedOfKeeps(init, incumbent, judge, wins);
      GradedAppend(GradedOf(init), last, incumbent, judge, wins);
    }
  }

  lemma JudgesAppend(entries: seq<Entry>, e: Entry)
    ensures JudgesOf(entries + [e]) == JudgesOf(entries) + if e.Graded? then {e.judge} else {}
  {
    assert (entries + [e])[..|entries|] == entries;
  }

  lemma {:induction false} GradedOfJudges(entries: seq<Entry>)
    ensures JudgesOf(GradedOf(entries)) == JudgesOf(entries) && (GradedOf(entries) == [] <==> JudgesOf(entries) == {})
    ensures forall e :: e in GradedOf(entries) ==> e.Graded?
  {
    if entries != [] {
      var init, last := entries[..|entries| - 1], entries[|entries| - 1];
      GradedOfJudges(init);
      JudgesAppend(GradedOf(init), last);
    }
  }

  lemma {:induction false} JudgesSet(graded: seq<Entry>)
    requires forall e :: e in graded ==> e.Graded?
    ensures (set e | e in graded :: e.judge) == JudgesOf(graded)
  {
    if graded != [] {
      var init, last := graded[..|graded| - 1], graded[|graded| - 1];
      JudgesSet(init);
      assert forall e :: e in graded <==> e in init || e == last;
    }
  }

  lemma {:induction false} NotGraded(entries: seq<Entry>, incumbent: string, judge: Judge, wins: bool)
    requires judge !in JudgesOf(entries)
    ensures GradedBy(entries, incumbent, judge, wins) == 0
  {
    if entries != [] {
      NotGraded(entries[..|entries| - 1], incumbent, judge, wins);
    }
  }

  method SplitEntries(entries: seq<Entry>) returns (graded: seq<Entry>, errors: nat)
    ensures graded == GradedOf(entries) && errors == Errors(entries)
  {
    graded, errors := [], 0;
    for i := 0 to |entries|
      invariant graded == GradedOf(entries[..i]) && errors == Errors(entries[..i])
    {
      assert entries[..i + 1][..i] == entries[..i];
      if entries[i].Graded? {
        graded := graded + [entries[i]];
      } else if entries[i].CandidateError? {
        errors := errors + 1;
      }
    }
    assert entries[..|entries|] == entries;
  }

  /** Graded entries have been added to the buckets. */
  ghost predicate Booked(buckets: map<Judge, Tally>, booked: map<Judge, Tally>, incumbent: string, graded: seq<Entry>) {
    && booked.Keys == buckets.Keys + JudgesOf(graded)
    && forall j, wins :: Bucket(booked, j, wins) == Bucket(buckets, j, wins) + GradedBy(graded, incumbent, j, wins)
  }

  lemma BookedStep(buckets: map<Judge, Tally>, booked: map<Judge, Tally>, incumbent: string, graded: seq<Entry>, e: Entry,
      next: map<Judge, Tally>)
    requires Booked(buckets, booked, incumbent, graded) && e.Graded? && next.Keys == booked.Keys + {e.judge}
    requires forall j, wins ::
               Bucket(next, j, wins) == Bucket(booked, j, wins)
                                        + if j == e.judge && (wins ==> e.winner != incumbent) then 1 else 0
    ensures Booked(buckets, next, incumbent, graded + [e])
  {
    JudgesAppend(graded, e);
    forall j, wins
      ensures Bucket(next, j, wins) == Bucket(buckets, j, wins) + GradedBy(graded + [e], incumbent, j, wins)
    {
      GradedAppend(graded, e, incumbent, j, wins);
    }
  }

  method BookGraded(buckets: map<Judge, Tally>, incumbent: string,
      graded: seq<Entry>) returns (booked: map<Judge, Tally>)
    requires forall e :: e in graded ==> e.Graded?
    ensures Booked(buckets, booked, incumbent, graded)
  {
    booked := buckets;
    for i := 0 to |graded|
      invariant Booked(buckets, booked, incumbent, graded[..i])
    {
      var e := graded[i];
      var next := Credited(booked, e.judge, if e.winner != incumbent then 1 else 0, 1);
      BookedStep(buckets, booked, incumbent, graded[..i], e, next);
      assert graded[..i + 1] == graded[..i] + [e];
      booked := next;
    }
    assert graded[..|graded|] == graded;
  }

  method Credited(buckets: map<Judge, Tally>, judge: Judge, w: nat, n: nat) returns (next: map<Judge, Tally>)
    ensures next.Keys == buckets.Keys + {judge}
    ensures forall j, wins ::
              Bucket(next, j, wins) == Bucket(buckets, j, wins) + (if j != judge then 0 else if wins then w else n)
  {
    next := buckets[judge := Tally(Bucket(buckets, judge, true) + w, Bucket(buckets, judge, false) + n)];
  }

  /** Each of the judges has been charged the row's errors. */
  ghost predicate Charged(booked: map<Judge, Tally>, charged: map<Judge, Tally>, judges: set<Judge>, errors: nat) {
    && charged.Keys == booked.Keys
    && forall j, wins :: Bucket(charged, j, wins) == Bucket(booked, j, wins) + if j in judges && !wins then errors else 0
  }

  method ChargeErrors(booked: map<Judge, Tally>, judges: set<Judge>, errors: nat) returns (charged: map<Judge, Tally>)
    requires judges <= booked.Keys
    ensures Charged(booked, charged, judges, errors)
  {
    charged := booked;
    var rest := judges;
    while rest != {}
      invariant rest <= judges && Charged(booked, charged, judges - rest, errors)
    {
      var judge :| judge in rest;
      charged := Credited(charged, judge, 0, errors);
      rest := rest - {judge};
    }
    assert judges - rest == judges;
  }

  /** A row with graded cases has been added to the buckets. */
  ghost predicate BookedRow(buckets: map<Judge, Tally>, booked: map<Judge, Tally>, row: Row) {
    && booked.Keys == buckets.Keys + JudgesOf(row.entries)
    && forall j, wins :: Bucket(booked, j, wins) == Bucket(buckets, j, wins) + RowCount(row, j, wins)
  }

  /** Books one row's graded cases, then its errors against each judge of the row. */
  method BookRow(buckets: map<Judge, Tally>, row: Row, graded: seq<Entry>,
      errors: nat) returns (booked: map<Judge, Tally>)
    requires graded == GradedOf(row.entries) && errors == Errors(row.entries)
    ensures BookedRow(buckets, booked, row)
  {
    GradedOfJudges(row.entries);
    var cased := BookGraded(buckets, row.incumbent, graded);
    JudgesSet(graded);
    booked := ChargeErrors(cased, set e | e in graded :: e.judge, errors);
    forall j, wins ensures Bucket(booked, j, wins) == Bucket(buckets, j, wins) + RowCount(row, j, wins) {
      GradedOfKeeps(row.entries, row.incumbent, j, wins);
    }
  }

  /** The buckets hold every judge's tally over the rows. */
  ghost predicate Pooled(buckets: map<Judge, Tally>, rows: seq<Row>) {
    && buckets.Keys == Judges(rows)
    && forall j, wins :: Bucket(buckets, j, wins) == PoolCount(rows, j, wins)
  }

  lemma PooledStep(buckets: map<Judge, Tally>, booked: map<Judge, Tally>, rows: seq<Row>, row: Row)
    requires Pooled(buckets, rows) && BookedRow(buckets, booked, row)
    ensures Pooled(booked, rows + [row])
  {
    assert (rows + [row])[..|rows|] == rows;
  }

  /** A row without graded cases changes no bucket. */
  lemma UngradedStep(buckets: map<Judge, Tally>, rows: seq<Row>, row: Row)
    requires Pooled(buckets, rows) && JudgesOf(row.entries) == {}
    ensures Pooled(buckets, rows + [row])
  {
    assert (rows + [row])[..|rows|] == rows;
    forall j, wins ensures PoolCount(rows + [row], j, wins) == PoolCount(rows, j, wins) {
      NotGraded(row.entries, row.incumbent, j, wins);
    }
  }

  // ---- Degrading ----

  /** The columns of the rows without graded cases. */
  function Columns(rows: seq<Row>, wins: bool): nat {
    if rows == [] then 0
    else Columns(rows[..|rows| - 1], wins)
         + if JudgesOf(rows[|rows| - 1].entries) == {} then Column(rows[|rows| - 1], wins) else 0
  }

  function Sum(order: seq<Judge>, f: Judge -> nat): nat {
    if order == [] then 0 else Sum(order[..|order| - 1], f) + f(order[|order| - 1])
  }

  function ByGraded(entries: seq<Entry>, incumbent: string, wins: bool): Judge -> nat {
    j => GradedBy(entries, incumbent, j, wins)
  }

  function ByRow(row: Row, wins: bool): Judge -> nat {
    j => RowCount(row, j, wins)
  }

  function ByPool(rows: seq<Row>, wins: bool): Judge -> nat {
    j => PoolCount(rows, j, wins)
  }

  lemma {:induction false} SumPlus(order: seq<Judge>, f: Judge -> nat, g: Judge -> nat, h: Judge -> nat)
    requires forall j :: j in order ==> h(j) == f(j) + g(j)
    ensures Sum(order, h) == Sum(order, f) + Sum(order, g)
  {
    if order != [] {
      SumPlus(order[..|order| - 1], f, g, h);
    }
  }

  lemma OneMore(n: nat, k: nat)
    ensures (n + 1) * k == n * k + k
  {
  }

  /** A sum in which only the judges of a set contribute, each the same amount. */
  lemma {:induction false} SumOverSet(order: seq<Judge>, f: Judge -> nat, judges: set<Judge>, k: nat)
    requires Covers(order, judges)
    requires forall j :: j in order ==> f(j) == if j in judges then k else 0
    ensures Sum(order, f) == |judges| * k
  {
    if order != [] {
      var init, last := order[..|order| - 1], order[|order| - 1];
      CoversInit(order, judges);
      SumOverSet(init, f, judges - {last}, k);
      OneMore(|judges - {last}|, k);
      assert judges == if last in judges then (judges - {last}) + {last} else judges - {last};
    } else {
      assert judges == {};
    }
  }

  lemma CoversInit(order: seq<Judge>, judges: set<Judge>)
    requires order != [] && Covers(order, judges)
    ensures Covers(order[..|order| - 1], judges - {order[|order| - 1]}) && order[|order| - 1] !in order[..|order| - 1]
    ensures forall j :: j in order <==> j in order[..|order| - 1] || j == order[|order| - 1]
  {
    assert order == order[..|order| - 1] + [order[|order| - 1]];
  }

  ghost predicate Covers(order: seq<Judge>, judges: set<Judge>) {
    Distinct(order) && forall j :: j in judges ==> j in order
  }

  /** Summed over the judges, each graded case is counted once. */
  lemma {:induction false} GradedSum(order: seq<Judge>, entries: seq<Entry>, incumbent: string, wins: bool)
    requires Covers(order, JudgesOf(entries))
    ensures Sum(order, ByGraded(entries, incumbent, wins)) == GradedCount(entries, incumbent, wins)
  {
    if entries == [] {
      SumOverSet(order, ByGraded(entries, incumbent, wins), {}, 0);
    } else {
      var init, last := entries[..|entries| - 1], entries[|entries| - 1];
      GradedSum(order, init, incumbent, wins);
      var judges := if Counts(last, incumbent, wins) then {last.judge} else {};
      var one := (j: Judge) => if j in judges then 1 else 0;
      SumOverSet(order, one, judges, 1);
      SumPlus(order, ByGraded(init, incumbent, wins), one, ByGraded(entries, incumbent, wins));
    }
  }

  lemma RowSum(order: seq<Judge>, row: Row, wins: bool)
    requires Covers(order, JudgesOf(row.entries))
    ensures Sum(order, ByRow(row, wins))
         == GradedCount(row.entries, row.incumbent, wins) + |JudgesOf(row.entries)| * Charge(row, wins)
  {
    var judges, charge := JudgesOf(row.entries), Charge(row, wins);
    var charges := (j: Judge) => if j in judges then charge else 0;
    GradedSum(order, row.entries, row.incumbent, wins);
    SumOverSet(order, charges, judges, charge);
    SumPlus(order, ByGraded(row.entries, row.incumbent, wins), charges, ByRow(row, wins));
  }

  lemma {:induction false} NoneGraded(entries: seq<Entry>, incumbent: string, wins: bool)
    requires JudgesOf(entries) == {}
    ensures GradedCount(entries, incumbent, wins) == 0
  {
    if entries != [] {
      NoneGraded(entries[..|entries| - 1], incumbent, wins);
    }
  }

  lemma RowShare(order: seq<Judge>, row: Row, wins: bool)
    requires Covers(order, JudgesOf(row.entries))
    ensures Sum(order, ByRow(row, wins)) + (if JudgesOf(row.entries) == {} then Column(row, wins) else 0) == RowTotal(row, wins)
  {
    RowSum(order, row, wins);
    if JudgesOf(row.entries) == {} {
      NoneGraded(row.entries, row.incumbent, wins);
    }
  }

  /** Summed over the judges and the ungraded rows, the buckets make the degraded total. */
  lemma {:induction false} DegradedSum(order: seq<Judge>, rows: seq<Row>, wins: bool)
    requires Covers(order, Judges(rows))
    ensures Sum(order, ByPool(rows, wins)) + Columns(rows, wins) == Degraded(rows, wins)
  {
    if rows == [] {
      SumOverSet(order, ByPool(rows, wins), {}, 0);
    } else {
      var init, last := rows[..|rows| - 1], rows[|rows| - 1];
      DegradedSum(order, init, wins);
      SumPlus(order, ByPool(init, wins), ByRow(last, wins), ByPool(rows, wins));
      RowShare(order, last, wins);
    }
  }

  // ---- The pool ----

  /** The row-level tallies and their sums, column by column. */
  ghost predicate RowLevel(rowLevel: seq<Tally>, rows: seq<Row>) {
    forall wins :: Total(rowLevel, wins) == Columns(rows, wins)
  }

  function Total(tallies: seq<Tally>, wins: bool): nat {
    if tallies == [] then 0
    else
      var last := tallies[|tallies| - 1];
      Total(tallies[..|tallies| - 1], wins) + if wins then last.wins else last.n
  }

  lemma AllGradedAppend(rows: seq<Row>, row: Row)
    ensures AllGraded(rows + [row]) <==> AllGraded(rows) && JudgesOf(row.entries) != {}
  {
    assert forall r :: r in rows + [row] <==> r in rows || r == row;
  }

  lemma RowLevelStep(rowLevel: seq<Tally>, rows: seq<Row>, row: Row)
    requires RowLevel(rowLevel, rows) && JudgesOf(row.entries) == {}
    ensures RowLevel(rowLevel + [Tally(row.parity, row.cases)], rows + [row])
  {
    var columns := Tally(row.parity, row.cases);
    assert (rowLevel + [columns])[..|rowLevel|] == rowLevel && (rows + [row])[..|rows|] == rows;
  }

  method PoolBuckets(rows: seq<Row>) returns (buckets: map<Judge, Tally>, rowLevel: seq<Tally>, allGraded: bool)
    ensures Pooled(buckets, rows) && RowLevel(rowLevel, rows) && allGraded == AllGraded(rows)
  {
    buckets, rowLevel, allGraded := map[], [], true;
    for i := 0 to |rows|
      invariant Pooled(buckets, rows[..i]) && RowLevel(rowLevel, rows[..i]) && allGraded == AllGraded(rows[..i])
    {
      assert rows[..i + 1] == rows[..i] + [rows[i]] && rows[..i + 1][..i] == rows[..i];
      var graded, errors := SplitEntries(rows[i].entries);
      GradedOfJudges(rows[i].entries);
      assert AllGraded(rows[..i + 1]) == (AllGraded(rows[..i]) && JudgesOf(rows[i].entries) != {}) by {
        AllGradedAppend(rows[..i], rows[i]);
      }
      if graded != [] {
        var booked := BookRow(buckets, rows[i], graded, errors);
        PooledStep(buckets, booked, rows[..i], rows[i]);
        buckets := booked;
      } else {
        UngradedStep(buckets, rows[..i], rows[i]);
        allGraded := false;
        RowLevelStep(rowLevel, rows[..i], rows[i]);
        rowLevel := rowLevel + [Tally(rows[i].parity, rows[i].cases)];
      }
    }
    assert rows[..|rows|] == rows;
  }

  method TotalOf(tallies: seq<Tally>) returns (w: nat, n: nat)
    ensures w == Total(tallies, true) && n == Total(tallies, false)
  {
    w, n := 0, 0;
    for i := 0 to |tallies|
      invariant w == Total(tallies[..i], true) && n == Total(tallies[..i], false)
    {
      assert tallies[..i + 1][..i] == tallies[..i];
      w, n := w + tallies[i].wins, n + tallies[i].n;
    }
    assert tallies[..|tallies|] == tallies;
  }

  /** Each of the judges once. */
  ghost predicate Lists(order: seq<Judge>, judges: set<Judge>) {
    Distinct(order) && forall j :: j in order <==> j in judges
  }

  lemma ListsAppend(order: seq<Judge>, judges: set<Judge>, judge: Judge)
    requires Lists(order, judges) && judge !in judges
    ensures Lists(order + [judge], judges + {judge})
    ensures forall f: Judge -> nat :: Sum(order + [judge], f) == Sum(order, f) + f(judge)
  {
    assert (order + [judge])[..|order|] == order;
  }

  method SumBuckets(buckets: map<Judge, Tally>, ghost rows: seq<Row>) returns (w: nat, n: nat, ghost order: seq<Judge>)
    requires Pooled(buckets, rows)
    ensures Covers(order, Judges(rows)) && w == Sum(order, ByPool(rows, true)) && n == Sum(order, ByPool(rows, false))
  {
    w, n, order := 0, 0, [];
    var rest := buckets.Keys;
    while rest != {}
      invariant rest <= buckets.Keys && Lists(order, buckets.Keys - rest)
      invariant w == Sum(order, ByPool(rows, true)) && n == Sum(order, ByPool(rows, false))
    {
      var judge :| judge in rest;
      w, n := w + Bucket(buckets, judge, true), n + Bucket(buckets, judge, false);
      ListsAppend(order, buckets.Keys - rest, judge);
      order := order + [judge];
      rest := rest - {judge};
      assert buckets.Keys - rest == (buckets.Keys - rest - {judge}) + {judge};
    }
  }

  lemma PooledTallies(buckets: map<Judge, Tally>, rows: seq<Row>)
    requires Pooled(buckets, rows)
    ensures buckets == map j | j in Judges(rows) :: TallyOf(rows, j)
  {
    forall j | j in buckets ensures buckets[j] == TallyOf(rows, j) {
      assert Bucket(buckets, j, true) == PoolCount(rows, j, true);
      assert Bucket(buckets, j, false) == PoolCount(rows, j, false);
    }
  }

  method PoolEvidence(rows: seq<Row>) returns (pool: map<Judge, Tally>)
    ensures pool == Pool(rows)
  {
    var buckets, rowLevel, allGraded := PoolBuckets(rows);
    PooledTallies(buckets, rows);
    if allGraded && buckets != map[] {
      assert buckets.Keys != {};
      return buckets;
    }
    var rowWins, rowCases := TotalOf(rowLevel);
    var wins, cases, order := SumBuckets(buckets, rows);
    DegradedSum(order, rows, true);
    DegradedSum(order, rows, false);
    assert buckets == map[] <==> buckets.Keys == {};
    if rowCases + cases == 0 {
      return map[];
    }
    return map[Rows := Tally(rowWins + wins, rowCases + cases)];
  }

  // ---- What the evidence depends on ----

  lemma {:induction false} ScoredAppend(newer: seq<Row>, older: seq<Row>)
    ensures Scored(newer + older) == Scored(newer) + Scored(older)
  {
    if newer == [] {
      assert newer + older == older;
    } else {
      assert (newer + older)[1..] == newer[1..] + older;
      ScoredAppend(newer[1..], older);
    }
  }

  /** A neutral verdict anywhere below the newest row changes nothing a run reads: neither a streak nor the pool. */
  lemma StreakNeutrality(newer: seq<Row>, neutral: Row, older: seq<Row>, switchRun: int, keepRun: int)
    requires newer != [] && neutral.verdict in STREAK_NEUTRAL
    ensures EvidenceOf(newer + [neutral] + older, switchRun, keepRun) == EvidenceOf(newer + older, switchRun, keepRun)
  {
    ScoredAppend(newer, older);
    ScoredAppend(newer, [neutral]);
    ScoredAppend(newer + [neutral], older);
    assert Scored([neutral]) == [];
    assert Scored(newer) + [] == Scored(newer);
    ScoredVerdicts(newer + [neutral] + older);
    ScoredVerdicts(newer + older);
  }

  /** A streak's pool is drawn, by a query of its own, from exactly the rows that form the streak. */
  lemma PoolIsTheStreak(rows: seq<Row>, n: int)
    requires n >= 1 && Streak(rows, SwitchDown, n)
    ensures var pooled := PooledRows(rows, n);
            && |pooled| == n && RecentVerdicts(rows, n, STREAK_NEUTRAL) == VerdictsOf(pooled)
            && forall r :: r in pooled ==> r.verdict == SwitchDown
  {
    QueriesAgree(rows, n);
    StreakRows(rows, SwitchDown, n);
  }

  lemma {:induction false} WinsCountAsGraded(entries: seq<Entry>, incumbent: string, judge: Judge)
    ensures GradedBy(entries, incumbent, judge, true) <= GradedBy(entries, incumbent, judge, false)
    ensures GradedCount(entries, incumbent, true) <= GradedCount(entries, incumbent, false)
    ensures judge in JudgesOf(entries) ==> GradedBy(entries, incumbent, judge, false) > 0
  {
    if entries != [] {
      WinsCountAsGraded(entries[..|entries| - 1], incumbent, judge);
    }
  }

  /** No judge's bucket holds more wins than cases, and every judge has a case. */
  lemma {:induction false} WinsAtMostCases(rows: seq<Row>, judge: Judge)
    ensures PoolCount(rows, judge, true) <= PoolCount(rows, judge, false)
    ensures judge in Judges(rows) ==> PoolCount(rows, judge, false) > 0
  {
    if rows != [] {
      var last := rows[|rows| - 1];
      WinsCountAsGraded(last.entries, last.incumbent, judge);
      WinsAtMostCases(rows[..|rows| - 1], judge);
    }
  }

  lemma {:induction false} DegradedWins(rows: seq<Row>)
    requires forall r :: r in rows ==> r.parity <= r.cases
    ensures Degraded(rows, true) <= Degraded(rows, false)
  {
    if rows != [] {
      var last := rows[|rows| - 1];
      DegradedWins(rows[..|rows| - 1]);
      WinsCountAsGraded(last.entries, last.incumbent, Rows);
      assert last in rows;
      assert |JudgesOf(last.entries)| * Errors(last.entries) >= 0 == |JudgesOf(last.entries)| * 0;
    }
  }

  lemma PoolHasCases(rows: seq<Row>)
    ensures forall j :: j in Pool(rows) ==> Pool(rows)[j].n > 0
  {
    forall j | j in Judges(rows) ensures 0 < TallyOf(rows, j).n {
      WinsAtMostCases(rows, j);
    }
  }

  /** The Wilson bound of every pooled tally is a real number. */
  predicate BoundsExist(pool: map<Judge, Tally>) {
    forall j :: j in pool.Keys ==> pool[j].n > 0 ==> Wilson.Discriminant(pool[j].wins, pool[j].n, Z) >= 0.0
  }

  /** All bounds exist if no row books more parities than cases. */
  lemma RowsGiveBounds(rows: seq<Row>)
    requires forall r :: r in rows ==> r.parity <= r.cases
    ensures BoundsExist(Pool(rows))
  {
    DegradedWins(rows);
    forall j | j in Pool(rows).Keys && Pool(rows)[j].n > 0
      ensures Wilson.Discriminant(Pool(rows)[j].wins, Pool(rows)[j].n, Z) >= 0.0
    {
      if j in Judges(rows) {
        WinsAtMostCases(rows, j);
      }
      Wilson.RadicandIff(Pool(rows)[j].wins, Pool(rows)[j].n);
    }
  }

  /** The gate is the bound on the smallest of the judges' Wilson bounds, if they exist. */
  lemma GateIsTheMinimum(rows: seq<Row>, roots: Judge -> real)
    requires forall j :: j in Pool(rows) && Pool(rows)[j].n > 0
               ==> Wilson.IsRoot(roots(j), Wilson.Discriminant(Pool(rows)[j].wins, Pool(rows)[j].n, Z))
    ensures Cleared(Pool(rows))
       <==> Pool(rows).Keys != {}
            && forall j :: j in Pool(rows).Keys
                 ==> Wilson.LowerBound(Pool(rows)[j].wins, Pool(rows)[j].n, Z, roots(j)) >= SWITCH_BOUND
  {
    PoolHasCases(rows);
    var pool := Pool(rows);
    forall j | j in pool.Keys
      ensures Wilson.Clears(pool[j].wins, pool[j].n, Z, SWITCH_BOUND)
         <==> Wilson.LowerBound(pool[j].wins, pool[j].n, Z, roots(j)) >= SWITCH_BOUND
    {
      Wilson.RadicandIff(pool[j].wins, pool[j].n);
      Wilson.GateWithoutRoot(pool[j].wins, pool[j].n, Z, SWITCH_BOUND, roots(j));
    }
  }

  /** No judge with fewer than nine pooled cases lets a switch through. */
  lemma NineCasesPerJudge(rows: seq<Row>)
    requires BoundsExist(Pool(rows)) && Cleared(Pool(rows))
    ensures forall j :: j in Pool(rows) ==> Pool(rows)[j].n >= 9
  {
    PoolHasCases(rows);
    forall j | j in Pool(rows) ensures Pool(rows)[j].n >= 9 {
      Wilson.RadicandIff(Pool(rows)[j].wins, Pool(rows)[j].n);
      Wilson.NineCasesNeeded(Pool(rows)[j].wins, Pool(rows)[j].n);
    }
  }

  method Gate(pool: map<Judge, Tally>) returns (open: bool)
    ensures open == Cleared(pool)
  {
    var rest := pool.Keys;
    open := rest != {};
    while rest != {}
      invariant rest <= pool.Keys
      invariant open <==> pool.Keys != {} && AllClear(pool, pool.Keys - rest)
    {
      var judge :| judge in rest;
      open := open && Wilson.Clears(pool[judge].wins, pool[judge].n, Z, SWITCH_BOUND);
      rest := rest - {judge};
    }
  }

  ghost predicate AllClear(pool: map<Judge, Tally>, judges: set<Judge>)
    requires judges <= pool.Keys
  {
    forall j :: j in judges ==> Wilson.Clears(pool[j].wins, pool[j].n, Z, SWITCH_BOUND)
  }
}
