/** Fiscal quarters as a lattice over calendar months. Months are numbered from January of year zero. */
module FiscalQuarters {
  import opened Wrappers

  datatype Date = Date(year: int, month: int, day: int)

  datatype Quarter = Quarter(year: int, quarter: int)

  predicate IsLeap(year: int) {
    year % 4 == 0 && (year % 100 != 0 || year % 400 == 0)
  }

  function MonthLength(year: int, month: int): (n: int)
    ensures 28 <= n <= 31
  {
    if month == 2 then if IsLeap(year) then 29 else 28
    else if month == 4 || month == 6 || month == 9 || month == 11 then 30
    else 31
  }

  predicate ValidDate(d: Date) {
    1 <= d.year && 1 <= d.month <= 12 && 1 <= d.day <= MonthLength(d.year, d.month)
  }

  /** Calendar order. */
  predicate NotAfter(d: Date, e: Date) {
    d.year < e.year || (d.year == e.year && (d.month < e.month || (d.month == e.month && d.day <= e.day)))
  }

  function MonthIndex(year: int, month: int): int {
    12 * year + month - 1
  }

  /** The last day of a numbered month. */
  function MonthEnd(index: int): Date {
    Date(index / 12, index % 12 + 1, MonthLength(index / 12, index % 12 + 1))
  }

  // ---- The lattice ----

  /** Quarters are numbered consecutively over the fiscal years. */
  function Ordinal(q: Quarter): int {
    4 * q.year + q.quarter - 1
  }

  function QuarterAt(k: int): Quarter {
    Quarter(k / 4, k % 4 + 1)
  }

  /** The month in which quarter k ends, for a fiscal year that ends in month fye. */
  function EndMonth(k: int, fye: int): int {
    3 * k + fye - 10
  }

  function EndOf(k: int, fye: int): Date {
    MonthEnd(EndMonth(k, fye))
  }

  predicate IsQuarter(q: Quarter) {
    1 <= q.quarter <= 4
  }

  predicate IsFye(fye: int) {
    1 <= fye <= 12
  }

  lemma QuarterNumbering(q: Quarter, k: int)
    requires IsQuarter(q)
    ensures QuarterAt(Ordinal(q)) == q && Ordinal(QuarterAt(k)) == k && IsQuarter(QuarterAt(k))
  {
  }

  /** Counting back from the month of the fiscal year end, with a borrow from the year. */
  method QuarterEndDate(fiscalYear: int, fiscalQuarter: int, fye: int) returns (end: Date)
    ensures end == EndOf(Ordinal(Quarter(fiscalYear, fiscalQuarter)), fye)
  {
    var before := (4 - fiscalQuarter) * 3;
    var year, month := fiscalYear, fye - before;
    while month < 1
      invariant MonthIndex(year, month) == MonthIndex(fiscalYear, fye - before)
    {
      month, year := month + 12, year - 1;
    }
    while month > 12
      invariant MonthIndex(year, month) == MonthIndex(fiscalYear, fye - before) && month >= 1
    {
      month, year := month - 12, year + 1;
    }
    end := Date(year, month, MonthLength(year, month));
    IndexSplits(year, month);
  }

  lemma IndexSplits(year: int, month: int)
    requires 1 <= month <= 12
    ensures MonthIndex(year, month) / 12 == year && MonthIndex(year, month) % 12 + 1 == month
  {
  }

  /** The audit's own period-end helper agrees with it, over the years it supports. */
  method FiscalQuarterPeriodEnd(fiscalYear: int, fiscalQuarter: int, fye: int) returns (end: Option<Date>)
    ensures end == if 2000 <= fiscalYear <= 2100 && 1 <= fiscalQuarter <= 4 && IsFye(fye)
                   then Some(EndOf(Ordinal(Quarter(fiscalYear, fiscalQuarter)), fye)) else None
  {
    if !(2000 <= fiscalYear <= 2100) || !(1 <= fiscalQuarter <= 4) || !IsFye(fye) {
      return None;
    }
    var before := (4 - fiscalQuarter) * 3;
    var year, month := fiscalYear, fye - before;
    while month < 1
      invariant MonthIndex(year, month) == MonthIndex(fiscalYear, fye - before) && month <= 12
    {
      month, year := month + 12, year - 1;
    }
    IndexSplits(year, month);
    end := Some(Date(year, month, MonthLength(year, month)));
  }

  // ---- Order ----

  lemma MonthEndOrder(i: int, d: Date)
    requires ValidDate(d)
    ensures NotAfter(MonthEnd(i), d)
       <==> i < MonthIndex(d.year, d.month) || (i == MonthIndex(d.year, d.month) && d.day == MonthLength(d.year, d.month))
  {
    IndexSplits(d.year, d.month);
  }

  /** The quarter has ended by the date. */
  predicate Ended(k: int, fye: int, today: Date) {
    NotAfter(EndOf(k, fye), today)
  }

  /** The latest quarter that has ended. */
  function Latest(fye: int, today: Date): int
    requires ValidDate(today) && IsFye(fye)
  {
    var index := MonthIndex(today.year, today.month) - (if today.day == MonthLength(today.year, today.month) then 0 else 1);
    (index - fye + 10) / 3
  }

  lemma LatestIsLatest(fye: int, today: Date, k: int)
    requires ValidDate(today) && IsFye(fye)
    ensures Ended(k, fye, today) <==> k <= Latest(fye, today)
  {
    MonthEndOrder(EndMonth(k, fye), today);
  }

  // ---- Recent quarters ----

  /** How many quarters the loop over the years can reach: those of the fiscal years after today.year - cap. */
  function Available(fye: int, today: Date, cap: int): int
    requires ValidDate(today) && IsFye(fye)
  {
    Latest(fye, today) - 4 * (today.year - cap + 1) + 1
  }

  function Wanted(fye: int, today: Date, n: int, cap: int): int
    requires ValidDate(today) && IsFye(fye)
  {
    var available := if Available(fye, today, cap) > 0 then Available(fye, today, cap) else 0;
    if 1 <= n <= available then n else available
  }

  /** The first count quarters going back from the latest. */
  ghost predicate GoesBack(out: seq<Quarter>, latest: int) {
    forall i :: 0 <= i < |out| ==> out[i] == QuarterAt(latest - i)
  }

  /** Before the quarter numbered next has been looked at: everything after it that had ended has been collected. */
  ghost predicate Collected(out: seq<Quarter>, latest: int, next: int) {
    GoesBack(out, latest) && |out| == if next < latest then latest - next else 0
  }

  lemma CollectNext(out: seq<Quarter>, latest: int, k: int)
    requires Collected(out, latest, k)
    ensures if k <= latest then Collected(out + [QuarterAt(k)], latest, k - 1) else Collected(out, latest, k - 1)
  {
  }

  method CollectQuarters(fye: int, today: Date, n: int, cap: int, ghost latest: int) returns (out: seq<Quarter>)
    requires 0 <= cap && latest < 4 * (today.year + 1) + 3
    requires forall k :: Ended(k, fye, today) <==> k <= latest
    ensures GoesBack(out, latest)
    ensures var available := latest - 4 * (today.year - cap + 1) + 1;
            |out| == if 1 <= n <= available then n else if available > 0 then available else 0
  {
    out := [];
    var y := today.year + 1;
    while y > today.year - cap
      invariant today.year - cap <= y <= today.year + 1
      invariant Collected(out, latest, 4 * y + 3) && (1 <= n ==> |out| < n)
      decreases y - (today.year - cap)
    {
      var q := 4;
      while q >= 1
        invariant 0 <= q <= 4
        invariant Collected(out, latest, 4 * y + q - 1) && (1 <= n ==> |out| < n)
        decreases q
      {
        var end := QuarterEndDate(y, q, fye);
        QuarterNumbering(Quarter(y, q), 4 * y + q - 1);
        assert NotAfter(end, today) <==> Ended(4 * y + q - 1, fye, today);
        CollectNext(out, latest, 4 * y + q - 1);
        if NotAfter(end, today) {
          out := out + [Quarter(y, q)];
          if |out| == n {
            return;
          }
        }
        q := q - 1;
      }
      y := y - 1;
    }
  }

  method RecentFiscalQuarters(fye: int, today: Date, n: int, cap: int) returns (out: seq<Quarter>)
    requires ValidDate(today) && IsFye(fye) && 0 <= cap < today.year
    ensures GoesBack(out, Latest(fye, today)) && |out| == Wanted(fye, today, n, cap)
  {
    TopNotEnded(fye, today);
    forall k ensures Ended(k, fye, today) <==> k <= Latest(fye, today) {
      LatestIsLatest(fye, today, k);
    }
    out := CollectQuarters(fye, today, n, cap, Latest(fye, today));
  }

  /** No quarter of the fiscal year after next has ended. */
  lemma TopNotEnded(fye: int, today: Date)
    requires ValidDate(today) && IsFye(fye)
    ensures 4 * today.year - 2 <= Latest(fye, today) < 4 * (today.year + 1) + 3
  {
  }

  /** For every fiscal year end and every date, asking for no more quarters than a cap of at least two years gives
      exactly that many, consecutive, from the latest that has ended. */
  lemma RecentQuartersComplete(fye: int, today: Date, n: int, cap: int)
    requires ValidDate(today) && IsFye(fye) && 1 <= n <= cap && 2 <= cap < today.year
    ensures Wanted(fye, today, n, cap) == n
    ensures Ended(Latest(fye, today), fye, today) && !Ended(Latest(fye, today) + 1, fye, today)
  {
    LatestIsLatest(fye, today, Latest(fye, today));
    LatestIsLatest(fye, today, Latest(fye, today) + 1);
    TopNotEnded(fye, today);
  }

  /** A number of quarters that is not positive is no limit: the whole window comes back. */
  lemma NoLimitBelowOne(fye: int, today: Date, n: int, cap: int)
    requires ValidDate(today) && IsFye(fye) && n <= 0 && 2 <= cap < today.year
    ensures Wanted(fye, today, n, cap) == Available(fye, today, cap) >= 4 * cap - 5
  {
    TopNotEnded(fye, today);
  }

  // ---- Seasons ----

  /** The quarter that ends in a calendar quarter. */
  function SeasonQuarter(year: int, quarter: int, fye: int): int {
    (12 * year + 3 * quarter - 1 - fye + 10) / 3
  }

  /** The season holds the quarter's end. */
  predicate InSeason(year: int, quarter: int, k: int, fye: int) {
    MonthIndex(year, 3 * quarter - 2) <= EndMonth(k, fye) <= MonthIndex(year, 3 * quarter)
  }

  lemma SeasonByDates(year: int, quarter: int, k: int, fye: int)
    requires 1 <= quarter <= 4
    ensures NotAfter(Date(year, 3 * quarter - 2, 1), EndOf(k, fye))
            && NotAfter(EndOf(k, fye), Date(year, 3 * quarter, MonthLength(year, 3 * quarter)))
       <==> InSeason(year, quarter, k, fye)
  {
    var i := EndMonth(k, fye);
    assert i == 12 * (i / 12) + i % 12;
  }

  /** Every season holds exactly one quarter's end, whatever the fiscal year end. */
  lemma OneQuarterPerSeason(year: int, quarter: int, fye: int, k: int)
    requires 1 <= quarter <= 4 && IsFye(fye)
    ensures InSeason(year, quarter, k, fye) <==> k == SeasonQuarter(year, quarter, fye)
    ensures year <= SeasonQuarter(year, quarter, fye) / 4 <= year + 1
  {
  }

  /** Different seasons hold different quarters, and every quarter is some season's. */
  lemma SeasonsAndQuartersMatch(year: int, quarter: int, year2: int, quarter2: int, fye: int)
    requires 1 <= quarter <= 4 && 1 <= quarter2 <= 4 && IsFye(fye)
    ensures SeasonQuarter(year, quarter, fye) == SeasonQuarter(year2, quarter2, fye) ==> year == year2 && quarter == quarter2
  {
    OneQuarterPerSeason(year, quarter, fye, SeasonQuarter(year, quarter, fye));
    OneQuarterPerSeason(year2, quarter2, fye, SeasonQuarter(year2, quarter2, fye));
  }

  /** The candidate quarters of two fiscal years, or nothing when a year is outside the supported range. */
  method SeasonTarget(year: int, quarter: int, fye: int) returns (target: Option<(Quarter, Date)>)
    requires 1 <= quarter <= 4 && IsFye(fye) && 1 <= year
    ensures target.Some? <==> 2000 <= year <= 2099
    ensures target.Some? ==> target.value == (QuarterAt(SeasonQuarter(year, quarter, fye)), EndOf(SeasonQuarter(year, quarter, fye), fye))
  {
    var start, last := Date(year, 3 * quarter - 2, 1), Date(year, 3 * quarter, MonthLength(year, 3 * quarter));
    ghost var own := SeasonQuarter(year, quarter, fye);
    OneQuarterPerSeason(year, quarter, fye, own);
    var candidates: seq<(Quarter, Date)> := [];
    var k := 4 * year;
    while k < 4 * year + 8
      invariant 4 * year <= k <= 4 * year + 8
      invariant candidates == if own < k then [(QuarterAt(own), EndOf(own, fye))] else []
      invariant k > 4 * year ==> 2000 <= year <= 2100 && (k > 4 * year + 4 ==> year <= 2099)
    {
      var q := QuarterAt(k);
      QuarterNumbering(q, k);
      var end := FiscalQuarterPeriodEnd(q.year, q.quarter, fye);
      if end.None? {
        return None;
      }
      SeasonByDates(year, quarter, k, fye);
      OneQuarterPerSeason(year, quarter, fye, k);
      if NotAfter(start, end.value) && NotAfter(end.value, last) {
        candidates := candidates + [(q, end.value)];
      }
      k := k + 1;
    }
    return Some(candidates[0]);
  }

  /** Two labels of one fiscal calendar never share a period end, so a reported period end has at most one. */
  lemma LabelsDistinct(q: Quarter, r: Quarter, fye: int)
    requires IsQuarter(q) && IsQuarter(r) && EndOf(Ordinal(q), fye) == EndOf(Ordinal(r), fye)
    ensures q == r
  {
    var i, j := EndMonth(Ordinal(q), fye), EndMonth(Ordinal(r), fye);
    assert i == 12 * (i / 12) + i % 12 && j == 12 * (j / 12) + j % 12;
  }
}
