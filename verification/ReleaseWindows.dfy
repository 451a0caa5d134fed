/** Which quarter an earnings release belongs to: the backfill's assignment against the audit's window. Days are
    numbered from the first of January of year zero. */
module ReleaseWindows {
  import opened FiscalQuarters

  const LAG := 110

  function LengthOf(index: nat): int {
    MonthLength(index / 12, index % 12 + 1)
  }

  /** The number of the last day of a numbered month. */
  function LastDay(index: nat): int {
    if index == 0 then LengthOf(0) else LastDay(index - 1) + LengthOf(index)
  }

  /** The number of a date's day. */
  function DayNumber(d: Date): int
    requires ValidDate(d)
  {
    LastDay(MonthIndex(d.year, d.month)) - MonthLength(d.year, d.month) + d.day
  }

  /** The number of the day on which quarter k ends. */
  function EndDay(k: nat, fye: int): int
    requires IsFye(fye) && EndMonth(k, fye) >= 0
  {
    LastDay(EndMonth(k, fye))
  }

  lemma EndDayIsTheDate(k: nat, fye: int)
    requires IsFye(fye) && EndMonth(k, fye) >= 12
    ensures ValidDate(EndOf(k, fye)) && DayNumber(EndOf(k, fye)) == EndDay(k, fye)
  {
    MonthEndValid(EndMonth(k, fye));
  }

  lemma MonthEndValid(index: nat)
    requires index >= 12
    ensures ValidDate(MonthEnd(index)) && MonthIndex(MonthEnd(index).year, MonthEnd(index).month) == index
  {
    var year, month := index / 12, index % 12 + 1;
    assert index == 12 * year + month - 1 && year >= 1 && 1 <= month <= 12;
  }

  /** Three consecutive months have between 89 and 92 days. */
  lemma ThreeMonths(index: nat)
    requires index >= 2
    ensures 89 <= LengthOf(index) + LengthOf(index - 1) + LengthOf(index - 2) <= 92
  {
    var y, m := index / 12, index % 12;
    ThreeMonthsAt(y, m);
    assert index == 12 * y + m;
  }

  lemma ThreeMonthsAt(y: nat, m: nat)
    requires m < 12 && 12 * y + m >= 2
    ensures 89 <= LengthOf(12 * y + m) + LengthOf(12 * y + m - 1) + LengthOf(12 * y + m - 2) <= 92
  {
    LengthAt(y, m);
    if m >= 2 {
      LengthAt(y, m - 1);
      LengthAt(y, m - 2);
    } else if m == 1 {
      LengthAt(y, 0);
      LengthAt(y - 1, 11);
    } else {
      LengthAt(y - 1, 11);
      LengthAt(y - 1, 10);
    }
  }

  lemma LengthAt(year: nat, month: nat)
    requires month < 12
    ensures LengthOf(12 * year + month) == MonthLength(year, month + 1)
  {
    assert (12 * year + month) / 12 == year && (12 * year + month) % 12 == month;
  }

  lemma QuarterLength(k: nat, fye: int)
    requires IsFye(fye) && EndMonth(k, fye) >= 0
    ensures 89 <= EndDay(k + 1, fye) - EndDay(k, fye) <= 92
  {
    var i: nat := EndMonth(k, fye);
    assert EndMonth(k + 1, fye) == i + 3;
    QuarterDays(i);
  }

  lemma QuarterDays(i: nat)
    ensures 89 <= LastDay(i + 3) - LastDay(i) <= 92
  {
    ThreeMonths(i + 3);
    assert LastDay(i + 3) == LastDay(i + 2) + LengthOf(i + 3) && LastDay(i + 2) == LastDay(i + 1) + LengthOf(i + 2);
    assert LastDay(i + 1) == LastDay(i) + LengthOf(i + 1);
  }

  lemma {:induction false} EndsAscend(j: nat, k: nat, fye: int)
    requires IsFye(fye) && EndMonth(j, fye) >= 0 && j <= k
    ensures 89 * (k - j) <= EndDay(k, fye) - EndDay(j, fye) <= 92 * (k - j)
    decreases k - j
  {
    if j < k {
      EndsAscend(j, k - 1, fye);
      QuarterLength(k - 1, fye);
    }
  }

  // ---- The assignment ----

  /** A target quarter and the day on which it ends. */
  datatype Target = Target(quarter: Quarter, end: int)

  predicate Eligible(t: Target, release: int) {
    t.end < release && release - t.end <= LAG
  }

  /** The eligible target that ends last, the first of these in the list. */
  ghost predicate IsChoice(targets: seq<Target>, release: int, t: Target) {
    t in targets && Eligible(t, release) && forall u :: u in targets && Eligible(u, release) ==> u.end <= t.end
  }

  method Choose(targets: seq<Target>, release: int) returns (found: bool, best: Target)
    ensures found <==> exists t :: t in targets && Eligible(t, release)
    ensures found ==> IsChoice(targets, release, best)
  {
    found, best := false, Target(Quarter(0, 0), 0);
    for i := 0 to |targets|
      invariant found <==> exists t :: t in targets[..i] && Eligible(t, release)
      invariant found ==> IsChoice(targets[..i], release, best)
    {
      assert targets[..i + 1] == targets[..i] + [targets[i]];
      if Eligible(targets[i], release) && (!found || best.end < targets[i].end) {
        found, best := true, targets[i];
      }
    }
    assert targets[..|targets|] == targets;
  }

  method AssignReleaseDates(releases: seq<int>, targets: seq<Target>) returns (chosen: map<int, Target>)
    ensures forall r :: r in chosen <==> r in releases && exists t :: t in targets && Eligible(t, r)
    ensures forall r :: r in chosen ==> IsChoice(targets, r, chosen[r])
  {
    chosen := map[];
    for i := 0 to |releases|
      invariant forall r :: r in chosen <==> r in releases[..i] && exists t :: t in targets && Eligible(t, r)
      invariant forall r :: r in chosen ==> IsChoice(targets, r, chosen[r])
    {
      assert releases[..i + 1] == releases[..i] + [releases[i]];
      var found, best := Choose(targets, releases[i]);
      if found {
        chosen := chosen[releases[i] := best];
      }
    }
    assert releases[..|releases|] == releases;
  }

  // ---- Consecutive quarters ----

  /** The targets are the quarters first up to first + n - 1, in any order. */
  ghost predicate Consecutive(targets: seq<Target>, fye: int, first: nat, n: nat) {
    && IsFye(fye) && EndMonth(first, fye) >= 0
    && (forall t :: t in targets ==> exists k: nat :: first <= k < first + n && t == TargetAt(k, fye, first))
    && (forall k: nat :: first <= k < first + n ==> TargetAt(k, fye, first) in targets)
  }

  function TargetAt(k: nat, fye: int, first: nat): Target
    requires IsFye(fye) && EndMonth(first, fye) >= 0
  {
    if k < first then Target(QuarterAt(first), EndDay(first, fye)) else Target(QuarterAt(k), EndDay(k, fye))
  }

  /** The audit looks for a quarter's release in the days after its end. */
  predicate InWindow(k: nat, fye: int, release: int)
    requires IsFye(fye) && EndMonth(k, fye) >= 0
  {
    EndDay(k, fye) < release <= EndDay(k, fye) + LAG
  }

  /** The quarter is the latest one, among the targets, whose end precedes the release. */
  predicate LatestBefore(k: nat, fye: int, first: nat, n: nat, release: int)
    requires IsFye(fye) && EndMonth(first, fye) >= 0 && first <= k < first + n
  {
    EndDay(k, fye) < release && (k + 1 < first + n ==> release <= EndDay(k + 1, fye))
  }

  /** A release belongs to quarter k exactly when k is the latest quarter that ended before it, and recently enough. */
  lemma ChoiceIsLatest(targets: seq<Target>, fye: int, first: nat, n: nat, k: nat, release: int)
    requires Consecutive(targets, fye, first, n) && first <= k < first + n
    ensures IsChoice(targets, release, TargetAt(k, fye, first))
       <==> LatestBefore(k, fye, first, n, release) && release - EndDay(k, fye) <= LAG
  {
    var t := TargetAt(k, fye, first);
    assert t in targets;
    if k + 1 < first + n {
      QuarterLength(k, fye);
      assert TargetAt(k + 1, fye, first) in targets;
    }
    forall u | u in targets && Eligible(u, release) && LatestBefore(k, fye, first, n, release) ensures u.end <= t.end {
      var j: nat :| first <= j < first + n && u == TargetAt(j, fye, first);
      if j <= k {
        EndsAscend(j, k, fye);
      } else {
        EndsAscend(k + 1, j, fye);
      }
    }
  }

  /** Later releases never belong to earlier quarters. */
  lemma AssignmentMonotone(targets: seq<Target>, fye: int, first: nat, n: nat, r: int, s: int, j: nat, k: nat)
    requires Consecutive(targets, fye, first, n) && first <= j < first + n && first <= k < first + n && r <= s
    requires IsChoice(targets, r, TargetAt(j, fye, first)) && IsChoice(targets, s, TargetAt(k, fye, first))
    ensures j <= k
  {
    ChoiceIsLatest(targets, fye, first, n, j, r);
    ChoiceIsLatest(targets, fye, first, n, k, s);
    LatestMonotone(fye, first, n, r, s, j, k);
  }

  lemma LatestMonotone(fye: int, first: nat, n: nat, r: int, s: int, j: nat, k: nat)
    requires IsFye(fye) && EndMonth(first, fye) >= 0 && first <= j < first + n && first <= k < first + n && r <= s
    requires LatestBefore(j, fye, first, n, r) && LatestBefore(k, fye, first, n, s)
    ensures j <= k
  {
    if k < j {
      EndsAscend(k + 1, j, fye);
    }
  }

  /** A release lies in at most two of the audit's windows, and then in those of consecutive quarters. */
  lemma AtMostTwoWindows(fye: int, j: nat, k: nat, release: int)
    requires IsFye(fye) && EndMonth(j, fye) >= 0 && j <= k && InWindow(j, fye, release) && InWindow(k, fye, release)
    ensures k <= j + 1
  {
    EndsAscend(j, k, fye);
  }

  /** For a release in a quarter's window, the assignment gives it to that quarter exactly when it comes no later than
      the end of the next one, if that is a target too. */
  lemma WindowAgreesIff(targets: seq<Target>, fye: int, first: nat, n: nat, k: nat, release: int)
    requires Consecutive(targets, fye, first, n) && first <= k < first + n && InWindow(k, fye, release)
    ensures IsChoice(targets, release, TargetAt(k, fye, first))
       <==> (k + 1 < first + n ==> release <= EndDay(k + 1, fye))
  {
    ChoiceIsLatest(targets, fye, first, n, k, release);
  }

  /** They do disagree: the windows of two consecutive quarters overlap, by at least 18 days, and there the assignment
      takes the later quarter. */
  lemma WindowsOverlap(fye: int, k: nat, release: int)
    requires IsFye(fye) && EndMonth(k, fye) >= 0 && EndDay(k + 1, fye) < release <= EndDay(k + 1, fye) + 18
    ensures InWindow(k, fye, release) && InWindow(k + 1, fye, release)
  {
    QuarterLength(k, fye);
  }
}
