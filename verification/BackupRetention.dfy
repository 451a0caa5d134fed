/** Which backup files are kept: the newest of every month and the newest overall, over any history of runs. */
module BackupRetention {
  import opened Sequences
  import opened StableSort

  datatype File = File(path: string, mtime: int)

  /** The calendar month of a modification time. */
  type Calendar = int -> int

  datatype Policy = Policy(monthly: nat, recent: nat, gzipAfterDays: int)

  /** Newest first; files of the same time keep the order in which they are listed. */
  predicate NotOlder(f: File, g: File) {
    f.mtime >= g.mtime
  }

  function NewestFirst(files: seq<File>): seq<File> {
    Sort(files, NotOlder)
  }

  function Take<T>(xs: seq<T>, k: nat): seq<T> {
    if k <= |xs| then xs[..k] else xs
  }

  function InMonth(files: seq<File>, month: Calendar, m: int): seq<File> {
    if files == [] then []
    else if month(files[0].mtime) == m then [files[0]] + InMonth(files[1..], month, m)
    else InMonth(files[1..], month, m)
  }

  /** The file is among the newest of its month or of all. */
  predicate Kept(files: seq<File>, month: Calendar, p: Policy, f: File) {
    f in Take(NewestFirst(InMonth(files, month, month(f.mtime))), p.monthly) || f in Take(NewestFirst(files), p.recent)
  }

  function KeepOf(files: seq<File>, month: Calendar, p: Policy): set<File> {
    set f | f in files && Kept(files, month, p, f)
  }

  // ---- Listings of subsets ----

  /** The listing of some of the files of a directory. */
  function Only(files: seq<File>, s: set<File>): seq<File> {
    if files == [] then []
    else if files[0] in s then [files[0]] + Only(files[1..], s)
    else Only(files[1..], s)
  }

  lemma {:induction false} OnlyMembers(files: seq<File>, s: set<File>)
    ensures forall f :: f in Only(files, s) <==> f in files && f in s
  {
    if files != [] {
      OnlyMembers(files[1..], s);
      assert forall f :: f in files <==> f == files[0] || f in files[1..];
    }
  }

  lemma {:induction false} InMonthOnly(files: seq<File>, s: set<File>, month: Calendar, m: int)
    ensures InMonth(Only(files, s), month, m) == Only(files, set f | f in s && month(f.mtime) == m)
  {
    if files != [] {
      InMonthOnly(files[1..], s, month, m);
      if files[0] in s {
        assert ([files[0]] + Only(files[1..], s))[1..] == Only(files[1..], s);
      }
    }
  }

  lemma OrderOfTimes()
    ensures TotalPreorder(NotOlder)
  {
  }

  lemma {:induction false} FirstOfSorted(f: File, files: seq<File>, s: set<File>)
    requires Sorted(files, NotOlder) && forall i :: 0 <= i < |files| ==> NotOlder(f, files[i])
    ensures Insert(f, Only(files, s), NotOlder) == [f] + Only(files, s)
  {
    if files != [] && files[0] !in s {
      FirstOfSorted(f, files[1..], s);
    }
  }

  lemma {:induction false} OnlyInsert(f: File, files: seq<File>, s: set<File>)
    requires Sorted(files, NotOlder)
    ensures Only(Insert(f, files, NotOlder), s)
         == if f in s then Insert(f, Only(files, s), NotOlder) else Only(files, s)
  {
    if files == [] || NotOlder(f, files[0]) {
      FirstOfSorted(f, files, s);
      assert ([f] + files)[1..] == files;
    } else {
      OnlyInsert(f, files[1..], s);
      var rest := Insert(f, files[1..], NotOlder);
      assert ([files[0]] + rest)[1..] == rest;
      if files[0] in s {
        assert ([files[0]] + Only(files[1..], s))[1..] == Only(files[1..], s);
      }
    }
  }

  /** A stable sort commutes with leaving files out. */
  lemma {:induction false} SortOnly(files: seq<File>, s: set<File>)
    ensures NewestFirst(Only(files, s)) == Only(NewestFirst(files), s)
  {
    if files != [] {
      SortOnly(files[1..], s);
      OrderOfTimes();
      SortSorts(files[1..], NotOlder);
      OnlyInsert(files[0], NewestFirst(files[1..]), s);
      if files[0] in s {
        assert ([files[0]] + Only(files[1..], s))[1..] == Only(files[1..], s);
      }
    }
  }

  // ---- The first of a fixed order ----

  /** The first k members of s in the order ws. */
  function Top(ws: seq<File>, s: set<File>, k: nat): set<File> {
    if ws == [] || k == 0 then {}
    else if ws[0] in s then {ws[0]} + Top(ws[1..], s, k - 1)
    else Top(ws[1..], s, k)
  }

  lemma {:induction false} TakeIsTop(ws: seq<File>, s: set<File>, k: nat)
    ensures forall f :: f in Take(Only(ws, s), k) <==> f in Top(ws, s, k)
  {
    if ws != [] && k > 0 {
      if ws[0] in s {
        TakeIsTop(ws[1..], s, k - 1);
        var rest := Only(ws[1..], s);
        assert Take([ws[0]] + rest, k) == [ws[0]] + Take(rest, k - 1);
      } else {
        TakeIsTop(ws[1..], s, k);
      }
    }
  }

  /** Fewer competitors never push a file out. */
  lemma {:induction false} TopAmongFewer(ws: seq<File>, s: set<File>, a: set<File>, k: nat, n: nat, f: File)
    requires a <= s && k <= n && f in a && f in Top(ws, s, k)
    ensures f in Top(ws, a, n)
  {
    if ws[0] in a {
      if f != ws[0] {
        TopAmongFewer(ws[1..], s, a, k - 1, n - 1, f);
      }
    } else if ws[0] in s {
      TopAmongFewer(ws[1..], s, a, k - 1, n, f);
    } else {
      TopAmongFewer(ws[1..], s, a, k, n, f);
    }
  }

  /** Leaving out only files that are not among the first changes nothing about the first. */
  lemma {:induction false} TopUndisturbed(ws: seq<File>, s: set<File>, t: set<File>, k: nat)
    requires t <= s && Top(ws, s, k) <= t
    ensures Top(ws, t, k) == Top(ws, s, k)
  {
    if ws != [] && k > 0 {
      if ws[0] in s {
        TopUndisturbed(ws[1..], s, t, k - 1);
      } else {
        TopUndisturbed(ws[1..], s, t, k);
      }
    }
  }

  lemma {:induction false} TopSize(ws: seq<File>, s: set<File>, k: nat)
    requires Distinct(ws) && forall f :: f in s ==> f in ws
    ensures Top(ws, s, k) <= s && |Top(ws, s, k)| == if k <= |s| then k else |s|
    decreases |ws|
  {
    if ws == [] {
      assert s == {};
    } else if k > 0 {
      var rest := s - {ws[0]};
      TailCovers(ws, s);
      if ws[0] in s {
        TopSkips(ws[1..], ws[0], s, k - 1);
        TopSize(ws[1..], rest, k - 1);
        assert |s| == |rest| + 1;
      } else {
        TopSkips(ws[1..], ws[0], s, k);
        TopSize(ws[1..], rest, k);
        assert rest == s;
      }
    }
  }

  lemma TailCovers(ws: seq<File>, s: set<File>)
    requires ws != [] && Distinct(ws) && forall f :: f in s ==> f in ws
    ensures Distinct(ws[1..]) && ws[0] !in ws[1..] && forall f :: f in s - {ws[0]} ==> f in ws[1..]
  {
    assert ws == [ws[0]] + ws[1..];
  }

  lemma {:induction false} TopSkips(ws: seq<File>, f: File, s: set<File>, k: nat)
    requires f !in ws
    ensures Top(ws, s, k) == Top(ws, s - {f}, k)
  {
    if ws != [] && k > 0 {
      TopSkips(ws[1..], f, s, if ws[0] in s then k - 1 else k);
    }
  }

  // ---- Retention over a history ----

  /** The files kept of a set, listed in the order of the directory. */
  function Keep(listing: seq<File>, month: Calendar, p: Policy, s: set<File>): set<File> {
    KeepOf(Only(listing, s), month, p)
  }

  function SameMonth(s: set<File>, month: Calendar, m: int): set<File> {
    set f | f in s && month(f.mtime) == m
  }

  /** Keeping, in terms of one fixed order of all files. */
  lemma KeepByTop(listing: seq<File>, month: Calendar, p: Policy, s: set<File>, f: File)
    ensures f in Keep(listing, month, p, s)
       <==> && f in listing && f in s
            && (f in Top(NewestFirst(listing), SameMonth(s, month, month(f.mtime)), p.monthly)
                || f in Top(NewestFirst(listing), s, p.recent))
  {
    var m, ws := month(f.mtime), NewestFirst(listing);
    OnlyMembers(listing, s);
    InMonthOnly(listing, s, month, m);
    SortOnly(listing, s);
    SortOnly(listing, SameMonth(s, month, m));
    TakeIsTop(ws, s, p.recent);
    TakeIsTop(ws, SameMonth(s, month, m), p.monthly);
  }

  lemma {:induction false} TopWithin(ws: seq<File>, s: set<File>, k: nat)
    ensures Top(ws, s, k) <= s && forall f :: f in Top(ws, s, k) ==> f in ws
  {
    if ws != [] && k > 0 {
      TopWithin(ws[1..], s, if ws[0] in s then k - 1 else k);
    }
  }

  /** What the whole history keeps has been kept, or has been added since. */
  lemma KeptSoFar(listing: seq<File>, month: Calendar, p: Policy, a: set<File>, b: set<File>, f: File)
    requires f in Keep(listing, month, p, a + b)
    ensures f in Keep(listing, month, p, a) + b
  {
    var m, ws := month(f.mtime), NewestFirst(listing);
    KeepByTop(listing, month, p, a + b, f);
    KeepByTop(listing, month, p, a, f);
    if f in a {
      if f in Top(ws, a + b, p.recent) {
        TopAmongFewer(ws, a + b, a, p.recent, p.recent, f);
      } else {
        TopAmongFewer(ws, SameMonth(a + b, month, m), SameMonth(a, month, m), p.monthly, p.monthly, f);
      }
    }
  }

  /** The first of all files are kept, whatever the order and the month. */
  lemma TopIsKept(listing: seq<File>, month: Calendar, p: Policy, s: set<File>, m: int)
    requires forall f :: f in s ==> f in listing
    ensures Top(NewestFirst(listing), s, p.recent) <= Keep(listing, month, p, s)
    ensures Top(NewestFirst(listing), SameMonth(s, month, m), p.monthly) <= Keep(listing, month, p, s)
  {
    var ws := NewestFirst(listing);
    TopWithin(ws, s, p.recent);
    TopWithin(ws, SameMonth(s, month, m), p.monthly);
    forall f | f in Top(ws, s, p.recent) || f in Top(ws, SameMonth(s, month, m), p.monthly)
      ensures f in Keep(listing, month, p, s)
    {
      KeepByTop(listing, month, p, s, f);
    }
  }

  /** Retention does not depend on its history: pruning, adding files and pruning again keeps what one pass over all the
      files would, ties included. */
  lemma HistoryIndependent(listing: seq<File>, month: Calendar, p: Policy, a: set<File>, b: set<File>)
    requires forall f :: f in a + b ==> f in listing
    ensures Keep(listing, month, p, Keep(listing, month, p, a) + b) == Keep(listing, month, p, a + b)
  {
    var s, t, ws := a + b, Keep(listing, month, p, a) + b, NewestFirst(listing);
    forall f | f in Keep(listing, month, p, a) ensures f in a {
      KeepByTop(listing, month, p, a, f);
    }
    forall f | f in Keep(listing, month, p, s) ensures f in t {
      KeptSoFar(listing, month, p, a, b, f);
    }
    forall f ensures f in Keep(listing, month, p, t) <==> f in Keep(listing, month, p, s) {
      var m := month(f.mtime);
      TopIsKept(listing, month, p, s, m);
      TopUndisturbed(ws, s, t, p.recent);
      TopWithin(ws, SameMonth(s, month, m), p.monthly);
      TopUndisturbed(ws, SameMonth(s, month, m), SameMonth(t, month, m), p.monthly);
      TopWithin(ws, s, p.recent);
      KeepByTop(listing, month, p, s, f);
      KeepByTop(listing, month, p, t, f);
    }
  }

  /** A second run over a pruned tree prunes nothing. */
  lemma SecondRunPrunesNothing(listing: seq<File>, month: Calendar, p: Policy, a: set<File>)
    requires forall f :: f in a ==> f in listing
    ensures Keep(listing, month, p, Keep(listing, month, p, a)) == Keep(listing, month, p, a)
  {
    HistoryIndependent(listing, month, p, a, {});
    assert a + {} == a && Keep(listing, month, p, a) + {} == Keep(listing, month, p, a);
  }

  /** Every run keeps at least the wanted number of recent files, or all if there are fewer, and a newest one. */
  lemma EnoughSurvive(listing: seq<File>, month: Calendar, p: Policy, a: set<File>)
    requires Distinct(listing) && forall f :: f in a ==> f in listing
    ensures var kept := Keep(listing, month, p, a);
            && kept <= a && |kept| >= (if p.recent <= |a| then p.recent else |a|)
            && (p.recent > 0 && a != {} ==> exists f :: f in kept && forall g :: g in a ==> g.mtime <= f.mtime)
  {
    var ws, kept := NewestFirst(listing), Keep(listing, month, p, a);
    forall f | f in kept ensures f in a {
      KeepByTop(listing, month, p, a, f);
    }
    OrderOfTimes();
    SortSorts(listing, NotOlder);
    SortedDistinct(listing);
    TopSize(ws, a, p.recent);
    TopIsKept(listing, month, p, a, 0);
    SubsetSize(Top(ws, a, p.recent), kept);
    if p.recent > 0 && a != {} {
      var f := FirstIsNewest(ws, a, p.recent);
      assert f in kept;
    }
  }

  lemma SubsetSize<T>(s: set<T>, t: set<T>)
    requires s <= t
    ensures |s| <= |t|
  {
    assert t == s + (t - s);
  }

  lemma SortedDistinct(listing: seq<File>)
    requires Distinct(listing)
    ensures Distinct(NewestFirst(listing)) && forall f :: f in listing ==> f in NewestFirst(listing)
  {
    OrderOfTimes();
    SortSorts(listing, NotOlder);
    DistinctKept(listing, NewestFirst(listing));
    forall f | f in listing ensures f in NewestFirst(listing) {
      assert f in multiset(listing);
    }
  }

  lemma DistinctKept(us: seq<File>, vs: seq<File>)
    requires Distinct(us) && multiset(us) == multiset(vs)
    ensures Distinct(vs)
  {
    forall i, j | 0 <= i < j < |vs| ensures vs[i] != vs[j] {
      assert vs == vs[..j] + vs[j..];
      assert vs[i] in multiset(vs[..j]) && vs[j] in multiset(vs[j..]);
      DistinctCount(us, vs[i]);
    }
  }

  lemma {:induction false} FirstIsNewest(ws: seq<File>, a: set<File>, k: nat) returns (f: File)
    requires Sorted(ws, NotOlder) && k > 0 && a != {} && forall g :: g in a ==> g in ws
    ensures f in Top(ws, a, k) && forall g :: g in a ==> g.mtime <= f.mtime
  {
    var x :| x in a;
    assert x in ws;
    if ws[0] in a {
      f := ws[0];
      forall g | g in a ensures g.mtime <= f.mtime {
        var i :| 0 <= i < |ws| && ws[i] == g;
      }
    } else {
      assert forall g :: g in a ==> g in ws[1..] by {
        assert ws == [ws[0]] + ws[1..];
      }
      f := FirstIsNewest(ws[1..], a, k);
    }
  }
}
