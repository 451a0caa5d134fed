/** Planning and applying a retention run: grouping by month, pruning, and compressing in place. */
module BackupPlan {
  import opened Sequences
  import opened StableSort
  import opened BackupRetention

  datatype Plan = Plan(keep: seq<File>, prune: seq<File>, gzip: seq<File>)

  const DAY := 86400

  /** Already compressed: the name ends in .gz, in any case. */
  predicate IsGz(path: string) {
    |path| >= 3 && path[|path| - 3] == '.' && path[|path| - 2] in {'g', 'G'} && path[|path| - 1] in {'z', 'Z'}
  }

  function Target(path: string): string {
    path + ['.', 'g', 'z']
  }

  predicate ToCompress(p: Policy, now: int, f: File) {
    (now - f.mtime) / DAY >= p.gzipAfterDays && !IsGz(f.path)
  }

  function PlanOf(files: seq<File>, month: Calendar, p: Policy, now: int): Plan {
    var kept := KeepOf(files, month, p);
    Plan(Only(files, kept), Only(files, (set f | f in files) - kept), Only(files, set f | f in kept && ToCompress(p, now, f)))
  }

  /** One file per path. */
  ghost predicate OnePerPath(files: seq<File>) {
    forall f, g :: f in files && g in files && f.path == g.path ==> f == g
  }

  lemma {:induction false} InMonthAppend(files: seq<File>, f: File, month: Calendar, m: int)
    ensures InMonth(files + [f], month, m) == InMonth(files, month, m) + if month(f.mtime) == m then [f] else []
  {
    if files == [] {
      assert files + [f] == [f] && [f][1..] == [];
    } else {
      assert (files + [f])[1..] == files[1..] + [f];
      InMonthAppend(files[1..], f, month, m);
      assert InMonth(files, month, m) + [] == InMonth(files, month, m);
    }
  }

  lemma {:induction false} OnlyAppend(files: seq<File>, f: File, s: set<File>)
    ensures Only(files + [f], s) == Only(files, s) + if f in s then [f] else []
  {
    if files == [] {
      assert files + [f] == [f] && [f][1..] == [];
    } else {
      assert (files + [f])[1..] == files[1..] + [f];
      OnlyAppend(files[1..], f, s);
      assert Only(files, s) + [] == Only(files, s);
    }
  }

  function GroupOf(byMonth: map<int, seq<File>>, m: int): seq<File> {
    if m in byMonth then byMonth[m] else []
  }

  /** The files of each month, in listing order. */
  ghost predicate Grouped(byMonth: map<int, seq<File>>, files: seq<File>, month: Calendar) {
    && (forall m :: GroupOf(byMonth, m) == InMonth(files, month, m))
    && (forall f :: f in files ==> month(f.mtime) in byMonth)
  }

  lemma GroupedStep(byMonth: map<int, seq<File>>, files: seq<File>, f: File, month: Calendar)
    requires Grouped(byMonth, files, month)
    ensures var m := month(f.mtime); Grouped(byMonth[m := GroupOf(byMonth, m) + [f]], files + [f], month)
  {
    var own := month(f.mtime);
    var next := byMonth[own := GroupOf(byMonth, own) + [f]];
    forall m ensures GroupOf(next, m) == InMonth(files + [f], month, m) {
      InMonthAppend(files, f, month, m);
      assert GroupOf(byMonth, m) == InMonth(files, month, m);
      assert InMonth(files, month, m) + [] == InMonth(files, month, m);
    }
    forall g | g in files + [f] ensures month(g.mtime) in next {
      assert g in files || g == f;
    }
  }

  method GroupByMonth(files: seq<File>, month: Calendar) returns (byMonth: map<int, seq<File>>, months: seq<int>)
    ensures Grouped(byMonth, files, month) && forall m :: m in months <==> m in byMonth
  {
    byMonth, months := map[], [];
    for i := 0 to |files|
      invariant Grouped(byMonth, files[..i], month) && forall m :: m in months <==> m in byMonth
    {
      var m := month(files[i].mtime);
      if m !in byMonth {
        months := months + [m];
      }
      GroupedStep(byMonth, files[..i], files[i], month);
      assert files[..i + 1] == files[..i] + [files[i]];
      byMonth := byMonth[m := GroupOf(byMonth, m) + [files[i]]];
    }
    assert files[..|files|] == files;
  }

  function Paths(files: seq<File>): set<string> {
    set f | f in files :: f.path
  }

  function NewestPaths(files: seq<File>, k: nat): set<string> {
    Paths(Take(NewestFirst(files), k))
  }

  /** All that a function gives for the months listed. */
  function Union(of: int -> set<string>, months: seq<int>): set<string> {
    if months == [] then {} else Union(of, months[..|months| - 1]) + of(months[|months| - 1])
  }

  lemma {:induction false} UnionMember(of: int -> set<string>, months: seq<int>, path: string)
    ensures path in Union(of, months) <==> exists m :: m in months && path in of(m)
  {
    if months != [] {
      var init, last := months[..|months| - 1], months[|months| - 1];
      UnionMember(of, init, path);
      assert forall m :: m in months <==> m in init || m == last;
    }
  }

  /** The paths of the newest files of each month. */
  function MonthlyPaths(byMonth: map<int, seq<File>>, k: nat): int -> set<string> {
    m => NewestPaths(GroupOf(byMonth, m), k)
  }

  /** The paths that some month or the whole listing keeps. */
  method KeepPaths(files: seq<File>, month: Calendar, p: Policy) returns (paths: set<string>)
    requires OnePerPath(files)
    ensures forall f :: f in files ==> (f.path in paths <==> Kept(files, month, p, f))
  {
    var byMonth, months := GroupByMonth(files, month);
    paths := {};
    for i := 0 to |months|
      invariant paths == Union(MonthlyPaths(byMonth, p.monthly), months[..i])
    {
      assert months[..i + 1][..i] == months[..i];
      paths := paths + NewestPaths(GroupOf(byMonth, months[i]), p.monthly);
    }
    assert months[..|months|] == months;
    forall f | f in files ensures f.path in paths + NewestPaths(files, p.recent) <==> Kept(files, month, p, f) {
      PathKept(files, byMonth, months, month, p, f);
    }
    paths := paths + NewestPaths(files, p.recent);
  }

  lemma TakenFrom(files: seq<File>, k: nat)
    ensures forall f :: f in Take(NewestFirst(files), k) ==> f in files
  {
    OrderOfTimes();
    SortSorts(files, NotOlder);
    forall f | f in Take(NewestFirst(files), k) ensures f in files {
      assert f in multiset(NewestFirst(files));
    }
  }

  lemma {:induction false} InMonthMembers(files: seq<File>, month: Calendar, m: int)
    ensures forall f :: f in InMonth(files, month, m) <==> f in files && month(f.mtime) == m
  {
    if files != [] {
      InMonthMembers(files[1..], month, m);
      assert forall f :: f in files <==> f == files[0] || f in files[1..];
    }
  }

  /** A path is collected for some month exactly when its file is among the newest of its own month. */
  lemma PathKept(files: seq<File>, byMonth: map<int, seq<File>>, months: seq<int>, month: Calendar, p: Policy, f: File)
    requires OnePerPath(files) && f in files && Grouped(byMonth, files, month) && forall m :: m in months <==> m in byMonth
    ensures f.path in Union(MonthlyPaths(byMonth, p.monthly), months)
       <==> f in Take(NewestFirst(InMonth(files, month, month(f.mtime))), p.monthly)
    ensures f.path in NewestPaths(files, p.recent) <==> f in Take(NewestFirst(files), p.recent)
  {
    TakenFrom(files, p.recent);
    UnionMember(MonthlyPaths(byMonth, p.monthly), months, f.path);
    if m :| m in months && f.path in NewestPaths(GroupOf(byMonth, m), p.monthly) {
      var group := GroupOf(byMonth, m);
      var g :| g in Take(NewestFirst(group), p.monthly) && g.path == f.path;
      TakenFrom(group, p.monthly);
      InMonthMembers(files, month, m);
      assert g == f;
    }
    if f in Take(NewestFirst(InMonth(files, month, month(f.mtime))), p.monthly) {
      assert month(f.mtime) in months && f.path in MonthlyPaths(byMonth, p.monthly)(month(f.mtime));
    }
  }

  lemma OnlyNext(files: seq<File>, i: nat, s: set<File>)
    requires i < |files|
    ensures Only(files[..i + 1], s) == if files[i] in s then Only(files[..i], s) + [files[i]] else Only(files[..i], s)
  {
    assert files[..i + 1] == files[..i] + [files[i]];
    OnlyAppend(files[..i], files[i], s);
  }

  method BuildPlan(files: seq<File>, month: Calendar, p: Policy, now: int) returns (plan: Plan)
    requires OnePerPath(files)
    ensures plan == PlanOf(files, month, p, now)
  {
    var keepPaths := KeepPaths(files, month, p);
    ghost var kept := KeepOf(files, month, p);
    ghost var rest := (set f | f in files) - kept;
    ghost var aged := set f | f in kept && ToCompress(p, now, f);
    plan := Plan([], [], []);
    for i := 0 to |files|
      invariant plan == Plan(Only(files[..i], kept), Only(files[..i], rest), Only(files[..i], aged))
    {
      var f := files[i];
      assert f in files;
      OnlyNext(files, i, kept);
      OnlyNext(files, i, rest);
      OnlyNext(files, i, aged);
      if f.path in keepPaths {
        plan := plan.(keep := plan.keep + [f]);
        if ToCompress(p, now, f) {
          plan := plan.(gzip := plan.gzip + [f]);
        }
      } else {
        plan := plan.(prune := plan.prune + [f]);
      }
    }
    assert files[..|files|] == files;
  }

  // ---- Applying a plan ----

  /** A stored backup; the content is the database it backs up, compressed or not. */
  datatype Stored = Stored(mtime: int, content: string)

  type Tree = map<string, Stored>

  /** Deletes the pruned files. */
  function Pruned(tree: Tree, files: seq<File>): Tree {
    tree - Paths(files)
  }

  /** When the compressed copy of each path is written. */
  type Clock = string -> int

  /** Compresses one file: its contents go to the target, stamped with the time of writing, over whatever is there. A
      file that is gone is skipped. */
  function Compressed(tree: Tree, path: string, clock: Clock): Tree {
    if path in tree then tree[Target(path) := Stored(clock(path), tree[path].content)] - {path} else tree
  }

  function AllCompressed(tree: Tree, files: seq<File>, clock: Clock): Tree {
    if files == [] then tree
    else Compressed(AllCompressed(tree, files[..|files| - 1], clock), files[|files| - 1].path, clock)
  }

  function After(tree: Tree, plan: Plan, clock: Clock): Tree {
    AllCompressed(Pruned(tree, plan.prune), plan.gzip, clock)
  }

  class Pool {
    var tree: Tree

    constructor (tree: Tree)
      ensures this.tree == tree
    {
      this.tree := tree;
    }

    method Apply(plan: Plan, clock: Clock)
      modifies this
      ensures tree == After(old(tree), plan, clock)
    {
      for i := 0 to |plan.prune|
        invariant tree == Pruned(old(tree), plan.prune[..i])
      {
        assert Paths(plan.prune[..i + 1]) == Paths(plan.prune[..i]) + {plan.prune[i].path} by {
          assert plan.prune[..i + 1] == plan.prune[..i] + [plan.prune[i]];
        }
        tree := tree - {plan.prune[i].path};
      }
      assert plan.prune[..|plan.prune|] == plan.prune;
      ghost var pruned := tree;
      for i := 0 to |plan.gzip|
        invariant tree == AllCompressed(pruned, plan.gzip[..i], clock)
      {
        assert plan.gzip[..i + 1][..i] == plan.gzip[..i];
        var path := plan.gzip[i].path;
        if path in tree {
          tree := tree[Target(path) := Stored(clock(path), tree[path].content)];
          tree := tree - {path};
        }
      }
      assert plan.gzip[..|plan.gzip|] == plan.gzip;
    }
  }

  function Targets(files: seq<File>): set<string> {
    set f | f in files :: Target(f.path)
  }

  lemma TargetIsGz(path: string)
    ensures IsGz(Target(path))
  {
  }

  /** Files that can be compressed: all there, none compressed yet, no path twice. */
  ghost predicate Compressible(tree: Tree, files: seq<File>) {
    && Distinct(files) && OnePerPath(files) && Paths(files) <= tree.Keys && forall f :: f in files ==> !IsGz(f.path)
  }

  lemma CompressibleLess(tree: Tree, files: seq<File>)
    requires files != [] && Compressible(tree, files)
    ensures var init, last := files[..|files| - 1], files[|files| - 1];
            && files == init + [last] && Compressible(tree, init) && last.path !in Paths(init) + Targets(init)
            && last.path in tree && Target(last.path) !in Paths(files)
            && Paths(files) == Paths(init) + {last.path} && Targets(files) == Targets(init) + {Target(last.path)}
  {
    var init, last := files[..|files| - 1], files[|files| - 1];
    assert files == init + [last];
    PathsAppend(init, last);
    SourceIsNoTarget(init, last.path);
    TargetIsGz(last.path);
  }

  lemma {:induction false} CompressedPaths(tree: Tree, files: seq<File>, clock: Clock)
    requires Compressible(tree, files)
    ensures AllCompressed(tree, files, clock).Keys == tree.Keys - Paths(files) + Targets(files)
  {
    if files != [] {
      var init, last := files[..|files| - 1], files[|files| - 1];
      CompressibleLess(tree, files);
      CompressedPaths(tree, init, clock);
      CompressedKeys(AllCompressed(tree, init, clock), last.path, clock);
      SwapLast(tree.Keys, Paths(init), Targets(init), last.path, Target(last.path));
    }
  }

  lemma CompressedKeys(tree: Tree, path: string, clock: Clock)
    requires path in tree
    ensures Compressed(tree, path, clock).Keys == tree.Keys + {Target(path)} - {path}
  {
  }

  lemma SwapLast(all: set<string>, paths: set<string>, targets: set<string>, path: string, target: string)
    requires path !in targets && path != target
    ensures all - paths + targets + {target} - {path} == all - (paths + {path}) + (targets + {target})
  {
  }

  lemma {:induction false} CompressedOthers(tree: Tree, files: seq<File>, clock: Clock, path: string)
    requires Compressible(tree, files) && path in tree && path !in Paths(files) + Targets(files)
    ensures path in AllCompressed(tree, files, clock) && AllCompressed(tree, files, clock)[path] == tree[path]
  {
    if files != [] {
      CompressibleLess(tree, files);
      CompressedOthers(tree, files[..|files| - 1], clock, path);
    }
  }

  lemma {:induction false} CompressedCopies(tree: Tree, files: seq<File>, clock: Clock, f: File)
    requires Compressible(tree, files) && f in files
    ensures f.path in tree && Target(f.path) in AllCompressed(tree, files, clock)
         && AllCompressed(tree, files, clock)[Target(f.path)] == Stored(clock(f.path), tree[f.path].content)
  {
    var init, last := files[..|files| - 1], files[|files| - 1];
    CompressibleLess(tree, files);
    if f == last {
      CompressedOthers(tree, init, clock, last.path);
    } else {
      CompressedCopies(tree, init, clock, f);
      if Target(f.path) == Target(last.path) {
        TargetInjective(f.path, last.path);
      }
      SourceIsNoTarget(files, last.path);
      CompressedElsewhere(AllCompressed(tree, init, clock), last.path, clock, Target(f.path));
    }
  }

  lemma CompressedElsewhere(tree: Tree, path: string, clock: Clock, other: string)
    requires other in tree && other != path && other != Target(path)
    ensures other in Compressed(tree, path, clock) && Compressed(tree, path, clock)[other] == tree[other]
  {
  }

  lemma SourceIsNoTarget(files: seq<File>, path: string)
    requires !IsGz(path)
    ensures path !in Targets(files) && path != Target(path)
  {
    TargetIsGz(path);
    forall f | f in files ensures Target(f.path) != path {
      TargetIsGz(f.path);
    }
  }

  lemma PathsAppend(files: seq<File>, f: File)
    ensures Paths(files + [f]) == Paths(files) + {f.path} && Targets(files + [f]) == Targets(files) + {Target(f.path)}
  {
  }

  lemma TargetInjective(x: string, y: string)
    requires Target(x) == Target(y)
    ensures x == y
  {
    assert Target(x)[..|x|] == x && Target(y)[..|y|] == y;
  }

  /** The number of files left is the number kept exactly when no compressed file overwrites a surviving one. */
  lemma SurvivorsIff(tree: Tree, files: seq<File>, month: Calendar, p: Policy, now: int, clock: Clock)
    requires Distinct(files) && OnePerPath(files) && tree.Keys == Paths(files)
    ensures var plan := PlanOf(files, month, p, now);
            |After(tree, plan, clock).Keys| == |plan.keep|
            <==> forall f :: f in plan.gzip ==> Target(f.path) !in Paths(plan.keep)
  {
    var plan := PlanOf(files, month, p, now);
    PlanShape(files, month, p, now);
    KeptPaths(files, plan);
    assert Pruned(tree, plan.prune).Keys == Paths(plan.keep);
    CompressedPaths(Pruned(tree, plan.prune), plan.gzip, clock);
    PathCount(plan.keep);
    TargetCount(plan.gzip);
    PathCount(plan.gzip);
    NoTargetIsSource(plan.gzip);
    ReplacedCount(Paths(plan.keep), Paths(plan.gzip), Targets(plan.gzip));
    NoneOverwritten(plan.gzip, Paths(plan.keep));
  }

  /** What a plan is made of. */
  lemma PlanShape(files: seq<File>, month: Calendar, p: Policy, now: int)
    requires Distinct(files) && OnePerPath(files)
    ensures var plan := PlanOf(files, month, p, now);
            && Distinct(plan.keep) && OnePerPath(plan.keep) && Distinct(plan.gzip) && OnePerPath(plan.gzip)
            && (forall f :: f in files <==> f in plan.keep || f in plan.prune)
            && (forall f :: f in plan.keep ==> f !in plan.prune)
            && (forall f :: f in plan.gzip ==> f in plan.keep && !IsGz(f.path))
            && Paths(plan.gzip) <= Paths(plan.keep)
  {
    var kept := KeepOf(files, month, p);
    var aged := set f | f in kept && ToCompress(p, now, f);
    OnlyMembers(files, kept);
    OnlyMembers(files, (set f | f in files) - kept);
    OnlyMembers(files, aged);
    OnlyDistinct(files, kept);
    OnlyDistinct(files, aged);
  }

  lemma ReplacedCount(keep: set<string>, gzip: set<string>, targets: set<string>)
    requires gzip <= keep && gzip * targets == {} && |targets| == |gzip|
    ensures |keep - gzip + targets| == |keep| <==> keep * targets == {}
  {
    assert keep == (keep - gzip) + gzip;
    assert |keep - gzip| == |keep| - |gzip|;
    UnionCount(keep - gzip, targets);
    assert (keep - gzip) * targets == keep * targets;
  }

  lemma NoneOverwritten(gzip: seq<File>, keep: set<string>)
    ensures keep * Targets(gzip) == {} <==> forall f :: f in gzip ==> Target(f.path) !in keep
  {
    forall f | f in gzip && Target(f.path) in keep ensures Target(f.path) in keep * Targets(gzip) {
    }
    if forall f :: f in gzip ==> Target(f.path) !in keep {
      forall path | path in Targets(gzip) ensures path !in keep {
      }
      assert keep * Targets(gzip) == {};
    }
  }

  lemma KeptPaths(files: seq<File>, plan: Plan)
    requires OnePerPath(files)
    requires forall f :: f in files <==> f in plan.keep || f in plan.prune
    requires forall f :: f in plan.keep ==> f !in plan.prune
    ensures Paths(files) - Paths(plan.prune) == Paths(plan.keep)
  {
    forall f, g | f in plan.keep && g in plan.prune ensures f.path != g.path {
      assert f in files && g in files && f != g;
    }
  }

  lemma NoTargetIsSource(files: seq<File>)
    requires forall f :: f in files ==> !IsGz(f.path)
    ensures Paths(files) * Targets(files) == {}
  {
    forall f | f in files ensures Target(f.path) !in Paths(files) {
      TargetIsGz(f.path);
    }
  }

  lemma UnionCount(s: set<string>, t: set<string>)
    ensures |s + t| == |s| + |t| <==> s * t == {}
  {
    assert |s + t| == |s| + |t| - |s * t|;
  }

  lemma {:induction false} OnlyDistinct(files: seq<File>, s: set<File>)
    requires Distinct(files)
    ensures Distinct(Only(files, s))
  {
    if files != [] {
      OnlyDistinct(files[1..], s);
      OnlyMembers(files[1..], s);
      assert files == [files[0]] + files[1..];
    }
  }

  lemma {:induction false} PathCount(files: seq<File>)
    requires Distinct(files) && OnePerPath(files)
    ensures |Paths(files)| == |files|
  {
    if files != [] {
      var init, last := files[..|files| - 1], files[|files| - 1];
      assert files == init + [last];
      PathCount(init);
      assert Paths(files) == Paths(init) + {last.path};
      assert last.path !in Paths(init);
    }
  }

  lemma {:induction false} TargetCount(files: seq<File>)
    requires Distinct(files) && OnePerPath(files)
    ensures |Targets(files)| == |files|
  {
    if files != [] {
      var init, last := files[..|files| - 1], files[|files| - 1];
      assert files == init + [last];
      TargetCount(init);
      PathsAppend(init, last);
      forall f | f in init ensures Target(f.path) != Target(last.path) {
        if Target(f.path) == Target(last.path) {
          TargetInjective(f.path, last.path);
        }
      }
    }
  }

  // ---- The next run after compressing ----

  /** What is left of k after n. */
  function Less(k: nat, n: nat): nat {
    if n <= k then k - n else 0
  }

  lemma TopHead(ws: seq<File>, s: set<File>, k: nat)
    requires Distinct(ws) && ws != []
    ensures ws[0] !in s ==> Top(ws, s, k) == Top(ws[1..], s, k)
    ensures ws[0] in s && k > 0 ==> Top(ws, s, k) == {ws[0]} + Top(ws[1..], s - {ws[0]}, k - 1)
  {
    if ws[0] in s && k > 0 {
      assert ws == [ws[0]] + ws[1..];
      TopSkips(ws[1..], ws[0], s, k - 1);
    }
  }

  /** In the order ws, the members of z come before the others of s. */
  ghost predicate BlockFirst(ws: seq<File>, s: set<File>, z: set<File>) {
    forall i, j :: 0 <= i < j < |ws| && ws[i] in s - z && ws[j] in s ==> ws[j] !in z
  }

  lemma BlockTail(ws: seq<File>, s: set<File>, z: set<File>, f: File)
    requires ws != [] && BlockFirst(ws, s, z)
    ensures BlockFirst(ws[1..], s - {f}, z - {f})
  {
    forall i, j | 0 <= i < j < |ws| - 1 && ws[1..][i] in s - {f} - (z - {f}) && ws[1..][j] in s - {f}
      ensures ws[1..][j] !in z - {f}
    {
      assert ws[i + 1] in s - z && ws[j + 1] in s;
    }
  }

  lemma NoBlockLater(ws: seq<File>, s: set<File>, z: set<File>)
    requires ws != [] && BlockFirst(ws, s, z) && z <= s && ws[0] in s - z && forall f :: f in z ==> f in ws
    ensures z == {}
  {
  }

  /** Files of one set that come before all others take the first places. */
  lemma {:induction false} TopAfterBlock(ws: seq<File>, s: set<File>, z: set<File>, k: nat)
    requires Distinct(ws) && z <= s && (forall f :: f in z ==> f in ws) && BlockFirst(ws, s, z)
    ensures Top(ws, s, k) == Top(ws, z, k) + Top(ws, s - z, Less(k, |z|))
  {
    if ws == [] {
      assert z == {};
    } else if k > 0 {
      var f := ws[0];
      TailCovers(ws, z);
      BlockTail(ws, s, z, f);
      if f in s - z {
        BlockOver(ws, s, z, k);
      } else if f in z {
        TopAfterBlock(ws[1..], s - {f}, z - {f}, k - 1);
        BlockHead(ws, s, z, k);
      } else {
        TopAfterBlock(ws[1..], s - {f}, z - {f}, k);
        BlockSkip(ws, s, z, k);
      }
    }
  }

  lemma BlockOver(ws: seq<File>, s: set<File>, z: set<File>, k: nat)
    requires ws != [] && z <= s && (forall f :: f in z ==> f in ws) && BlockFirst(ws, s, z) && ws[0] in s - z
    ensures Top(ws, s, k) == Top(ws, z, k) + Top(ws, s - z, Less(k, |z|))
  {
    NoBlockLater(ws, s, z);
    NoneTop(ws, z, k);
    assert |z| == 0 && s - z == s;
  }

  lemma BlockSkip(ws: seq<File>, s: set<File>, z: set<File>, k: nat)
    requires Distinct(ws) && ws != [] && z <= s && ws[0] !in s
    requires var f, rest := ws[0], ws[1..];
             Top(rest, s - {f}, k) == Top(rest, z - {f}, k) + Top(rest, s - {f} - (z - {f}), Less(k, |z - {f}|))
    ensures Top(ws, s, k) == Top(ws, z, k) + Top(ws, s - z, Less(k, |z|))
  {
    assert s - {ws[0]} == s && z - {ws[0]} == z;
    TopHead(ws, s, k);
    TopHead(ws, z, k);
    TopHead(ws, s - z, Less(k, |z|));
  }

  lemma BlockHead(ws: seq<File>, s: set<File>, z: set<File>, k: nat)
    requires Distinct(ws) && ws != [] && z <= s && ws[0] in z && k > 0
    requires var f, rest := ws[0], ws[1..];
             Top(rest, s - {f}, k - 1)
             == Top(rest, z - {f}, k - 1) + Top(rest, s - {f} - (z - {f}), Less(k - 1, |z - {f}|))
    ensures Top(ws, s, k) == Top(ws, z, k) + Top(ws, s - z, Less(k, |z|))
  {
    var f := ws[0];
    assert s - {f} - (z - {f}) == s - z && |z| == |z - {f}| + 1;
    TopHead(ws, s, k);
    TopHead(ws, z, k);
    TopHead(ws, s - z, Less(k, |z|));
  }

  lemma NoneTop(ws: seq<File>, z: set<File>, k: nat)
    requires z == {}
    ensures Top(ws, z, k) == {}
  {
    TopWithin(ws, z, k);
  }

  /** Survivors that a run compressed are newer than the others. */
  ghost predicate JustCompressed(survivors: set<File>, z: set<File>) {
    z <= survivors && forall f, g :: f in z && g in survivors - z ==> g.mtime < f.mtime
  }

  /** The places that newer files leave of a policy: so many of the month, so many overall. */
  function Room(p: Policy, ofMonth: nat, overall: nat): Policy {
    Policy(Less(p.monthly, ofMonth), Less(p.recent, overall), p.gzipAfterDays)
  }

  lemma BlocksFirst(listing: seq<File>, s: set<File>, z: set<File>, k: nat)
    requires Distinct(listing) && z <= s && forall f :: f in s ==> f in listing
    requires forall f, g :: f in z && g in s - z ==> g.mtime < f.mtime
    ensures var ws := NewestFirst(listing); Top(ws, s, k) == Top(ws, z, k) + Top(ws, s - z, Less(k, |z|))
  {
    var ws := NewestFirst(listing);
    SortedDistinct(listing);
    OrderOfTimes();
    SortSorts(listing, NotOlder);
    assert BlockFirst(ws, s, z) by {
      forall i, j | 0 <= i < j < |ws| && ws[i] in s - z && ws[j] in s ensures ws[j] !in z {
        assert NotOlder(ws[i], ws[j]);
      }
    }
    TopAfterBlock(ws, s, z, k);
  }

  /** A compressed file is placed among the compressed ones, any other in the places they leave. */
  lemma Placed(listing: seq<File>, s: set<File>, z: set<File>, k: nat, f: File)
    requires Distinct(listing) && z <= s && (forall g :: g in s ==> g in listing) && f in s
    requires forall g, h :: g in z && h in s - z ==> h.mtime < g.mtime
    ensures var ws := NewestFirst(listing);
            f in Top(ws, s, k) <==> if f in z then f in Top(ws, z, k) else f in Top(ws, s - z, Less(k, |z|))
  {
    var ws := NewestFirst(listing);
    BlocksFirst(listing, s, z, k);
    TopWithin(ws, z, k);
    TopWithin(ws, s - z, Less(k, |z|));
  }

  lemma PlacedInMonth(listing: seq<File>, month: Calendar, k: nat, survivors: set<File>, z: set<File>, f: File)
    requires Distinct(listing) && (forall g :: g in survivors ==> g in listing) && f in survivors
    requires JustCompressed(survivors, z)
    ensures var ws, own := NewestFirst(listing), month(f.mtime);
            var gone := SameMonth(z, month, own);
            f in Top(ws, SameMonth(survivors, month, own), k)
            <==> if f in z then f in Top(ws, gone, k)
                 else f in Top(ws, SameMonth(survivors - z, month, own), Less(k, |gone|))
  {
    var own := month(f.mtime);
    var mine, gone := SameMonth(survivors, month, own), SameMonth(z, month, own);
    Placed(listing, mine, gone, k, f);
    assert mine - gone == SameMonth(survivors - z, month, own);
  }

  /** A compressed file is kept exactly if it would be among the compressed ones alone. */
  lemma KeptInBlock(listing: seq<File>, month: Calendar, p: Policy, survivors: set<File>, z: set<File>, f: File)
    requires Distinct(listing) && (forall g :: g in survivors ==> g in listing)
    requires JustCompressed(survivors, z) && f in z
    ensures f in Keep(listing, month, p, survivors) <==> f in Keep(listing, month, p, z)
  {
    KeepByTop(listing, month, p, survivors, f);
    KeepByTop(listing, month, p, z, f);
    Placed(listing, survivors, z, p.recent, f);
    PlacedInMonth(listing, month, p.monthly, survivors, z, f);
  }

  /** Any other file is kept in the places that the compressed ones leave. */
  lemma KeptBeside(listing: seq<File>, month: Calendar, p: Policy, survivors: set<File>, z: set<File>, f: File)
    requires Distinct(listing) && (forall g :: g in survivors ==> g in listing)
    requires JustCompressed(survivors, z) && f in survivors - z
    ensures f in Keep(listing, month, p, survivors)
       <==> f in Keep(listing, month, Room(p, |SameMonth(z, month, month(f.mtime))|, |z|), survivors - z)
  {
    KeepByTop(listing, month, p, survivors, f);
    KeepByTop(listing, month, Room(p, |SameMonth(z, month, month(f.mtime))|, |z|), survivors - z, f);
    Placed(listing, survivors, z, p.recent, f);
    PlacedInMonth(listing, month, p.monthly, survivors, z, f);
  }

  /** Compression moves survivors into the current month: the next run keeps all of them exactly when they number no more
      than it keeps of a month, or overall. */
  lemma CompressedSurviveIff(listing: seq<File>, month: Calendar, p: Policy, survivors: set<File>, z: set<File>, m: int)
    requires Distinct(listing) && (forall f :: f in survivors ==> f in listing) && JustCompressed(survivors, z)
    requires forall f :: f in z ==> month(f.mtime) == m
    ensures z <= Keep(listing, month, p, survivors) <==> |z| <= p.monthly || |z| <= p.recent
  {
    var ws := NewestFirst(listing);
    SortedDistinct(listing);
    TopSize(ws, z, p.recent);
    TopSize(ws, z, p.monthly);
    assert SameMonth(z, month, m) == z;
    forall f | f in z
      ensures f in Keep(listing, month, p, survivors) <==> f in Top(ws, z, p.monthly) || f in Top(ws, z, p.recent)
    {
      KeptInBlock(listing, month, p, survivors, z, f);
      KeepByTop(listing, month, p, z, f);
    }
    TopGrows(ws, z, p.monthly, p.recent);
    WholeTop(z, Top(ws, z, p.monthly));
    WholeTop(z, Top(ws, z, p.recent));
  }

  lemma {:induction false} TopGrows(ws: seq<File>, z: set<File>, k: nat, n: nat)
    ensures k <= n ==> Top(ws, z, k) <= Top(ws, z, n)
    ensures n <= k ==> Top(ws, z, n) <= Top(ws, z, k)
  {
    if ws != [] && k > 0 && n > 0 {
      if ws[0] in z {
        TopGrows(ws[1..], z, k - 1, n - 1);
      } else {
        TopGrows(ws[1..], z, k, n);
      }
    }
  }

  lemma WholeTop(z: set<File>, t: set<File>)
    requires t <= z
    ensures |t| == |z| <==> z <= t
  {
    assert z == t + (z - t);
    assert z <= t ==> z == t;
  }

  /** The listing shows the tree. */
  ghost predicate Lists(files: seq<File>, tree: Tree) {
    && Distinct(files) && (forall f :: f in files ==> f.path in tree && tree[f.path].mtime == f.mtime)
    && forall path :: path in tree ==> File(path, tree[path].mtime) in files
  }

  /** The files that a plan keeps as they are: neither compressed nor overwritten by a compressed copy. */
  function Untouched(plan: Plan): set<File> {
    set f | f in plan.keep && f !in plan.gzip && f.path !in Targets(plan.gzip)
  }

  /** The compressed copies of the plan's files. */
  function Copies(plan: Plan, clock: Clock): set<File> {
    set f | f in plan.gzip :: File(Target(f.path), clock(f.path))
  }

  /** The copies are written after the files were. */
  ghost predicate WrittenLast(files: seq<File>, plan: Plan, clock: Clock) {
    forall f, g :: f in plan.gzip && g in files ==> g.mtime < clock(f.path)
  }

  lemma RunShape(files: seq<File>, tree: Tree, month: Calendar, p: Policy, now: int, clock: Clock)
    requires Lists(files, tree)
    ensures var plan := PlanOf(files, month, p, now);
            && Pruned(tree, plan.prune).Keys == Paths(plan.keep) && Compressible(Pruned(tree, plan.prune), plan.gzip)
            && After(tree, plan, clock).Keys == Paths(plan.keep) - Paths(plan.gzip) + Targets(plan.gzip)
  {
    var plan := PlanOf(files, month, p, now);
    PlanShape(files, month, p, now);
    KeptPaths(files, plan);
    forall path | path in tree ensures path in Paths(files) {
      assert File(path, tree[path].mtime) in files;
    }
    assert tree.Keys == Paths(files);
    CompressedPaths(Pruned(tree, plan.prune), plan.gzip, clock);
  }

  /** What a run leaves of a kept backup: its content at the target, if it is compressed; the file as it was, if no copy
      goes over it; and the content of another backup in its place otherwise. */
  lemma ContentsLeft(files: seq<File>, tree: Tree, month: Calendar, p: Policy, now: int, clock: Clock, f: File)
    requires Lists(files, tree) && f in PlanOf(files, month, p, now).keep
    ensures var plan := PlanOf(files, month, p, now);
            var left := After(tree, plan, clock);
            && f.path in tree
            && (f in plan.gzip ==> Target(f.path) in left
                                   && left[Target(f.path)] == Stored(clock(f.path), tree[f.path].content))
            && (f in Untouched(plan) ==> f.path in left && left[f.path] == tree[f.path])
            && (f !in plan.gzip && f !in Untouched(plan) ==>
                  exists g :: g in plan.gzip && Target(g.path) == f.path && f.path in left && g.path in tree
                              && left[f.path] == Stored(clock(g.path), tree[g.path].content))
  {
    var plan := PlanOf(files, month, p, now);
    var pruned := Pruned(tree, plan.prune);
    PlanShape(files, month, p, now);
    RunShape(files, tree, month, p, now, clock);
    assert f in files && f.path in Paths(plan.keep);
    if f in plan.gzip {
      CompressedCopies(pruned, plan.gzip, clock, f);
    } else if f in Untouched(plan) {
      assert f.path !in Paths(plan.gzip);
      CompressedOthers(pruned, plan.gzip, clock, f.path);
    } else {
      var g :| g in plan.gzip && Target(g.path) == f.path;
      CompressedCopies(pruned, plan.gzip, clock, g);
    }
  }

  lemma LeftCopy(plan: Plan, left: Tree, clock: Clock, next: seq<File>, f: File, g: File)
    requires Lists(next, left) && g in plan.gzip && f.path == Target(g.path)
    requires f.path in left && left[f.path].mtime == clock(g.path)
    ensures f in next <==> f in Untouched(plan) + Copies(plan, clock)
  {
    CopyOf(plan, clock, g, f);
    assert f.path in Targets(plan.gzip);
    assert f in next <==> left[f.path].mtime == f.mtime;
  }

  lemma LeftKept(plan: Plan, left: Tree, clock: Clock, next: seq<File>, f: File, g: File)
    requires Lists(next, left) && OnePerPath(plan.keep) && g in Untouched(plan) && f.path == g.path
    requires f.path in left && left[f.path].mtime == g.mtime
    ensures f in next <==> f in Untouched(plan) + Copies(plan, clock)
  {
    assert f !in Copies(plan, clock) by {
      NoCopy(plan, clock, f);
    }
    assert f in next <==> f == g;
  }

  lemma LeftNothing(plan: Plan, left: Tree, clock: Clock, next: seq<File>, f: File)
    requires Lists(next, left) && f.path !in left && f.path !in Targets(plan.gzip)
    requires OnePerPath(plan.keep) && (forall g :: g in plan.gzip ==> g in plan.keep)
    requires forall g :: g in plan.keep && g.path == f.path ==> g.path in Paths(plan.gzip)
    ensures f !in next && f !in Untouched(plan) + Copies(plan, clock)
  {
    NoCopy(plan, clock, f);
  }

  lemma NoCopy(plan: Plan, clock: Clock, f: File)
    requires f.path !in Targets(plan.gzip)
    ensures f !in Copies(plan, clock)
  {
  }

  /** What a run leaves: the untouched files and the copies. */
  lemma LeftByRun(files: seq<File>, tree: Tree, month: Calendar, p: Policy, now: int, clock: Clock, next: seq<File>,
      f: File)
    requires Lists(files, tree) && Lists(next, After(tree, PlanOf(files, month, p, now), clock))
    ensures var plan := PlanOf(files, month, p, now); f in next <==> f in Untouched(plan) + Copies(plan, clock)
  {
    var plan := PlanOf(files, month, p, now);
    PlanShape(files, month, p, now);
    forall g | g in plan.gzip || g in Untouched(plan) ensures LeftOf(plan, After(tree, plan, clock), clock, g) {
      assert g in plan.keep && g in files;
      ContentsLeft(files, tree, month, p, now, clock, g);
    }
    RunShape(files, tree, month, p, now, clock);
    LeftFile(plan, After(tree, plan, clock), clock, next, f);
  }

  ghost predicate LeftOf(plan: Plan, left: Tree, clock: Clock, g: File) {
    && (g in plan.gzip ==> Target(g.path) in left && left[Target(g.path)].mtime == clock(g.path))
    && (g in Untouched(plan) ==> g.path in left && left[g.path].mtime == g.mtime)
  }

  lemma LeftFile(plan: Plan, left: Tree, clock: Clock, next: seq<File>, f: File)
    requires Lists(next, left) && left.Keys == Paths(plan.keep) - Paths(plan.gzip) + Targets(plan.gzip)
    requires OnePerPath(plan.keep) && forall g :: g in plan.gzip ==> g in plan.keep
    requires forall g :: g in plan.gzip || g in Untouched(plan) ==> LeftOf(plan, left, clock, g)
    ensures f in next <==> f in Untouched(plan) + Copies(plan, clock)
  {
    if g :| g in plan.gzip && Target(g.path) == f.path {
      assert LeftOf(plan, left, clock, g);
      LeftCopy(plan, left, clock, next, f, g);
    } else if g :| g in plan.keep && g.path == f.path && g.path !in Paths(plan.gzip) {
      assert g in Untouched(plan);
      assert LeftOf(plan, left, clock, g);
      LeftKept(plan, left, clock, next, f, g);
    } else {
      LeftNothing(plan, left, clock, next, f);
    }
  }

  lemma CopyOf(plan: Plan, clock: Clock, g: File, f: File)
    requires g in plan.gzip && f.path == Target(g.path)
    ensures f in Copies(plan, clock) <==> f == File(Target(g.path), clock(g.path))
  {
    if f in Copies(plan, clock) {
      var h :| h in plan.gzip && f == File(Target(h.path), clock(h.path));
      TargetInjective(h.path, g.path);
    }
  }

  /** Exactly when the next run plans nothing: every compressed copy would be kept among the copies alone; every
      untouched file is still among the newest of its month, or overall, in the places that the copies leave; and none has
      come of age for compression. */
  lemma NextRunPlansNothingIff(files: seq<File>, tree: Tree, month: Calendar, p: Policy, now: int, clock: Clock,
      next: seq<File>, later: int)
    requires Lists(files, tree) && WrittenLast(files, PlanOf(files, month, p, now), clock)
    requires Lists(next, After(tree, PlanOf(files, month, p, now), clock))
    ensures var plan, again := PlanOf(files, month, p, now), PlanOf(next, month, p, later);
            var copies, rest := Copies(plan, clock), Untouched(plan);
            again.prune == [] && again.gzip == []
            <==> && (forall f :: f in copies ==> Kept(Only(next, copies), month, p, f))
                 && forall f :: f in rest ==>
                      && Kept(Only(next, rest), month, Room(p, |SameMonth(copies, month, month(f.mtime))|, |copies|), f)
                      && !ToCompress(p, later, f)
  {
    var plan := PlanOf(files, month, p, now);
    var z, u := Copies(plan, clock), Untouched(plan);
    NextRunFiles(files, tree, month, p, now, clock, next);
    PlansNothingIff(next, month, p, later);
    AllKeptIff(next, month, p, z, u);
    forall f | f in z ensures !ToCompress(p, later, f) {
      var g :| g in plan.gzip && f == File(Target(g.path), clock(g.path));
      TargetIsGz(g.path);
    }
  }

  lemma NextRunFiles(files: seq<File>, tree: Tree, month: Calendar, p: Policy, now: int, clock: Clock, next: seq<File>)
    requires Lists(files, tree) && WrittenLast(files, PlanOf(files, month, p, now), clock)
    requires Lists(next, After(tree, PlanOf(files, month, p, now), clock))
    ensures var plan := PlanOf(files, month, p, now);
            var z, u := Copies(plan, clock), Untouched(plan);
            (forall f :: f in next <==> f in z + u) && z !! u && JustCompressed(z + u, z)
  {
    var plan := PlanOf(files, month, p, now);
    var z, u := Copies(plan, clock), Untouched(plan);
    forall f ensures f in next <==> f in z + u {
      LeftByRun(files, tree, month, p, now, clock, next, f);
    }
    PlanShape(files, month, p, now);
    forall f | f in z ensures f !in u {
      var g :| g in plan.gzip && f == File(Target(g.path), clock(g.path));
      assert f.path in Targets(plan.gzip);
    }
    forall f, g | f in z && g in z + u - z ensures g.mtime < f.mtime {
      assert g in files;
    }
  }

  /** Everything is kept exactly when the copies are among themselves, and the others in the places left. */
  lemma AllKeptIff(next: seq<File>, month: Calendar, p: Policy, z: set<File>, u: set<File>)
    requires Distinct(next) && (forall f :: f in next <==> f in z + u) && z !! u && JustCompressed(z + u, z)
    ensures (forall f :: f in next ==> Kept(next, month, p, f))
       <==> && (forall f :: f in z ==> Kept(Only(next, z), month, p, f))
            && forall f :: f in u ==> Kept(Only(next, u), month, Room(p, |SameMonth(z, month, month(f.mtime))|, |z|), f)
  {
    var s := z + u;
    assert s - z == u;
    OnlyAll(next, s);
    assert Keep(next, month, p, s) == KeepOf(next, month, p);
    forall f | f in z ensures Kept(next, month, p, f) <==> Kept(Only(next, z), month, p, f) {
      KeptInBlock(next, month, p, s, z, f);
      OnlyMembers(next, z);
      assert f in next && f in Only(next, z);
    }
    forall f | f in u
      ensures Kept(next, month, p, f)
         <==> Kept(Only(next, u), month, Room(p, |SameMonth(z, month, month(f.mtime))|, |z|), f)
    {
      KeptBeside(next, month, p, s, z, f);
      OnlyMembers(next, u);
      assert f in next && f in Only(next, u);
    }
  }

  /** A run that compresses nothing leaves a tree that, listed in the same order, the next one does not prune. */
  lemma PrunedTreeStays(files: seq<File>, month: Calendar, p: Policy, now: int, later: int)
    ensures PlanOf(PlanOf(files, month, p, now).keep, month, p, later).prune == []
  {
    var all := set f | f in files;
    var kept := KeepOf(files, month, p);
    var next := Only(files, kept);
    OnlyAll(files, all);
    SecondRunPrunesNothing(files, month, p, all);
    assert KeepOf(next, month, p) == kept;
    OnlyMembers(files, kept);
    var rest := (set f | f in next) - kept;
    OnlyMembers(next, rest);
    if Only(next, rest) != [] {
      assert Only(next, rest)[0] in Only(next, rest);
    }
  }

  lemma PlansNothingIff(files: seq<File>, month: Calendar, p: Policy, now: int)
    ensures PlanOf(files, month, p, now).prune == [] && PlanOf(files, month, p, now).gzip == []
       <==> forall f :: f in files ==> Kept(files, month, p, f) && !ToCompress(p, now, f)
  {
    var kept := KeepOf(files, month, p);
    var rest, aged := (set f | f in files) - kept, set f | f in kept && ToCompress(p, now, f);
    OnlyMembers(files, rest);
    OnlyMembers(files, aged);
    if Only(files, rest) != [] {
      assert Only(files, rest)[0] in Only(files, rest);
    }
    if Only(files, aged) != [] {
      assert Only(files, aged)[0] in Only(files, aged);
    }
  }

  /** It does happen: two backups of different months, both kept and both old enough to be compressed; the next run
      prunes one of the copies. */
  lemma CompressionLosesABackup(x: File, y: File, tree: Tree, month: Calendar, now: int, clock: Clock,
      next: seq<File>, later: int)
    requires x.path != y.path && !IsGz(x.path) && !IsGz(y.path) && x.mtime < y.mtime < now && Lists([x, y], tree)
    requires month(x.mtime) != month(y.mtime) && (now - y.mtime) / DAY >= 7
    requires clock(x.path) >= now && clock(y.path) >= now && month(clock(x.path)) == month(clock(y.path))
    requires Lists(next, After(tree, PlanOf([x, y], month, Policy(1, 1, 7), now), clock))
    ensures var p := Policy(1, 1, 7);
            PlanOf([x, y], month, p, now).gzip == [x, y] && PlanOf(next, month, p, later).prune != []
  {
    var fx, fy := File(Target(x.path), clock(x.path)), File(Target(y.path), clock(y.path));
    AgedBoth(x, y, month, now);
    TwoCopies(x, y, clock);
    BothListed(x, y, tree, month, now, clock, next);
    OneOfTwo(next, month, Policy(1, 1, 7), fx, fy, later);
  }

  lemma BothListed(x: File, y: File, tree: Tree, month: Calendar, now: int, clock: Clock, next: seq<File>)
    requires Lists([x, y], tree) && Lists(next, After(tree, PlanOf([x, y], month, Policy(1, 1, 7), now), clock))
    requires var plan := PlanOf([x, y], month, Policy(1, 1, 7), now); plan.keep == plan.gzip == [x, y]
    ensures forall f :: f in next
              <==> f in {File(Target(x.path), clock(x.path)), File(Target(y.path), clock(y.path))}
  {
    var plan := PlanOf([x, y], month, Policy(1, 1, 7), now);
    BothCopied(plan, clock, x, y);
    forall f ensures f in next <==> f in Copies(plan, clock) {
      LeftByRun([x, y], tree, month, Policy(1, 1, 7), now, clock, next, f);
    }
  }

  lemma BothCopied(plan: Plan, clock: Clock, x: File, y: File)
    requires plan.keep == plan.gzip == [x, y]
    ensures Copies(plan, clock) == {File(Target(x.path), clock(x.path)), File(Target(y.path), clock(y.path))}
    ensures Untouched(plan) == {}
  {
    assert forall f :: f in plan.gzip <==> f == x || f == y;
  }

  lemma AgedBoth(x: File, y: File, month: Calendar, now: int)
    requires !IsGz(x.path) && !IsGz(y.path) && x.mtime < y.mtime
    requires month(x.mtime) != month(y.mtime) && (now - y.mtime) / DAY >= 7
    ensures var plan := PlanOf([x, y], month, Policy(1, 1, 7), now); plan.keep == [x, y] && plan.gzip == [x, y]
  {
    var p, files := Policy(1, 1, 7), [x, y];
    NewestOfMonth(x, y, month);
    assert Kept(files, month, p, x) && Kept(files, month, p, y);
    OnlyAll(files, KeepOf(files, month, p));
    OnlyAll(files, set f | f in KeepOf(files, month, p) && ToCompress(p, now, f));
  }

  lemma OneOfTwo(next: seq<File>, month: Calendar, p: Policy, x: File, y: File, later: int)
    requires Distinct(next) && (forall f :: f in next <==> f in {x, y}) && |{x, y}| == 2
    requires p.monthly == p.recent == 1 && month(x.mtime) == month(y.mtime)
    ensures PlanOf(next, month, p, later).prune != []
  {
    var both := {x, y};
    CompressedSurviveIff(next, month, p, both, both, month(x.mtime));
    var f :| f in both && f !in Keep(next, month, p, both);
    OnlyAll(next, both);
    var rest := (set g | g in next) - KeepOf(next, month, p);
    assert f in rest;
    OnlyMembers(next, rest);
    assert f in Only(next, rest);
  }

  lemma TwoCopies(x: File, y: File, clock: Clock)
    requires x.path != y.path
    ensures |{File(Target(x.path), clock(x.path)), File(Target(y.path), clock(y.path))}| == 2
  {
    if Target(x.path) == Target(y.path) {
      TargetInjective(x.path, y.path);
    }
  }

  /** A kept backup is lost at once when another one's copy takes its name: of x and x.gz only x's content is left. */
  lemma CompressionOverwrites(x: File, y: File, tree: Tree, month: Calendar, now: int, clock: Clock)
    requires y.path == Target(x.path) && !IsGz(x.path) && x.mtime < y.mtime && Lists([x, y], tree)
    requires (now - x.mtime) / DAY >= 7
    ensures var p := Policy(1, 2, 7);
            var plan := PlanOf([x, y], month, p, now);
            plan == Plan([x, y], [], [x]) && After(tree, plan, clock) == map[y.path := Stored(clock(x.path), tree[x.path].content)]
  {
    var p, files := Policy(1, 2, 7), [x, y];
    var plan := PlanOf(files, month, p, now);
    AllRecent(x, y, month);
    OnlyAll(files, KeepOf(files, month, p));
    AgedAlone(x, y, month, now);
    OnlyNone(files, (set f | f in files) - KeepOf(files, month, p));
    assert tree.Keys == {x.path, y.path} by {
      assert x in files && y in files;
    }
    OnePath(tree, plan, clock, x, y);
  }

  lemma OnePath(tree: Tree, plan: Plan, clock: Clock, x: File, y: File)
    requires plan == Plan([x, y], [], [x]) && tree.Keys == {x.path, y.path} && y.path == Target(x.path)
    ensures After(tree, plan, clock) == map[y.path := Stored(clock(x.path), tree[x.path].content)]
  {
    assert Paths(plan.prune) == {} && Pruned(tree, plan.prune) == tree;
    assert plan.gzip[..0] == [] && x.path != y.path;
    assert AllCompressed(tree, plan.gzip, clock) == Compressed(tree, x.path, clock);
  }

  lemma AllRecent(x: File, y: File, month: Calendar)
    ensures var p, files := Policy(1, 2, 7), [x, y]; Kept(files, month, p, x) && Kept(files, month, p, y)
  {
    var ws := NewestFirst([x, y]);
    OrderOfTimes();
    SortSorts([x, y], NotOlder);
    assert |ws| == |multiset(ws)| == |multiset([x, y])| == 2;
    assert x in multiset(ws) && y in multiset(ws);
    assert Take(ws, 2) == ws;
  }

  lemma AgedAlone(x: File, y: File, month: Calendar, now: int)
    requires y.path == Target(x.path) && !IsGz(x.path) && (now - x.mtime) / DAY >= 7
    ensures PlanOf([x, y], month, Policy(1, 2, 7), now).gzip == [x]
  {
    var p, files := Policy(1, 2, 7), [x, y];
    var aged := set f | f in KeepOf(files, month, p) && ToCompress(p, now, f);
    AllRecent(x, y, month);
    TargetIsGz(x.path);
    assert x in aged && y !in aged;
    assert files[1..] == [y] && [y][1..] == [];
    assert Only([y], aged) == [];
  }

  lemma NewestOfMonth(x: File, y: File, month: Calendar)
    requires month(x.mtime) != month(y.mtime)
    ensures x in Take(NewestFirst(InMonth([x, y], month, month(x.mtime))), 1)
    ensures y in Take(NewestFirst(InMonth([x, y], month, month(y.mtime))), 1)
  {
    assert [x, y][1..] == [y] && [y][1..] == [] && [x][1..] == [];
    assert InMonth([y], month, month(y.mtime)) == [y] && InMonth([y], month, month(x.mtime)) == [];
    assert InMonth([x, y], month, month(x.mtime)) == [x] && InMonth([x, y], month, month(y.mtime)) == [y];
    SortOne(x);
    SortOne(y);
  }

  lemma SortOne(x: File)
    ensures NewestFirst([x]) == [x]
  {
    var none: seq<File> := [];
    assert [x][1..] == none && Sort(none, NotOlder) == none && [x] + none == [x];
    assert Insert(x, none, NotOlder) == [x];
  }

  lemma {:induction false} OnlyNone(files: seq<File>, s: set<File>)
    requires forall f :: f in files ==> f !in s
    ensures Only(files, s) == []
  {
    if files != [] {
      OnlyNone(files[1..], s);
      assert files == [files[0]] + files[1..];
    }
  }

  lemma {:induction false} OnlyAll(files: seq<File>, s: set<File>)
    requires forall f :: f in files ==> f in s
    ensures Only(files, s) == files
  {
    if files != [] {
      OnlyAll(files[1..], s);
      assert files == [files[0]] + files[1..];
    }
  }
}
