/** Rebuilds the legacy evaluation episodes from the raw rows of the source snapshot. */
module EpisodeReconstruction {
  import opened Wrappers
  import opened Sequences
  import opened StringOrder
  import opened EpisodeIdentity

  type Preparation = Row -> Result<Occurrence, Invalid>

  /** All rows prepared, or the error of the first row that cannot be. */
  function PrepareAll(rows: seq<Row>, prepare: Preparation): Result<seq<Occurrence>, Invalid> {
    if rows == [] then Success([])
    else
      var before := PrepareAll(rows[..|rows| - 1], prepare);
      if before.Failure? then before
      else
        var last := prepare(rows[|rows| - 1]);
        if last.Failure? then Failure(last.error) else Success(before.value + [last.value])
  }

  /** A membership role as stored; a migrated clone may hold any text. */
  datatype Role = Anchor | Duplicate | Other(text: string)

  datatype Member = Member(evaluationId: int, episodeId: string, role: Role, ordinal: int, recordedAt: string)

  datatype Episode = Episode(
    id: string, ticker: string, canonical: string, semanticSha: string, resultSha: string, status: string,
    firstEvaluatedAt: string, lastEvaluatedAt: string, members: seq<Member>)

  /** The occurrences of one episode, in query order. */
  function GroupOf(os: seq<Occurrence>, id: string): seq<Occurrence> {
    if os == [] then []
    else
      var last := os[|os| - 1];
      GroupOf(os[..|os| - 1], id) + if last.episodeId == id then [last] else []
  }

  function EpisodeIds(os: seq<Occurrence>): set<string> {
    set o | o in os :: o.episodeId
  }

  function MemberOf(o: Occurrence, ordinal: nat): Member {
    Member(o.id, o.episodeId, if ordinal == 1 then Anchor else Duplicate, ordinal, o.evaluatedAt)
  }

  function MembersOf(group: seq<Occurrence>): (ms: seq<Member>)
    ensures |ms| == |group|
    ensures forall n :: 0 <= n < |ms| ==> ms[n] == MemberOf(group[n], n + 1)
  {
    seq(|group|, n requires 0 <= n < |group| => MemberOf(group[n], n + 1))
  }

  function EpisodeOf(id: string, ticker: string, group: seq<Occurrence>): Episode
    requires group != []
  {
    Episode(id, ticker, group[0].canonical, group[0].semanticSha, group[0].resultSha, group[0].status,
            group[0].evaluatedAt, group[|group| - 1].evaluatedAt, MembersOf(group))
  }

  lemma {:induction false} GroupElements(os: seq<Occurrence>, id: string)
    ensures forall n :: 0 <= n < |GroupOf(os, id)| ==> GroupOf(os, id)[n] in os && GroupOf(os, id)[n].episodeId == id
    ensures id in EpisodeIds(os) <==> GroupOf(os, id) != []
  {
    if os != [] {
      var init := os[..|os| - 1];
      GroupElements(init, id);
      assert os == init + [os[|os| - 1]];
      assert EpisodeIds(os) == EpisodeIds(init) + {os[|os| - 1].episodeId};
    }
  }

  /** es lists the episodes of ids, each built from its group. */
  ghost predicate Lists(es: seq<Episode>, ids: seq<string>, ticker: string, os: seq<Occurrence>) {
    |es| == |ids| && forall i :: 0 <= i < |es| ==> IsEpisode(es[i], ids[i], ticker, os)
  }

  ghost predicate IsEpisode(e: Episode, id: string, ticker: string, os: seq<Occurrence>) {
    GroupOf(os, id) != [] && e == EpisodeOf(id, ticker, GroupOf(os, id))
  }

  ghost predicate Reconstructs(es: seq<Episode>, ticker: string, os: seq<Occurrence>) {
    Lists(es, SortedKeys(EpisodeIds(os)), ticker, os)
  }

  /** The dictionary of lists built from os. */
  ghost predicate Grouped(grouped: map<string, seq<Occurrence>>, os: seq<Occurrence>) {
    grouped.Keys == EpisodeIds(os) && forall id :: id in grouped ==> grouped[id] == GroupOf(os, id)
  }

  function AddTo(grouped: map<string, seq<Occurrence>>, o: Occurrence): map<string, seq<Occurrence>> {
    grouped[o.episodeId := (if o.episodeId in grouped then grouped[o.episodeId] else []) + [o]]
  }

  lemma AddKeepsGrouped(grouped: map<string, seq<Occurrence>>, os: seq<Occurrence>, o: Occurrence)
    requires Grouped(grouped, os)
    ensures Grouped(AddTo(grouped, o), os + [o])
  {
    GroupElements(os, o.episodeId);
    assert (os + [o])[..|os|] == os;
    assert EpisodeIds(os + [o]) == EpisodeIds(os) + {o.episodeId};
  }

  /** First loop of the source: fills a dictionary of lists, one list an episode. */
  method GroupRows(rows: seq<Row>, prepare: Preparation)
    returns (error: Option<Invalid>, grouped: map<string, seq<Occurrence>>)
    ensures error.Some? <==> PrepareAll(rows, prepare).Failure?
    ensures error.None? ==> Grouped(grouped, PrepareAll(rows, prepare).value)
    ensures error.Some? ==> PrepareAll(rows, prepare).error == error.value
  {
    error, grouped := None, map[];
    ghost var os: seq<Occurrence> := [];
    for n := 0 to |rows|
      invariant PrepareAll(rows[..n], prepare) == Success(os)
      invariant Grouped(grouped, os)
    {
      assert rows[..n + 1][..n] == rows[..n];
      var prepared := prepare(rows[n]);
      if prepared.Failure? {
        PrepareFails(rows, n + 1, prepare);
        return Some(prepared.error), map[];
      }
      AddKeepsGrouped(grouped, os, prepared.value);
      grouped := AddTo(grouped, prepared.value);
      os := os + [prepared.value];
    }
    assert rows[..|rows|] == rows;
  }

  lemma {:induction false} PrepareFails(rows: seq<Row>, n: nat, prepare: Preparation)
    requires n <= |rows| && PrepareAll(rows[..n], prepare).Failure?
    ensures PrepareAll(rows, prepare) == PrepareAll(rows[..n], prepare)
    decreases |rows|
  {
    if n < |rows| {
      assert rows[..|rows| - 1][..n] == rows[..n];
      PrepareFails(rows[..|rows| - 1], n, prepare);
    } else {
      assert rows[..n] == rows;
    }
  }

  lemma ListsMore(es: seq<Episode>, ids: seq<string>, ticker: string, os: seq<Occurrence>, i: nat, e: Episode)
    requires i < |ids| && IsEpisode(e, ids[i], ticker, os) && Lists(es, ids[..i], ticker, os)
    ensures Lists(es + [e], ids[..i + 1], ticker, os)
  {
    assert forall k :: 0 <= k < i ==> (es + [e])[k] == es[k];
  }

  /** The whole reconstruction: groups the rows, then emits the episodes in the order of their ids. */
  method ExpectedEpisodes(rows: seq<Row>, ticker: string, prepare: Preparation)
    returns (r: Result<seq<Episode>, Invalid>)
    ensures r.Success? <==> PrepareAll(rows, prepare).Success?
    ensures r.Success? ==> Reconstructs(r.value, ticker, PrepareAll(rows, prepare).value)
    ensures r.Failure? ==> r.error == PrepareAll(rows, prepare).error
  {
    var error, grouped := GroupRows(rows, prepare);
    if error.Some? {
      return Failure(error.value);
    }
    ghost var os := PrepareAll(rows, prepare).value;
    var ids := SortedKeys(grouped.Keys);
    var episodes: seq<Episode> := [];
    for i := 0 to |ids|
      invariant Lists(episodes, ids[..i], ticker, os)
    {
      assert ids[i] in grouped;
      GroupElements(os, ids[i]);
      var episode := EpisodeOf(ids[i], ticker, grouped[ids[i]]);
      ListsMore(episodes, ids, ticker, os, i, episode);
      episodes := episodes + [episode];
    }
    assert ids[..|ids|] == ids;
    r := Success(episodes);
  }

  // ---- The reconstruction is a partition of the rows ----

  /** Reference definition, row by row: a row's ordinal is one more than the number of earlier rows of its episode. */
  ghost function MemberTable(os: seq<Occurrence>): map<int, Member> {
    if os == [] then map[]
    else
      var init, last := os[..|os| - 1], os[|os| - 1];
      MemberTable(init)[last.id := MemberOf(last, |GroupOf(init, last.episodeId)| + 1)]
  }

  ghost predicate DistinctIds(os: seq<Occurrence>) {
    forall i, j :: 0 <= i < j < |os| ==> os[i].id != os[j].id
  }

  /** The n-th member of an episode is the table's entry for a row, and that row's alone. */
  lemma {:induction false} MemberInTable(os: seq<Occurrence>, id: string, n: nat)
    requires DistinctIds(os) && n < |GroupOf(os, id)|
    ensures var o := GroupOf(os, id)[n];
      o.id in MemberTable(os) && MemberTable(os)[o.id] == MembersOf(GroupOf(os, id))[n] && o.episodeId == id
  {
    var init, last := os[..|os| - 1], os[|os| - 1];
    if n < |GroupOf(init, id)| {
      MemberInTable(init, id, n);
      GroupElements(init, id);
      assert GroupOf(os, id)[n] == GroupOf(init, id)[n];
    }
  }

  /** Every row is the member of its episode that its ordinal says. */
  lemma {:induction false} RowInEpisode(os: seq<Occurrence>, k: nat) returns (n: nat)
    requires DistinctIds(os) && k < |os|
    ensures n < |GroupOf(os, os[k].episodeId)| && GroupOf(os, os[k].episodeId)[n] == os[k]
    ensures os[k].id in MemberTable(os) && MemberTable(os)[os[k].id] == MemberOf(os[k], n + 1)
    decreases |os|
  {
    var init := os[..|os| - 1];
    if k < |init| {
      n := RowInEpisode(init, k);
    } else {
      n := |GroupOf(init, os[k].episodeId)|;
    }
  }

  lemma {:induction false} MemberTableKeys(os: seq<Occurrence>)
    ensures forall x :: x in MemberTable(os) <==> exists k :: 0 <= k < |os| && os[k].id == x
  {
    if os != [] {
      var init := os[..|os| - 1];
      MemberTableKeys(init);
      forall x | x in MemberTable(init) ensures exists k :: 0 <= k < |os| && os[k].id == x {
        var k :| 0 <= k < |init| && init[k].id == x;
        assert os[k].id == x;
      }
      assert os[|os| - 1].id in MemberTable(os);
    }
  }

  ghost predicate IsMember(es: seq<Episode>, m: Member) {
    exists i :: 0 <= i < |es| && m in es[i].members
  }

  lemma MemberOfEpisode(es: seq<Episode>, ids: seq<string>, ticker: string, os: seq<Occurrence>, i: nat, n: nat)
    requires DistinctIds(os) && Lists(es, ids, ticker, os) && i < |es| && n < |es[i].members|
    ensures var m := es[i].members[n];
      && m.evaluationId in MemberTable(os) && MemberTable(os)[m.evaluationId] == m
      && m.episodeId == es[i].id && m.ordinal == n + 1 && (m.role == Anchor <==> n == 0)
  {
    assert IsEpisode(es[i], ids[i], ticker, os);
    MemberInTable(os, ids[i], n);
  }

  lemma RowIsMember(es: seq<Episode>, ticker: string, os: seq<Occurrence>, x: int)
    requires DistinctIds(os) && Reconstructs(es, ticker, os) && x in MemberTable(os)
    ensures MemberTable(os)[x].evaluationId == x && IsMember(es, MemberTable(os)[x])
  {
    MemberTableKeys(os);
    var k :| 0 <= k < |os| && os[k].id == x;
    var n := RowInEpisode(os, k);
    var ids := SortedKeys(EpisodeIds(os));
    assert os[k].episodeId in EpisodeIds(os);
    var i :| 0 <= i < |ids| && ids[i] == os[k].episodeId;
    assert IsEpisode(es[i], ids[i], ticker, os);
    assert es[i].members[n] == MemberOf(os[k], n + 1);
  }

  /** The episodes partition the table: every member of an episode is the table's entry for its row, every entry is a
      member of one episode, ordinals run from 1 without gaps, and only the first member is the anchor. */
  ghost predicate Partitions(es: seq<Episode>, table: map<int, Member>) {
    && (forall i, j :: 0 <= i < j < |es| ==> es[i].id != es[j].id)
    && (forall i :: 0 <= i < |es| ==> es[i].members != [])
    && (forall i, n :: 0 <= i < |es| && 0 <= n < |es[i].members| ==> MemberFits(es[i], n, table))
    && (forall x :: x in table ==> table[x].evaluationId == x && IsMember(es, table[x]))
  }

  ghost predicate MemberFits(e: Episode, n: nat, table: map<int, Member>)
    requires n < |e.members|
  {
    var m := e.members[n];
    && m.evaluationId in table && table[m.evaluationId] == m
    && m.episodeId == e.id && m.ordinal == n + 1 && (m.role == Anchor <==> n == 0)
  }

  lemma ReconstructionPartitions(es: seq<Episode>, ticker: string, os: seq<Occurrence>)
    requires DistinctIds(os) && Reconstructs(es, ticker, os)
    ensures Partitions(es, MemberTable(os))
  {
    var ids := SortedKeys(EpisodeIds(os));
    assert forall i :: 0 <= i < |es| ==> IsEpisode(es[i], ids[i], ticker, os);
    forall i, n | 0 <= i < |es| && 0 <= n < |es[i].members| ensures MemberFits(es[i], n, MemberTable(os)) {
      MemberOfEpisode(es, ids, ticker, os, i, n);
    }
    forall x | x in MemberTable(os) ensures MemberTable(os)[x].evaluationId == x && IsMember(es, MemberTable(os)[x]) {
      RowIsMember(es, ticker, os, x);
    }
  }
}
