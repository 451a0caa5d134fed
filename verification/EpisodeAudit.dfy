/** Compares a migrated clone with the reconstruction, check by check. */
module EpisodeAudit {
  import opened Indexing
  import opened Sequences
  import opened StableSort
  import opened EpisodeIdentity
  import opened EpisodeReconstruction

  const PROVENANCE := "partial"

  datatype ActualEpisode = ActualEpisode(
    id: string, policy: string, provenance: string, canonical: string, semanticSha: string, resultSha: string,
    status: string, firstEvaluatedAt: string, lastSeenAt: string, occurrenceCount: int)

  /** A membership row of the clone joined with the ticker of its episode. */
  datatype ActualMember = ActualMember(member: Member, episodeTicker: string)

  datatype Expectations = Expectations(rawRows: int, legacyEpisodes: int, groupSizes: seq<int>)

  datatype Input = Input(
    ticker: string, expected: seq<Episode>, actual: seq<ActualEpisode>, members: seq<ActualMember>,
    sourceRows: seq<(int, string)>, cloneRows: seq<(int, string)>, expectations: Expectations,
    revisionMatches: bool, sourceIsAncestor: bool, cloneAtTarget: bool)

  datatype Reason =
    | SnapshotRevision | NotAnAncestor | CloneRevision | SourceRowCount | CloneRowCount | RawRowsChanged
    | SourceEpisodeCount | SourceGroupSizes | CloneEpisodeCount | SemanticIdentity | MembershipMapping
    | MembershipStructure | EpisodeCounts | NotMappedOnce

  // ---- The collections the checks read ----

  function AllMembers(es: seq<Episode>): seq<Member> {
    if es == [] then [] else AllMembers(es[..|es| - 1]) + es[|es| - 1].members
  }

  function EvaluationId(m: Member): int {
    m.evaluationId
  }

  function EpisodeKey(e: Episode): string {
    e.id
  }

  function ActualKey(e: ActualEpisode): string {
    e.id
  }

  function RowId(row: (int, string)): int {
    row.0
  }

  function TableOf(ms: seq<Member>): map<int, Member> {
    Index(ms, EvaluationId)
  }

  function EpisodeTable(es: seq<Episode>): map<string, Episode> {
    Index(es, EpisodeKey)
  }

  function ExpectedTable(a: Input): map<int, Member> {
    TableOf(AllMembers(a.expected))
  }

  function RelevantIn(members: seq<ActualMember>, ids: set<int>, ticker: string): seq<Member> {
    if members == [] then []
    else
      var last := members[|members| - 1];
      RelevantIn(members[..|members| - 1], ids, ticker)
      + if last.member.evaluationId in ids || last.episodeTicker == ticker then [last.member] else []
  }

  /** The clone's memberships that name a source row or belong to an episode of the ticker. */
  function Relevant(a: Input): seq<Member> {
    RelevantIn(a.members, ExpectedTable(a).Keys, a.ticker)
  }

  function CountIn(ms: seq<Member>, episodeId: string): nat {
    if ms == [] then 0
    else CountIn(ms[..|ms| - 1], episodeId) + if ms[|ms| - 1].episodeId == episodeId then 1 else 0
  }

  function Ascending(i: int, j: int): bool {
    i <= j
  }

  function ExpectedSizes(es: seq<Episode>): (sizes: seq<int>)
    ensures |sizes| == |es| && forall i :: 0 <= i < |es| ==> sizes[i] == |es[i].members|
  {
    seq(|es|, i requires 0 <= i < |es| => |es[i].members|)
  }

  function ActualSizes(actual: seq<ActualEpisode>, relevant: seq<Member>): (sizes: seq<int>)
    ensures |sizes| == |actual| && forall i :: 0 <= i < |actual| ==> sizes[i] == CountIn(relevant, actual[i].id)
  {
    seq(|actual|, i requires 0 <= i < |actual| => CountIn(relevant, actual[i].id))
  }

  // ---- The checks ----

  predicate SemanticMatches(e: Episode, a: ActualEpisode) {
    && a.policy == POLICY && a.provenance == PROVENANCE
    && a.canonical == e.canonical && a.semanticSha == e.semanticSha && a.resultSha == e.resultSha
    && a.status == e.status && a.firstEvaluatedAt == e.firstEvaluatedAt && a.lastSeenAt == e.lastEvaluatedAt
  }

  function ActualIds(actual: seq<ActualEpisode>): set<string> {
    set e | e in actual :: e.id
  }

  predicate IdentityHolds(es: seq<Episode>, actual: seq<ActualEpisode>) {
    var expected := EpisodeTable(es);
    && ActualIds(actual) == expected.Keys && |actual| == |es|
    && forall e | e in actual :: e.id in expected && SemanticMatches(expected[e.id], e)
  }

  predicate OneRowEach(expected: map<int, Member>, relevant: seq<Member>) {
    |relevant| == |TableOf(relevant)| && TableOf(relevant).Keys == expected.Keys
  }

  predicate MappingHolds(expected: map<int, Member>, relevant: seq<Member>) {
    var actual := TableOf(relevant);
    OneRowEach(expected, relevant) && forall id | id in expected.Keys + actual.Keys ::
      id in expected && id in actual && expected[id].episodeId == actual[id].episodeId
  }

  predicate StructureHolds(expected: map<int, Member>, relevant: seq<Member>) {
    var actual := TableOf(relevant);
    OneRowEach(expected, relevant) && forall id | id in expected.Keys + actual.Keys ::
      && id in expected && id in actual && expected[id].role == actual[id].role
      && expected[id].ordinal == actual[id].ordinal && expected[id].recordedAt == actual[id].recordedAt
  }

  predicate CountMatches(e: ActualEpisode, expected: map<string, Episode>, count: nat) {
    e.id in expected && e.occurrenceCount == |expected[e.id].members| && count == |expected[e.id].members|
  }

  predicate CountsHold(es: seq<Episode>, actual: seq<ActualEpisode>, relevant: seq<Member>) {
    && ActualIds(actual) == EpisodeTable(es).Keys
    && forall e | e in actual :: CountMatches(e, EpisodeTable(es), CountIn(relevant, e.id))
  }

  predicate MappedOnce(sourceIds: seq<int>, relevant: seq<Member>) {
    var ids := Keys(relevant, EvaluationId);
    |ids| == |sourceIds| && |set id | id in ids| == |ids| && Sort(ids, Ascending) == sourceIds
  }

  /** The outcome of every check the source makes. */
  datatype Checks = Checks(
    revisionMatches: bool, sourceIsAncestor: bool, cloneAtTarget: bool, sourceRowCount: bool, cloneRowCount: bool,
    rawRowsUnchanged: bool, sourceEpisodeCount: bool, sourceGroupSizes: bool, cloneEpisodeCount: bool,
    identity: bool, mapping: bool, structure: bool, counts: bool, mappedOnce: bool)
  {
    predicate Fails(reason: Reason) {
      match reason
      case SnapshotRevision => !revisionMatches
      case NotAnAncestor => !sourceIsAncestor
      case CloneRevision => !cloneAtTarget
      case SourceRowCount => !sourceRowCount
      case CloneRowCount => !cloneRowCount
      case RawRowsChanged => !rawRowsUnchanged
      case SourceEpisodeCount => !sourceEpisodeCount
      case SourceGroupSizes => !sourceGroupSizes
      case CloneEpisodeCount => !cloneEpisodeCount
      case SemanticIdentity => !identity
      case MembershipMapping => !mapping
      case MembershipStructure => !structure
      case EpisodeCounts => !counts
      case NotMappedOnce => !mappedOnce
    }

    predicate AllHold() {
      && revisionMatches && sourceIsAncestor && cloneAtTarget && sourceRowCount && cloneRowCount && rawRowsUnchanged
      && sourceEpisodeCount && sourceGroupSizes && cloneEpisodeCount && identity && mapping && structure && counts && mappedOnce
    }
  }

  lemma AllHoldIff(c: Checks)
    ensures c.AllHold() <==> forall reason: Reason :: !c.Fails(reason)
  {
    if forall reason: Reason :: !c.Fails(reason) {
      assert !c.Fails(SnapshotRevision) && !c.Fails(NotAnAncestor) && !c.Fails(CloneRevision);
      assert !c.Fails(SourceRowCount) && !c.Fails(CloneRowCount) && !c.Fails(RawRowsChanged);
      assert !c.Fails(SourceEpisodeCount) && !c.Fails(SourceGroupSizes) && !c.Fails(CloneEpisodeCount);
      assert !c.Fails(SemanticIdentity) && !c.Fails(MembershipMapping) && !c.Fails(MembershipStructure);
      assert !c.Fails(EpisodeCounts) && !c.Fails(NotMappedOnce);
    }
  }

  function Evaluate(a: Input): Checks {
    Checks(a.revisionMatches, a.sourceIsAncestor, a.cloneAtTarget,
           |a.sourceRows| == a.expectations.rawRows, |a.cloneRows| == a.expectations.rawRows,
           a.sourceRows == a.cloneRows, |a.expected| == a.expectations.legacyEpisodes,
           Sort(ExpectedSizes(a.expected), Ascending) == a.expectations.groupSizes,
           |a.actual| == a.expectations.legacyEpisodes,
           IdentityHolds(a.expected, a.actual), MappingHolds(ExpectedTable(a), Relevant(a)),
           StructureHolds(ExpectedTable(a), Relevant(a)), CountsHold(a.expected, a.actual, Relevant(a)),
           MappedOnce(Keys(a.sourceRows, RowId), Relevant(a)))
  }

  ghost predicate Verified(a: Input) {
    Evaluate(a).AllHold()
  }

  ghost predicate CountsOf(counts: map<string, nat>, ms: seq<Member>) {
    forall id :: (if id in counts then counts[id] else 0) == CountIn(ms, id)
  }

  /** actual_member_counts: one pass over the relevant memberships. */
  method CountMemberships(relevant: seq<Member>) returns (counts: map<string, nat>)
    ensures CountsOf(counts, relevant)
  {
    counts := map[];
    for n := 0 to |relevant|
      invariant CountsOf(counts, relevant[..n])
    {
      assert relevant[..n + 1][..n] == relevant[..n];
      var id := relevant[n].episodeId;
      counts := counts[id := (if id in counts then counts[id] else 0) + 1];
    }
    assert relevant[..|relevant|] == relevant;
  }

  /** The per-episode evidence: membership counts and whether all of them match. */
  method EpisodeEvidence(actual: seq<ActualEpisode>, expected: map<string, Episode>, relevant: seq<Member>)
    returns (sizes: seq<int>, allMatch: bool)
    ensures sizes == ActualSizes(actual, relevant)
    ensures allMatch <==> forall i :: 0 <= i < |actual| ==> CountMatches(actual[i], expected, CountIn(relevant, actual[i].id))
  {
    var counts := CountMemberships(relevant);
    sizes, allMatch := [], true;
    for n := 0 to |actual|
      invariant |sizes| == n && forall i :: 0 <= i < n ==> sizes[i] == CountIn(relevant, actual[i].id)
      invariant allMatch <==> forall i :: 0 <= i < n ==> CountMatches(actual[i], expected, CountIn(relevant, actual[i].id))
    {
      var count := if actual[n].id in counts then counts[actual[n].id] else 0;
      sizes := sizes + [count];
      allMatch := allMatch && CountMatches(actual[n], expected, count);
    }
  }

  /** The order in which the source tries its checks. */
  const CHECK_ORDER := [
    SnapshotRevision, NotAnAncestor, CloneRevision, SourceRowCount, CloneRowCount, RawRowsChanged,
    SourceEpisodeCount, SourceGroupSizes, CloneEpisodeCount, SemanticIdentity, MembershipMapping,
    MembershipStructure, EpisodeCounts, NotMappedOnce]

  function Position(reason: Reason): (i: nat)
    ensures i < 14
  {
    match reason
    case SnapshotRevision => 0
    case NotAnAncestor => 1
    case CloneRevision => 2
    case SourceRowCount => 3
    case CloneRowCount => 4
    case RawRowsChanged => 5
    case SourceEpisodeCount => 6
    case SourceGroupSizes => 7
    case CloneEpisodeCount => 8
    case SemanticIdentity => 9
    case MembershipMapping => 10
    case MembershipStructure => 11
    case EpisodeCounts => 12
    case NotMappedOnce => 13
  }

  lemma EveryReasonChecked(reason: Reason)
    ensures |CHECK_ORDER| == 14 && CHECK_ORDER[Position(reason)] == reason
  {
  }

  /** The reasons of the failed checks, in the order they are tried. */
  method Report(c: Checks) returns (reasons: seq<Reason>)
    ensures forall reason :: reason in reasons <==> c.Fails(reason)
    ensures reasons == [] <==> c.AllHold()
  {
    reasons := [];
    for n := 0 to |CHECK_ORDER|
      invariant forall reason :: reason in reasons <==> reason in CHECK_ORDER[..n] && c.Fails(reason)
    {
      assert CHECK_ORDER[..n + 1] == CHECK_ORDER[..n] + [CHECK_ORDER[n]];
      if c.Fails(CHECK_ORDER[n]) {
        reasons := reasons + [CHECK_ORDER[n]];
      }
    }
    forall reason: Reason ensures reason in CHECK_ORDER[..|CHECK_ORDER|] {
      EveryReasonChecked(reason);
    }
    AllHoldIff(c);
    if reasons != [] {
      assert reasons[0] in reasons;
    }
  }

  /** The comparison of the source. An audit is verified when no reason was reported. */
  method Audit(a: Input) returns (reasons: seq<Reason>, actualGroupSizes: seq<int>)
    ensures forall reason :: reason in reasons <==> Evaluate(a).Fails(reason)
    ensures reasons == [] <==> Verified(a)
    ensures actualGroupSizes == Sort(ActualSizes(a.actual, Relevant(a)), Ascending)
  {
    var sizes, countsMatch := EpisodeEvidence(a.actual, EpisodeTable(a.expected), Relevant(a));
    actualGroupSizes := Sort(sizes, Ascending);
    var idsMatch := ActualIds(a.actual) == EpisodeTable(a.expected).Keys;
    CountsHoldIff(a, idsMatch, countsMatch);
    reasons := Report(Evaluate(a).(counts := idsMatch && countsMatch));
  }

  lemma CountsHoldIff(a: Input, idsMatch: bool, countsMatch: bool)
    requires idsMatch <==> ActualIds(a.actual) == EpisodeTable(a.expected).Keys
    requires countsMatch <==> forall i :: 0 <= i < |a.actual| ==>
      CountMatches(a.actual[i], EpisodeTable(a.expected), CountIn(Relevant(a), a.actual[i].id))
    ensures Evaluate(a).(counts := idsMatch && countsMatch) == Evaluate(a)
  {
    assert forall i :: 0 <= i < |a.actual| ==> a.actual[i] in a.actual;
    assert CountsHold(a.expected, a.actual, Relevant(a)) <==> idsMatch && countsMatch;
  }

  // ---- What the checks establish ----

  /** One clone membership for every source row, equal to the reconstruction's in episode, role, ordinal and time,
      and no other membership for the ticker. */
  ghost predicate SameMemberships(relevant: seq<Member>, table: map<int, Member>) {
    && Distinct(relevant)
    && forall m :: m in relevant <==> m.evaluationId in table && table[m.evaluationId] == m
  }

  /** One clone episode for every reconstructed one, with the same content and the same number of occurrences. */
  ghost predicate SameEpisodes(actual: seq<ActualEpisode>, es: seq<Episode>) {
    && (forall i, j :: 0 <= i < j < |actual| ==> actual[i].id != actual[j].id)
    && (forall a :: a in actual ==> exists e :: e in es && SameEpisode(e, a))
    && (forall e {:trigger Appears(actual, e)} :: e in es ==> Appears(actual, e))
  }

  ghost predicate Appears(actual: seq<ActualEpisode>, e: Episode) {
    e.id in ActualIds(actual)
  }

  ghost predicate SameEpisode(e: Episode, a: ActualEpisode) {
    e.id == a.id && SemanticMatches(e, a) && a.occurrenceCount == |e.members|
  }

  ghost predicate SettingsHold(a: Input) {
    && a.revisionMatches && a.sourceIsAncestor && a.cloneAtTarget
    && |a.sourceRows| == a.expectations.rawRows && |a.expected| == a.expectations.legacyEpisodes
    && Sort(ExpectedSizes(a.expected), Ascending) == a.expectations.groupSizes
  }

  /** The ids of the raw rows, read in ascending order, are those of the table. */
  ghost predicate ListsKeys(sourceIds: seq<int>, table: map<int, Member>) {
    && (forall i, j :: 0 <= i < j < |sourceIds| ==> sourceIds[i] < sourceIds[j])
    && (forall x :: x in sourceIds <==> x in table)
  }

  /** The input was read from a source whose rows are os. */
  ghost predicate ReadFrom(a: Input, os: seq<Occurrence>) {
    DistinctIds(os) && Reconstructs(a.expected, a.ticker, os) && ListsKeys(Keys(a.sourceRows, RowId), MemberTable(os))
  }

  lemma {:induction false} AllMembersElements(es: seq<Episode>, m: Member)
    ensures m in AllMembers(es) <==> IsMember(es, m)
  {
    if es != [] {
      var init, last := es[..|es| - 1], es[|es| - 1];
      AllMembersElements(init, m);
      IsMemberNext(init, last, m);
      assert es == init + [last];
    }
  }

  lemma IsMemberNext(init: seq<Episode>, last: Episode, m: Member)
    ensures IsMember(init + [last], m) <==> IsMember(init, m) || m in last.members
  {
    var es := init + [last];
    if IsMember(es, m) {
      var i :| 0 <= i < |es| && m in es[i].members;
      assert i < |init| ==> m in init[i].members;
    }
    if IsMember(init, m) {
      var i :| 0 <= i < |init| && m in init[i].members;
      assert m in es[i].members;
    }
    assert es[|init|] == last;
  }

  lemma MemberFitsTable(es: seq<Episode>, table: map<int, Member>, m: Member)
    requires Partitions(es, table) && IsMember(es, m)
    ensures m.evaluationId in table && table[m.evaluationId] == m
  {
    var i :| 0 <= i < |es| && m in es[i].members;
    var n :| 0 <= n < |es[i].members| && es[i].members[n] == m;
    assert MemberFits(es[i], n, table);
  }

  /** The dictionary of expected members is the row-by-row table. */
  lemma ExpectedTableExact(es: seq<Episode>, table: map<int, Member>)
    requires Partitions(es, table)
    ensures TableOf(AllMembers(es)) == table
  {
    var built := TableOf(AllMembers(es));
    IndexLookup(AllMembers(es), EvaluationId);
    forall x | x in built ensures x in table && table[x] == built[x] {
      AllMembersElements(es, built[x]);
      MemberFitsTable(es, table, built[x]);
    }
    forall x | x in table ensures x in built {
      AllMembersElements(es, table[x]);
    }
    assert built.Keys == table.Keys;
  }

  ghost predicate KeyedById(table: map<int, Member>) {
    forall x :: x in table ==> table[x].evaluationId == x
  }

  lemma MembershipsFromChecks(table: map<int, Member>, relevant: seq<Member>)
    requires KeyedById(table) && MappingHolds(table, relevant) && StructureHolds(table, relevant)
    ensures SameMemberships(relevant, table)
  {
    var actual := TableOf(relevant);
    IndexKeys(relevant, EvaluationId);
    IndexLookup(relevant, EvaluationId);
    forall i, j | 0 <= i < j < |relevant| ensures relevant[i] != relevant[j] {
      assert EvaluationId(relevant[i]) != EvaluationId(relevant[j]);
    }
    forall x | x in table ensures x in actual && actual[x] == table[x] {
    }
    forall m | m in relevant ensures m.evaluationId in table && table[m.evaluationId] == m {
      IndexUnique(relevant, EvaluationId, m);
    }
  }

  lemma MembershipsDistinctIds(table: map<int, Member>, relevant: seq<Member>)
    requires SameMemberships(relevant, table)
    ensures KeysDistinct(relevant, EvaluationId)
  {
    forall i, j | 0 <= i < j < |relevant| ensures EvaluationId(relevant[i]) != EvaluationId(relevant[j]) {
      assert relevant[i] in relevant && relevant[j] in relevant;
    }
  }

  lemma MembershipsTable(table: map<int, Member>, relevant: seq<Member>)
    requires KeyedById(table) && SameMemberships(relevant, table)
    ensures TableOf(relevant) == table
  {
    MembershipsDistinctIds(table, relevant);
    IndexLookup(relevant, EvaluationId);
    forall x | x in table ensures x in TableOf(relevant) && TableOf(relevant)[x] == table[x] {
      assert table[x] in relevant;
      IndexUnique(relevant, EvaluationId, table[x]);
    }
    forall x | x in TableOf(relevant) ensures x in table {
      assert TableOf(relevant)[x] in relevant;
    }
    assert TableOf(relevant).Keys == table.Keys;
  }

  lemma ChecksFromMemberships(table: map<int, Member>, relevant: seq<Member>)
    requires KeyedById(table) && SameMemberships(relevant, table)
    ensures MappingHolds(table, relevant) && StructureHolds(table, relevant)
  {
    MembershipsTable(table, relevant);
    MembershipsDistinctIds(table, relevant);
    IndexKeys(relevant, EvaluationId);
  }

  lemma MappedOnceHolds(table: map<int, Member>, relevant: seq<Member>, sourceIds: seq<int>)
    requires KeyedById(table) && SameMemberships(relevant, table) && ListsKeys(sourceIds, table)
    ensures MappedOnce(sourceIds, relevant)
  {
    var ids := Keys(relevant, EvaluationId);
    MembershipsDistinctIds(table, relevant);
    MembershipsTable(table, relevant);
    IndexKeys(relevant, EvaluationId);
    assert forall x :: x in ids <==> x in TableOf(relevant);
    DistinctCard(ids);
    forall i, j | 0 <= i < j < |ids| ensures ids[i] != ids[j] {
      assert EvaluationId(relevant[i]) != EvaluationId(relevant[j]);
    }
    assert forall x :: x in ids <==> x in sourceIds;
    DistinctMultiset(ids, sourceIds);
    assert |ids| == |multiset(ids)| == |multiset(sourceIds)|;
    SortSorts(ids, Ascending);
    SortedUnique(Sort(ids, Ascending), sourceIds, Ascending);
  }

  ghost function MembersIn(ms: seq<Member>, id: string): set<Member> {
    set m | m in ms && m.episodeId == id
  }

  lemma MembersInSnoc(init: seq<Member>, last: Member, id: string)
    ensures MembersIn(init + [last], id) == MembersIn(init, id) + if last.episodeId == id then {last} else {}
  {
  }

  lemma {:induction false} CountDistinct(ms: seq<Member>, id: string)
    requires Distinct(ms)
    ensures CountIn(ms, id) == |MembersIn(ms, id)|
  {
    if ms == [] {
      assert MembersIn(ms, id) == {};
    } else {
      var init, last := ms[..|ms| - 1], ms[|ms| - 1];
      CountDistinct(init, id);
      MembersInSnoc(init, last, id);
      assert ms == init + [last];
      assert last !in MembersIn(init, id);
    }
  }

  lemma EpisodeMembersDistinct(e: Episode, table: map<int, Member>)
    requires forall n :: 0 <= n < |e.members| ==> MemberFits(e, n, table)
    ensures Distinct(e.members)
  {
    forall n, k | 0 <= n < k < |e.members| ensures e.members[n] != e.members[k] {
      assert MemberFits(e, n, table) && MemberFits(e, k, table);
    }
  }

  lemma MemberBelongs(es: seq<Episode>, table: map<int, Member>, i: nat, m: Member)
    requires Partitions(es, table) && i < |es|
    ensures m in es[i].members <==> m.evaluationId in table && table[m.evaluationId] == m && m.episodeId == es[i].id
  {
    if m in es[i].members {
      var n :| 0 <= n < |es[i].members| && es[i].members[n] == m;
      assert MemberFits(es[i], n, table);
    }
    if m.evaluationId in table && table[m.evaluationId] == m && m.episodeId == es[i].id {
      var j :| 0 <= j < |es| && m in es[j].members;
      var n :| 0 <= n < |es[j].members| && es[j].members[n] == m;
      assert MemberFits(es[j], n, table);
    }
  }

  /** Once the memberships agree, an episode's membership count is its number of members. */
  lemma CountIsSize(es: seq<Episode>, table: map<int, Member>, relevant: seq<Member>, i: nat)
    requires Partitions(es, table) && SameMemberships(relevant, table) && i < |es|
    ensures CountIn(relevant, es[i].id) == |es[i].members|
  {
    CountDistinct(relevant, es[i].id);
    EpisodeMembersDistinct(es[i], table);
    DistinctCard(es[i].members);
    forall m ensures m in es[i].members <==> m in relevant && m.episodeId == es[i].id {
      MemberBelongs(es, table, i, m);
    }
    assert MembersIn(relevant, es[i].id) == set m | m in es[i].members;
  }

  ghost predicate EpisodeIdsDistinct(es: seq<Episode>) {
    forall i, j :: 0 <= i < j < |es| ==> es[i].id != es[j].id
  }

  lemma EpisodeLookup(es: seq<Episode>)
    requires EpisodeIdsDistinct(es)
    ensures forall id :: id in EpisodeTable(es) ==> EpisodeTable(es)[id] in es && EpisodeTable(es)[id].id == id
    ensures forall e :: e in es ==> e.id in EpisodeTable(es) && EpisodeTable(es)[e.id] == e
    ensures |EpisodeTable(es).Keys| == |es|
  {
    assert KeysDistinct(es, EpisodeKey);
    IndexLookup(es, EpisodeKey);
    IndexKeys(es, EpisodeKey);
    forall e | e in es ensures EpisodeTable(es)[e.id] == e {
      IndexUnique(es, EpisodeKey, e);
    }
    assert |EpisodeTable(es)| == |EpisodeTable(es).Keys|;
  }

  lemma ActualIdsCount(actual: seq<ActualEpisode>)
    ensures ActualIds(actual) == Index(actual, ActualKey).Keys
    ensures |ActualIds(actual)| == |actual| <==> KeysDistinct(actual, ActualKey)
  {
    IndexLookup(actual, ActualKey);
    IndexKeys(actual, ActualKey);
    forall x | x in Index(actual, ActualKey) ensures x in ActualIds(actual) {
      assert Index(actual, ActualKey)[x] in actual;
    }
    assert ActualIds(actual) == Index(actual, ActualKey).Keys;
    assert |Index(actual, ActualKey)| == |Index(actual, ActualKey).Keys|;
  }

  lemma EpisodesFromChecks(es: seq<Episode>, actual: seq<ActualEpisode>, relevant: seq<Member>)
    requires EpisodeIdsDistinct(es) && IdentityHolds(es, actual) && CountsHold(es, actual, relevant)
    ensures SameEpisodes(actual, es)
  {
    EpisodeLookup(es);
    ActualIdsCount(actual);
    forall i, j | 0 <= i < j < |actual| ensures actual[i].id != actual[j].id {
      assert ActualKey(actual[i]) != ActualKey(actual[j]);
    }
    forall a | a in actual ensures exists e :: e in es && SameEpisode(e, a) {
      assert SameEpisode(EpisodeTable(es)[a.id], a);
    }
  }

  ghost predicate LooksUp(expected: map<string, Episode>, es: seq<Episode>) {
    && (forall id :: id in expected ==> expected[id] in es && expected[id].id == id)
    && (forall e :: e in es ==> e.id in expected && expected[e.id] == e)
  }

  ghost predicate ChecksOut(expected: map<string, Episode>, relevant: seq<Member>, a: ActualEpisode) {
    a.id in expected && SemanticMatches(expected[a.id], a) && CountMatches(a, expected, CountIn(relevant, a.id))
  }

  lemma EpisodeChecks(es: seq<Episode>, table: map<int, Member>, expected: map<string, Episode>,
      actual: seq<ActualEpisode>, relevant: seq<Member>, a: ActualEpisode)
    requires Partitions(es, table) && SameMemberships(relevant, table) && SameEpisodes(actual, es) && a in actual
    requires LooksUp(expected, es)
    ensures ChecksOut(expected, relevant, a)
  {
    var e :| e in es && SameEpisode(e, a);
    var i :| 0 <= i < |es| && es[i] == e;
    CountIsSize(es, table, relevant, i);
  }

  lemma IdHasEpisode(es: seq<Episode>, expected: map<string, Episode>, actual: seq<ActualEpisode>, id: string)
    requires LooksUp(expected, es) && SameEpisodes(actual, es) && id in ActualIds(actual)
    ensures id in expected
  {
    var a :| a in actual && a.id == id;
    var e :| e in es && SameEpisode(e, a);
  }

  lemma EpisodeHasId(es: seq<Episode>, expected: map<string, Episode>, actual: seq<ActualEpisode>, id: string)
    requires LooksUp(expected, es) && SameEpisodes(actual, es) && id in expected
    ensures id in ActualIds(actual)
  {
    assert Appears(actual, expected[id]);
  }

  lemma SameIdsFromEpisodes(es: seq<Episode>, expected: map<string, Episode>, actual: seq<ActualEpisode>)
    requires LooksUp(expected, es) && SameEpisodes(actual, es)
    ensures ActualIds(actual) == expected.Keys
  {
    forall id ensures id in ActualIds(actual) <==> id in expected.Keys {
      if id in ActualIds(actual) {
        IdHasEpisode(es, expected, actual, id);
      }
      if id in expected {
        EpisodeHasId(es, expected, actual, id);
      }
    }
  }

  lemma DistinctIdCount(actual: seq<ActualEpisode>)
    requires forall i, j :: 0 <= i < j < |actual| ==> actual[i].id != actual[j].id
    ensures |ActualIds(actual)| == |actual|
  {
    assert KeysDistinct(actual, ActualKey);
    ActualIdsCount(actual);
  }

  lemma ChecksFromEpisodes(es: seq<Episode>, table: map<int, Member>, actual: seq<ActualEpisode>, relevant: seq<Member>)
    requires Partitions(es, table) && SameMemberships(relevant, table) && SameEpisodes(actual, es)
    ensures IdentityHolds(es, actual) && CountsHold(es, actual, relevant)
  {
    EpisodeLookup(es);
    AllCheckOut(es, table, EpisodeTable(es), actual, relevant);
    SameIdsFromEpisodes(es, EpisodeTable(es), actual);
    DistinctIdCount(actual);
    ChecksHold(es, actual, relevant);
  }

  lemma AllCheckOut(es: seq<Episode>, table: map<int, Member>, expected: map<string, Episode>,
      actual: seq<ActualEpisode>, relevant: seq<Member>)
    requires Partitions(es, table) && SameMemberships(relevant, table) && SameEpisodes(actual, es)
    requires LooksUp(expected, es)
    ensures forall a :: a in actual ==> ChecksOut(expected, relevant, a)
  {
    forall a | a in actual ensures ChecksOut(expected, relevant, a) {
      EpisodeChecks(es, table, expected, actual, relevant, a);
    }
  }

  lemma ChecksHold(es: seq<Episode>, actual: seq<ActualEpisode>, relevant: seq<Member>)
    requires ActualIds(actual) == EpisodeTable(es).Keys && |ActualIds(actual)| == |actual|
    requires |EpisodeTable(es).Keys| == |es|
    requires forall a :: a in actual ==> ChecksOut(EpisodeTable(es), relevant, a)
    ensures IdentityHolds(es, actual) && CountsHold(es, actual, relevant)
  {
  }

  lemma ChecksIff(es: seq<Episode>, table: map<int, Member>, actual: seq<ActualEpisode>, relevant: seq<Member>,
      sourceIds: seq<int>)
    requires Partitions(es, table) && ListsKeys(sourceIds, table)
    ensures
      && MappingHolds(table, relevant) && StructureHolds(table, relevant) && IdentityHolds(es, actual)
      && CountsHold(es, actual, relevant) && MappedOnce(sourceIds, relevant)
      <==>
      SameMemberships(relevant, table) && SameEpisodes(actual, es)
  {
    if MappingHolds(table, relevant) && StructureHolds(table, relevant) && IdentityHolds(es, actual) && CountsHold(es, actual, relevant) {
      MembershipsFromChecks(table, relevant);
      EpisodesFromChecks(es, actual, relevant);
    }
    if SameMemberships(relevant, table) && SameEpisodes(actual, es) {
      ChecksFromMemberships(table, relevant);
      ChecksFromEpisodes(es, table, actual, relevant);
      MappedOnceHolds(table, relevant, sourceIds);
    }
  }

  /** The battery of checks is exact: an audit is verified if and only if the settings hold, the raw rows are
      unchanged, and the clone's memberships and episodes are those of the reconstruction. */
  lemma VerifiedIff(a: Input, os: seq<Occurrence>)
    requires ReadFrom(a, os)
    ensures Verified(a) <==>
      && SettingsHold(a) && a.sourceRows == a.cloneRows
      && SameMemberships(Relevant(a), MemberTable(os)) && SameEpisodes(a.actual, a.expected)
  {
    var table := MemberTable(os);
    ReconstructionPartitions(a.expected, a.ticker, os);
    ExpectedTableExact(a.expected, table);
    ChecksIff(a.expected, table, a.actual, Relevant(a), Keys(a.sourceRows, RowId));
  }

  lemma SameIdLists(es: seq<Episode>, actual: seq<ActualEpisode>)
    requires EpisodeIdsDistinct(es) && IdentityHolds(es, actual)
    ensures multiset(Keys(actual, ActualKey)) == multiset(Keys(es, EpisodeKey))
  {
    EpisodeLookup(es);
    ActualIdsCount(actual);
    IndexKeys(actual, ActualKey);
    IndexKeys(es, EpisodeKey);
    assert KeysDistinct(es, EpisodeKey) && KeysDistinct(actual, ActualKey);
    DistinctMultiset(Keys(actual, ActualKey), Keys(es, EpisodeKey));
  }

  lemma SizesRearranged(es: seq<Episode>, table: map<int, Member>, actual: seq<ActualEpisode>, relevant: seq<Member>)
    requires Partitions(es, table) && SameMemberships(relevant, table) && IdentityHolds(es, actual)
    ensures multiset(ActualSizes(actual, relevant)) == multiset(ExpectedSizes(es))
  {
    SameIdLists(es, actual);
    var p := MultisetRearranged(Keys(actual, ActualKey), Keys(es, EpisodeKey));
    forall i | 0 <= i < |es| ensures ExpectedSizes(es)[i] == ActualSizes(actual, relevant)[p[i]] {
      CountIsSize(es, table, relevant, i);
      assert Keys(es, EpisodeKey)[i] == Keys(actual, ActualKey)[p[i]];
    }
    RearrangedMultiset(p, ActualSizes(actual, relevant), ExpectedSizes(es));
  }

  /** The reported group sizes equal the reconstruction's, although no check compares them. */
  lemma GroupSizesAgree(a: Input, os: seq<Occurrence>)
    requires ReadFrom(a, os) && Verified(a)
    ensures Sort(ActualSizes(a.actual, Relevant(a)), Ascending) == Sort(ExpectedSizes(a.expected), Ascending)
  {
    VerifiedIff(a, os);
    ReconstructionPartitions(a.expected, a.ticker, os);
    SizesRearranged(a.expected, MemberTable(os), a.actual, Relevant(a));
    SortDetermined(ActualSizes(a.actual, Relevant(a)), ExpectedSizes(a.expected), Ascending);
  }
}
