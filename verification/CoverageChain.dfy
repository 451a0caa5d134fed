/** The hash chain of a coverage target's dispositions: how it is appended to, how an audit verifies it, and what a
    verified chain commits to. */
module CoverageChain {
  import opened Wrappers
  import opened CanonicalJson

  /** One observation of a target; the details are everything else that is sent. */
  datatype Request = Request(target: string, periodEnd: string, attempts: Json, details: Json)

  /** A disposition row. Its columns give back the request, unless they do not parse. */
  datatype Row = Row(id: string, key: string, revision: int, predecessor: Option<string>, periodEnd: string,
                     attempts: Json, attemptsSha: string, request: Option<Request>, recordedAt: int)

  datatype Reason =
    | PeriodEndMismatch | AttemptsInvalid | AttemptsShaMismatch | RevisionSequenceInvalid | PredecessorInvalid
    | IdMismatch | KeyMismatch | RequestInvalid

  /** What a row's identity is taken from. */
  datatype Link = Link(key: string, revision: int, predecessor: Option<string>)

  /** The digests of links, requests and attempts. */
  datatype Hashes = Hashes(id: Link -> string, key: Request -> string, attempts: Json -> string)

  // ---- Verification ----

  /** The reasons one row adds, given its place and the identity before it. */
  function RowReasons(row: Row, place: int, prior: Option<string>, periodEnd: string, h: Hashes): seq<Reason> {
    (if row.periodEnd != periodEnd then [PeriodEndMismatch] else [])
    + (if !row.attempts.Arr? then [AttemptsInvalid] else [])
    + (if h.attempts(row.attempts) != row.attemptsSha then [AttemptsShaMismatch] else [])
    + (if row.revision != place then [RevisionSequenceInvalid] else [])
    + (if row.predecessor != prior then [PredecessorInvalid] else [])
    + (if row.id != h.id(Link(row.key, row.revision, row.predecessor)) then [IdMismatch] else [])
    + (if row.request.None? then [RequestInvalid]
       else if row.key != h.key(row.request.value) then [KeyMismatch] else [])
  }

  function PriorId(rows: seq<Row>, i: nat): Option<string>
    requires i <= |rows|
  {
    if i == 0 then None else Some(rows[i - 1].id)
  }

  function Reasons(rows: seq<Row>, periodEnd: string, h: Hashes): seq<Reason> {
    if rows == [] then []
    else
      var init, last := rows[..|rows| - 1], rows[|rows| - 1];
      Reasons(init, periodEnd, h) + RowReasons(last, |rows|, PriorId(rows, |rows| - 1), periodEnd, h)
  }

  lemma ReasonsStep(rows: seq<Row>, i: nat, periodEnd: string, h: Hashes)
    requires i < |rows|
    ensures Reasons(rows[..i + 1], periodEnd, h)
         == Reasons(rows[..i], periodEnd, h) + RowReasons(rows[i], i + 1, PriorId(rows, i), periodEnd, h)
  {
    assert rows[..i + 1][..i] == rows[..i];
  }

  method CollectReasons(rows: seq<Row>, periodEnd: string, h: Hashes) returns (reasons: seq<Reason>)
    ensures reasons == Reasons(rows, periodEnd, h)
  {
    reasons := [];
    var prior: Option<string> := None;
    for i := 0 to |rows|
      invariant reasons == Reasons(rows[..i], periodEnd, h) && prior == PriorId(rows, i)
    {
      ReasonsStep(rows, i, periodEnd, h);
      reasons := reasons + RowReasons(rows[i], i + 1, prior, periodEnd, h);
      prior := Some(rows[i].id);
    }
    assert rows[..|rows|] == rows;
  }

  /** What it means that a row carries no reason. */
  ghost predicate Sound(row: Row, place: int, prior: Option<string>, periodEnd: string, h: Hashes) {
    && row.periodEnd == periodEnd && row.attempts.Arr? && row.attemptsSha == h.attempts(row.attempts)
    && row.revision == place && row.predecessor == prior && row.id == h.id(Link(row.key, place, prior))
    && row.request.Some? && row.key == h.key(row.request.value)
  }

  ghost predicate SoundAt(rows: seq<Row>, i: nat, periodEnd: string, h: Hashes)
    requires i < |rows|
  {
    Sound(rows[i], i + 1, PriorId(rows, i), periodEnd, h)
  }

  ghost predicate Verifies(rows: seq<Row>, periodEnd: string, h: Hashes) {
    forall i :: 0 <= i < |rows| ==> SoundAt(rows, i, periodEnd, h)
  }

  lemma {:induction false} NoReasonsIffVerifies(rows: seq<Row>, periodEnd: string, h: Hashes)
    ensures Reasons(rows, periodEnd, h) == [] <==> Verifies(rows, periodEnd, h)
  {
    if rows != [] {
      var init := rows[..|rows| - 1];
      NoReasonsIffVerifies(init, periodEnd, h);
      VerifiesInit(rows, periodEnd, h);
    }
  }

  lemma VerifiesInit(rows: seq<Row>, periodEnd: string, h: Hashes)
    requires rows != []
    ensures Verifies(rows, periodEnd, h)
       <==> Verifies(rows[..|rows| - 1], periodEnd, h) && SoundAt(rows, |rows| - 1, periodEnd, h)
  {
    var init := rows[..|rows| - 1];
    forall i | 0 <= i < |init| ensures SoundAt(init, i, periodEnd, h) <==> SoundAt(rows, i, periodEnd, h) {
      PriorInit(rows, |init|, i);
    }
  }

  lemma PriorInit(rows: seq<Row>, n: nat, i: nat)
    requires i < n <= |rows|
    ensures PriorId(rows[..n], i) == PriorId(rows, i) && rows[..n][i] == rows[i]
  {
  }

  // ---- Commitment ----

  function LinkOf(row: Row): Link {
    Link(row.key, row.revision, row.predecessor)
  }

  function Links(rows: seq<Row>): set<Link> {
    set row | row in rows :: LinkOf(row)
  }

  function Requests(rows: seq<Row>): set<Request> {
    set row | row in rows && row.request.Some? :: row.request.value
  }

  /** The digests tell the links and the requests that were hashed apart. */
  ghost predicate Separates(h: Hashes, links: set<Link>, requests: set<Request>) {
    && (forall x, y :: x in links && y in links && h.id(x) == h.id(y) ==> x == y)
    && (forall x, y :: x in requests && y in requests && h.key(x) == h.key(y) ==> x == y)
  }

  lemma RowsAgree(a: seq<Row>, b: seq<Row>, i: nat, j: nat, periodA: string, periodB: string, h: Hashes)
    requires i < |a| && j < |b| && SoundAt(a, i, periodA, h) && SoundAt(b, j, periodB, h)
    requires a[i].id == b[j].id && Separates(h, Links(a) + Links(b), Requests(a) + Requests(b))
    ensures i == j && PriorId(a, i) == PriorId(b, j) && a[i].request == b[j].request
  {
    assert LinkOf(a[i]) in Links(a) && LinkOf(b[j]) in Links(b);
    assert a[i].request.value in Requests(a) && b[j].request.value in Requests(b);
  }

  /** Rows i and below agree when the identities at i do. */
  lemma {:induction false} AgreeBelow(a: seq<Row>, b: seq<Row>, i: nat, j: nat, periodA: string, periodB: string,
      h: Hashes)
    requires Verifies(a, periodA, h) && Verifies(b, periodB, h) && i < |a| && j < |b| && a[i].id == b[j].id
    requires Separates(h, Links(a) + Links(b), Requests(a) + Requests(b))
    ensures i == j && forall k :: 0 <= k <= i ==> a[k].request == b[k].request && a[k].id == b[k].id
  {
    assert SoundAt(a, i, periodA, h) && SoundAt(b, j, periodB, h);
    RowsAgree(a, b, i, j, periodA, periodB, h);
    if i > 0 {
      AgreeBelow(a, b, i - 1, j - 1, periodA, periodB, h);
    }
  }

  /** Two chains that verify and share their last identity are the same history: equally long, with the same request at
      every revision. */
  lemma LastIdCommitsToHistory(a: seq<Row>, b: seq<Row>, periodA: string, periodB: string, h: Hashes)
    requires Verifies(a, periodA, h) && Verifies(b, periodB, h) && a != [] && b != []
    requires a[|a| - 1].id == b[|b| - 1].id
    requires Separates(h, Links(a) + Links(b), Requests(a) + Requests(b))
    ensures |a| == |b| && forall i :: 0 <= i < |a| ==> a[i].request == b[i].request && a[i].id == b[i].id
  {
    AgreeBelow(a, b, |a| - 1, |b| - 1, periodA, periodB, h);
  }

  // ---- Cutoffs ----

  /** The rows recorded by the cutoff, in revision order. */
  function UpTo(rows: seq<Row>, cutoff: int): seq<Row> {
    if rows == [] then []
    else if rows[|rows| - 1].recordedAt <= cutoff then UpTo(rows[..|rows| - 1], cutoff) + [rows[|rows| - 1]]
    else UpTo(rows[..|rows| - 1], cutoff)
  }

  lemma {:induction false} UpToFrom(rows: seq<Row>, cutoff: int, i: nat)
    requires i < |UpTo(rows, cutoff)|
    ensures UpTo(rows, cutoff)[i] in rows && |UpTo(rows, cutoff)| <= |rows|
  {
    var init, last := rows[..|rows| - 1], rows[|rows| - 1];
    UpToLength(rows, cutoff);
    if i < |UpTo(init, cutoff)| {
      UpToFrom(init, cutoff, i);
    } else {
      assert UpTo(rows, cutoff)[i] == last;
    }
  }

  lemma {:induction false} UpToLength(rows: seq<Row>, cutoff: int)
    ensures |UpTo(rows, cutoff)| <= |rows|
  {
    if rows != [] {
      UpToLength(rows[..|rows| - 1], cutoff);
    }
  }

  /** What a cutoff leaves of a verified chain verifies exactly when it is a prefix of the chain. */
  lemma CutoffVerifiesIffPrefix(rows: seq<Row>, cutoff: int, periodEnd: string, h: Hashes)
    requires Verifies(rows, periodEnd, h)
    ensures Verifies(UpTo(rows, cutoff), periodEnd, h) <==> UpTo(rows, cutoff) <= rows
  {
    var kept := UpTo(rows, cutoff);
    UpToLength(rows, cutoff);
    if Verifies(kept, periodEnd, h) {
      forall i | 0 <= i < |kept| ensures kept[i] == rows[i] {
        UpToFrom(rows, cutoff, i);
        var k :| 0 <= k < |rows| && rows[k] == kept[i];
        assert SoundAt(kept, i, periodEnd, h) && SoundAt(rows, k, periodEnd, h);
      }
    }
    if kept <= rows {
      forall i | 0 <= i < |kept| ensures SoundAt(kept, i, periodEnd, h) {
        PriorInit(rows, |kept|, i);
        assert SoundAt(rows, i, periodEnd, h);
      }
    }
  }

  // ---- Appending ----

  /** Appends an observation, or returns the row that already holds it. Keys are unique over all targets. */
  function Append(table: seq<Row>, r: Request, recordedAt: int, h: Hashes): Result<seq<Row>, string> {
    match Holder(table, h.key(r))
    case Some(row) => if row.request == Some(r) then Success(table) else Failure("idempotency collision")
    case None => Success(table + [NewRow(table, r, recordedAt, h)])
  }

  function Holder(table: seq<Row>, key: string): Option<Row> {
    if table == [] then None
    else if table[|table| - 1].key == key then Some(table[|table| - 1])
    else Holder(table[..|table| - 1], key)
  }

  predicate About(row: Row, target: string) {
    row.request.Some? && row.request.value.target == target
  }

  /** A target's rows, in the order they were appended. */
  function ChainOf(table: seq<Row>, target: string): seq<Row> {
    if table == [] then []
    else if About(table[|table| - 1], target) then ChainOf(table[..|table| - 1], target) + [table[|table| - 1]]
    else ChainOf(table[..|table| - 1], target)
  }

  function Newest(table: seq<Row>, target: string): Option<Row> {
    var chain := ChainOf(table, target);
    if chain == [] then None else Some(chain[|chain| - 1])
  }

  /** The row is one that Append makes at this place of a chain. */
  ghost predicate Appended(row: Row, place: int, prior: Option<string>, h: Hashes) {
    && row.request.Some? && Sound(row.(attempts := Arr([]), attemptsSha := h.attempts(Arr([]))), place, prior, row.periodEnd, h)
    && row.periodEnd == row.request.value.periodEnd && row.attempts == row.request.value.attempts
    && row.attemptsSha == h.attempts(row.attempts)
  }

  ghost predicate AppendedAt(chain: seq<Row>, i: nat, h: Hashes)
    requires i < |chain|
  {
    Appended(chain[i], i + 1, PriorId(chain, i), h)
  }

  ghost predicate RegularChain(chain: seq<Row>, h: Hashes) {
    forall i :: 0 <= i < |chain| ==> AppendedAt(chain, i, h)
  }

  ghost predicate Regular(table: seq<Row>, h: Hashes) {
    forall target :: RegularChain(ChainOf(table, target), h)
  }

  lemma ExtendRegular(chain: seq<Row>, row: Row, h: Hashes)
    requires RegularChain(chain, h) && Appended(row, |chain| + 1, PriorId(chain, |chain|), h)
    ensures RegularChain(chain + [row], h)
  {
    var next := chain + [row];
    forall i | 0 <= i < |next| ensures AppendedAt(next, i, h) {
      if i < |chain| {
        assert next[..|chain|] == chain;
        PriorInit(next, |chain|, i);
        assert AppendedAt(chain, i, h);
      } else {
        assert PriorId(next, i) == PriorId(chain, i);
      }
    }
  }

  /** The row that Append adds. */
  function NewRow(table: seq<Row>, r: Request, recordedAt: int, h: Hashes): Row {
    var prior := Newest(table, r.target);
    var link := Link(h.key(r), if prior.Some? then prior.value.revision + 1 else 1,
                     if prior.Some? then Some(prior.value.id) else None);
    Row(h.id(link), link.key, link.revision, link.predecessor, r.periodEnd, r.attempts, h.attempts(r.attempts), Some(r), recordedAt)
  }

  lemma NewRowAppended(table: seq<Row>, r: Request, recordedAt: int, h: Hashes)
    requires Regular(table, h)
    ensures var chain := ChainOf(table, r.target);
            Appended(NewRow(table, r, recordedAt, h), |chain| + 1, PriorId(chain, |chain|), h)
  {
    var chain := ChainOf(table, r.target);
    assert RegularChain(chain, h);
    if chain != [] {
      assert AppendedAt(chain, |chain| - 1, h);
    }
  }

  lemma AppendKeepsRegular(table: seq<Row>, r: Request, recordedAt: int, h: Hashes)
    requires Regular(table, h) && Append(table, r, recordedAt, h).Success?
    ensures Regular(Append(table, r, recordedAt, h).value, h)
  {
    var next := Append(table, r, recordedAt, h).value;
    if next != table {
      var row := NewRow(table, r, recordedAt, h);
      assert next == table + [row];
      NewRowAppended(table, r, recordedAt, h);
      forall target ensures RegularChain(ChainOf(next, target), h) {
        assert RegularChain(ChainOf(table, target), h);
        ChainGrows(table, row, target);
        if target == r.target {
          ExtendRegular(ChainOf(table, target), row, h);
        }
      }
    }
  }

  lemma ChainGrows(table: seq<Row>, row: Row, target: string)
    ensures ChainOf(table + [row], target) == ChainOf(table, target) + if About(row, target) then [row] else []
  {
    assert (table + [row])[..|table|] == table;
    assert ChainOf(table, target) + [] == ChainOf(table, target);
  }

  /** A table built by appending, in any order over any targets. */
  function Build(requests: seq<(Request, int)>, h: Hashes): Result<seq<Row>, string> {
    if requests == [] then Success([])
    else
      match Build(requests[..|requests| - 1], h)
      case Failure(e) => Failure(e)
      case Success(table) => Append(table, requests[|requests| - 1].0, requests[|requests| - 1].1, h)
  }

  lemma {:induction false} BuildRegular(requests: seq<(Request, int)>, h: Hashes)
    requires Build(requests, h).Success?
    ensures Regular(Build(requests, h).value, h)
  {
    if requests != [] {
      BuildRegular(requests[..|requests| - 1], h);
      AppendKeepsRegular(Build(requests[..|requests| - 1], h).value, requests[|requests| - 1].0, requests[|requests| - 1].1, h);
    }
  }

  /** An appended chain verifies for a period exactly when every observation in it was made for that period, with a
      list of attempts. */
  lemma AppendedChainVerifiesIff(requests: seq<(Request, int)>, target: string, periodEnd: string, h: Hashes)
    requires Build(requests, h).Success?
    ensures var chain := ChainOf(Build(requests, h).value, target);
            Verifies(chain, periodEnd, h)
            <==> forall i :: 0 <= i < |chain| ==>
                   chain[i].request.Some? && chain[i].request.value.periodEnd == periodEnd && chain[i].request.value.attempts.Arr?
  {
    var chain := ChainOf(Build(requests, h).value, target);
    BuildRegular(requests, h);
    assert RegularChain(chain, h);
    forall i | 0 <= i < |chain|
      ensures SoundAt(chain, i, periodEnd, h)
         <==> chain[i].request.Some? && chain[i].request.value.periodEnd == periodEnd && chain[i].request.value.attempts.Arr?
    {
      assert AppendedAt(chain, i, h);
    }
  }
}
