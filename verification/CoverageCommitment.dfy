/** The chain under one digest of canonical texts. */
module CoverageCommitment {
  import opened Wrappers
  import opened CanonicalJson
  import opened CoverageChain

  function Payload(r: Request): Json {
    Obj(map["target" := Str(r.target), "period_end" := Str(r.periodEnd), "attempts" := r.attempts, "details" := r.details])
  }

  function LinkJson(l: Link): Json {
    Obj(map["idempotency_key" := Str(l.key), "revision" := Int(l.revision),
            "supersedes_disposition_id" := if l.predecessor.Some? then Str(l.predecessor.value) else Null])
  }

  function HashesOf(sha: string -> string): Hashes {
    Hashes((l: Link) => sha(Print(LinkJson(l), true)), (r: Request) => sha(Print(Payload(r), true)),
           (j: Json) => sha(Print(j, true)))
  }

  lemma PayloadInjective(r: Request, q: Request)
    requires Payload(r) == Payload(q)
    ensures r == q
  {
    var m, n := Payload(r).members, Payload(q).members;
    assert m["target"] == n["target"] && m["period_end"] == n["period_end"];
    assert m["attempts"] == n["attempts"] && m["details"] == n["details"];
  }

  lemma LinkInjective(l: Link, k: Link)
    requires LinkJson(l) == LinkJson(k)
    ensures l == k
  {
    var m, n := LinkJson(l).members, LinkJson(k).members;
    assert m["idempotency_key"] == n["idempotency_key"] && m["revision"] == n["revision"];
    assert m["supersedes_disposition_id"] == n["supersedes_disposition_id"];
  }

  /** The digest does not collide on the canonical texts of the given documents. */
  ghost predicate CollisionFree(sha: string -> string, docs: set<Json>) {
    forall x, y {:trigger Print(x, true), Print(y, true)} ::
      x in docs && y in docs && sha(Print(x, true)) == sha(Print(y, true)) ==> Print(x, true) == Print(y, true)
  }

  /** The documents that verifying a chain hashes into identities and keys. */
  function LinkDocs(rows: seq<Row>): set<Json> {
    set row | row in rows :: LinkJson(LinkOf(row))
  }

  function PayloadDocs(rows: seq<Row>): set<Json> {
    set row | row in rows && row.request.Some? :: Payload(row.request.value)
  }

  /** The digest does not collide on the texts that verifying both chains hashes. */
  ghost predicate HashedApart(a: seq<Row>, b: seq<Row>, sha: string -> string) {
    CollisionFree(sha, LinkDocs(a) + LinkDocs(b)) && CollisionFree(sha, PayloadDocs(a) + PayloadDocs(b))
  }

  lemma SameDocument(x: Json, y: Json, sha: string -> string, docs: set<Json>)
    requires CollisionFree(sha, docs) && x in docs && y in docs && sha(Print(x, true)) == sha(Print(y, true))
    ensures x == y
  {
    PrintInjective(x, y, true);
  }

  /** A digest of canonical texts that does not collide on the texts hashed tells their links and requests apart. */
  lemma TextsSeparate(a: seq<Row>, b: seq<Row>, sha: string -> string, h: Hashes)
    requires HashedApart(a, b, sha) && h == HashesOf(sha)
    ensures Separates(h, Links(a) + Links(b), Requests(a) + Requests(b))
  {
    forall x, y | x in Links(a) + Links(b) && y in Links(a) + Links(b) && h.id(x) == h.id(y) ensures x == y {
      LinkDocListed(a, b, x);
      LinkDocListed(a, b, y);
      SameDocument(LinkJson(x), LinkJson(y), sha, LinkDocs(a) + LinkDocs(b));
      LinkInjective(x, y);
    }
    forall x, y | x in Requests(a) + Requests(b) && y in Requests(a) + Requests(b) && h.key(x) == h.key(y) ensures x == y {
      PayloadListed(a, b, x);
      PayloadListed(a, b, y);
      SameDocument(Payload(x), Payload(y), sha, PayloadDocs(a) + PayloadDocs(b));
      PayloadInjective(x, y);
    }
  }

  lemma LinkDocListed(a: seq<Row>, b: seq<Row>, l: Link)
    requires l in Links(a) + Links(b)
    ensures LinkJson(l) in LinkDocs(a) + LinkDocs(b)
  {
    var row :| (row in a || row in b) && LinkOf(row) == l;
  }

  lemma PayloadListed(a: seq<Row>, b: seq<Row>, r: Request)
    requires r in Requests(a) + Requests(b)
    ensures Payload(r) in PayloadDocs(a) + PayloadDocs(b)
  {
    var row :| (row in a || row in b) && row.request == Some(r);
  }
}
