/** Names the episode a raw evaluation row belongs to. */
module EpisodeIdentity {
  import opened Wrappers
  import opened CanonicalJson
  import opened EpisodeNormalForm

  const POLICY := "legacy_v0"
  const EPISODE_PREFIX := "thesis-evaluation-episode:"

  /** A JSON text column: SQL NULL, a parsed document, or text that does not parse. */
  datatype Column = SqlNull | Document(value: Json) | Unparsable

  /** One thesis_evaluations row, in query order; the ticker is already stripped and upper-cased. */
  datatype Row = Row(id: int, ticker: string, evaluatedAt: string, status: string, hard: Column, soft: Column)

  datatype Invalid = InvalidJson(id: int) | NotAnArray(id: int)

  function JsonArray(column: Column, id: int, nullable: bool): Result<Json, Invalid> {
    match column
    case SqlNull => if nullable then Success(Arr([])) else Failure(InvalidJson(id))
    case Unparsable => Failure(InvalidJson(id))
    case Document(j) => if j.Arr? then Success(j) else Failure(NotAnArray(id))
  }

  /** What a row says, before normalisation. */
  datatype Verdict = Verdict(ticker: string, status: string, hard: Json, soft: Json)

  function Semantic(v: Verdict): Json {
    Obj(map["fingerprint_policy_version" := Str(POLICY), "ticker" := Str(v.ticker), "overall_status" := Str(v.status),
            "rule_evaluations" := Normal(v.hard), "soft_rule_results" := Normal(v.soft)])
  }

  function Canonical(v: Verdict): string {
    Print(Semantic(v), false)
  }

  function ResultText(v: Verdict): string {
    Print(Obj(map["overall_status" := Str(v.status), "rule_evaluations" := Normal(v.hard),
                  "soft_rule_results" := Normal(v.soft), "provenance_completeness" := Str("partial")]), false)
  }

  /** The newline-joined text whose digest names the episode. */
  function IdentityText(v: Verdict, sha: string -> string): string {
    POLICY + "\n" + v.ticker + "\n" + sha(Canonical(v)) + "\n" + v.status
  }

  function EpisodeId(v: Verdict, sha: string -> string): string {
    EPISODE_PREFIX + sha(IdentityText(v, sha))
  }

  /** One row as the grouping stores it: its identity and the texts and digests taken from it. */
  datatype Occurrence = Occurrence(
    id: int, episodeId: string, evaluatedAt: string,
    canonical: string, semanticSha: string, resultSha: string, status: string)

  function OccurrenceOf(id: int, evaluatedAt: string, v: Verdict, sha: string -> string): Occurrence {
    Occurrence(id, EpisodeId(v, sha), evaluatedAt, Canonical(v), sha(Canonical(v)), sha(ResultText(v)), v.status)
  }

  function Prepare(row: Row, sha: string -> string): Result<Occurrence, Invalid> {
    var hard := JsonArray(row.hard, row.id, false);
    var soft := JsonArray(row.soft, row.id, true);
    if hard.Failure? then Failure(hard.error)
    else if soft.Failure? then Failure(soft.error)
    else Success(OccurrenceOf(row.id, row.evaluatedAt, Verdict(row.ticker, row.status, hard.value, soft.value), sha))
  }

  // ---- What the grouping means ----

  /** The digest does not collide on the texts that naming the episodes of these verdicts hashes, and the digests of
      their meanings are equally long, as hexadecimal SHA-256 digests are. */
  ghost predicate HashedApart(vs: set<Verdict>, sha: string -> string) {
    forall x, y {:trigger Canonical(x), Canonical(y)} :: x in vs && y in vs ==>
      && |sha(Canonical(x))| == |sha(Canonical(y))|
      && (sha(Canonical(x)) == sha(Canonical(y)) ==> Canonical(x) == Canonical(y))
      && (sha(IdentityText(x, sha)) == sha(IdentityText(y, sha)) ==> IdentityText(x, sha) == IdentityText(y, sha))
  }

  ghost predicate SameMeaning(v: Verdict, w: Verdict) {
    && v.ticker == w.ticker && v.status == w.status
    && Equivalent(v.hard, w.hard) && Equivalent(v.soft, w.soft)
  }

  lemma SemanticIff(v: Verdict, w: Verdict)
    ensures Canonical(v) == Canonical(w) <==> SameMeaning(v, w)
  {
    NormalFormIff(v.hard, w.hard);
    NormalFormIff(v.soft, w.soft);
    if Canonical(v) == Canonical(w) {
      PrintInjective(Semantic(v), Semantic(w), false);
      SemanticParts(v, w);
    }
  }

  lemma SemanticParts(v: Verdict, w: Verdict)
    requires Semantic(v) == Semantic(w)
    ensures v.ticker == w.ticker && v.status == w.status && Normal(v.hard) == Normal(w.hard) && Normal(v.soft) == Normal(w.soft)
  {
    var m, n := Semantic(v).members, Semantic(w).members;
    assert m["ticker"] == n["ticker"] && m["overall_status"] == n["overall_status"];
    assert m["rule_evaluations"] == n["rule_evaluations"] && m["soft_rule_results"] == n["soft_rule_results"];
  }

  /** Two rows land in one episode exactly when they say the same: same ticker, status and, up to list order
      and timestamps, the same hard and soft results. */
  lemma SameEpisodeIff(v: Verdict, w: Verdict, sha: string -> string)
    requires '\n' !in v.ticker && '\n' !in w.ticker
    requires HashedApart({v, w}, sha)
    ensures EpisodeId(v, sha) == EpisodeId(w, sha) <==> SameMeaning(v, w)
  {
    SemanticIff(v, w);
    if EpisodeId(v, sha) == EpisodeId(w, sha) {
      assert sha(IdentityText(v, sha)) == EpisodeId(v, sha)[|EPISODE_PREFIX|..] == EpisodeId(w, sha)[|EPISODE_PREFIX|..];
      assert IdentityText(v, sha) == IdentityText(w, sha);
      IdentityTextParses(v.ticker, sha(Canonical(v)), v.status, w.ticker, sha(Canonical(w)), w.status);
    }
  }

  lemma CharAfter(a: string, s: string, b: string, t: string)
    requires a + ['\n'] + s == b + ['\n'] + t && |a| < |b|
    ensures b[|a|] == '\n' && b[|a|] in b
  {
    assert (a + ['\n'] + s)[|a|] == (b + ['\n'] + t)[|a|];
  }

  lemma NewlineNotInside(a: string, s: string, b: string, t: string)
    requires '\n' !in b && a + ['\n'] + s == b + ['\n'] + t
    ensures |b| <= |a|
  {
    if |a| < |b| {
      CharAfter(a, s, b, t);
    }
  }

  lemma FirstLineUnique(a: string, s: string, b: string, t: string)
    requires '\n' !in a && '\n' !in b && a + ['\n'] + s == b + ['\n'] + t
    ensures a == b && s == t
  {
    NewlineNotInside(a, s, b, t);
    NewlineNotInside(b, t, a, s);
    var x, y := a + ['\n'] + s, b + ['\n'] + t;
    assert a == x[..|a|] && b == y[..|b|] && s == x[|a| + 1..] && t == y[|b| + 1..];
  }

  lemma IdentityTextParses(t1: string, d1: string, s1: string, t2: string, d2: string, s2: string)
    requires '\n' !in t1 && '\n' !in t2 && |d1| == |d2|
    requires POLICY + "\n" + t1 + "\n" + d1 + "\n" + s1 == POLICY + "\n" + t2 + "\n" + d2 + "\n" + s2
    ensures t1 == t2 && d1 == d2 && s1 == s2
  {
    var x, y := POLICY + "\n" + t1 + "\n" + d1 + "\n" + s1, POLICY + "\n" + t2 + "\n" + d2 + "\n" + s2;
    var r1, r2 := d1 + "\n" + s1, d2 + "\n" + s2;
    assert t1 + ['\n'] + r1 == x[|POLICY| + 1..] == y[|POLICY| + 1..] == t2 + ['\n'] + r2;
    FirstLineUnique(t1, r1, t2, r2);
    assert d1 == r1[..|d1|] && d2 == r2[..|d2|] && s1 == r1[|d1| + 1..] && s2 == r2[|d2| + 1..];
  }
}
