/** The content address of a bundle (replay/bundle.py): a hash of the canonical JSON of what a prompt was
    assembled from. Which reals are floats, and how numbers are written, are parameters. */
module ContentAddress {
  import opened Prelude
  import opened Mmr
  import opened Messages
  import opened Replay
  import Assembler
  import Json

  /** Which reals are floats, and the texts of floats and of integers. */
  datatype Numbers = Numbers(isFloat: real -> bool, realText: real -> string, intText: int -> string) {
    /** Floats are told apart by their texts, and so are integers. */
    ghost predicate Ok() {
      && (forall x :: Json.NumberText(realText(x))) && (forall x :: Json.NumberText(intText(x)))
      && (forall x, y :: isFloat(x) && isFloat(y) && realText(x) == realText(y) ==> x == y)
      && (forall x, y :: intText(x) == intText(y) ==> x == y)
    }

    predicate Optional(x: Option<real>) { x.Some? ==> isFloat(x.value) }

    predicate InWeights(w: Weights) {
      isFloat(w.vector) && isFloat(w.lexical) && isFloat(w.recency) && isFloat(w.importance) && isFloat(w.source)
    }

    predicate InCandidate(c: Candidate) {
      && isFloat(c.rrfScore) && isFloat(c.recency) && isFloat(c.importance) && isFloat(c.ageSeconds)
      && Optional(c.vectorScore) && Optional(c.bm25Score)
    }

    /** Every real in the request is a float. */
    ghost predicate InRequest(r: Request) {
      isFloat(r.lam) && InWeights(r.weights) && forall c :: c in r.candidates ==> InCandidate(c)
    }
  }

  // ---------------------------------------------------------------- numbers that meet the conditions

  function Digit(n: nat): (c: char)
    requires n < 10
    ensures Json.NumberChar(c)
  {
    ('0' as int + n) as char
  }

  function NatText(n: nat): (s: string)
    ensures Json.NumberText(s) && s[0] != '-'
  {
    if n < 10 then [Digit(n)] else NatText(n / 10) + [Digit(n % 10)]
  }

  function IntText(x: int): (s: string)
    ensures Json.NumberText(s)
  {
    if x < 0 then "-" + NatText(-x) else NatText(x)
  }

  lemma {:induction false} NatTextDetermines(m: nat, n: nat)
    requires NatText(m) == NatText(n)
    ensures m == n
  {
    var (s, t) := (NatText(m), NatText(n));
    assert s[|s| - 1] == t[|t| - 1] && s[..|s| - 1] == t[..|t| - 1];
    if m >= 10 && n >= 10 {
      assert s[..|s| - 1] == NatText(m / 10) && t[..|t| - 1] == NatText(n / 10);
      NatTextDetermines(m / 10, n / 10);
    }
  }

  lemma IntTextDetermines(x: int, y: int)
    requires IntText(x) == IntText(y)
    ensures x == y
  {
    if x < 0 && y < 0 {
      assert IntText(x)[1..] == NatText(-x) && IntText(y)[1..] == NatText(-y);
      NatTextDetermines(-x, -y);
    } else if x >= 0 && y >= 0 {
      NatTextDetermines(x, y);
    }
  }

  function Steps(scale: nat, x: real): int { (x * scale as real).Floor }

  /** x is a multiple of 1 / scale. */
  predicate OnGrid(scale: nat, x: real) { Steps(scale, x) as real == x * scale as real }

  lemma StepsDetermine(scale: nat, x: real, y: real)
    requires scale > 0 && OnGrid(scale, x) && OnGrid(scale, y) && Steps(scale, x) == Steps(scale, y)
    ensures x == y
  {
    SameMultiple(x, y, scale as real);
  }

  lemma SameMultiple(x: real, y: real, scale: real)
    requires scale > 0.0 && x * scale == y * scale
    ensures x == y
  {
    assert (x - y) * scale == 0.0;
  }

  lemma GridTextsDetermine(scale: nat, x: real, y: real)
    requires scale > 0 && OnGrid(scale, x) && OnGrid(scale, y) && IntText(Steps(scale, x)) == IntText(Steps(scale, y))
    ensures x == y
  {
    IntTextDetermines(Steps(scale, x), Steps(scale, y));
    StepsDetermine(scale, x, y);
  }

  /** Multiples of 1 / scale as floats, in decimal. With a scale of 2^1074 every finite double is one. */
  function FixedPoint(scale: nat): Numbers {
    Numbers((x: real) => OnGrid(scale, x), (x: real) => IntText(Steps(scale, x)), (x: int) => IntText(x))
  }

  /** The conditions can be met. */
  lemma FixedPointIsOk(scale: nat)
    requires scale > 0
    ensures FixedPoint(scale).Ok()
  {
    forall x, y | OnGrid(scale, x) && OnGrid(scale, y) && IntText(Steps(scale, x)) == IntText(Steps(scale, y))
      ensures x == y
    {
      GridTextsDetermine(scale, x, y);
    }
    forall x, y | IntText(x) == IntText(y) ensures x == y { IntTextDetermines(x, y); }
  }

  // ---------------------------------------------------------------- the canonical JSON

  function RealJson(n: Numbers, x: real): Json.Value { Json.Number(n.realText(x)) }

  function IntJson(n: Numbers, x: int): Json.Value { Json.Number(n.intText(x)) }

  function OptReal(n: Numbers, x: Option<real>): Json.Value { if x.Some? then RealJson(n, x.value) else Json.Null }

  function OptInt(n: Numbers, x: Option<nat>): Json.Value { if x.Some? then IntJson(n, x.value) else Json.Null }

  function OptStr(x: Option<string>): Json.Value { if x.Some? then Json.Str(x.value) else Json.Null }

  function TierValue(t: MemoryTier): string {
    match t
    case Working => "working"
    case ShortTerm => "short_term"
    case LongTerm => "long_term"
    case Episodic => "episodic"
    case Semantic => "semantic"
  }

  function WeightsJson(n: Numbers, w: Weights): Json.Value {
    Json.Obj([Json.Field("importance", RealJson(n, w.importance)), Json.Field("lexical", RealJson(n, w.lexical)),
              Json.Field("recency", RealJson(n, w.recency)), Json.Field("source", RealJson(n, w.source)),
              Json.Field("vector", RealJson(n, w.vector))])
  }

  function BudgetJson(n: Numbers, b: Assembler.Budget): Json.Value {
    Json.Obj([Json.Field("latest_user_reserve", IntJson(n, b.userReserve)),
              Json.Field("output_reserve", IntJson(n, b.outputReserve)),
              Json.Field("system_reserve", IntJson(n, b.systemReserve)),
              Json.Field("window_tokens", IntJson(n, b.window))])
  }

  function CandidateJson(n: Numbers, c: Candidate): Json.Value {
    Json.Obj([Json.Field("age_seconds", RealJson(n, c.ageSeconds)),
              Json.Field("bm25_score", OptReal(n, c.bm25Score)),
              Json.Field("content", Json.Str(c.content)), Json.Field("importance", RealJson(n, c.importance)),
              Json.Field("memory_id", Json.Str(c.id)), Json.Field("namespace", Json.Str(c.namespace)),
              Json.Field("rank_in_dense", OptInt(n, c.rankInDense)),
              Json.Field("rank_in_sparse", OptInt(n, c.rankInSparse)),
              Json.Field("recency_factor", RealJson(n, c.recency)),
              Json.Field("rrf_score", RealJson(n, c.rrfScore)),
              Json.Field("source_ref", OptStr(c.sourceRef)), Json.Field("tenant_id", Json.Str(c.tenant)),
              Json.Field("tier", Json.Str(TierValue(c.tier))), Json.Field("vector_score", OptReal(n, c.vectorScore))])
  }

  /** What the content address covers, keys in order. */
  function Payload(n: Numbers, r: Request): Json.Value {
    Json.Obj([Json.Field("budget", BudgetJson(n, r.budget)),
              Json.Field("candidates", Json.Arr(Map(r.candidates, (c: Candidate) => CandidateJson(n, c)))),
              Json.Field("latest_user_turn", Json.Str(r.userTurn)), Json.Field("mmr_lambda", RealJson(n, r.lam)),
              Json.Field("model_id", Json.Str(r.modelId)), Json.Field("system_prompt", Json.Str(r.systemPrompt)),
              Json.Field("weights", WeightsJson(n, r.weights))])
  }

  /** `content_address` with a given hash. */
  function AddressOf(n: Numbers, blake: string -> string): Request -> string {
    (r: Request) => blake(Json.TextOf(Payload(n, r)))
  }

  // ---------------------------------------------------------------- the keys

  /** The key a comes before b: they first differ at place k, by the order of their characters there. */
  ghost predicate Before(a: string, b: string, k: nat) { k < |a| && k < |b| && a[..k] == b[..k] && a[k] < b[k] }

  lemma {:induction false} BeforeIsLess(a: string, b: string, k: nat)
    requires Before(a, b, k)
    ensures StrLe(a, b) && a != b
  {
    if k > 0 {
      assert a[0] == a[..k][0] == b[..k][0] == b[0];
      assert a[1..][..k - 1] == a[..k][1..] && b[1..][..k - 1] == b[..k][1..];
      BeforeIsLess(a[1..], b[1..], k - 1);
    }
    assert a[k] != b[k];
  }

  /** The keys of an object stand in ascending order, as `sort_keys` has them. */
  ghost predicate KeysAscend(v: Json.Value) {
    v.Obj? && forall i, j :: 0 <= i < j < |v.fields| && j == i + 1 ==> Less(v.fields[i].key, v.fields[j].key)
  }

  ghost predicate Less(a: string, b: string) { exists k: nat :: Before(a, b, k) }

  lemma PayloadKeysAscend(n: Numbers, r: Request)
    ensures KeysAscend(Payload(n, r))
  {
    assert Before("budget", "candidates", 0);
    assert Before("candidates", "latest_user_turn", 0);
    assert Before("latest_user_turn", "mmr_lambda", 0);
    assert Before("mmr_lambda", "model_id", 1);
    assert Before("model_id", "system_prompt", 0);
    assert Before("system_prompt", "weights", 0);
  }

  lemma WeightsKeysAscend(n: Numbers, w: Weights)
    ensures KeysAscend(WeightsJson(n, w))
  {
    assert Before("importance", "lexical", 0);
    assert Before("lexical", "recency", 0);
    assert Before("recency", "source", 0);
    assert Before("source", "vector", 0);
  }

  lemma BudgetKeysAscend(n: Numbers, b: Assembler.Budget)
    ensures KeysAscend(BudgetJson(n, b))
  {
    assert Before("latest_user_reserve", "output_reserve", 0);
    assert Before("output_reserve", "system_reserve", 0);
    assert Before("system_reserve", "window_tokens", 0);
  }

  lemma CandidateKeysAscend(n: Numbers, c: Candidate)
    ensures KeysAscend(CandidateJson(n, c))
  {
    assert Before("age_seconds", "bm25_score", 0);
    assert Before("bm25_score", "content", 0);
    assert Before("content", "importance", 0);
    assert Before("importance", "memory_id", 0);
    assert Before("memory_id", "namespace", 0);
    assert Before("namespace", "rank_in_dense", 0);
    assert Before("rank_in_dense", "rank_in_sparse", 8);
    assert Before("rank_in_sparse", "recency_factor", 1);
    assert Before("recency_factor", "rrf_score", 1);
    assert Before("rrf_score", "source_ref", 0);
    assert Before("source_ref", "tenant_id", 0);
    assert Before("tenant_id", "tier", 1);
    assert Before("tier", "vector_score", 0);
  }

  // ---------------------------------------------------------------- what an address identifies

  lemma WeightsJsonDetermines(n: Numbers, w: Weights, w': Weights)
    requires n.Ok() && n.InWeights(w) && n.InWeights(w') && WeightsJson(n, w) == WeightsJson(n, w')
    ensures w == w'
  {
    var (f, g) := (WeightsJson(n, w).fields, WeightsJson(n, w').fields);
    assert f[0] == g[0] && f[1] == g[1] && f[2] == g[2] && f[3] == g[3] && f[4] == g[4];
  }

  lemma BudgetJsonDetermines(n: Numbers, b: Assembler.Budget, b': Assembler.Budget)
    requires n.Ok() && BudgetJson(n, b) == BudgetJson(n, b')
    ensures b == b'
  {
    var (f, g) := (BudgetJson(n, b).fields, BudgetJson(n, b').fields);
    assert f[0] == g[0] && f[1] == g[1] && f[2] == g[2] && f[3] == g[3];
  }

  lemma TierValueDetermines(t: MemoryTier, t': MemoryTier)
    requires TierValue(t) == TierValue(t')
    ensures t == t'
  {
    assert TierValue(t)[0] == TierValue(t')[0] && TierValue(t)[1] == TierValue(t')[1];
  }

  lemma FirstFieldsDetermine(n: Numbers, c: Candidate, c': Candidate)
    requires n.Ok() && n.InCandidate(c) && n.InCandidate(c') && CandidateJson(n, c) == CandidateJson(n, c')
    ensures c.ageSeconds == c'.ageSeconds && c.bm25Score == c'.bm25Score && c.content == c'.content
    ensures c.importance == c'.importance && c.id == c'.id && c.namespace == c'.namespace
    ensures c.rankInDense == c'.rankInDense
  {
    var (f, g) := (CandidateJson(n, c).fields, CandidateJson(n, c').fields);
    assert f[0] == g[0] && f[1] == g[1] && f[2] == g[2] && f[3] == g[3] && f[4] == g[4] && f[5] == g[5] && f[6] == g[6];
  }

  lemma LastFieldsDetermine(n: Numbers, c: Candidate, c': Candidate)
    requires n.Ok() && n.InCandidate(c) && n.InCandidate(c') && CandidateJson(n, c) == CandidateJson(n, c')
    ensures c.rankInSparse == c'.rankInSparse && c.recency == c'.recency && c.rrfScore == c'.rrfScore
    ensures c.sourceRef == c'.sourceRef && c.tenant == c'.tenant && TierValue(c.tier) == TierValue(c'.tier)
    ensures c.vectorScore == c'.vectorScore
  {
    var (f, g) := (CandidateJson(n, c).fields, CandidateJson(n, c').fields);
    assert f[7] == g[7] && f[8] == g[8] && f[9] == g[9] && f[10] == g[10] && f[11] == g[11] && f[12] == g[12];
    assert f[13] == g[13];
  }

  lemma CandidateJsonDetermines(n: Numbers, c: Candidate, c': Candidate)
    requires n.Ok() && n.InCandidate(c) && n.InCandidate(c') && CandidateJson(n, c) == CandidateJson(n, c')
    ensures c == c'
  {
    FirstFieldsDetermine(n, c, c');
    LastFieldsDetermine(n, c, c');
    TierValueDetermines(c.tier, c'.tier);
  }

  lemma CandidatesJsonDetermines(n: Numbers, a: seq<Candidate>, b: seq<Candidate>)
    requires n.Ok() && (forall c :: c in a ==> n.InCandidate(c)) && (forall c :: c in b ==> n.InCandidate(c))
    requires Map(a, (c: Candidate) => CandidateJson(n, c)) == Map(b, (c: Candidate) => CandidateJson(n, c))
    ensures a == b
  {
    var f := (c: Candidate) => CandidateJson(n, c);
    assert |a| == |Map(a, f)| == |Map(b, f)| == |b|;
    forall k | 0 <= k < |a| ensures a[k] == b[k] {
      assert Map(a, f)[k] == Map(b, f)[k];
      CandidateJsonDetermines(n, a[k], b[k]);
    }
  }

  lemma PayloadDetermines(n: Numbers, r: Request, r': Request)
    requires n.Ok() && n.InRequest(r) && n.InRequest(r') && Payload(n, r) == Payload(n, r')
    ensures r == r'
  {
    var (f, g) := (Payload(n, r).fields, Payload(n, r').fields);
    assert f[0] == g[0] && f[1] == g[1] && f[2] == g[2] && f[3] == g[3] && f[4] == g[4] && f[5] == g[5] && f[6] == g[6];
    BudgetJsonDetermines(n, r.budget, r'.budget);
    CandidatesJsonDetermines(n, r.candidates, r'.candidates);
    WeightsJsonDetermines(n, r.weights, r'.weights);
  }

  lemma CandidateJsonIsValid(n: Numbers, c: Candidate)
    requires n.Ok()
    ensures Json.Valid(CandidateJson(n, c))
  {
  }

  lemma WeightsJsonIsValid(n: Numbers, w: Weights)
    requires n.Ok()
    ensures Json.Valid(WeightsJson(n, w))
  {
  }

  lemma BudgetJsonIsValid(n: Numbers, b: Assembler.Budget)
    requires n.Ok()
    ensures Json.Valid(BudgetJson(n, b))
  {
  }

  lemma CandidatesJsonAreValid(n: Numbers, cands: seq<Candidate>)
    requires n.Ok()
    ensures Json.Valid(Json.Arr(Map(cands, (c: Candidate) => CandidateJson(n, c))))
  {
    forall k | 0 <= k < |cands| ensures Json.Valid(CandidateJson(n, cands[k])) {
      CandidateJsonIsValid(n, cands[k]);
    }
  }

  lemma PayloadIsValid(n: Numbers, r: Request)
    requires n.Ok()
    ensures Json.Valid(Payload(n, r))
  {
    WeightsJsonIsValid(n, r.weights);
    BudgetJsonIsValid(n, r.budget);
    CandidatesJsonAreValid(n, r.candidates);
  }

  /** The content address covers the inputs and nothing else. Its canonical JSON can be read in one way
      only, so for a collision-free hash two captures share an address exactly when they were assembled
      from the same inputs; trace, tenant, messages and output never matter. Every real in the inputs is a
      float, as in the code. */
  lemma ContentAddressed(env: Env, n: Numbers, blake: string -> string, trace: string, ctx: Ctx, r: Request,
                         trace': string, ctx': Ctx, r': Request, ms: seq<Message>, ms': seq<Message>)
    requires n.Ok() && n.InRequest(r) && n.InRequest(r')
    requires env.address == AddressOf(n, blake) && forall x, y :: blake(x) == blake(y) ==> x == y
    ensures BundleFor(env, trace, ctx, r, ms).cid == BundleFor(env, trace', ctx', r', ms').cid <==> r == r'
  {
    PayloadIsValid(n, r);
    PayloadIsValid(n, r');
    Json.TextDeterminesValue(Payload(n, r), Payload(n, r'));
    if Payload(n, r) == Payload(n, r') {
      PayloadDetermines(n, r, r');
    }
  }
}
