/** Backend selection (router/engine.py): hard filters, then a ranking of the healthy survivors.
    The policy check, the difficulty estimate and the breakers' verdicts are inputs. */
module Router {
  import opened Prelude
  import opened Breaker
  import opened Failover

  datatype Spec = Spec(name: string, modelId: string, costPer1k: real, quality: real, latencyMs: real,
                       residency: string, capabilities: seq<string>)

  /** What a request asks for. An empty residency asks for nothing. */
  datatype Query = Query(difficulty: real, policyAllows: string -> bool, residency: string,
                         maxCostPer1k: Option<real>, required: seq<string>)

  datatype Rejection = PolicyDenied | WrongResidency | OverBudget | MissingCapability

  datatype RouteDecision = RouteDecision(backend: string, modelId: string, utility: real, fallback: seq<string>,
                                         rejected: seq<(string, Rejection)>, fromSafeDefault: bool)

  datatype RouteError = NoEligibleBackend

  /** The first hard filter a backend fails, if any. */
  function Verdict(q: Query, s: Spec): Option<Rejection> {
    if !q.policyAllows(s.modelId) then Some(PolicyDenied)
    else if q.residency != "" && s.residency != q.residency then Some(WrongResidency)
    else if q.maxCostPer1k.Some? && s.costPer1k > q.maxCostPer1k.value then Some(OverBudget)
    else if exists c :: c in q.required && c !in s.capabilities then Some(MissingCapability)
    else None
  }

  function Eligible(q: Query, registry: seq<Spec>): seq<Spec> {
    Filter(registry, (s: Spec) => Verdict(q, s).None?)
  }

  function Pool(q: Query, registry: seq<Spec>, healthy: string -> bool): seq<Spec> {
    var eligible := Eligible(q, registry);
    var up := Filter(eligible, (s: Spec) => healthy(s.name));
    if up != [] then up else eligible
  }

  function Score(q: Query, maxCost: real, maxLatency: real, s: Spec): real {
    var nc := if maxCost > 0.0 then s.costPer1k / maxCost else 0.0;
    var nl := if maxLatency > 0.0 then s.latencyMs / maxLatency else 0.0;
    q.difficulty * s.quality - 0.6 * (1.0 - q.difficulty) * nc - 0.05 * nl
  }

  /** The utility of a backend within a pool, whose maxima set the scale. */
  function Utility(q: Query, pool: seq<Spec>, s: Spec): real {
    Score(q, MaxBy(pool, (e: Spec) => e.costPer1k), MaxBy(pool, (e: Spec) => e.latencyMs), s)
  }

  /** `sorted(..., key=(score, name), reverse=True)` puts x no later than y. */
  function ByUtility(q: Query, pool: seq<Spec>): (Spec, Spec) -> bool {
    var maxCost := MaxBy(pool, (e: Spec) => e.costPer1k);
    var maxLatency := MaxBy(pool, (e: Spec) => e.latencyMs);
    (x: Spec, y: Spec) =>
      var (u, v) := (Score(q, maxCost, maxLatency, x), Score(q, maxCost, maxLatency, y));
      u > v || (u == v && StrLe(y.name, x.name))
  }

  function Ranked(q: Query, pool: seq<Spec>): seq<Spec> { Sort(pool, ByUtility(q, pool)) }

  function Names(s: seq<Spec>): seq<string> { Map(s, (e: Spec) => e.name) }

  /** The names a decision makes the pipeline try, in order. */
  function Chain(d: RouteDecision): seq<string> { [d.backend] + d.fallback }

  /** The decision over a nonempty list of eligible backends. */
  function Decide(q: Query, eligible: seq<Spec>, rejected: seq<(string, Rejection)>,
                  healthy: string -> bool): (d: RouteDecision)
    requires eligible != []
  {
    var up := Filter(eligible, (s: Spec) => healthy(s.name));
    var pool := if up != [] then up else eligible;
    var ranked := Ranked(q, pool);
    SortPermutes(pool, ByUtility(q, pool));
    var best := ranked[0];
    RouteDecision(best.name, best.modelId, Utility(q, pool, best), Names(ranked[1..]), rejected, up == [])
  }

  method Route(q: Query, registry: seq<Spec>, healthy: string -> bool) returns (r: Result<RouteDecision, RouteError>)
    ensures r == RouteOf(q, registry, healthy)
  {
    var eligible, rejected := ApplyFilters(q, registry);
    if eligible == [] {
      return Err(NoEligibleBackend);
    }
    r := Ok(Decide(q, eligible, rejected, healthy));
  }

  function RouteOf(q: Query, registry: seq<Spec>, healthy: string -> bool): Result<RouteDecision, RouteError> {
    var eligible := Eligible(q, registry);
    if eligible == [] then Err(NoEligibleBackend) else Ok(Decide(q, eligible, Rejections(q, registry), healthy))
  }

  /** A request is refused exactly when no backend passes the hard filters; otherwise chosen and
      fallback are the ranking of the pool, and the safe default is used exactly when no eligible
      backend is healthy. */
  lemma RouteMeaning(q: Query, registry: seq<Spec>, healthy: string -> bool)
    ensures var (r, pool) := (RouteOf(q, registry, healthy), Pool(q, registry, healthy));
      && (r.Err? <==> forall s :: s in registry ==> Verdict(q, s).Some?)
      && (r.Ok? ==>
            && |Ranked(q, pool)| == |pool| > 0
            && Chain(r.value) == Names(Ranked(q, pool))
            && r.value.modelId == Ranked(q, pool)[0].modelId && r.value.utility == Utility(q, pool, Ranked(q, pool)[0])
            && (r.value.fromSafeDefault <==> forall s :: s in Eligible(q, registry) ==> !healthy(s.name)))
  {
    var eligible := Eligible(q, registry);
    FilterMembers(registry, (s: Spec) => Verdict(q, s).None?);
    if eligible == [] {
      assert forall s :: s in registry ==> s !in eligible;
    } else {
      assert eligible[0] in eligible;
      SafeDefault(eligible, healthy);
      ChainIsRanking(q, registry, healthy);
    }
  }

  /** A request that some backend passes is routed to a registered backend first. */
  lemma RoutedToRegistered(q: Query, registry: seq<Spec>, healthy: string -> bool, s: Spec) returns (first: Spec)
    requires s in registry && Verdict(q, s).None?
    ensures RouteOf(q, registry, healthy).Ok? && first in registry
    ensures Chain(RouteOf(q, registry, healthy).value)[0] == first.name
  {
    RouteMeaning(q, registry, healthy);
    var ranked := Ranked(q, Pool(q, registry, healthy));
    first := ranked[0];
    assert Names(ranked)[0] == first.name;
    RankedAreRegistered(q, registry, healthy, first);
  }

  lemma RankedAreRegistered(q: Query, registry: seq<Spec>, healthy: string -> bool, s: Spec)
    requires s in Ranked(q, Pool(q, registry, healthy))
    ensures s in registry
  {
    var (eligible, pool) := (Eligible(q, registry), Pool(q, registry, healthy));
    SortPermutes(pool, ByUtility(q, pool));
    assert s in multiset(pool);
    FilterMembers(eligible, (s: Spec) => healthy(s.name));
    FilterMembers(registry, (s: Spec) => Verdict(q, s).None?);
  }

  lemma ChainIsRanking(q: Query, registry: seq<Spec>, healthy: string -> bool)
    requires Eligible(q, registry) != []
    ensures var (d, pool) := (RouteOf(q, registry, healthy).value, Pool(q, registry, healthy));
      |Ranked(q, pool)| == |pool| > 0 && Chain(d) == Names(Ranked(q, pool))
  {
    var pool := Pool(q, registry, healthy);
    var ranked := Ranked(q, pool);
    SortPermutes(pool, ByUtility(q, pool));
    NamesCons(ranked);
  }

  lemma NamesCons(s: seq<Spec>)
    requires s != []
    ensures Names(s) == [s[0].name] + Names(s[1..])
  {
  }

  lemma SafeDefault(eligible: seq<Spec>, healthy: string -> bool)
    ensures Filter(eligible, (s: Spec) => healthy(s.name)) == [] <==> forall s :: s in eligible ==> !healthy(s.name)
  {
    var up := Filter(eligible, (s: Spec) => healthy(s.name));
    FilterMembers(eligible, (s: Spec) => healthy(s.name));
    assert up != [] ==> up[0] in up;
  }

  method ApplyFilters(q: Query, registry: seq<Spec>) returns (eligible: seq<Spec>, rejected: seq<(string, Rejection)>)
    ensures eligible == Eligible(q, registry) && rejected == Rejections(q, registry)
  {
    eligible, rejected := [], [];
    for i := 0 to |registry|
      invariant eligible == Eligible(q, registry[..i])
      invariant rejected == Rejections(q, registry[..i])
    {
      var s := registry[i];
      assert registry[..i + 1] == registry[..i] + [s];
      FilterConcat(registry[..i], [s], (s: Spec) => Verdict(q, s).None?);
      RejectionsConcat(q, registry[..i], [s]);
      var v := Verdict(q, s);
      if v.None? {
        eligible := eligible + [s];
      } else {
        rejected := rejected + [(s.name, v.value)];
      }
    }
    assert registry[..|registry|] == registry;
  }

  function Rejections(q: Query, registry: seq<Spec>): seq<(string, Rejection)> {
    if registry == [] then []
    else
      var rest := Rejections(q, registry[1..]);
      match Verdict(q, registry[0])
      case None => rest
      case Some(v) => [(registry[0].name, v)] + rest
  }

  lemma {:induction false} RejectionsConcat(q: Query, a: seq<Spec>, b: seq<Spec>)
    ensures Rejections(q, a + b) == Rejections(q, a) + Rejections(q, b)
  {
    if a == [] {
      assert a + b == b;
    } else {
      assert (a + b)[1..] == a[1..] + b;
      RejectionsConcat(q, a[1..], b);
    }
  }

  /** Difficulty shifts the choice: of two backends of one pool with the same latency, the cheaper one
      has the higher utility for the easiest queries and the better one for the hardest. */
  lemma EasyGoesCheapHardGoesGood(q: Query, pool: seq<Spec>, x: Spec, y: Spec)
    requires x in pool && y in pool && x.latencyMs == y.latencyMs && 0.0 <= x.costPer1k && 0.0 <= y.costPer1k
    ensures q.difficulty == 0.0 && x.costPer1k < y.costPer1k ==> Utility(q, pool, x) > Utility(q, pool, y)
    ensures q.difficulty == 1.0 && x.quality > y.quality ==> Utility(q, pool, x) > Utility(q, pool, y)
  {
    var f := (e: Spec) => e.costPer1k;
    MaxByIsMax(pool, f);
    assert f(y) <= MaxBy(pool, f);
    if x.costPer1k < y.costPer1k {
      ShareGrows(x.costPer1k, y.costPer1k, MaxBy(pool, f));
    }
  }

  lemma ShareGrows(a: real, b: real, m: real)
    requires 0.0 <= a < b <= m
    ensures a / m < b / m
  {
    var (p, q) := (a / m, b / m);
    assert p * m == a && q * m == b;
    assert (q - p) * m == b - a;
  }

  // ---------------------------------------------------------------- the ranking

  ghost predicate DistinctNames(s: seq<Spec>) { forall i, j :: 0 <= i < j < |s| ==> s[i].name != s[j].name }

  lemma ByUtilityIsTotal(q: Query, pool: seq<Spec>)
    ensures TotalPreorder(ByUtility(q, pool))
    ensures forall x, y :: ByUtility(q, pool)(x, y) && ByUtility(q, pool)(y, x) ==> x.name == y.name
  {
    var le := ByUtility(q, pool);
    forall x, y ensures le(x, y) || le(y, x) { StrLeTotal(x.name, y.name); }
    forall x, y, z | le(x, y) && le(y, z) ensures le(x, z) {
      if StrLe(z.name, y.name) && StrLe(y.name, x.name) {
        StrLeTransitive(z.name, y.name, x.name);
      }
    }
    forall x, y | le(x, y) && le(y, x) ensures x.name == y.name { StrLeTotal(x.name, y.name); }
  }

  lemma FilterPermutes<T>(s: seq<T>, t: seq<T>, p: T -> bool)
    requires multiset(s) == multiset(t)
    ensures multiset(Filter(s, p)) == multiset(Filter(t, p))
  {
    var (a, b) := (multiset(Filter(s, p)), multiset(Filter(t, p)));
    forall x ensures a[x] == b[x] {
      FilterCount(s, p, x);
      FilterCount(t, p, x);
    }
    assert a == b;
  }

  lemma MaxByPermutes<T>(s: seq<T>, t: seq<T>, f: T -> real)
    requires multiset(s) == multiset(t)
    ensures MaxBy(s, f) == MaxBy(t, f)
  {
    assert |s| == |multiset(s)| == |multiset(t)| == |t|;
    if s != [] {
      MaxByIsMax(s, f);
      MaxByIsMax(t, f);
      var x :| x in s && f(x) == MaxBy(s, f);
      var y :| y in t && f(y) == MaxBy(t, f);
      assert x in multiset(t) && y in multiset(s);
    }
  }

  lemma PoolPermutes(q: Query, a: seq<Spec>, b: seq<Spec>, healthy: string -> bool)
    requires multiset(a) == multiset(b)
    ensures multiset(Eligible(q, a)) == multiset(Eligible(q, b))
    ensures multiset(Pool(q, a, healthy)) == multiset(Pool(q, b, healthy))
  {
    var (ok, up) := ((s: Spec) => Verdict(q, s).None?, (s: Spec) => healthy(s.name));
    FilterPermutes(a, b, ok);
    FilterPermutes(Eligible(q, a), Eligible(q, b), up);
    assert |Filter(Eligible(q, a), up)| == |multiset(Filter(Eligible(q, a), up))|;
    assert |Filter(Eligible(q, b), up)| == |multiset(Filter(Eligible(q, b), up))|;
  }

  lemma {:induction false} FilterKeepsDistinct(s: seq<Spec>, p: Spec -> bool)
    requires DistinctNames(s)
    ensures DistinctNames(Filter(s, p))
  {
    if s != [] {
      FilterKeepsDistinct(s[1..], p);
      FilterMembers(s[1..], p);
      forall k | 0 <= k < |Filter(s[1..], p)| ensures Filter(s[1..], p)[k].name != s[0].name {
        assert Filter(s[1..], p)[k] in s[1..];
      }
    }
  }

  lemma PoolMembers(q: Query, registry: seq<Spec>, healthy: string -> bool)
    requires DistinctNames(registry)
    ensures DistinctNames(Pool(q, registry, healthy))
    ensures forall s :: s in Pool(q, registry, healthy) ==> s in registry && Verdict(q, s).None?
    ensures (exists s :: s in Eligible(q, registry) && healthy(s.name)) ==>
      forall s :: s in Pool(q, registry, healthy) ==> healthy(s.name)
  {
    var (ok, up) := ((s: Spec) => Verdict(q, s).None?, (s: Spec) => healthy(s.name));
    FilterMembers(registry, ok);
    FilterMembers(Eligible(q, registry), up);
    FilterKeepsDistinct(registry, ok);
    FilterKeepsDistinct(Eligible(q, registry), up);
  }

  /** x outranks y strictly: a higher utility, or the same utility and the later name. */
  ghost predicate Outranks(q: Query, pool: seq<Spec>, x: Spec, y: Spec) {
    var (u, v) := (Utility(q, pool, x), Utility(q, pool, y));
    u > v || (u == v && StrLe(y.name, x.name) && x.name != y.name)
  }

  /** Whatever the breakers say, chosen plus fallback is a permutation of the pool in strictly
      descending (utility, name), and every member passed every hard filter: also under the
      safe default, when nobody is healthy. */
  lemma RankingIsStrictAndFiltered(q: Query, registry: seq<Spec>, healthy: string -> bool)
    requires DistinctNames(registry)
    ensures var pool := Pool(q, registry, healthy);
      var ranked := Ranked(q, pool);
      && multiset(ranked) == multiset(pool)
      && (forall i, j :: 0 <= i < j < |ranked| ==> Outranks(q, pool, ranked[i], ranked[j]))
      && (forall i :: 0 <= i < |ranked| ==> ranked[i] in registry && Verdict(q, ranked[i]).None?)
      && Distinct(Names(ranked))
  {
    var pool := Pool(q, registry, healthy);
    var (le, ranked) := (ByUtility(q, pool), Ranked(q, pool));
    PoolMembers(q, registry, healthy);
    ByUtilityIsTotal(q, pool);
    SortPermutes(pool, le);
    SortSorts(pool, le);
    RankedNames(pool, ranked);
  }

  lemma RankedNames(pool: seq<Spec>, ranked: seq<Spec>)
    requires DistinctNames(pool) && multiset(ranked) == multiset(pool) && forall x :: x in ranked <==> x in pool
    ensures DistinctNames(ranked) && Distinct(Names(ranked))
  {
    DistinctElements(pool);
    PermutationKeepsDistinct(pool, ranked);
    forall i, j | 0 <= i < j < |ranked| ensures ranked[i].name != ranked[j].name {
      assert ranked[i] in pool && ranked[j] in pool && ranked[i] != ranked[j];
    }
  }

  lemma DistinctElements(s: seq<Spec>)
    requires DistinctNames(s)
    ensures forall x :: multiset(s)[x] <= 1
  {
    forall x ensures multiset(s)[x] <= 1 { AtMostOne(s, x); }
  }

  /** Backend, chain, utility and refusal do not depend on the order of registration. */
  lemma RouteIgnoresRegistrationOrder(q: Query, a: seq<Spec>, b: seq<Spec>, healthy: string -> bool)
    requires DistinctNames(a) && multiset(a) == multiset(b)
    ensures match (RouteOf(q, a, healthy), RouteOf(q, b, healthy))
      case (Ok(d), Ok(e)) => d == e.(rejected := d.rejected)
      case (Err(_), Err(_)) => true
      case _ => false
  {
    PoolPermutes(q, a, b, healthy);
    assert |Eligible(q, a)| == |multiset(Eligible(q, a))| == |multiset(Eligible(q, b))| == |Eligible(q, b)|;
    if Eligible(q, a) != [] {
      RankingIgnoresOrder(q, a, b, healthy);
      SafeDefaultPermutes(q, a, b, healthy);
    }
  }

  lemma SafeDefaultPermutes(q: Query, a: seq<Spec>, b: seq<Spec>, healthy: string -> bool)
    requires multiset(Eligible(q, a)) == multiset(Eligible(q, b))
    ensures var up := (s: Spec) => healthy(s.name);
      Filter(Eligible(q, a), up) == [] <==> Filter(Eligible(q, b), up) == []
  {
    var up := (s: Spec) => healthy(s.name);
    FilterPermutes(Eligible(q, a), Eligible(q, b), up);
    assert |Filter(Eligible(q, a), up)| == |multiset(Filter(Eligible(q, a), up))| == |Filter(Eligible(q, b), up)|;
  }

  lemma RankingIgnoresOrder(q: Query, a: seq<Spec>, b: seq<Spec>, healthy: string -> bool)
    requires DistinctNames(a) && multiset(a) == multiset(b)
    ensures var (p, r) := (Pool(q, a, healthy), Pool(q, b, healthy));
      Ranked(q, p) == Ranked(q, r) && forall s :: Utility(q, p, s) == Utility(q, r, s)
  {
    var (p, r) := (Pool(q, a, healthy), Pool(q, b, healthy));
    PoolPermutes(q, a, b, healthy);
    MaxByPermutes(p, r, (e: Spec) => e.costPer1k);
    MaxByPermutes(p, r, (e: Spec) => e.latencyMs);
    PoolMembers(q, a, healthy);
    ByUtilityIsTotal(q, p);
    SortIgnoresOrder(p, r, ByUtility(q, p));
  }

  /** The call went to a registered backend that passes every hard filter. */
  ghost predicate Passes(q: Query, specs: seq<Spec>, c: Call) {
    exists s :: s in specs && s.name == c.name && Verdict(q, s).None?
  }

  /** Routing and dispatch together: for every registry, breaker state and environment, each backend
      of the pool is called at most once and nobody outside the hard filters is called. */
  lemma DispatchStaysWithinPolicy(q: Query, specs: seq<Spec>, healthy: string -> bool, d: RouteDecision,
                                  registry: map<string, Entry>, script: seq<Attempt>)
    requires DistinctNames(specs) && RouteOf(q, specs, healthy) == Ok(d)
    requires |script| == |Chain(d)|
    ensures var calls := Walk(registry, Chain(d), script).calls;
      OnceEach(calls, Chain(d)) && forall k :: 0 <= k < |calls| ==> Passes(q, specs, calls[k])
  {
    var ranked := Ranked(q, Pool(q, specs, healthy));
    ChainIsRanking(q, specs, healthy);
    RankingIsStrictAndFiltered(q, specs, healthy);
    CalledAtMostOnce(registry, Chain(d), script);
    var calls := Walk(registry, Chain(d), script).calls;
    forall k | 0 <= k < |calls| ensures Passes(q, specs, calls[k]) {
      var i :| 0 <= i < |ranked| && Names(ranked)[i] == calls[k].name;
      assert ranked[i] in specs;
    }
  }

  /** When the breakers are asked again at the readings at which routing asked them, the safe default
      calls nobody and the request is refused, while every other decision calls somebody. */
  lemma SafeDefaultIsRefused(q: Query, specs: seq<Spec>, registry: map<string, Entry>, clock: string -> real,
                             d: RouteDecision, script: seq<Attempt>)
    requires RouteOf(q, specs, AllowedAt(registry, clock)) == Ok(d) && |script| == |Chain(d)|
    requires forall i :: 0 <= i < |script| ==> script[i].askedAt == clock(Chain(d)[i])
    ensures var walk := Walk(registry, Chain(d), script);
      && (d.fromSafeDefault <==> walk.calls == [])
      && (d.fromSafeDefault ==> walk.served.None? && walk.registry == registry)
  {
    var healthy := AllowedAt(registry, clock);
    var pool := Pool(q, specs, healthy);
    var ranked := Ranked(q, pool);
    ChainIsRanking(q, specs, healthy);
    RouteMeaning(q, specs, healthy);
    IdleWalk(registry, Chain(d), script);
    SortPermutes(pool, ByUtility(q, pool));
    HealthyPool(q, specs, healthy);
    forall i | 0 <= i < |script|
      ensures Tried(registry, Chain(d), script, i) == healthy(ranked[i].name) && ranked[i] in pool
    {
      assert Chain(d)[i] == Names(ranked)[i] == ranked[i].name;
      assert ranked[i] in ranked;
    }
  }

  function OneSpec(): Spec { Spec("b", "m", 1.0, 1.0, 1.0, "any", []) }

  /** One backend whose breaker has opened at the given time. */
  function JustOpened(at: real): map<string, Entry> { map["b" := Entry("m", Snapshot(1, 30.0, 1, Some(at)))] }

  function AnyQuery(): Query { Query(0.5, _ => true, "", None, []) }

  lemma NobodyHealthy(at: real)
    ensures !AllowedAt(JustOpened(at), (n: string) => at)("b")
  {
    var clock := (n: string) => at;
    assert JustOpened(at)["b"].breaker.StateAt(clock("b")) == Breaker.Open;
  }

  lemma OnlyChoice(at: real)
    ensures var r := RouteOf(AnyQuery(), [OneSpec()], AllowedAt(JustOpened(at), (n: string) => at));
      r.Ok? && r.value.fromSafeDefault && Chain(r.value) == ["b"]
  {
    var (q, spec, healthy) := (AnyQuery(), OneSpec(), AllowedAt(JustOpened(at), (n: string) => at));
    NobodyHealthy(at);
    FilterAll([spec], (s: Spec) => Verdict(q, s).None?);
    RouteMeaning(q, [spec], healthy);
    ChainIsRanking(q, [spec], healthy);
    HealthyPool(q, [spec], healthy);
    SortPermutes([spec], ByUtility(q, [spec]));
    assert Ranked(q, [spec])[0] in [spec];
  }

  lemma OnlyChoiceRefused(at: real, script: seq<Attempt>)
    requires |script| == 1 && script[0].askedAt == at
    ensures var walk := Walk(JustOpened(at), ["b"], script); walk.calls == [] && walk.served.None?
  {
    NobodyHealthy(at);
    IdleWalk(JustOpened(at), ["b"], script);
  }

  /** An input: one backend, allowed by every filter, whose breaker has just opened. The router offers it as
      the safe default, and at the same reading of the clock dispatch refuses it without a call. */
  lemma SafeDefaultServesNobody(at: real, script: seq<Attempt>)
    requires |script| == 1 && script[0].askedAt == at
    ensures var r := RouteOf(AnyQuery(), [OneSpec()], AllowedAt(JustOpened(at), (n: string) => at));
      && r.Ok? && r.value.fromSafeDefault && |Chain(r.value)| == |script|
      && var walk := Walk(JustOpened(at), Chain(r.value), script); walk.calls == [] && walk.served.None?
  {
    OnlyChoice(at);
    OnlyChoiceRefused(at, script);
  }

  /** The pool is healthy throughout, or nobody eligible is healthy and the pool is all of them. */
  lemma HealthyPool(q: Query, specs: seq<Spec>, healthy: string -> bool)
    ensures var (pool, eligible) := (Pool(q, specs, healthy), Eligible(q, specs));
      if exists s :: s in eligible && healthy(s.name) then forall s :: s in pool ==> healthy(s.name)
      else pool == eligible
  {
    SafeDefault(Eligible(q, specs), healthy);
    FilterMembers(Eligible(q, specs), (s: Spec) => healthy(s.name));
  }

  lemma {:induction false} FilterAgrees<T>(s: seq<T>, p: T -> bool, p': T -> bool)
    requires forall x :: x in s ==> p(x) == p'(x)
    ensures Filter(s, p) == Filter(s, p')
  {
    if s != [] {
      FilterAgrees(s[1..], p, p');
    }
  }

  /** Routing looks at the health of the registered backends alone. */
  lemma RouteLooksAtRegistered(q: Query, specs: seq<Spec>, h: string -> bool, h': string -> bool)
    requires forall s :: s in specs ==> h(s.name) == h'(s.name)
    ensures RouteOf(q, specs, h) == RouteOf(q, specs, h')
  {
    FilterMembers(specs, (s: Spec) => Verdict(q, s).None?);
    FilterAgrees(Eligible(q, specs), (s: Spec) => h(s.name), (s: Spec) => h'(s.name));
  }
}
