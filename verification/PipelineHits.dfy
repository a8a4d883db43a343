/** When a request is served an answer that was generated for another partition (pipeline.py, cache/keys.py). */
module PipelineHits {
  import opened Prelude
  import opened Messages
  import opened Pipeline
  import Assembler
  import Breaker
  import Cache
  import CacheByRequest
  import Failover
  import Router

  // ---------------------------------------------------------------- where a separator can move

  /** The rest of a partition with its versions: the namespace, the model, and a tail. */
  function Scoped(namespace: string, model: string, tail: string): string {
    namespace + [UNIT_SEP] + model + [UNIT_SEP] + tail
  }

  lemma RestIsScoped(p: Cache.Partition)
    ensures Join(p.Rest(), [UNIT_SEP]) == Scoped(p.namespace, p.model, p.sysver + [UNIT_SEP] + p.factsver)
  {
    Cache.JoinCons(p.namespace, [p.model, p.sysver, p.factsver]);
    Cache.JoinCons(p.model, [p.sysver, p.factsver]);
    Cache.JoinTwo(p.sysver, p.factsver);
    Cache.JoinCons(p.sysver, [p.factsver]);
    var tail := p.sysver + [UNIT_SEP] + p.factsver;
    assert p.namespace + [UNIT_SEP] + (p.model + [UNIT_SEP] + tail) == Scoped(p.namespace, p.model, tail);
  }

  lemma SamePlace(x: string, v: string, x': string, v': string)
    requires |x| == |x'| && x + [UNIT_SEP] + v == x' + [UNIT_SEP] + v'
    ensures x == x' && v == v'
  {
    var s := x + [UNIT_SEP] + v;
    assert x == s[..|x|] && x' == s[..|x'|] && v == s[|x| + 1..] && v' == s[|x'| + 1..];
  }

  lemma Behind(x: string, v: string, k: nat)
    requires k < |x + [UNIT_SEP] + v| && (x + [UNIT_SEP] + v)[k] == UNIT_SEP
    ensures k <= |x| || UNIT_SEP in v
  {
    if k > |x| {
      assert (x + [UNIT_SEP] + v)[k] == v[k - |x| - 1];
    }
  }

  /** Two texts cut at their last separator are the same text only if they are cut alike. */
  lemma LastPart(x: string, v: string, x': string, v': string)
    requires UNIT_SEP !in v && UNIT_SEP !in v' && x + [UNIT_SEP] + v == x' + [UNIT_SEP] + v'
    ensures x == x' && v == v'
  {
    Behind(x, v, |x'|);
    Behind(x', v', |x|);
    SamePlace(x, v, x', v');
  }

  /** A separator stands in the namespace, after the first `least` characters, or in the model before its last
      character. */
  predicate Movable(least: nat, namespace: string, model: string)
    requires least <= |namespace|
  {
    UNIT_SEP in namespace[least..] || (model != "" && UNIT_SEP in model[..|model| - 1])
  }

  lemma OtherCutMeansMovable(least: nat, ns: string, m: string, ns': string, m': string)
    requires ns + [UNIT_SEP] + m == ns' + [UNIT_SEP] + m' && (ns != ns' || m != m') && m' != ""
    requires least <= |ns| && least <= |ns'|
    ensures Movable(least, ns, m)
  {
    var s := ns + [UNIT_SEP] + m;
    assert s[|ns'|] == UNIT_SEP;
    if |ns'| < |ns| {
      assert s[|ns'|] == ns[|ns'|] == ns[least..][|ns'| - least];
    } else if |ns'| > |ns| {
      assert s[|ns'|] == m[|ns'| - |ns| - 1];
      assert m[..|m| - 1][|ns'| - |ns| - 1] == UNIT_SEP;
    } else {
      SamePlace(ns, m, ns', m');
    }
  }

  lemma Regroup(a: string, b: string, c: string)
    ensures a + [UNIT_SEP] + b + [UNIT_SEP] + c == a + [UNIT_SEP] + (b + [UNIT_SEP] + c)
  {
  }

  /** The other cut: another namespace and another model, not empty, with the same joined text. */
  lemma OtherCut(least: nat, ns: string, m: string) returns (ns': string, m': string)
    requires least <= |ns| && Movable(least, ns, m) && m != ""
    ensures ns' + [UNIT_SEP] + m' == ns + [UNIT_SEP] + m && (ns' != ns || m' != m) && m' != "" && least <= |ns'|
  {
    if UNIT_SEP in ns[least..] {
      var k :| 0 <= k < |ns| - least && ns[least..][k] == UNIT_SEP;
      var (a, b) := (ns[..least + k], ns[least + k + 1..]);
      assert ns == a + [UNIT_SEP] + b;
      Regroup(a, b, m);
      ns', m' := a, b + [UNIT_SEP] + m;
    } else {
      var n := |m| - 1;
      var k :| 0 <= k < n && m[..n][k] == UNIT_SEP;
      assert m == m[..k] + [UNIT_SEP] + m[k + 1..];
      Regroup(ns, m[..k], m[k + 1..]);
      ns', m' := ns + [UNIT_SEP] + m[..k], m[k + 1..];
    }
  }

  /** Partitions of a tenant that differ in namespace and model alone share their text exactly when they
      join these two alike. */
  lemma TwinsByCut(p: Cache.Partition, p': Cache.Partition)
    requires p'.tenant == p.tenant && p'.factsver == p.factsver
    requires UNIT_SEP !in p.sysver && UNIT_SEP !in p'.sysver && UNIT_SEP !in p.factsver
    ensures Cache.Twin(p, p') <==>
      p'.sysver == p.sysver && p'.namespace + [UNIT_SEP] + p'.model == p.namespace + [UNIT_SEP] + p.model
  {
    Cache.TwinsJoinAlike(p, p');
    RestIsScoped(p);
    RestIsScoped(p');
    var (x, x') := (p.namespace + [UNIT_SEP] + p.model, p'.namespace + [UNIT_SEP] + p'.model);
    Regroup(x, p.sysver, p.factsver);
    Regroup(x', p'.sysver, p'.factsver);
    if Cache.Twin(p, p') {
      LastPart(x + [UNIT_SEP] + p.sysver, p.factsver, x' + [UNIT_SEP] + p'.sysver, p'.factsver);
      LastPart(x, p.sysver, x', p'.sysver);
    }
  }

  // ---------------------------------------------------------------- a run that misdirects an answer

  function Wanted(cfg: Config, req: Request): Cache.Partition { PartitionFor(cfg, req, ChosenModel(cfg, req)) }

  /** After the run the request is served from the cache, although nothing was ever generated for its tenant,
      namespace, model and system prompt. */
  ghost predicate Astray(cfg: Config, registry: map<string, Failover.Entry>, reqs: seq<Request>, req: Request) {
    var st := Pipeline.After(cfg, Start(registry), reqs);
    HitFor(cfg, st, req).Some? && forall g :: g in st.log ==> PartitionOf(cfg, g) != Wanted(cfg, req)
  }

  /** The same request in another namespace and asking for another model, with nothing retrieved, allowed to
      one model only, answered wherever it is sent, and stored at the reading at which the first one looks up. */
  function Earlier(req: Request, namespace: string, asked: string, served: string): Request {
    req.(ctx := Ctx(req.ctx.tenant, namespace), model := asked, retrieved := [], storeAt := req.lookupAt,
         allows := (m: Option<string>) => m.None? || m == Some(served),
         single := Failover.Reply(Done()), attempt := (_: nat) => Failover.Attempt(0.0, 0.0, Failover.Reply(Done())))
  }

  function Done(): Failover.Response { Failover.Response("", "", Some("stop")) }

  lemma NothingInjected(cfg: Config, req: Request)
    requires Prepare(cfg, req).Ok? && req.retrieved == []
    ensures Prepare(cfg, req).value.injected == 0
  {
    if cfg.useAssembler {
      var q := AssemblyFor(cfg, req);
      var (e, count) := (cfg.replayEnv.embedder, cfg.replayEnv.count);
      assert CandidatesFor(cfg, req) == [];
      Assembler.InjectedCountsBlocks(e, q.budget, SourcesFor(cfg, req), q.weights, count, q.lam);
      Assembler.PlacedCount(e, q.budget, SourcesFor(cfg, req), q.weights, count, q.lam);
    }
  }

  lemma EarlierIsPrepared(cfg: Config, req: Request, namespace: string, asked: string, served: string)
    requires Prepare(cfg, req).Ok?
    ensures var earlier := Earlier(req, namespace, asked, served);
      Prepare(cfg, earlier).Ok? && Prepare(cfg, earlier).value.injected == 0
  {
    var earlier := Earlier(req, namespace, asked, served);
    assert AssemblyFor(cfg, earlier).budget == AssemblyFor(cfg, req).budget;
    NothingInjected(cfg, earlier);
  }

  lemma EmptyCacheMisses(cfg: Config, registry: map<string, Failover.Entry>, req: Request)
    ensures HitFor(cfg, Start(registry), req).None?
  {
  }

  // ---------------------------------------------------------------- what an answered request stores

  /** In this state the request reaches the backends and is answered, completely and from bare messages, by a. */
  ghost predicate Answered(cfg: Config, st: State, req: Request, a: Answer) {
    && Reaches(cfg, st, req) && Prepare(cfg, req).value.injected == 0
    && AnswerTo(cfg, st, req) == Ok(a) && a.response.finishReason.Some?
  }

  /** What is written to the cache then. */
  function WriteOf(cfg: Config, req: Request, a: Answer): Cache.Write {
    Cache.Write(req.storeAt, PartitionFor(cfg, req, a.model), req.prompt, a.response.text, false, None)
  }

  lemma AnsweredIsStored(cfg: Config, st: State, req: Request, a: Answer)
    requires cfg.useCache && Answered(cfg, st, req, a)
    ensures var st' := Step(cfg, st, req).0;
      && st'.cache == Cache.StoreIn(cfg.cacheEnv, st.cache, WriteOf(cfg, req, a))
      && st'.log == st.log + [GenerationOf(req, Prepare(cfg, req).value, a)]
  {
    var p := Prepare(cfg, req).value;
    StepProceeds(cfg, st, req);
    ProceedSplits(cfg, st, req, p);
    CapturedKeepsCache(cfg, st, req, p.messages);
    InvokeTouchesBreakersOnly(cfg, Captured(cfg, st, req, p.messages), req, p);
  }

  lemma CapturedKeepsCache(cfg: Config, st: State, req: Request, ms: seq<Message>)
    ensures var st' := Captured(cfg, st, req, ms); st'.cache == st.cache && st'.log == st.log
  {
  }

  lemma RunOfOne(cfg: Config, st: State, req: Request)
    ensures Pipeline.After(cfg, st, [req]) == Step(cfg, st, req).0
  {
    assert [req][1..] == [];
  }

  // ---------------------------------------------------------------- a registry on which everybody answers

  /** Every registered backend under its model, with a breaker that has seen no failure. */
  function Fresh(specs: seq<Router.Spec>): map<string, Failover.Entry> {
    if specs == [] then map[]
    else Fresh(specs[1..])[specs[0].name := Failover.Entry(specs[0].modelId, Breaker.Snapshot(1, 1.0, 0, None))]
  }

  lemma {:induction false} FreshKnowsAll(specs: seq<Router.Spec>)
    requires Router.DistinctNames(specs)
    ensures forall s :: s in specs ==> s.name in Fresh(specs) && Fresh(specs)[s.name].modelId == s.modelId
    ensures forall n :: n in Fresh(specs) ==> Fresh(specs)[n].breaker.openedAt.None?
  {
    if specs != [] {
      FreshKnowsAll(specs[1..]);
      forall s | s in specs ensures s.name in Fresh(specs) && Fresh(specs)[s.name].modelId == s.modelId {
        if s != specs[0] {
          var i :| 0 <= i < |specs| && specs[i] == s;
          assert s in specs[1..] && specs[0].name != specs[i].name;
        }
      }
    }
  }

  /** Some backend could be answering with this model. */
  ghost predicate Servable(cfg: Config, model: string) {
    if UsesRouter(cfg) then Offered(cfg, model) else model != ""
  }

  lemma RouteIsOffered(cfg: Config, st: State, req: Request, p: Prepared, s: Router.Spec) returns (first: Router.Spec)
    requires s in cfg.specs && req.allows(Some(s.modelId))
    ensures RouteFor(cfg, st, req, p).Ok? && first in cfg.specs
    ensures Router.Chain(RouteFor(cfg, st, req, p).value)[0] == first.name
  {
    var (q, healthy) := (QueryFor(cfg, req, p), Failover.AllowedAt(st.registry, req.checkedAt));
    assert Router.Verdict(q, s).None?;
    first := Router.RoutedToRegistered(q, cfg.specs, healthy, s);
  }

  lemma FirstAnswers(registry: map<string, Failover.Entry>, names: seq<string>, script: seq<Failover.Attempt>)
    requires |names| == |script| > 0 && names[0] in registry && registry[names[0]].breaker.openedAt.None?
    requires script[0] == Failover.Attempt(0.0, 0.0, Failover.Reply(Done()))
    ensures Failover.Walk(registry, names, script).served
         == Some(Failover.Served(Done(), names[0], registry[names[0]].modelId))
  {
  }

  lemma RoutedAnswer(cfg: Config, st: State, req: Request, p: Prepared, served: string)
    requires UsesRouter(cfg) && Router.DistinctNames(cfg.specs) && st.registry == Fresh(cfg.specs)
    requires Offered(cfg, served) && req.allows(Some(served))
    requires forall m :: req.allows(Some(m)) ==> m == served
    requires forall i :: req.attempt(i) == Failover.Attempt(0.0, 0.0, Failover.Reply(Done()))
    ensures Invoke(cfg, st, req, p).1 == Ok(Answer(Done(), served))
  {
    FreshKnowsAll(cfg.specs);
    var s :| s in cfg.specs && s.modelId == served;
    var first := RouteIsOffered(cfg, st, req, p, s);
    var chain := Router.Chain(RouteFor(cfg, st, req, p).value);
    FirstAnswers(st.registry, chain, Script(req, |chain|));
    RoutedAnswerIsAllowed(cfg, st, req, p);
  }

  lemma EarlierIsAnswered(cfg: Config, req: Request, ns: string, asked: string, served: string)
    requires Prepare(cfg, req).Ok? && Servable(cfg, served) && Router.DistinctNames(cfg.specs)
    requires !UsesRouter(cfg) ==> asked == served
    ensures Answered(cfg, Start(Fresh(cfg.specs)), Earlier(req, ns, asked, served), Answer(Done(), served))
  {
    var earlier := Earlier(req, ns, asked, served);
    EarlierIsPrepared(cfg, req, ns, asked, served);
    EmptyCacheMisses(cfg, Fresh(cfg.specs), earlier);
    if UsesRouter(cfg) {
      var (st, p) := (Start(Fresh(cfg.specs)), Prepare(cfg, earlier).value);
      CapturedKeepsBreakers(cfg, st, earlier, p.messages);
      RoutedAnswer(cfg, Captured(cfg, st, earlier, p.messages), earlier, p, served);
    }
  }

  // ---------------------------------------------------------------- answers from another partition

  /** The other model follows a separator in the joined namespace and model, after at least so many characters,
      and is not the model itself. */
  predicate CutsOff(least: nat, namespace: string, model: string, other: string) {
    var s := namespace + [UNIT_SEP] + model;
    other != model && |other| + least < |s| && s[|s| - |other| - 1..] == [UNIT_SEP] + other
  }

  /** A separator can move: without a router to any nonempty model, with one to a registered model. */
  ghost predicate CanMove(cfg: Config, least: nat, namespace: string, model: string)
    requires least <= |namespace|
  {
    if UsesRouter(cfg) then exists s :: s in cfg.specs && CutsOff(least, namespace, model, s.modelId)
    else Movable(least, namespace, model)
  }

  lemma CutsOffMeansOtherCut(least: nat, ns: string, m: string, ns': string, m': string)
    requires ns' + [UNIT_SEP] + m' == ns + [UNIT_SEP] + m && (ns' != ns || m' != m) && least <= |ns'|
    ensures CutsOff(least, ns, m, m')
  {
    var s := ns + [UNIT_SEP] + m;
    assert s[|ns'|..] == [UNIT_SEP] + m';
    if m' == m {
      SamePlace(ns, m, ns', m');
    }
  }

  /** Every namespace has at least so many characters. */
  ghost predicate LongNames(least: nat, reqs: seq<Request>) {
    forall r :: r in reqs ==> |r.ctx.namespace| >= least
  }

  /** A request that can be prepared and whose prompt embeds can be served an answer from another partition
      exactly when a separator can move: without a router, when its namespace holds \x1f, or its model does
      before the last character; with one, when a registered model other than its own is what follows a \x1f
      in the two. The tenant is always its own. With least = 1 the contexts are those of
      `SecurityContext.resolve`, which never has an empty namespace: a \x1f that begins the namespace then
      moves nowhere. With least = 0 they are any contexts. */
  lemma HitsMisdirectedIff(cfg: Config, least: nat, req: Request)
    requires cfg.useCache && cfg.defaultModel != "" && Router.DistinctNames(cfg.specs)
    requires cfg.cacheEnv.HashOk() && cfg.cacheEnv.defaultTtl > 0 && forall s :: UNIT_SEP !in cfg.sysver(s)
    requires Prepare(cfg, req).Ok? && |req.ctx.namespace| >= least
    requires cfg.cacheEnv.embed(Cache.Normalize(cfg.cacheEnv.chars, req.prompt)).Some?
    ensures (exists registry, reqs ::
               Registered(cfg, registry) && LongNames(least, reqs) && Astray(cfg, registry, reqs, req)) <==>
      CanMove(cfg, least, req.ctx.namespace, ChosenModel(cfg, req))
  {
    var (ns, m) := (req.ctx.namespace, ChosenModel(cfg, req));
    if CanMove(cfg, least, ns, m) {
      var ns', m' := MovedCut(cfg, least, ns, m);
      EarlierAnswers(cfg, req, ns', m');
      FreshKnowsAll(cfg.specs);
      assert LongNames(least, [Earlier(req, ns', m', m')]);
    }
    forall registry, reqs | Registered(cfg, registry) && LongNames(least, reqs) && Astray(cfg, registry, reqs, req)
      ensures CanMove(cfg, least, ns, m) {
      AstrayMeansMovable(cfg, least, registry, reqs, req);
    }
  }

  lemma MovedCut(cfg: Config, least: nat, ns: string, m: string) returns (ns': string, m': string)
    requires least <= |ns| && CanMove(cfg, least, ns, m) && m != ""
    ensures Servable(cfg, m') && ns' + [UNIT_SEP] + m' == ns + [UNIT_SEP] + m && (ns' != ns || m' != m)
    ensures least <= |ns'|
  {
    if UsesRouter(cfg) {
      var s :| s in cfg.specs && CutsOff(least, ns, m, s.modelId);
      var joined := ns + [UNIT_SEP] + m;
      var n := |joined| - |s.modelId| - 1;
      ns', m' := joined[..n], s.modelId;
      assert joined == joined[..n] + joined[n..];
      assert ns' + [UNIT_SEP] + m' == ns' + ([UNIT_SEP] + m');
    } else {
      ns', m' := OtherCut(least, ns, m);
    }
  }

  lemma EarlierAnswers(cfg: Config, req: Request, ns: string, m: string)
    requires cfg.useCache && Router.DistinctNames(cfg.specs) && Servable(cfg, m)
    requires cfg.cacheEnv.HashOk() && cfg.cacheEnv.defaultTtl > 0 && forall s :: UNIT_SEP !in cfg.sysver(s)
    requires Prepare(cfg, req).Ok?
    requires cfg.cacheEnv.embed(Cache.Normalize(cfg.cacheEnv.chars, req.prompt)).Some?
    requires ns != req.ctx.namespace || m != ChosenModel(cfg, req)
    requires ns + [UNIT_SEP] + m == req.ctx.namespace + [UNIT_SEP] + ChosenModel(cfg, req)
    ensures Astray(cfg, Fresh(cfg.specs), [Earlier(req, ns, m, m)], req)
  {
    var (p, st, earlier, a) := (Wanted(cfg, req), Start(Fresh(cfg.specs)), Earlier(req, ns, m, m), Answer(Done(), m));
    EarlierIsAnswered(cfg, req, ns, m, m);
    AnsweredIsStored(cfg, st, earlier, a);
    RunOfOne(cfg, st, earlier);
    TwinsByCut(p, WriteOf(cfg, earlier, a).partition);
    CacheByRequest.OwnWriteAnswers(cfg.cacheEnv, st.cache, WriteOf(cfg, earlier, a), p, req.prompt, req.lookupAt);
  }

  lemma AstrayMeansMovable(cfg: Config, least: nat, registry: map<string, Failover.Entry>, reqs: seq<Request>,
                           req: Request)
    requires Registered(cfg, registry) && cfg.defaultModel != "" && cfg.cacheEnv.HashOk()
    requires (forall s :: UNIT_SEP !in cfg.sysver(s)) && Astray(cfg, registry, reqs, req)
    requires LongNames(least, reqs) && |req.ctx.namespace| >= least
    ensures CanMove(cfg, least, req.ctx.namespace, ChosenModel(cfg, req))
  {
    var p := Wanted(cfg, req);
    var g := HitsStayInTheirPartition(cfg, registry, reqs, req);
    AnswersStayWithinPolicy(cfg, registry, reqs, g);
    var r :| r in reqs && Answers(cfg, r, g);
    TwinsByCut(p, PartitionOf(cfg, g));
    AnswerMoved(cfg, least, r, g, req.ctx.namespace, ChosenModel(cfg, req));
  }

  lemma AnswerMoved(cfg: Config, least: nat, r: Request, g: Generation, ns: string, m: string)
    requires Answers(cfg, r, g) && cfg.defaultModel != "" && least <= |ns| && least <= |g.ctx.namespace|
    requires g.ctx.namespace + [UNIT_SEP] + g.model == ns + [UNIT_SEP] + m && (g.ctx.namespace != ns || g.model != m)
    ensures CanMove(cfg, least, ns, m)
  {
    if UsesRouter(cfg) {
      CutsOffMeansOtherCut(least, ns, m, g.ctx.namespace, g.model);
    } else {
      OtherCutMeansMovable(least, ns, m, g.ctx.namespace, g.model);
    }
  }
}
