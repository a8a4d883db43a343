/** When a repeated request is served from the cache (pipeline.py): the cache is asked for the requested model and
    filled for the one that answered. */
module PipelineRepeats {
  import opened Prelude
  import opened Pipeline
  import opened PipelineHits
  import Cache
  import CacheByRequest
  import Failover
  import Router

  /** The same prompt, asked again in the same scope before the answer to the first one expires. */
  predicate Repeats(cfg: Config, req: Request, again: Request) {
    && again.ctx == req.ctx && again.system == req.system && again.prompt == req.prompt
    && again.lookupAt < req.storeAt + cfg.cacheEnv.defaultTtl as real
    && cfg.cacheEnv.embed(Cache.Normalize(cfg.cacheEnv.chars, req.prompt)).Some?
  }

  /** The model that answered stands, in the request's partition, for the one that is asked for. */
  predicate SameText(cfg: Config, again: Request, model: string) {
    Cache.PartitionText(PartitionFor(cfg, again, model)) == Cache.PartitionText(Wanted(cfg, again))
  }

  lemma SameTextMeansSameModel(cfg: Config, again: Request, model: string)
    requires Cache.SepFree(Wanted(cfg, again).Rest())
    ensures SameText(cfg, again, model) <==> model == ChosenModel(cfg, again)
  {
    Cache.UniqueInTenant(Wanted(cfg, again));
    assert SameText(cfg, again, model) ==> Cache.Twin(Wanted(cfg, again), PartitionFor(cfg, again, model));
  }

  /** In every state: a request that was answered by the model that is asked for is served from the cache when
      it is repeated, with that answer. */
  lemma RepeatHits(cfg: Config, st: State, req: Request, a: Answer, again: Request)
    requires cfg.useCache && cfg.cacheEnv.HashOk() && Answered(cfg, st, req, a) && Repeats(cfg, req, again)
    requires SameText(cfg, again, a.model)
    ensures var hit := HitFor(cfg, Step(cfg, st, req).0, again);
      hit.Some? && hit.value.tier == Cache.Exact && hit.value.response == a.response.text
  {
    AnsweredIsStored(cfg, st, req, a);
    CacheByRequest.OwnWriteAnswers(cfg.cacheEnv, st.cache, WriteOf(cfg, req, a), Wanted(cfg, again), again.prompt,
                                   again.lookupAt);
  }

  lemma EntriesFit(cfg: Config, registry: map<string, Failover.Entry>, reqs: seq<Request>, tenant: string)
    ensures CacheByRequest.KeysFit(cfg.cacheEnv,
                                   Cache.RowsOf(Pipeline.After(cfg, Start(registry), reqs).cache, tenant))
  {
    var st := Pipeline.After(cfg, Start(registry), reqs);
    NoCachedAnswerIsGroundedInMemory(cfg, registry, reqs);
    forall row | row in Cache.RowsOf(st.cache, tenant)
      ensures row.key == row.val.key && exists p, q :: CacheByRequest.MadeUnder(cfg.cacheEnv, row.val, p, q)
    {
      assert Grounded(cfg, st.log, tenant, row.val);
      var g :| g in st.log && Grounds(cfg, g, tenant, row.val);
      assert CacheByRequest.MadeUnder(cfg.cacheEnv, row.val, PartitionOf(cfg, g), g.prompt);
    }
  }

  /** After every run: the repeated request is served from the cache if and only if the model that answered is
      the one that is asked for, or it would have been served before. */
  lemma RepeatHitsIff(cfg: Config, registry: map<string, Failover.Entry>, reqs: seq<Request>, req: Request, a: Answer,
                      again: Request)
    requires cfg.useCache && cfg.cacheEnv.HashOk() && Repeats(cfg, req, again)
    requires Answered(cfg, Pipeline.After(cfg, Start(registry), reqs), req, a)
    ensures var st := Pipeline.After(cfg, Start(registry), reqs);
      HitFor(cfg, Step(cfg, st, req).0, again).Some? <==>
        SameText(cfg, again, a.model) || HitFor(cfg, st, again).Some?
    ensures Cache.SepFree(Wanted(cfg, again).Rest()) ==>
      (SameText(cfg, again, a.model) <==> a.model == ChosenModel(cfg, again))
  {
    var st := Pipeline.After(cfg, Start(registry), reqs);
    if Cache.SepFree(Wanted(cfg, again).Rest()) {
      SameTextMeansSameModel(cfg, again, a.model);
    }
    if SameText(cfg, again, a.model) {
      RepeatHits(cfg, st, req, a, again);
    } else {
      AnsweredIsStored(cfg, st, req, a);
      EntriesFit(cfg, registry, reqs, again.ctx.tenant);
      CacheByRequest.OtherWriteChangesNothing(cfg.cacheEnv, st.cache, WriteOf(cfg, req, a), Wanted(cfg, again),
                                              again.prompt, again.lookupAt);
    }
  }

  /** No stale answer: after every run, a request that comes when every generation of its tenant is older than the
      time to live is not served from the cache. */
  lemma StaleAnswersMiss(cfg: Config, registry: map<string, Failover.Entry>, reqs: seq<Request>, req: Request)
    requires forall g :: g in Pipeline.After(cfg, Start(registry), reqs).log && g.ctx.tenant == req.ctx.tenant ==>
      req.lookupAt >= g.storedAt + cfg.cacheEnv.defaultTtl as real
    ensures HitFor(cfg, Pipeline.After(cfg, Start(registry), reqs), req).None?
  {
    if HitFor(cfg, Pipeline.After(cfg, Start(registry), reqs), req).Some? {
      var g := HitsStayInTheirPartition(cfg, registry, reqs, req);
    }
  }

  /** The repetition of the first request of a run is served exactly while the answer is in time, and the model
      that answered is the one that is asked for. */
  lemma FirstRepeatHitsIff(cfg: Config, registry: map<string, Failover.Entry>, req: Request, a: Answer, again: Request)
    requires cfg.useCache && cfg.cacheEnv.HashOk() && Answered(cfg, Start(registry), req, a)
    requires again.ctx == req.ctx && again.system == req.system && again.prompt == req.prompt
    requires cfg.cacheEnv.embed(Cache.Normalize(cfg.cacheEnv.chars, req.prompt)).Some?
    ensures HitFor(cfg, Step(cfg, Start(registry), req).0, again).Some? <==>
      SameText(cfg, again, a.model) && again.lookupAt < req.storeAt + cfg.cacheEnv.defaultTtl as real
  {
    EmptyCacheMisses(cfg, registry, again);
    if again.lookupAt < req.storeAt + cfg.cacheEnv.defaultTtl as real {
      RepeatHitsIff(cfg, registry, [], req, a, again);
    } else {
      AnsweredIsStored(cfg, Start(registry), req, a);
      RunOfOne(cfg, Start(registry), req);
      StaleAnswersMiss(cfg, registry, [req], again);
    }
  }

  /** An input: with a router, a request that asks for one model and is answered by another is not served from
      the cache when it is repeated at once. */
  lemma RoutedRepeatMisses(cfg: Config, req: Request, served: string)
    requires cfg.useCache && UsesRouter(cfg) && Servable(cfg, served) && served != ChosenModel(cfg, req)
    requires cfg.cacheEnv.HashOk() && cfg.cacheEnv.defaultTtl > 0 && Cache.SepFree(Wanted(cfg, req).Rest())
    requires cfg.cacheEnv.embed(Cache.Normalize(cfg.cacheEnv.chars, req.prompt)).Some?
    requires Prepare(cfg, req).Ok? && Router.DistinctNames(cfg.specs)
    ensures var first := Earlier(req, req.ctx.namespace, req.model, served);
      var st := Pipeline.After(cfg, Start(Fresh(cfg.specs)), [first]);
      |st.log| == 1 && st.log[0].response == Done() && HitFor(cfg, st, first).None?
  {
    var (registry, first) := (Fresh(cfg.specs), Earlier(req, req.ctx.namespace, req.model, served));
    var a := Answer(Done(), served);
    EarlierIsAnswered(cfg, req, req.ctx.namespace, req.model, served);
    AnsweredIsStored(cfg, Start(registry), first, a);
    RunOfOne(cfg, Start(registry), first);
    EmptyCacheMisses(cfg, registry, first);
    RepeatHitsIff(cfg, registry, [], first, a, first);
  }
}
