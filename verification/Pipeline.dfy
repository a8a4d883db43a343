/** The request pipeline (pipeline.py): cache, retrieve, compress, assemble and capture, route and
    invoke, write back; and what holds after every run of requests.

    Each request brings its environment along: the policy's verdicts, what retrieval returns, the clock
    readings, and what the adapters do. */
module Pipeline {
  import opened Prelude
  import opened Messages
  import Mmr
  import Dict
  import Text
  import Assembler
  import Compressor
  import Failover
  import Router
  import Tokenizer
  import Cache
  import Replay

  datatype Config = Config(
    useCache: bool, useMemory: bool, useCompressor: bool, useAssembler: bool, useReplay: bool, useRouter: bool,
    cacheEnv: Cache.Env, replayEnv: Replay.Env, chars: Text.Chars, sysver: string -> string,
    defaultModel: string, window: int, compressTarget: int, weights: Mmr.Weights,
    specs: seq<Router.Spec>, difficulty: (string, int) -> real)

  const MMR_LAMBDA := 0.70

  /** How many candidates the pipeline asks retrieval for. */
  const RETRIEVE_K := 12

  /** `allows(None)` is the policy's verdict on routing at all, `allows(Some(m))` its verdict on a model.
      `checkedAt` reads the clock when routing asks a backend's breaker; `attempt(i)` is what happens at
      the i-th place of the chain, and `single` at the only adapter. */
  datatype Request = Request(
    ctx: Ctx, trace: string, prompt: string, system: string, model: string, maxTokens: int,
    allows: Option<string> -> bool, retrieved: seq<Mmr.Candidate>, lookupAt: real, storeAt: real,
    single: Failover.Outcome, checkedAt: string -> real, attempt: nat -> Failover.Attempt)

  datatype Error =
    | AccessDenied
    | BadRequest(e: Assembler.AssembleError)
    | NoEligibleBackend
    | BackendUnavailable
    | AdapterFailed

  datatype ChatResult = ChatResult(text: string, trace: string, model: string)

  /** A successful generation: for whom, of what, from which messages, and when its answer is stored. */
  datatype Generation = Generation(ctx: Ctx, system: string, prompt: string, model: string,
                                   messages: seq<Message>, response: Failover.Response, storedAt: real)

  datatype State = State(cache: Cache.State, bundles: Replay.Store, registry: map<string, Failover.Entry>,
                         log: seq<Generation>)

  // ---------------------------------------------------------------- stages

  function ChosenModel(cfg: Config, req: Request): string { if req.model != "" then req.model else cfg.defaultModel }

  function PartitionFor(cfg: Config, req: Request, model: string): Cache.Partition {
    Cache.Partition(req.ctx.tenant, req.ctx.namespace, model, cfg.sysver(req.system), "v0")
  }

  function HitFor(cfg: Config, st: State, req: Request): Option<Cache.Hit> {
    if cfg.useCache then
      Cache.Lookup(cfg.cacheEnv, st.cache, PartitionFor(cfg, req, ChosenModel(cfg, req)), req.prompt, req.lookupAt)
    else None
  }

  function CandidatesFor(cfg: Config, req: Request): seq<Mmr.Candidate> {
    var found := if cfg.useMemory then req.retrieved else [];
    if cfg.useCompressor then
      var (target, count) := (cfg.compressTarget, cfg.replayEnv.count);
      Map(found, (c: Mmr.Candidate) => Compressor.CompressOne(cfg.chars, c, target, count, req.prompt))
    else found
  }

  /** The assembly the pipeline asks for: reserves measured by its own tokenizer, no history. */
  function AssemblyFor(cfg: Config, req: Request): Replay.Request {
    var count := cfg.replayEnv.count;
    Replay.Request(ChosenModel(cfg, req), MMR_LAMBDA, cfg.weights,
                   Assembler.Budget(cfg.window, req.maxTokens, count(req.system), count(req.prompt)),
                   req.system, req.prompt, CandidatesFor(cfg, req))
  }

  datatype Prepared = Prepared(messages: seq<Message>, injected: nat, tokens: int)

  /** Without an assembler: the optional system message and the prompt. */
  function Bare(cfg: Config, req: Request): Prepared {
    var count := cfg.replayEnv.count;
    Prepared(Assembler.BareMessages(req.system, req.prompt), 0, count(req.prompt) + count(req.system))
  }

  function Prepare(cfg: Config, req: Request): Result<Prepared, Assembler.AssembleError> {
    if !cfg.useAssembler then Ok(Bare(cfg, req))
    else
      match Replay.AssembledFor(cfg.replayEnv, AssemblyFor(cfg, req))
      case Err(e) => Err(e)
      case Ok(a) => Ok(Prepared(a.messages, Assembler.CountKept(a.decisions), a.usedTokens))
  }

  function Captured(cfg: Config, st: State, req: Request, ms: seq<Message>): State {
    if cfg.useAssembler && cfg.useReplay then
      st.(bundles := Replay.PutBundle(st.bundles, req.ctx.tenant,
                                      Replay.BundleFor(cfg.replayEnv, req.trace, req.ctx, AssemblyFor(cfg, req), ms)))
    else st
  }

  datatype Answer = Answer(response: Failover.Response, model: string)

  predicate UsesRouter(cfg: Config) { cfg.useRouter && cfg.specs != [] }

  /** The pipeline asks the router for nothing beyond what the policy allows. */
  function QueryFor(cfg: Config, req: Request, p: Prepared): Router.Query {
    Router.Query(cfg.difficulty(req.prompt, p.tokens), (m: string) => req.allows(Some(m)), "", None, [])
  }

  function RouteFor(cfg: Config, st: State, req: Request, p: Prepared): Result<Router.RouteDecision, Router.RouteError>
  {
    Router.RouteOf(QueryFor(cfg, req, p), cfg.specs, Failover.AllowedAt(st.registry, req.checkedAt))
  }

  function Script(req: Request, n: nat): (s: seq<Failover.Attempt>)
    ensures |s| == n && forall i :: 0 <= i < n ==> s[i] == req.attempt(i)
  {
    seq(n, i requires 0 <= i < n => req.attempt(i))
  }

  /** The dispatch along a decision's chain. */
  function WalkFor(st: State, req: Request, d: Router.RouteDecision): Failover.Dispatch {
    Failover.Walk(st.registry, Router.Chain(d), Script(req, |Router.Chain(d)|))
  }

  function AnswerFrom(served: Option<Failover.Served>): Result<Answer, Error> {
    if served.Some? then Ok(Answer(served.value.response, served.value.modelId)) else Err(BackendUnavailable)
  }

  /** The one adapter of an unrouted pipeline. */
  function SingleAnswer(cfg: Config, req: Request): Result<Answer, Error> {
    if req.single.Reply? then Ok(Answer(req.single.response, ChosenModel(cfg, req))) else Err(AdapterFailed)
  }

  function Invoke(cfg: Config, st: State, req: Request, p: Prepared): (State, Result<Answer, Error>) {
    if !UsesRouter(cfg) then (st, SingleAnswer(cfg, req))
    else
      match RouteFor(cfg, st, req, p)
      case Err(_) => (st, Err(NoEligibleBackend))
      case Ok(d) =>
        var walk := WalkFor(st, req, d);
        (st.(registry := walk.registry), AnswerFrom(walk.served))
  }

  function WriteFor(cfg: Config, req: Request, p: Prepared, a: Answer): Cache.Write {
    Cache.Write(req.storeAt, PartitionFor(cfg, req, a.model), req.prompt, a.response.text, p.injected > 0, None)
  }

  /** The cache, and the bundles, after a committed answer. */
  function CacheAfter(cfg: Config, cache: Cache.State, req: Request, p: Prepared, a: Answer): Cache.State {
    if cfg.useCache then Cache.StoreIn(cfg.cacheEnv, cache, WriteFor(cfg, req, p, a)) else cache
  }

  function OutputAfter(cfg: Config, bundles: Replay.Store, req: Request, a: Answer): Replay.Store {
    if cfg.useReplay then Replay.Attached(bundles, req.ctx.tenant, req.trace, a.response.text) else bundles
  }

  function WriteBack(cfg: Config, st: State, req: Request, p: Prepared, a: Answer): State {
    var committed := a.response.finishReason.Some?;
    State(if committed then CacheAfter(cfg, st.cache, req, p, a) else st.cache,
          if committed then OutputAfter(cfg, st.bundles, req, a) else st.bundles,
          st.registry,
          st.log + [GenerationOf(req, p, a)])
  }

  function GenerationOf(req: Request, p: Prepared, a: Answer): Generation {
    Generation(req.ctx, req.system, req.prompt, a.model, p.messages, a.response, req.storeAt)
  }

  /** From the assembled prompt on: capture, invoke, write back. */
  function Proceed(cfg: Config, st: State, req: Request, p: Prepared): (State, Result<ChatResult, Error>)
  {
    var (st', answer) := Invoke(cfg, Captured(cfg, st, req, p.messages), req, p);
    match answer
    case Err(e) => (st', Err(e))
    case Ok(a) => (WriteBack(cfg, st', req, p, a), Ok(ChatResult(a.response.text, req.trace, a.response.model)))
  }

  /** The ways out before anything is retrieved: a refusal or a cache hit. */
  function Early(cfg: Config, st: State, req: Request): Option<Result<ChatResult, Error>> {
    if !req.allows(None) then Some(Err(AccessDenied))
    else
      match HitFor(cfg, st, req)
      case Some(hit) => Some(Ok(ChatResult(hit.response, req.trace, ChosenModel(cfg, req))))
      case None => None
  }

  function Generated(cfg: Config, st: State, req: Request): (State, Result<ChatResult, Error>) {
    match Prepare(cfg, req)
    case Err(e) => (st, Err(BadRequest(e)))
    case Ok(p) => Proceed(cfg, st, req, p)
  }

  /** One request, start to end. */
  function Step(cfg: Config, st: State, req: Request): (State, Result<ChatResult, Error>) {
    match Early(cfg, st, req)
    case Some(r) => (st, r)
    case None => Generated(cfg, st, req)
  }

  /** The step of the request when retrieval returns these candidates. */
  function StepWith(cfg: Config, st: State, req: Request, found: seq<Mmr.Candidate>): (State, Result<ChatResult, Error>)
  {
    Step(cfg, st, req.(retrieved := found))
  }

  lemma EarlyIgnoresRetrieved(cfg: Config, st: State, req: Request, found: seq<Mmr.Candidate>)
    ensures var r := Early(cfg, st, req);
      StepWith(cfg, st, req, found) == if r.Some? then (st, r.value) else Generated(cfg, st, req.(retrieved := found))
  {
    assert Early(cfg, st, req.(retrieved := found)) == Early(cfg, st, req);
  }

  /** The request is answered by a backend, not by the cache, a refusal or a bad request. */
  predicate Reaches(cfg: Config, st: State, req: Request) {
    req.allows(None) && HitFor(cfg, st, req).None? && Prepare(cfg, req).Ok?
  }

  lemma StepProceeds(cfg: Config, st: State, req: Request)
    ensures if Reaches(cfg, st, req) then Step(cfg, st, req) == Proceed(cfg, st, req, Prepare(cfg, req).value)
            else Step(cfg, st, req).0 == st
  {
  }

  // ---------------------------------------------------------------- the code

  class RequestPipeline {
    const cfg: Config
    const cache: Cache.SemanticCache
    const debugger: Replay.ReplayDebugger
    const backends: Failover.BackendRegistry
    ghost var log: seq<Generation>

    ghost predicate Valid() reads this, backends {
      backends.Valid() && cache.env == cfg.cacheEnv && debugger.env == cfg.replayEnv && cfg.chars.Sane()
    }

    ghost function Value(): State
      reads this, cache.backend, debugger.store, backends, backends.Breakers()
    {
      State(cache.backend.byTenant, debugger.store.byTenant, backends.Value(), log)
    }

    constructor (cfg: Config, cache: Cache.SemanticCache, debugger: Replay.ReplayDebugger,
                 backends: Failover.BackendRegistry)
      requires backends.Valid() && cache.env == cfg.cacheEnv && debugger.env == cfg.replayEnv && cfg.chars.Sane()
      ensures Valid() && this.cfg == cfg && log == []
      ensures this.cache == cache && this.debugger == debugger && this.backends == backends
    {
      this.cfg, this.cache, this.debugger, this.backends := cfg, cache, debugger, backends;
      log := [];
    }

    method Run(req: Request) returns (r: Result<ChatResult, Error>)
      requires Valid()
      modifies `log, cache.backend, debugger.store, backends.Breakers()
      ensures Valid() && (Value(), r) == Step(cfg, old(Value()), req)
    {
      var early := AnswerEarly(req);
      if early.Some? {
        return early.value;
      }
      r := Generate(req);
    }

    method AnswerEarly(req: Request) returns (r: Option<Result<ChatResult, Error>>)
      requires Valid()
      ensures r == Early(cfg, Value(), req)
    {
      if !req.allows(None) {
        return Some(Err(AccessDenied));
      }
      var model := ChosenModel(cfg, req);
      if cfg.useCache {
        var hit := cache.LookupHit(PartitionFor(cfg, req, model), req.prompt, req.lookupAt);
        if hit.Some? {
          return Some(Ok(ChatResult(hit.value.response, req.trace, model)));
        }
      }
      r := None;
    }

    method Generate(req: Request) returns (r: Result<ChatResult, Error>)
      requires Valid()
      modifies `log, cache.backend, debugger.store, backends.Breakers()
      ensures Valid() && (Value(), r) == Generated(cfg, old(Value()), req)
    {
      var prepared := PrepareMessages(req);
      if prepared.Err? {
        return Err(BadRequest(prepared.error));
      }
      r := Finish(req, prepared.value);
    }

    /** The rest of a request once retrieval has returned, or nothing when it was answered before. */
    method Conclude(req: Request, early: Option<Result<ChatResult, Error>>, found: seq<Mmr.Candidate>)
      returns (r: Result<ChatResult, Error>)
      requires Valid() && early == Early(cfg, Value(), req)
      modifies `log, cache.backend, debugger.store, backends.Breakers()
      ensures Valid() && (Value(), r) == StepWith(cfg, old(Value()), req, found)
    {
      EarlyIgnoresRetrieved(cfg, Value(), req, found);
      if early.Some? {
        return early.value;
      }
      r := Generate(req.(retrieved := found));
    }

    method Finish(req: Request, p: Prepared) returns (r: Result<ChatResult, Error>)
      requires Valid()
      modifies `log, cache.backend, debugger.store, backends.Breakers()
      ensures Valid() && (Value(), r) == Proceed(cfg, old(Value()), req, p)
    {
      if cfg.useAssembler && cfg.useReplay {
        var _ := debugger.Capture(req.trace, req.ctx, AssemblyFor(cfg, req), p.messages);
      }
      ghost var captured := Captured(cfg, old(Value()), req, p.messages);
      assert Value() == captured;
      var answer := InvokeBackend(req, p);
      if answer.Err? {
        return Err(answer.error);
      }
      r := Ok(ChatResult(answer.value.response.text, req.trace, answer.value.response.model));
      Commit(req, p, answer.value);
    }

    method PrepareMessages(req: Request) returns (r: Result<Prepared, Assembler.AssembleError>)
      requires Valid()
      ensures r == Prepare(cfg, req)
    {
      if !cfg.useAssembler {
        return Ok(Bare(cfg, req));
      }
      var candidates := if cfg.useMemory then req.retrieved else [];
      if cfg.useCompressor && candidates != [] {
        var saved;
        candidates, saved :=
          Compressor.CompressAll(cfg.chars, candidates, cfg.compressTarget, cfg.replayEnv.count, req.prompt);
      }
      assert candidates == CandidatesFor(cfg, req);
      var q := AssemblyFor(cfg, req);
      var a := Assembler.Run(cfg.replayEnv.embedder, q.budget,
                             Assembler.Sources(q.systemPrompt, q.userTurn, candidates, []),
                             q.weights, cfg.replayEnv.count, q.lam);
      if a.Err? {
        return Err(a.error);
      }
      r := Ok(Prepared(a.value.messages, Assembler.CountKept(a.value.decisions), a.value.usedTokens));
    }

    method InvokeBackend(req: Request, p: Prepared) returns (r: Result<Answer, Error>)
      requires Valid()
      modifies backends.Breakers()
      ensures Valid() && unchanged(backends) && (Value(), r) == Invoke(cfg, old(Value()), req, p)
    {
      if !UsesRouter(cfg) {
        return SingleAnswer(cfg, req);
      }
      var decision := Decide(req, p);
      if decision.Err? {
        return Err(NoEligibleBackend);
      }
      r := Dispatch(req, decision.value);
    }

    method Dispatch(req: Request, d: Router.RouteDecision) returns (r: Result<Answer, Error>)
      requires Valid()
      modifies backends.Breakers()
      ensures Valid() && unchanged(backends)
      ensures Value() == old(Value()).(registry := WalkFor(old(Value()), req, d).registry)
      ensures r == AnswerFrom(WalkFor(old(Value()), req, d).served)
    {
      var chain := Router.Chain(d);
      var served, calls := backends.InvokeRouted(chain, Script(req, |chain|));
      r := AnswerFrom(served);
    }

    method Decide(req: Request, p: Prepared) returns (r: Result<Router.RouteDecision, Router.RouteError>)
      requires Valid()
      ensures unchanged(backends) && r == RouteFor(cfg, Value(), req, p)
    {
      var up := backends.AskBreakers(Router.Names(cfg.specs), req.checkedAt);
      r := Router.Route(QueryFor(cfg, req, p), cfg.specs, (n: string) => n in up);
      ghost var allowed := Failover.AllowedAt(backends.Value(), req.checkedAt);
      forall s | s in cfg.specs ensures (s.name in up) == allowed(s.name) {
        var i :| 0 <= i < |cfg.specs| && cfg.specs[i] == s;
        assert Router.Names(cfg.specs)[i] == s.name;
      }
      Router.RouteLooksAtRegistered(QueryFor(cfg, req, p), cfg.specs, (n: string) => n in up, allowed);
    }

    method Commit(req: Request, p: Prepared, a: Answer)
      requires Valid()
      modifies `log, cache.backend, debugger.store
      ensures Valid() && Value() == WriteBack(cfg, old(Value()), req, p, a)
    {
      log := log + [GenerationOf(req, p, a)];
      if a.response.finishReason.Some? {
        CommitCache(req, p, a);
        CommitOutput(req, a);
      }
    }

    method CommitCache(req: Request, p: Prepared, a: Answer)
      requires Valid()
      modifies cache.backend
      ensures cache.backend.byTenant == CacheAfter(cfg, old(cache.backend.byTenant), req, p, a)
    {
      if cfg.useCache {
        var _ := cache.StoreResponse(WriteFor(cfg, req, p, a));
      }
    }

    method CommitOutput(req: Request, a: Answer)
      requires Valid()
      modifies debugger.store
      ensures debugger.store.byTenant == OutputAfter(cfg, old(debugger.store.byTenant), req, a)
    {
      if cfg.useReplay {
        var _ := debugger.store.AttachOutput(req.ctx, req.trace, a.response.text);
      }
    }
  }

  // ---------------------------------------------------------------- whole runs

  function After(cfg: Config, st: State, reqs: seq<Request>): State
    decreases |reqs|
  {
    if reqs == [] then st else After(cfg, Step(cfg, st, reqs[0]).0, reqs[1..])
  }

  function Start(registry: map<string, Failover.Entry>): State { State(map[], map[], registry, []) }

  function PartitionOf(cfg: Config, g: Generation): Cache.Partition {
    Cache.Partition(g.ctx.tenant, g.ctx.namespace, g.model, cfg.sysver(g.system), "v0")
  }

  /** The generation finished, came from exactly the optional system message and the prompt, and is
      what the cache entry holds, under the key of the request that made it. */
  ghost predicate Grounds(cfg: Config, g: Generation, tenant: string, s: Cache.Stored) {
    && g.response.finishReason.Some? && g.response.text == s.response
    && g.messages == Assembler.BareMessages(g.system, g.prompt)
    && g.ctx.tenant == tenant
    && var p := PartitionOf(cfg, g);
       && s.key == Cache.ExactKey(cfg.cacheEnv, p, g.prompt) && s.fingerprint == Cache.Prefilter(cfg.cacheEnv, p)
       && s.expiresAt == g.storedAt + cfg.cacheEnv.defaultTtl as real
  }

  ghost predicate Grounded(cfg: Config, log: seq<Generation>, tenant: string, s: Cache.Stored) {
    exists g :: g in log && Grounds(cfg, g, tenant, s)
  }

  ghost predicate CacheOk(cfg: Config, st: State) {
    forall t, p :: t in st.cache && p in st.cache[t] ==> p.key == p.val.key && Grounded(cfg, st.log, t, p.val)
  }

  /** The bundle was captured from the assembler's own output. */
  ghost predicate Faithful(cfg: Config, trace: string, b: Replay.Bundle) {
    exists ctx, r :: FaithfulTo(cfg, trace, b, ctx, r)
  }

  ghost predicate FaithfulTo(cfg: Config, trace: string, b: Replay.Bundle, ctx: Ctx, r: Replay.Request) {
    var a := Replay.AssembledFor(cfg.replayEnv, r);
    a.Ok? && b == Replay.BundleFor(cfg.replayEnv, trace, ctx, r, a.value.messages).(recordedOutput := b.recordedOutput)
  }

  ghost predicate BundlesOk(cfg: Config, st: State) {
    forall t, trace :: Replay.GetBundle(st.bundles, t, trace).Some? ==>
      Faithful(cfg, trace, Replay.GetBundle(st.bundles, t, trace).value)
  }

  /** Nothing injected means the bare messages. */
  lemma PreparedBare(cfg: Config, req: Request)
    requires Prepare(cfg, req).Ok? && Prepare(cfg, req).value.injected == 0
    ensures Prepare(cfg, req).value.messages == Assembler.BareMessages(req.system, req.prompt)
  {
    if cfg.useAssembler {
      var q := AssemblyFor(cfg, req);
      Assembler.InjectedCountsBlocks(cfg.replayEnv.embedder, q.budget,
                                     Assembler.Sources(q.systemPrompt, q.userTurn, q.candidates, []),
                                     q.weights, cfg.replayEnv.count, q.lam);
    }
  }

  lemma WriteBackCacheOk(cfg: Config, st: State, req: Request, p: Prepared, a: Answer)
    requires CacheOk(cfg, st)
    requires p.injected == 0 ==> p.messages == Assembler.BareMessages(req.system, req.prompt)
    ensures CacheOk(cfg, WriteBack(cfg, st, req, p, a))
  {
    var st' := WriteBack(cfg, st, req, p, a);
    var (w, g) := (WriteFor(cfg, req, p, a), st'.log[|st.log|]);
    var s := Cache.StoredOf(cfg.cacheEnv, w);
    assert g in st'.log && forall x :: x in st.log ==> x in st'.log;
    Dict.PutMembers(Cache.RowsOf(st.cache, s.tenant), s.key, s);
    forall t, q | t in st'.cache && q in st'.cache[t] ensures q.key == q.val.key && Grounded(cfg, st'.log, t, q.val) {
      if t in st.cache && q in st.cache[t] {
        var x :| x in st.log && Grounds(cfg, x, t, q.val);
        assert x in st'.log;
      } else {
        assert q == Dict.Pair(s.key, s);
        assert Grounds(cfg, g, t, q.val);
      }
    }
  }

  lemma FaithfulWithOutput(cfg: Config, trace: string, b: Replay.Bundle, output: string)
    requires Faithful(cfg, trace, b)
    ensures Faithful(cfg, trace, b.(recordedOutput := Some(output)))
  {
    var ctx, r :| FaithfulTo(cfg, trace, b, ctx, r);
    assert FaithfulTo(cfg, trace, b.(recordedOutput := Some(output)), ctx, r);
  }

  lemma AttachedBundlesOk(cfg: Config, st: State, tenant: string, trace: string, output: string)
    requires BundlesOk(cfg, st)
    ensures BundlesOk(cfg, st.(bundles := Replay.Attached(st.bundles, tenant, trace, output)))
  {
    var after := Replay.Attached(st.bundles, tenant, trace, output);
    forall t, tr | Replay.GetBundle(after, t, tr).Some?
      ensures Faithful(cfg, tr, Replay.GetBundle(after, t, tr).value)
    {
      Replay.AttachedGet(st.bundles, tenant, trace, output, t, tr);
      FaithfulWithOutput(cfg, tr, Replay.GetBundle(st.bundles, t, tr).value, output);
    }
  }

  lemma CapturedBundlesOk(cfg: Config, st: State, req: Request)
    requires BundlesOk(cfg, st) && Prepare(cfg, req).Ok?
    ensures BundlesOk(cfg, Captured(cfg, st, req, Prepare(cfg, req).value.messages))
  {
    if cfg.useAssembler && cfg.useReplay {
      var q := AssemblyFor(cfg, req);
      var b := Replay.BundleFor(cfg.replayEnv, req.trace, req.ctx, q, Prepare(cfg, req).value.messages);
      var after := Replay.PutBundle(st.bundles, req.ctx.tenant, b);
      assert FaithfulTo(cfg, req.trace, b, req.ctx, q);
      forall t, tr | Replay.GetBundle(after, t, tr).Some?
        ensures Faithful(cfg, tr, Replay.GetBundle(after, t, tr).value)
      {
        Replay.PutGet(st.bundles, req.ctx.tenant, b, t, tr);
      }
    }
  }

  lemma InvokeTouchesBreakersOnly(cfg: Config, st: State, req: Request, p: Prepared)
    ensures Invoke(cfg, st, req, p).0 == st.(registry := Invoke(cfg, st, req, p).0.registry)
  {
  }

  lemma WriteBackKeepsInvariants(cfg: Config, st: State, req: Request, p: Prepared, a: Answer)
    requires CacheOk(cfg, st) && BundlesOk(cfg, st)
    requires p.injected == 0 ==> p.messages == Assembler.BareMessages(req.system, req.prompt)
    ensures var st' := WriteBack(cfg, st, req, p, a); CacheOk(cfg, st') && BundlesOk(cfg, st')
  {
    var attached := st.(bundles := Replay.Attached(st.bundles, req.ctx.tenant, req.trace, a.response.text));
    WriteBackCacheOk(cfg, st, req, p, a);
    AttachedBundlesOk(cfg, st, req.ctx.tenant, req.trace, a.response.text);
    BundlesAlone(cfg, WriteBack(cfg, st, req, p, a), attached, st);
  }

  /** The invariant on the cache looks at the cache and the log alone. */
  lemma CacheAlone(cfg: Config, st: State, a: State)
    requires CacheOk(cfg, a) && st.cache == a.cache && st.log == a.log
    ensures CacheOk(cfg, st)
  {
  }

  lemma ProceedSplits(cfg: Config, st: State, req: Request, p: Prepared)
    ensures var (st', answer) := Invoke(cfg, Captured(cfg, st, req, p.messages), req, p);
      Proceed(cfg, st, req, p).0 == if answer.Ok? then WriteBack(cfg, st', req, p, answer.value) else st'
  {
  }

  lemma ProceedKeepsInvariants(cfg: Config, st: State, req: Request, p: Prepared)
    requires CacheOk(cfg, st) && BundlesOk(cfg, st) && Prepare(cfg, req) == Ok(p)
    ensures var st' := Proceed(cfg, st, req, p).0; CacheOk(cfg, st') && BundlesOk(cfg, st')
  {
    var captured := Captured(cfg, st, req, p.messages);
    var (st', answer) := Invoke(cfg, captured, req, p);
    CapturedBundlesOk(cfg, st, req);
    CacheAlone(cfg, captured, st);
    InvokeTouchesBreakersOnly(cfg, captured, req, p);
    CacheAlone(cfg, st', captured);
    BundlesAlone(cfg, st', captured, captured);
    ProceedSplits(cfg, st, req, p);
    if answer.Ok? {
      if p.injected == 0 {
        PreparedBare(cfg, req);
      }
      WriteBackKeepsInvariants(cfg, st', req, p, answer.value);
    }
  }

  /** The invariant on bundles looks at the bundles alone. */
  lemma BundlesAlone(cfg: Config, st: State, a: State, b: State)
    requires BundlesOk(cfg, a) && BundlesOk(cfg, b) && (st.bundles == a.bundles || st.bundles == b.bundles)
    ensures BundlesOk(cfg, st)
  {
  }

  lemma StepKeepsInvariants(cfg: Config, st: State, req: Request)
    requires CacheOk(cfg, st) && BundlesOk(cfg, st)
    ensures var st' := Step(cfg, st, req).0; CacheOk(cfg, st') && BundlesOk(cfg, st')
  {
    StepProceeds(cfg, st, req);
    if Reaches(cfg, st, req) {
      ProceedKeepsInvariants(cfg, st, req, Prepare(cfg, req).value);
    }
  }

  lemma {:induction false} RunKeepsInvariants(cfg: Config, st: State, reqs: seq<Request>)
    requires CacheOk(cfg, st) && BundlesOk(cfg, st)
    ensures var st' := After(cfg, st, reqs); CacheOk(cfg, st') && BundlesOk(cfg, st')
    decreases |reqs|
  {
    if reqs != [] {
      StepKeepsInvariants(cfg, st, reqs[0]);
      RunKeepsInvariants(cfg, Step(cfg, st, reqs[0]).0, reqs[1..]);
    }
  }

  /** On every run, every cache entry holds a finished response that was generated from exactly the
      optional system message and the prompt, never from memory blocks. */
  lemma NoCachedAnswerIsGroundedInMemory(cfg: Config, registry: map<string, Failover.Entry>, reqs: seq<Request>)
    ensures CacheOk(cfg, After(cfg, Start(registry), reqs))
  {
    RunKeepsInvariants(cfg, Start(registry), reqs);
  }

  /** The cache entry that a hit was read from: it belongs to the tenant, and it is the exact key's, or at
      least of the partition. */
  ghost predicate Source(cfg: Config, st: State, req: Request, hit: Cache.Hit, s: Cache.Stored) {
    var p := PartitionFor(cfg, req, ChosenModel(cfg, req));
    && (exists row :: row in Cache.RowsOf(st.cache, req.ctx.tenant) && row.val == s)
    && s.response == hit.response && req.lookupAt < s.expiresAt
    && if hit.tier.Exact? then s.key == Cache.ExactKey(cfg.cacheEnv, p, req.prompt)
       else s.fingerprint == Cache.Prefilter(cfg.cacheEnv, p)
  }

  lemma HitHasSource(cfg: Config, st: State, req: Request) returns (s: Cache.Stored)
    requires HitFor(cfg, st, req).Some?
    requires forall row :: row in Cache.RowsOf(st.cache, req.ctx.tenant) ==> row.key == row.val.key
    ensures Source(cfg, st, req, HitFor(cfg, st, req).value, s)
  {
    var p := PartitionFor(cfg, req, ChosenModel(cfg, req));
    var rows := Cache.RowsOf(st.cache, req.ctx.tenant);
    var key := Cache.ExactKey(cfg.cacheEnv, p, req.prompt);
    var exact := Cache.GetExact(st.cache, p.tenant, key, req.lookupAt);
    if exact.Some? {
      Dict.GetIsIn(rows, key);
      s := exact.value;
      assert Dict.Pair(key, s) in rows;
    } else {
      var v := cfg.cacheEnv.embed(Cache.Normalize(cfg.cacheEnv.chars, req.prompt)).value;
      var q := Cache.Probe(Cache.Prefilter(cfg.cacheEnv, p), v, req.lookupAt);
      Cache.SearchIsFirstBest(cfg.cacheEnv, q, Dict.Values(rows));
      var i: nat :| Cache.FirstBest(cfg.cacheEnv, q, Dict.Values(rows), i)
        && Cache.Search(cfg.cacheEnv, q, Dict.Values(rows)) == Some(Dict.Values(rows)[i]);
      s := rows[i].val;
      assert rows[i] in rows;
    }
  }

  /** Whatever a later request is served from the cache was generated from bare messages, for its own
      tenant, and stored less than the default time to live ago. Under a collision-free hash, when its
      namespace, model and versions hold no separator, it was also generated in its namespace, by the model
      it asks for and under its system-prompt version; and on the exact tier for the same normalized prompt. */
  lemma HitsStayInTheirPartition(cfg: Config, registry: map<string, Failover.Entry>, reqs: seq<Request>, req: Request)
    returns (g: Generation)
    requires HitFor(cfg, After(cfg, Start(registry), reqs), req).Some?
    ensures var st := After(cfg, Start(registry), reqs);
      var (hit, p) := (HitFor(cfg, st, req).value, PartitionFor(cfg, req, ChosenModel(cfg, req)));
      && g in st.log && g.response.finishReason.Some? && g.response.text == hit.response
      && g.messages == Assembler.BareMessages(g.system, g.prompt) && g.ctx.tenant == req.ctx.tenant
      && req.lookupAt < g.storedAt + cfg.cacheEnv.defaultTtl as real
      && (cfg.cacheEnv.HashOk() ==> Cache.PartitionText(PartitionOf(cfg, g)) == Cache.PartitionText(p))
      && (cfg.cacheEnv.HashOk() && Cache.SepFree(p.Rest()) ==> PartitionOf(cfg, g) == p)
      && (cfg.cacheEnv.HashOk() && hit.tier.Exact? ==>
            Cache.Normalize(cfg.cacheEnv.chars, g.prompt) == Cache.Normalize(cfg.cacheEnv.chars, req.prompt))
  {
    NoCachedAnswerIsGroundedInMemory(cfg, registry, reqs);
    var st := After(cfg, Start(registry), reqs);
    var p := PartitionFor(cfg, req, ChosenModel(cfg, req));
    var s := HitHasSource(cfg, st, req);
    assert Grounded(cfg, st.log, req.ctx.tenant, s);
    g :| g in st.log && Grounds(cfg, g, req.ctx.tenant, s);
    if cfg.cacheEnv.HashOk() {
      Cache.KeysSeparate(cfg.cacheEnv, PartitionOf(cfg, g), g.prompt, p, req.prompt);
      Cache.UniqueInTenant(p);
      assert Cache.Twin(p, PartitionOf(cfg, g));
    }
  }

  // ---------------------------------------------------------------- what the caller gets

  /** The result of a request that was answered now: its own generation, under its own trace. */
  ghost predicate OwnAnswer(req: Request, r: ChatResult, g: Generation) {
    && g.ctx == req.ctx && g.prompt == req.prompt && g.system == req.system
    && r == ChatResult(g.response.text, req.trace, g.response.model)
  }

  /** The result of a request that was served from the cache: an earlier answer to its tenant, under the model
      that it asked for. */
  ghost predicate EarlierAnswer(cfg: Config, req: Request, r: ChatResult, g: Generation) {
    g.ctx.tenant == req.ctx.tenant && r == ChatResult(g.response.text, req.trace, ChosenModel(cfg, req))
  }

  /** On every run, whatever a request gets back is the text of a generation, its own or an earlier one for its
      tenant, under its own trace; and an error says what stood in the way. */
  lemma ResultMeaning(cfg: Config, registry: map<string, Failover.Entry>, reqs: seq<Request>, req: Request)
    ensures var st := After(cfg, Start(registry), reqs);
      var (st', r) := Step(cfg, st, req);
      match r
      case Err(AccessDenied) => !req.allows(None) && st' == st
      case Err(BadRequest(e)) => req.allows(None) && st' == st && Prepare(cfg, req) == Err(e)
      case Err(e) => st'.log == st.log && st'.cache == st.cache && Reaches(cfg, st, req)
      case Ok(x) =>
        if HitFor(cfg, st, req).Some? then st' == st && exists g :: g in st.log && EarlierAnswer(cfg, req, x, g)
        else exists g :: st'.log == st.log + [g] && OwnAnswer(req, x, g)
  {
    var st := After(cfg, Start(registry), reqs);
    StepAppends(cfg, st, req);
    if !req.allows(None) {
    } else if HitFor(cfg, st, req).Some? {
      var g := HitsStayInTheirPartition(cfg, registry, reqs, req);
      assert EarlierAnswer(cfg, req, Step(cfg, st, req).1.value, g);
    } else if Prepare(cfg, req).Ok? {
      ReachedResult(cfg, st, req);
    }
  }

  lemma ReachedResult(cfg: Config, st: State, req: Request)
    requires Reaches(cfg, st, req)
    ensures var (st', r) := Step(cfg, st, req);
      match AnswerTo(cfg, st, req)
      case Ok(a) => exists g :: st'.log == st.log + [g] && r.Ok? && OwnAnswer(req, r.value, g)
      case Err(e) =>
        && r == Err(e) && st'.log == st.log && st'.cache == st.cache
        && (e == NoEligibleBackend || e == BackendUnavailable || e == AdapterFailed)
  {
    var p := Prepare(cfg, req).value;
    var captured := Captured(cfg, st, req, p.messages);
    InvokeTouchesBreakersOnly(cfg, captured, req, p);
    StepAppends(cfg, st, req);
    var answer := AnswerTo(cfg, st, req);
    if answer.Ok? {
      var g := GenerationOf(req, p, answer.value);
      assert OwnAnswer(req, Step(cfg, st, req).1.value, g);
    }
  }

  /** On every run, replaying any stored trace rebuilds its prompt: the verdict is always positive. */
  lemma EveryTraceReplays(cfg: Config, registry: map<string, Failover.Entry>, reqs: seq<Request>, tenant: string,
                          trace: string, mode: Replay.Mode)
    requires Replay.GetBundle(After(cfg, Start(registry), reqs).bundles, tenant, trace).Some?
    ensures var b := Replay.GetBundle(After(cfg, Start(registry), reqs).bundles, tenant, trace).value;
      && Replay.ReplayOf(cfg.replayEnv, trace, b, mode).Ok?
      && Replay.ReplayOf(cfg.replayEnv, trace, b, mode).value.promptEqual
      && Replay.Rebuild(cfg.replayEnv, b.inputs).value.messages == b.rendered
  {
    RunKeepsInvariants(cfg, Start(registry), reqs);
    var b := Replay.GetBundle(After(cfg, Start(registry), reqs).bundles, tenant, trace).value;
    assert Faithful(cfg, trace, b);
    var ctx, r :| FaithfulTo(cfg, trace, b, ctx, r);
    Replay.CaptureReplays(cfg.replayEnv, trace, ctx, r, mode, b.recordedOutput);
  }

  /** What a bundle records: after a request that was answered with an assembler, its trace's bundle holds the
      captured messages, and the answer as its output exactly when the answer finished; without replay no
      bundle changes. */
  lemma AnswerIsRecorded(cfg: Config, st: State, req: Request)
    requires Reaches(cfg, st, req) && AnswerTo(cfg, st, req).Ok?
    ensures var (st', a) := (Step(cfg, st, req).0, AnswerTo(cfg, st, req).value);
      && (!cfg.useReplay ==> st'.bundles == st.bundles)
      && (cfg.useReplay && cfg.useAssembler ==>
            var b := Replay.GetBundle(st'.bundles, req.ctx.tenant, req.trace);
            && b.Some? && b.value.rendered == Prepare(cfg, req).value.messages
            && b.value.recordedOutput == if a.response.finishReason.Some? then Some(a.response.text) else None)
  {
    var (p, a) := (Prepare(cfg, req).value, AnswerTo(cfg, st, req).value);
    var captured := Captured(cfg, st, req, p.messages);
    StepProceeds(cfg, st, req);
    InvokeTouchesBreakersOnly(cfg, captured, req, p);
    ProceedSplits(cfg, st, req, p);
    if cfg.useReplay && cfg.useAssembler {
      var b := Replay.BundleFor(cfg.replayEnv, req.trace, req.ctx, AssemblyFor(cfg, req), p.messages);
      Replay.PutGet(st.bundles, req.ctx.tenant, b, req.ctx.tenant, req.trace);
      Replay.AttachedGet(captured.bundles, req.ctx.tenant, req.trace, a.response.text, req.ctx.tenant, req.trace);
    }
  }

  // ---------------------------------------------------------------- the window

  function SourcesFor(cfg: Config, req: Request): Assembler.Sources {
    Assembler.Sources(req.system, req.prompt, CandidatesFor(cfg, req), [])
  }

  /** Without an assembler it accounts for exactly what it sends. */
  lemma BareIsAccounted(cfg: Config, req: Request)
    requires !cfg.useAssembler && cfg.replayEnv.count("") == 0
    ensures Prepare(cfg, req).Ok?
    ensures Prepare(cfg, req).value.tokens
         == Assembler.SentTokens(Prepare(cfg, req).value.messages, cfg.replayEnv.count)
  {
    Assembler.BareTokens(req.system, req.prompt, cfg.replayEnv.count);
  }

  /** The pipeline selects with a lambda of 0.70. */
  lemma PromptTradesOff(cfg: Config, req: Request, i: nat, j: nat, m: real, n: real)
    requires Mmr.IdsDistinct(Mmr.Blend(CandidatesFor(cfg, req), cfg.weights))
    requires i < j < |Selection(cfg, req)|
    requires var (e, r) := (cfg.replayEnv.embedder, Selection(cfg, req));
      Mmr.Redundancy(e, r[i], r[..i], m) && Mmr.Redundancy(e, r[j], r[..i], n)
    ensures var r := Selection(cfg, req); 0.70 * r[i].blend - 0.30 * m >= 0.70 * r[j].blend - 0.30 * n
  {
    Mmr.SelectionTradesOff(cfg.replayEnv.embedder, Mmr.Blend(CandidatesFor(cfg, req), cfg.weights), 0.70, i, j, m, n);
  }

  /** The candidates in the order in which they are packed into a request's prompt. */
  function Selection(cfg: Config, req: Request): seq<Mmr.Scored> {
    var q := AssemblyFor(cfg, req);
    Mmr.Reranked(cfg.replayEnv.embedder, Mmr.Blend(q.candidates, q.weights), q.lam)
  }

  /** What the pipeline accounts for leaves room for the completion it asks for. */
  lemma AccountedFitsTheWindow(cfg: Config, req: Request)
    requires cfg.useAssembler && Prepare(cfg, req).Ok?
    ensures Prepare(cfg, req).value.tokens + req.maxTokens <= cfg.window
  {
    var q := AssemblyFor(cfg, req);
    Assembler.WindowHolds(cfg.replayEnv.embedder, q.budget, SourcesFor(cfg, req), q.weights, cfg.replayEnv.count,
                          q.lam);
  }

  /** What it sends may exceed that by the rendering of its n blocks: ceil((17 + 3n) / 4) tokens, none
      without blocks, and 14 at most with the 12 candidates that it asks retrieval for. */
  lemma SentFitsTheWindow(cfg: Config, req: Request)
    requires cfg.useAssembler && Prepare(cfg, req).Ok? && cfg.replayEnv.count == Tokenizer.HeuristicCount
    ensures var p := Prepare(cfg, req).value;
      var sent := Assembler.SentTokens(p.messages, cfg.replayEnv.count) + req.maxTokens;
      && sent <= cfg.window + Assembler.Overhead(p.injected) && p.injected <= |req.retrieved|
      && (p.injected == 0 ==> sent <= cfg.window)
      && (|req.retrieved| <= RETRIEVE_K ==> sent <= cfg.window + 14)
  {
    var q := AssemblyFor(cfg, req);
    var (e, count) := (cfg.replayEnv.embedder, cfg.replayEnv.count);
    AccountedFitsTheWindow(cfg, req);
    Assembler.SentBound(e, q.budget, SourcesFor(cfg, req), q.weights, q.lam);
    Assembler.InjectedCountsBlocks(e, q.budget, SourcesFor(cfg, req), q.weights, count, q.lam);
  }

  /** The request is prepared, and what it sends leaves room for the completion within the limit. */
  ghost predicate SentWithin(cfg: Config, req: Request, limit: int) {
    var p := Prepare(cfg, req);
    p.Ok? && Assembler.SentTokens(p.value.messages, cfg.replayEnv.count) + req.maxTokens <= limit
  }

  /** Compression leaves the fillers alone: they hold no white space and no end of a sentence. */
  lemma FillersComeThrough(cfg: Config, req: Request, tokens: nat, n: nat)
    requires cfg.useMemory && (cfg.useCompressor ==> !cfg.chars.isSpace('a'))
    requires req.retrieved == Assembler.Fillers(req.ctx, tokens, n)
    ensures CandidatesFor(cfg, req) == req.retrieved
  {
    if cfg.useCompressor {
      forall i | 0 <= i < n ensures CandidatesFor(cfg, req)[i] == req.retrieved[i] {
        Compressor.CompressionLeavesSolid(cfg.chars, req.retrieved[i], cfg.compressTarget, cfg.replayEnv.count,
                                          req.prompt);
      }
    }
  }

  /** And the 14 tokens are exact, with and without a compressor: a request whose fixed parts fit stays
      within a limit whatever up to 12 candidates of its scope are retrieved, if and only if the limit
      lies 14 tokens beyond the window. */
  lemma SentWithinIff(cfg: Config, req: Request, limit: int)
    requires cfg.useAssembler && cfg.useMemory && cfg.replayEnv.count == Tokenizer.HeuristicCount
    requires cfg.useCompressor ==> !cfg.chars.isSpace('a')
    requires Assembler.WeightsOk(cfg.weights) && AssemblyFor(cfg, req).budget.HardFloor() <= cfg.window
    ensures (forall found :: Assembler.Retrievable(req.ctx, found, 12) ==>
                SentWithin(cfg, req.(retrieved := found), limit)) <==>
      cfg.window + 14 <= limit
  {
    if cfg.window + 14 <= limit {
      forall found | Assembler.Retrievable(req.ctx, found, RETRIEVE_K)
        ensures SentWithin(cfg, req.(retrieved := found), limit) {
        SentFitsTheWindow(cfg, req.(retrieved := found));
      }
    } else {
      var found := Assembler.Fillers(req.ctx, AssemblyFor(cfg, req).budget.Soft(), RETRIEVE_K);
      Assembler.FillersAreRetrievable(req.ctx, AssemblyFor(cfg, req).budget.Soft(), RETRIEVE_K);
      FullRequestOverruns(cfg, req.(retrieved := found), limit);
    }
  }

  lemma FullRequestOverruns(cfg: Config, req: Request, limit: int)
    requires cfg.useAssembler && cfg.useMemory && cfg.replayEnv.count == Tokenizer.HeuristicCount
    requires cfg.useCompressor ==> !cfg.chars.isSpace('a')
    requires Assembler.WeightsOk(cfg.weights) && AssemblyFor(cfg, req).budget.HardFloor() <= cfg.window
    requires req.retrieved == Assembler.Fillers(req.ctx, AssemblyFor(cfg, req).budget.Soft(), RETRIEVE_K)
    requires limit < cfg.window + 14
    ensures !SentWithin(cfg, req, limit)
  {
    var q := AssemblyFor(cfg, req);
    FillersComeThrough(cfg, req, q.budget.Soft(), RETRIEVE_K);
    Assembler.FillersOverrun(cfg.replayEnv.embedder, q.budget, SourcesFor(cfg, req), q.weights, q.lam, req.ctx,
                             RETRIEVE_K, limit);
  }

  /** Any configuration with a window of two tokens, and the same request under it: one retrieved block
      beside a prompt. */
  function Tight(base: Config): Config {
    base.(useAssembler := true, useMemory := true, window := 2,
          replayEnv := base.replayEnv.(count := Tokenizer.HeuristicCount),
          weights := Mmr.Weights(0.40, 0.20, 0.15, 0.15, 0.10))
  }

  function OneBlockRequest(base: Request): Request {
    base.(system := "", prompt := "abcd", maxTokens := 0, retrieved := Assembler.Fillers(base.ctx, 1, 1))
  }

  lemma TightAssembly(base: Config, plain: Request)
    requires base.useCompressor ==> !base.chars.isSpace('a')
    ensures var (cfg, req) := (Tight(base), OneBlockRequest(plain));
      && SourcesFor(cfg, req) == Assembler.Sources("", "abcd", req.retrieved, [])
      && AssemblyFor(cfg, req).budget == Assembler.Budget(2, 0, 0, 1)
  {
    FillersComeThrough(Tight(base), OneBlockRequest(plain), 1, 1);
  }

  /** An input on which the window is exceeded, compressor or not: two tokens accounted in a window of
      two, seven sent. */
  lemma SentOverflows(base: Config, plain: Request)
    requires base.useCompressor ==> !base.chars.isSpace('a')
    ensures var (cfg, req) := (Tight(base), OneBlockRequest(plain));
      && cfg.window == 2 && Prepare(cfg, req).Ok? && Prepare(cfg, req).value.tokens == 2
      && Assembler.SentTokens(Prepare(cfg, req).value.messages, cfg.replayEnv.count) == 7
  {
    var (cfg, req) := (Tight(base), OneBlockRequest(plain));
    TightAssembly(base, plain);
    var q := AssemblyFor(cfg, req);
    assert req.retrieved == [req.retrieved[0]] && |req.retrieved[0].content| == 4;
    Assembler.OneBlock(cfg.replayEnv.embedder, q.budget, SourcesFor(cfg, req), q.weights, q.lam, req.retrieved[0]);
  }

  /** What routing is asked: the difficulty of the user turn at the size of the prepared prompt, models that the
      policy allows, and no other constraint. */
  lemma RoutedByDifficulty(cfg: Config, req: Request, p: Prepared)
    ensures var q := QueryFor(cfg, req, p);
      && q.difficulty == cfg.difficulty(req.prompt, p.tokens) && (forall m :: q.policyAllows(m) == req.allows(Some(m)))
      && q.residency == "" && q.maxCostPer1k.None? && q.required == []
  {
  }

  // ---------------------------------------------------------------- breakers over pipeline runs

  /** The walk that a request performs, if any. */
  function WalkOf(cfg: Config, st: State, req: Request): (r: Failover.Requests) {
    if Reaches(cfg, st, req) && UsesRouter(cfg) then
      match RouteFor(cfg, st, req, Prepare(cfg, req).value)
      case Ok(d) => [Failover.Request(Router.Chain(d), Script(req, |Router.Chain(d)|))]
      case Err(_) => []
    else []
  }

  /** The walks that a run of requests performs. */
  function Dispatched(cfg: Config, st: State, reqs: seq<Request>): Failover.Requests
    decreases |reqs|
  {
    if reqs == [] then [] else WalkOf(cfg, st, reqs[0]) + Dispatched(cfg, Step(cfg, st, reqs[0]).0, reqs[1..])
  }

  lemma CapturedKeepsBreakers(cfg: Config, st: State, req: Request, ms: seq<Message>)
    ensures Captured(cfg, st, req, ms).registry == st.registry
  {
  }

  lemma InvokeWalks(cfg: Config, st: State, req: Request, p: Prepared)
    ensures Invoke(cfg, st, req, p).0.registry ==
      if UsesRouter(cfg) && RouteFor(cfg, st, req, p).Ok?
        then WalkFor(st, req, RouteFor(cfg, st, req, p).value).registry
      else st.registry
  {
  }

  lemma StepWalks(cfg: Config, st: State, req: Request)
    ensures var w := WalkOf(cfg, st, req);
      Step(cfg, st, req).0.registry ==
        if w == [] then st.registry else Failover.Walk(st.registry, w[0].names, w[0].script).registry
  {
    StepProceeds(cfg, st, req);
    if Reaches(cfg, st, req) {
      var p := Prepare(cfg, req).value;
      CapturedKeepsBreakers(cfg, st, req, p.messages);
      ProceedSplits(cfg, st, req, p);
      InvokeWalks(cfg, Captured(cfg, st, req, p.messages), req, p);
    }
  }

  lemma RunCons(registry: map<string, Failover.Entry>, walk: Failover.Request, later: Failover.Requests)
    requires |walk.names| == |walk.script|
    ensures Failover.Run(registry, [walk] + later).0
         == Failover.Run(Failover.Walk(registry, walk.names, walk.script).registry, later).0
  {
    assert ([walk] + later)[1..] == later;
  }

  /** The pipeline moves the breakers as its walks do and in no other way; so the outage bound of
      `Failover.OutageBound` is a bound on pipeline runs. */
  lemma {:induction false} BreakersMoveByWalksOnly(cfg: Config, st: State, reqs: seq<Request>)
    ensures After(cfg, st, reqs).registry == Failover.Run(st.registry, Dispatched(cfg, st, reqs)).0
    decreases |reqs|
  {
    if reqs != [] {
      var (req, st') := (reqs[0], Step(cfg, st, reqs[0]).0);
      BreakersMoveByWalksOnly(cfg, st', reqs[1..]);
      StepWalks(cfg, st, req);
      var later := Dispatched(cfg, st', reqs[1..]);
      if WalkOf(cfg, st, req) != [] {
        RunCons(st.registry, WalkOf(cfg, st, req)[0], later);
      } else {
        assert [] + later == later;
      }
    }
  }

  /** Over every run of pipeline requests whose walks follow one another in time, a backend that fails
      all its calls i..j-1 receives at most threshold + floor(D / cooldown) of them within D seconds. */
  lemma PipelineOutageBound(cfg: Config, st: State, reqs: seq<Request>, t: real, name: string, i: nat, j: nat, d: real)
    requires name in st.registry && Failover.Sequential(t, Dispatched(cfg, st, reqs))
    requires var b := st.registry[name].breaker; b.threshold >= 1 && b.cooldown > 0.0 && b.failures >= 0
    requires var calls := Failover.CallsTo(name, Failover.Run(st.registry, Dispatched(cfg, st, reqs)).1);
      i < j <= |calls| && Failover.AllFail(calls[i..j]) && calls[j - 1].askedAt - calls[i].askedAt <= d
    ensures After(cfg, st, reqs).registry == Failover.Run(st.registry, Dispatched(cfg, st, reqs)).0
    ensures var b := st.registry[name].breaker; j - i <= b.threshold + (d / b.cooldown).Floor
  {
    BreakersMoveByWalksOnly(cfg, st, reqs);
    Failover.OutageBound(st.registry, Dispatched(cfg, st, reqs), t, name, i, j, d);
  }

  // ---------------------------------------------------------------- the policy over pipeline runs

  /** The calls that one request makes. */
  function CallsOf(cfg: Config, st: State, req: Request): seq<Failover.Call> {
    var w := WalkOf(cfg, st, req); if w == [] then [] else Failover.Walk(st.registry, w[0].names, w[0].script).calls
  }

  /** Registered backends have distinct names, and the breakers' registry knows their models. */
  ghost predicate Registered(cfg: Config, registry: map<string, Failover.Entry>) {
    Router.DistinctNames(cfg.specs)
    && forall s :: s in cfg.specs ==> s.name in registry && registry[s.name].modelId == s.modelId
  }

  /** The call went to a registered backend whose model the policy allows to the request. */
  ghost predicate CallAllowed(cfg: Config, req: Request, c: Failover.Call) {
    exists s :: s in cfg.specs && s.name == c.name && req.allows(Some(s.modelId))
  }

  /** In whatever state a run has come to, a request calls each backend at most once, and only backends
      whose model the policy allows to this request. */
  lemma CallsStayWithinPolicy(cfg: Config, st: State, req: Request)
    requires Router.DistinctNames(cfg.specs)
    ensures var calls := CallsOf(cfg, st, req);
      && (forall k, l :: 0 <= k < l < |calls| ==> calls[k].name != calls[l].name)
      && (forall k :: 0 <= k < |calls| ==> CallAllowed(cfg, req, calls[k]))
  {
    if CallsOf(cfg, st, req) != [] {
      CallsOfWalk(cfg, st, req);
      var p := Prepare(cfg, req).value;
      var q := QueryFor(cfg, req, p);
      var d := RouteFor(cfg, st, req, p).value;
      Router.DispatchStaysWithinPolicy(q, cfg.specs, Failover.AllowedAt(st.registry, req.checkedAt), d, st.registry,
                                       Script(req, |Router.Chain(d)|));
      forall k | 0 <= k < |CallsOf(cfg, st, req)| ensures CallAllowed(cfg, req, CallsOf(cfg, st, req)[k]) {
        PassedIsAllowed(cfg, req, p, CallsOf(cfg, st, req)[k]);
      }
    }
  }

  lemma CallsOfWalk(cfg: Config, st: State, req: Request)
    requires CallsOf(cfg, st, req) != []
    ensures Prepare(cfg, req).Ok? && RouteFor(cfg, st, req, Prepare(cfg, req).value).Ok?
    ensures CallsOf(cfg, st, req) == WalkFor(st, req, RouteFor(cfg, st, req, Prepare(cfg, req).value).value).calls
  {
  }

  lemma PassedIsAllowed(cfg: Config, req: Request, p: Prepared, c: Failover.Call)
    requires Router.Passes(QueryFor(cfg, req, p), cfg.specs, c)
    ensures CallAllowed(cfg, req, c)
  {
    var q := QueryFor(cfg, req, p);
    var s :| s in cfg.specs && s.name == c.name && Router.Verdict(q, s).None?;
    assert req.allows(Some(s.modelId));
  }

  /** A generation answers one of these requests, with a model that the policy allows to it. */
  ghost predicate Allowed(cfg: Config, reqs: seq<Request>, g: Generation) {
    exists req :: req in reqs && Answers(cfg, req, g)
  }

  ghost predicate Answers(cfg: Config, req: Request, g: Generation) {
    && g.ctx == req.ctx && g.prompt == req.prompt && g.system == req.system && req.allows(None)
    && if cfg.useRouter && cfg.specs != [] then req.allows(Some(g.model)) && Offered(cfg, g.model)
       else g.model == if req.model != "" then req.model else cfg.defaultModel
  }

  /** The model of a registered backend. */
  ghost predicate Offered(cfg: Config, model: string) { exists s :: s in cfg.specs && s.modelId == model }

  lemma RoutedAnswerIsAllowed(cfg: Config, st: State, req: Request, p: Prepared)
    requires Registered(cfg, st.registry) && UsesRouter(cfg) && Invoke(cfg, st, req, p).1.Ok?
    ensures var model := Invoke(cfg, st, req, p).1.value.model; req.allows(Some(model)) && Offered(cfg, model)
  {
    var (q, healthy) := (QueryFor(cfg, req, p), Failover.AllowedAt(st.registry, req.checkedAt));
    var d := RouteFor(cfg, st, req, p).value;
    Failover.WalkKeepsModels(st.registry, Router.Chain(d), Script(req, |Router.Chain(d)|));
    Router.ChainIsRanking(q, cfg.specs, healthy);
    Router.RankingIsStrictAndFiltered(q, cfg.specs, healthy);
    var ranked := Router.Ranked(q, Router.Pool(q, cfg.specs, healthy));
    var name := WalkFor(st, req, d).served.value.name;
    var i :| 0 <= i < |ranked| && Router.Names(ranked)[i] == name;
    assert ranked[i] in cfg.specs && Router.Verdict(q, ranked[i]).None?;
  }

  lemma StepKeepsRegistered(cfg: Config, st: State, req: Request)
    requires UsesRouter(cfg) ==> Registered(cfg, st.registry)
    ensures UsesRouter(cfg) ==> Registered(cfg, Step(cfg, st, req).0.registry)
  {
    StepWalks(cfg, st, req);
    var w := WalkOf(cfg, st, req);
    if w != [] {
      Failover.WalkKeepsModels(st.registry, w[0].names, w[0].script);
    }
  }

  /** A request logs one generation, made from the messages prepared for it, or nothing. */
  lemma StepAppends(cfg: Config, st: State, req: Request)
    ensures var log := Step(cfg, st, req).0.log;
      if Reaches(cfg, st, req) && AnswerTo(cfg, st, req).Ok?
      then log == st.log + [GenerationOf(req, Prepare(cfg, req).value, AnswerTo(cfg, st, req).value)]
      else log == st.log
  {
    StepProceeds(cfg, st, req);
    if Reaches(cfg, st, req) {
      var p := Prepare(cfg, req).value;
      InvokeTouchesBreakersOnly(cfg, Captured(cfg, st, req, p.messages), req, p);
      ProceedSplits(cfg, st, req, p);
    }
  }

  /** What the backends answer to a request that reaches them. */
  function AnswerTo(cfg: Config, st: State, req: Request): Result<Answer, Error>
    requires Prepare(cfg, req).Ok?
  {
    var p := Prepare(cfg, req).value;
    Invoke(cfg, Captured(cfg, st, req, p.messages), req, p).1
  }

  lemma StepLogs(cfg: Config, st: State, req: Request)
    requires UsesRouter(cfg) ==> Registered(cfg, st.registry)
    ensures var log := Step(cfg, st, req).0.log;
      log == st.log || exists g :: log == st.log + [g] && Answers(cfg, req, g)
  {
    StepAppends(cfg, st, req);
    if Reaches(cfg, st, req) && AnswerTo(cfg, st, req).Ok? {
      var p := Prepare(cfg, req).value;
      CapturedKeepsBreakers(cfg, st, req, p.messages);
      if UsesRouter(cfg) {
        RoutedAnswerIsAllowed(cfg, Captured(cfg, st, req, p.messages), req, p);
      }
      assert Answers(cfg, req, GenerationOf(req, p, AnswerTo(cfg, st, req).value));
    }
  }

  lemma {:induction false} LogStaysAllowed(cfg: Config, st: State, reqs: seq<Request>, g: Generation)
    requires UsesRouter(cfg) ==> Registered(cfg, st.registry)
    requires g in After(cfg, st, reqs).log
    ensures g in st.log || Allowed(cfg, reqs, g)
    decreases |reqs|
  {
    if reqs != [] {
      var (req, rest) := (reqs[0], reqs[1..]);
      StepKeepsRegistered(cfg, st, req);
      StepLogs(cfg, st, req);
      LogStaysAllowed(cfg, Step(cfg, st, req).0, rest, g);
      if Allowed(cfg, rest, g) {
        var r :| r in rest && Answers(cfg, r, g);
        assert r in reqs;
      } else if g !in st.log {
        assert Answers(cfg, req, g) && req in reqs;
      }
    }
  }

  /** On every run, every answer that was generated, and so every cache entry and every recorded output
      behind it, came from a registered backend's model that the policy allows to the request it answered,
      whatever the breakers did; without a router or without backends, from the model that was asked for. */
  lemma AnswersStayWithinPolicy(cfg: Config, registry: map<string, Failover.Entry>, reqs: seq<Request>, g: Generation)
    requires UsesRouter(cfg) ==> Registered(cfg, registry)
    requires g in After(cfg, Start(registry), reqs).log
    ensures Allowed(cfg, reqs, g)
  {
    LogStaysAllowed(cfg, Start(registry), reqs, g);
  }

  /** When dispatch asks the breakers at the readings at which routing did, a safe-default decision is
      refused without a call. */
  lemma SafeDefaultIsUnavailable(cfg: Config, st: State, req: Request, p: Prepared)
    requires UsesRouter(cfg) && RouteFor(cfg, st, req, p).Ok? && RouteFor(cfg, st, req, p).value.fromSafeDefault
    requires var chain := Router.Chain(RouteFor(cfg, st, req, p).value);
      forall i :: 0 <= i < |chain| ==> req.attempt(i).askedAt == req.checkedAt(chain[i])
    ensures Invoke(cfg, st, req, p) == (st, Err(BackendUnavailable))
  {
    var d := RouteFor(cfg, st, req, p).value;
    Router.SafeDefaultIsRefused(QueryFor(cfg, req, p), cfg.specs, st.registry, req.checkedAt, d,
                                Script(req, |Router.Chain(d)|));
  }
}
