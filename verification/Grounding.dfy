/** Where a prompt comes from: store, retrieval, compression and assembly put together (memory/engine.py,
    pipeline.py). Every block that is sent stands for a memory that was written in the request's own scope,
    and no stage makes up a number or an ID. */
module Grounding {
  import opened Prelude
  import opened Messages
  import opened Text
  import opened Mmr
  import opened MemoryEngine
  import Assembler
  import Compressor
  import Dict
  import EdgeLoad
  import Failover
  import Pipeline
  import Retrieval
  import opened Tokenizer
  import Versioning

  // ---------------------------------------------------------------- the facts of the context message

  /** The heading and the bullets that rendering adds hold no digit. */
  ghost predicate PlainFrame(cs: Chars) { forall c :: c in "Relevant context:\n- " ==> !cs.isDigit(cs.lower(c)) }

  ghost predicate DigitFree(cs: Chars, s: string) { forall k :: 0 <= k < |s| ==> !cs.isDigit(cs.lower(s[k])) }

  lemma {:induction false} RunsKeepCharacters(s: string, p: char -> bool, t: string, k: nat)
    requires t in Runs(s, p) && k < |t|
    ensures t[k] in s
    decreases |s|
  {
    if s != "" {
      var n := Span(s, p);
      if !p(s[0]) {
        RunsKeepCharacters(s[1..], p, t, k);
      } else if t == s[..n] {
        assert t[k] == s[k];
      } else {
        RunsKeepCharacters(s[n..], p, t, k);
      }
    }
  }

  lemma NoFacts(cs: Chars, s: string, t: string)
    requires DigitFree(cs, s) && t in Compressor.Toks(cs, s)
    ensures !Compressor.HasDigit(cs, t)
  {
    if k :| 0 <= k < |t| && cs.isDigit(t[k]) {
      RunsKeepCharacters(cs.Lower(s), (c: char) => cs.IsToken(c), t, k);
    }
  }

  lemma {:induction false} TokOfPart(cs: Chars, parts: seq<string>, t: string) returns (i: nat)
    requires t in Compressor.AllToks(cs, parts)
    ensures i < |parts| && t in Compressor.Toks(cs, parts[i])
  {
    if t in Compressor.Toks(cs, parts[0]) {
      i := 0;
    } else {
      i := TokOfPart(cs, parts[1..], t);
      i := i + 1;
    }
  }

  lemma BulletFacts(cs: Chars, text: string, t: string)
    requires cs.Sane() && PlainFrame(cs) && t in Compressor.Toks(cs, "- " + text) && Compressor.HasDigit(cs, t)
    ensures t in Compressor.Facts(cs, text)
  {
    assert "- " + text == "-" + " " + text;
    Compressor.ToksGap(cs, "-", " ", text);
    if t in Compressor.Toks(cs, "-") {
      NoFacts(cs, "-", t);
    }
  }

  // ---------------------------------------------------------------- the text of a prompt

  /** What becomes of a memory's text on its way into the prompt: it is compressed when that saves tokens. */
  function BlockText(cfg: Pipeline.Config, prompt: string, text: string): string {
    if !cfg.useCompressor then text
    else
      var b := Compressor.Compressed(cfg.chars, text, cfg.compressTarget, cfg.replayEnv.count, prompt,
                                     Compressor.Absent);
      if b.compressedTokens < b.originalTokens then b.text else text
  }

  function BulletOf(cfg: Pipeline.Config, prompt: string, m: Versioning.Memory): string {
    "- " + BlockText(cfg, prompt, m.content)
  }

  /** The context message that presents these memories. */
  function ContextOf(cfg: Pipeline.Config, prompt: string, ms: seq<Versioning.Memory>): string {
    "Relevant context:\n" + Join(Map(ms, (m: Versioning.Memory) => BulletOf(cfg, prompt, m)), "\n")
  }

  /** The prompt that presents these memories, character by character: the optional system prompt, the context
      message if there is a memory, and the user turn. */
  function PromptOf(cfg: Pipeline.Config, system: string, prompt: string, ms: seq<Versioning.Memory>): seq<Message> {
    (if system != "" then [Message(System, system)] else [])
    + (if ms != [] then [Message(System, ContextOf(cfg, prompt, ms))] else []) + [Message(User, prompt)]
  }

  lemma BlockFacts(cfg: Pipeline.Config, prompt: string, text: string)
    requires cfg.chars.Sane()
    ensures Compressor.Facts(cfg.chars, BlockText(cfg, prompt, text)) <= Compressor.Facts(cfg.chars, text)
  {
    Compressor.CompressionNeverFabricates(cfg.chars, text, cfg.compressTarget, cfg.replayEnv.count, prompt,
                                          Compressor.Absent);
  }

  ghost predicate FactOf(cs: Chars, ms: seq<Versioning.Memory>, t: string) {
    exists m :: m in ms && t in Compressor.Facts(cs, m.content)
  }

  /** Rendering and compression make up no fact: each one in the context message stands in a memory. */
  lemma ContextFacts(cfg: Pipeline.Config, prompt: string, ms: seq<Versioning.Memory>, t: string)
    requires cfg.chars.Sane() && PlainFrame(cfg.chars) && t in Compressor.Facts(cfg.chars, ContextOf(cfg, prompt, ms))
    ensures FactOf(cfg.chars, ms, t)
  {
    var (cs, heading) := (cfg.chars, "Relevant context:");
    var bullets := Map(ms, (m: Versioning.Memory) => BulletOf(cfg, prompt, m));
    assert ContextOf(cfg, prompt, ms) == heading + "\n" + Join(bullets, "\n");
    Compressor.ToksGap(cs, heading, "\n", Join(bullets, "\n"));
    Compressor.JoinKeepsToks(cs, bullets, "\n");
    if t in Compressor.Toks(cs, heading) {
      NoFacts(cs, heading, t);
    }
    var i := TokOfPart(cs, bullets, t);
    BulletFacts(cs, BlockText(cfg, prompt, ms[i].content), t);
    BlockFacts(cfg, prompt, ms[i].content);
    assert ms[i] in ms;
  }

  /** Every number and every ID in a prompt stands in the system prompt, in the user turn or in one of the
      memories that it presents. */
  lemma NothingMadeUp(cfg: Pipeline.Config, system: string, prompt: string, ms: seq<Versioning.Memory>,
                      msg: Message, t: string)
    requires cfg.chars.Sane() && PlainFrame(cfg.chars) && msg in PromptOf(cfg, system, prompt, ms)
    requires t in Compressor.Facts(cfg.chars, msg.content)
    ensures t in Compressor.Facts(cfg.chars, system) || t in Compressor.Facts(cfg.chars, prompt)
      || FactOf(cfg.chars, ms, t)
  {
    if msg.content != system && msg.content != prompt {
      ContextFacts(cfg, prompt, ms, t);
    }
  }

  // ---------------------------------------------------------------- the blocks of a prompt

  lemma {:induction false} PackTakes(selected: seq<Scored>, count: Counter, room: int)
    ensures multiset(Assembler.Pack(selected, count, room).0) <= multiset(selected)
  {
    if selected != [] {
      var t := count(selected[0].c.content);
      var next := if t <= room then room - t else room;
      PackTakes(selected[1..], count, next);
      assert selected == [selected[0]] + selected[1..];
    }
  }

  /** Whatever is placed was a candidate, and nothing is placed twice. */
  lemma PlacedWereCandidates(e: Embedder, b: Assembler.Budget, src: Assembler.Sources, w: Weights, count: Counter,
                             lam: real)
    ensures multiset(Assembler.PlacedOf(e, b, src, w, count, lam)) <= multiset(Blend(src.candidates, w))
  {
    var scored := Blend(src.candidates, w);
    EdgeLoad.EdgeLoadPermutes(Assembler.SurvivorsOf(e, b, src, w, count, lam));
    PackTakes(Reranked(e, scored, lam), count, b.Soft());
    var dropped := TopIsTop(scored);
    RerankingPermutesTop(e, scored, lam);
    assert multiset(Top(scored)) <= multiset(Top(scored)) + multiset(dropped);
  }

  /** The block stands for the memory and carries its text as it is presented. */
  ghost predicate Presents(cfg: Pipeline.Config, prompt: string, c: Candidate, m: Versioning.Memory) {
    c.id == m.id && c.content == BlockText(cfg, prompt, m.content)
  }

  lemma CandidatePresents(cfg: Pipeline.Config, st: Versioning.Store, req: Pipeline.Request, c: Candidate)
    returns (m: Versioning.Memory)
    requires Recalled(st, req.ctx, req.retrieved) && c in Pipeline.CandidatesFor(cfg, req)
    ensures m in Versioning.ListOf(st, req.ctx, Versioning.LIMIT) && Presents(cfg, req.prompt, c, m)
  {
    var cands := Pipeline.CandidatesFor(cfg, req);
    var i :| 0 <= i < |cands| && cands[i] == c;
    assert req.retrieved[i] in req.retrieved;
    m :| m in Versioning.ListOf(st, req.ctx, Versioning.LIMIT) && Recalls(req.retrieved[i], m);
  }

  lemma BlockPresents(cfg: Pipeline.Config, st: Versioning.Store, req: Pipeline.Request, x: Scored)
    returns (m: Versioning.Memory)
    requires Recalled(st, req.ctx, req.retrieved) && x in Blend(Pipeline.CandidatesFor(cfg, req), cfg.weights)
    ensures m in Versioning.ListOf(st, req.ctx, Versioning.LIMIT) && Presents(cfg, req.prompt, x.c, m)
  {
    var scored := Blend(Pipeline.CandidatesFor(cfg, req), cfg.weights);
    var i :| 0 <= i < |scored| && scored[i] == x;
    m := CandidatePresents(cfg, st, req, x.c);
  }

  /** The memories behind the blocks, in their order. */
  lemma {:induction false} BlocksPresent(cfg: Pipeline.Config, st: Versioning.Store, req: Pipeline.Request,
                                         placed: seq<Scored>)
    returns (ms: seq<Versioning.Memory>)
    requires Recalled(st, req.ctx, req.retrieved)
    requires forall x :: x in placed ==> x in Blend(Pipeline.CandidatesFor(cfg, req), cfg.weights)
    ensures |ms| == |placed| && forall i :: 0 <= i < |ms| ==>
      ms[i] in Versioning.ListOf(st, req.ctx, Versioning.LIMIT) && Presents(cfg, req.prompt, placed[i].c, ms[i])
  {
    ms := [];
    if placed != [] {
      var rest := BlocksPresent(cfg, st, req, placed[1..]);
      var m := BlockPresents(cfg, st, req, placed[0]);
      ms := [m] + rest;
    }
  }

  lemma PresentedText(cfg: Pipeline.Config, system: string, prompt: string, placed: seq<Scored>,
                      ms: seq<Versioning.Memory>)
    requires |ms| == |placed| && forall i :: 0 <= i < |ms| ==> Presents(cfg, prompt, placed[i].c, ms[i])
    ensures Assembler.RenderMessages(Assembler.Sources(system, prompt, [], []), placed)
         == PromptOf(cfg, system, prompt, ms)
  {
    assert Map(placed, (x: Scored) => Assembler.Bullet(x))
      == Map(ms, (m: Versioning.Memory) => BulletOf(cfg, prompt, m));
  }

  lemma PlacedAreDistinct(cands: seq<Candidate>, w: Weights, placed: seq<Scored>, ms: seq<Versioning.Memory>)
    requires Distinct(Map(cands, (c: Candidate) => c.id)) && multiset(placed) <= multiset(Blend(cands, w))
    requires |ms| == |placed| && forall i :: 0 <= i < |ms| ==> placed[i].c.id == ms[i].id
    ensures Distinct(Versioning.Ids(ms)) && |ms| <= |cands|
  {
    var ids := Map(cands, (c: Candidate) => c.id);
    forall k, l | 0 <= k < l < |ms| ensures ms[k].id != ms[l].id {
      assert forall i, j :: 0 <= i < j < |cands| ==> ids[i] != ids[j];
      TakenTwice(Blend(cands, w), placed, (x: Scored) => x.c.id, k, l);
    }
    var scored := Blend(cands, w);
    assert multiset(scored) == multiset(placed) + (multiset(scored) - multiset(placed));
    assert |multiset(placed)| == |placed| && |multiset(scored)| == |scored|;
  }

  /** The memories of the listing that are presented: no id twice, and at most 12. */
  ghost predicate Choice(listed: seq<Versioning.Memory>, ms: seq<Versioning.Memory>) {
    (forall m :: m in ms ==> m in listed) && Distinct(Versioning.Ids(ms)) && |ms| <= Pipeline.RETRIEVE_K
  }

  /** The request was given what retrieval may return. */
  ghost predicate Given(st: Versioning.Store, req: Pipeline.Request) {
    Recalled(st, req.ctx, req.retrieved) && Assembler.Retrievable(req.ctx, req.retrieved, Pipeline.RETRIEVE_K)
  }

  /** What is sent for a request is, character by character, its system prompt, the presentation of some
      memories listed in its own scope, and its prompt. */
  lemma PreparedPresents(cfg: Pipeline.Config, st: Versioning.Store, req: Pipeline.Request)
    returns (ms: seq<Versioning.Memory>)
    requires Given(st, req) && Pipeline.Prepare(cfg, req).Ok?
    ensures Choice(Versioning.ListOf(st, req.ctx, Versioning.LIMIT), ms)
    ensures Pipeline.Prepare(cfg, req).value.messages == PromptOf(cfg, req.system, req.prompt, ms)
  {
    var (q, src) := (Pipeline.AssemblyFor(cfg, req), Pipeline.SourcesFor(cfg, req));
    var (e, count) := (cfg.replayEnv.embedder, cfg.replayEnv.count);
    var placed := if cfg.useAssembler then Assembler.PlacedOf(e, q.budget, src, q.weights, count, q.lam) else [];
    PlacedWereCandidates(e, q.budget, src, q.weights, count, q.lam);
    forall x | x in placed ensures x in Blend(src.candidates, cfg.weights) {
      assert x in multiset(placed) && x in multiset(Blend(src.candidates, cfg.weights));
    }
    ms := BlocksPresent(cfg, st, req, placed);
    PresentedText(cfg, req.system, req.prompt, placed, ms);
    CandidateIds(cfg, req);
    PlacedAreDistinct(src.candidates, cfg.weights, placed, ms);
    PreparedRenders(cfg, req, placed);
  }

  lemma CandidateIds(cfg: Pipeline.Config, req: Pipeline.Request)
    requires Assembler.Retrievable(req.ctx, req.retrieved, Pipeline.RETRIEVE_K)
    ensures var cands := Pipeline.CandidatesFor(cfg, req);
      Distinct(Map(cands, (c: Candidate) => c.id)) && |cands| <= Pipeline.RETRIEVE_K
  {
    var (cands, ids) := (Pipeline.CandidatesFor(cfg, req), Map(req.retrieved, (c: Candidate) => c.id));
    assert forall i :: 0 <= i < |cands| ==> cands[i].id == ids[i];
  }

  lemma PreparedRenders(cfg: Pipeline.Config, req: Pipeline.Request, placed: seq<Scored>)
    requires Pipeline.Prepare(cfg, req).Ok?
    requires var q := Pipeline.AssemblyFor(cfg, req);
      placed == if cfg.useAssembler
                then Assembler.PlacedOf(cfg.replayEnv.embedder, q.budget, Pipeline.SourcesFor(cfg, req), q.weights,
                                        cfg.replayEnv.count, q.lam)
                else []
    ensures Pipeline.Prepare(cfg, req).value.messages
         == Assembler.RenderMessages(Assembler.Sources(req.system, req.prompt, [], []), placed)
  {
  }

  // ---------------------------------------------------------------- whole runs

  /** Tenants write, commit and roll back memories, and send requests, in any interleaving. */
  datatype Event = Remember(e: Versioning.Event) | Chat(req: Pipeline.Request)

  datatype World = World(memory: Versioning.State, chat: Pipeline.State)

  function Step(cfg: Pipeline.Config, w: World, e: Event): World {
    match e
    case Remember(m) => w.(memory := Versioning.Step(w.memory, m))
    case Chat(req) => w.(chat := Pipeline.Step(cfg, w.chat, req).0)
  }

  function Run(cfg: Pipeline.Config, registry: map<string, Failover.Entry>, events: seq<Event>): World {
    if events == [] then World(Versioning.State(map[], map[]), Pipeline.Start(registry))
    else
      var n := |events| - 1;
      Step(cfg, Run(cfg, registry, events[..n]), events[n])
  }

  /** Each request was given what retrieval may return from the store as it stood then. */
  ghost predicate Genuine(cfg: Pipeline.Config, registry: map<string, Failover.Entry>, events: seq<Event>) {
    forall k :: 0 <= k < |events| && events[k].Chat? ==>
      Given(Run(cfg, registry, events[..k]).memory.store, events[k].req)
  }

  function ScopeOf(m: Versioning.Memory): Ctx { Ctx(m.tenant, m.namespace) }

  /** The memory was written, by its own scope. */
  ghost predicate Written(events: seq<Event>, m: Versioning.Memory) {
    Remember(Versioning.Write(ScopeOf(m), m)) in events
  }

  ghost predicate AllWritten(events: seq<Event>, ms: seq<Versioning.Memory>) {
    forall m :: m in ms ==> Written(events, m)
  }

  /** Every row of the store and of every snapshot was written. */
  ghost predicate StoreWritten(events: seq<Event>, st: Versioning.Store) {
    forall t, p :: t in st && p in st[t] ==> p.val.tenant == t && Written(events, p.val)
  }

  ghost predicate CommitsWritten(events: seq<Event>, commits: Versioning.Commits) {
    forall t, cid :: t in commits && cid in commits[t] ==> AllWritten(events, commits[t][cid].snapshot)
  }

  lemma ListedAreWritten(events: seq<Event>, st: Versioning.Store, ctx: Ctx)
    requires StoreWritten(events, st)
    ensures AllWritten(events, Versioning.ListOf(st, ctx, Versioning.LIMIT))
    ensures forall m :: m in Versioning.ListOf(st, ctx, Versioning.LIMIT) ==> ScopeOf(m) == ctx
  {
    var rows := Versioning.RowsOf(st, ctx.tenant);
    FilterMembers(Dict.Values(rows), (m: Versioning.Memory) => m.namespace == ctx.namespace);
    forall m | m in Versioning.ListOf(st, ctx, Versioning.LIMIT) ensures Written(events, m) && ScopeOf(m) == ctx {
      assert m in Versioning.Scope(st, ctx) && m in Dict.Values(rows);
      Versioning.ValuesMember(rows, m);
    }
  }

  lemma AddedIsWritten(events: seq<Event>, st: Versioning.Store, ctx: Ctx, m: Versioning.Memory)
    requires StoreWritten(events, st) && Written(events, m) && Versioning.InScope(ctx, m)
    ensures StoreWritten(events, Versioning.Added(st, ctx, m).value)
  {
    Dict.PutMembers(Versioning.RowsOf(st, ctx.tenant), m.id, m);
  }

  lemma {:induction false} RestoredIsWritten(events: seq<Event>, st: Versioning.Store, ctx: Ctx,
                                             snapshot: seq<Versioning.Memory>, present: seq<string>)
    requires StoreWritten(events, st) && AllWritten(events, snapshot)
    ensures StoreWritten(events, Versioning.Restore(st, ctx, snapshot, present).0)
    decreases |snapshot|
  {
    if snapshot != [] {
      assert snapshot[0] in snapshot;
      if snapshot[0].id in present {
        RestoredIsWritten(events, st, ctx, snapshot[1..], present);
      } else if Versioning.InScope(ctx, snapshot[0]) {
        AddedIsWritten(events, st, ctx, snapshot[0]);
        RestoredIsWritten(events, Versioning.Added(st, ctx, snapshot[0]).value, ctx, snapshot[1..], present);
      }
    }
  }

  lemma MemoryStaysWritten(events: seq<Event>, s: Versioning.State, e: Versioning.Event)
    requires StoreWritten(events, s.store) && CommitsWritten(events, s.commits) && Remember(e) in events
    ensures var s' := Versioning.Step(s, e); StoreWritten(events, s'.store) && CommitsWritten(events, s'.commits)
  {
    match e
    case Write(ctx, m) =>
      if Versioning.InScope(ctx, m) {
        assert ScopeOf(m) == ctx;
        AddedIsWritten(events, s.store, ctx, m);
      }
    case Snap(ctx, cid, note, branch) => ListedAreWritten(events, s.store, ctx);
    case Back(ctx, cid) =>
      var c := Versioning.CommitOf(s.commits, ctx.tenant, cid);
      if c.Some? {
        var present := Versioning.Ids(Versioning.ListOf(s.store, ctx, Versioning.LIMIT));
        RestoredIsWritten(events, s.store, ctx, c.value.snapshot, present);
      }
  }

  /** The generation was made from exactly the prompt that presents some memories that were written in its own
      scope, none of them twice and at most 12. */
  ghost predicate Grounded(cfg: Pipeline.Config, events: seq<Event>, g: Pipeline.Generation) {
    exists ms :: GroundedIn(cfg, events, g, ms)
  }

  ghost predicate GroundedIn(cfg: Pipeline.Config, events: seq<Event>, g: Pipeline.Generation,
                             ms: seq<Versioning.Memory>)
  {
    && OwnMemories(events, g.ctx, ms) && Distinct(Versioning.Ids(ms)) && |ms| <= 12
    && g.messages == PromptOf(cfg, g.system, g.prompt, ms)
  }

  ghost predicate OwnMemories(events: seq<Event>, ctx: Ctx, ms: seq<Versioning.Memory>) {
    forall m :: m in ms ==> ScopeOf(m) == ctx && Written(events, m)
  }

  ghost predicate AllGrounded(cfg: Pipeline.Config, events: seq<Event>, log: seq<Pipeline.Generation>) {
    forall g :: g in log ==> Grounded(cfg, events, g)
  }

  lemma LaterIsWritten(earlier: seq<Event>, events: seq<Event>, cfg: Pipeline.Config, w: World)
    requires earlier <= events
    requires StoreWritten(earlier, w.memory.store) && CommitsWritten(earlier, w.memory.commits)
    requires AllGrounded(cfg, earlier, w.chat.log)
    ensures StoreWritten(events, w.memory.store) && CommitsWritten(events, w.memory.commits)
    ensures AllGrounded(cfg, events, w.chat.log)
  {
    assert forall e :: e in earlier ==> e in events;
    forall g | g in w.chat.log ensures Grounded(cfg, events, g) {
      var ms :| GroundedIn(cfg, earlier, g, ms);
      assert GroundedIn(cfg, events, g, ms);
    }
  }

  lemma ChatStaysGrounded(cfg: Pipeline.Config, events: seq<Event>, w: World, req: Pipeline.Request)
    requires StoreWritten(events, w.memory.store) && AllGrounded(cfg, events, w.chat.log) && Given(w.memory.store, req)
    ensures AllGrounded(cfg, events, Pipeline.Step(cfg, w.chat, req).0.log)
  {
    Pipeline.StepAppends(cfg, w.chat, req);
    var log := Pipeline.Step(cfg, w.chat, req).0.log;
    if log != w.chat.log {
      var g := log[|w.chat.log|];
      ListedAreWritten(events, w.memory.store, req.ctx);
      var ms := PreparedPresents(cfg, w.memory.store, req);
      assert GroundedIn(cfg, events, g, ms);
    }
  }

  lemma {:induction false} RunIsGrounded(cfg: Pipeline.Config, registry: map<string, Failover.Entry>,
                                         events: seq<Event>)
    requires Genuine(cfg, registry, events)
    ensures var w := Run(cfg, registry, events);
      && StoreWritten(events, w.memory.store) && CommitsWritten(events, w.memory.commits)
      && AllGrounded(cfg, events, w.chat.log)
    decreases |events|
  {
    if events != [] {
      var n := |events| - 1;
      var w := Run(cfg, registry, events[..n]);
      assert forall k :: 0 <= k < n ==> events[..n][k] == events[k] && events[..n][..k] == events[..k];
      RunIsGrounded(cfg, registry, events[..n]);
      LaterIsWritten(events[..n], events, cfg, w);
      match events[n]
      case Remember(e) => MemoryStaysWritten(events, w.memory, e);
      case Chat(req) => ChatStaysGrounded(cfg, events, w, req);
    }
  }

  /** Isolation, end to end: in every interleaving of writes, commits, rollbacks and requests of any tenants, what
      is sent for a request is, character by character, the prompt that presents some memories that were
      written in its own tenant and namespace. */
  lemma PromptsStayInScope(cfg: Pipeline.Config, registry: map<string, Failover.Entry>, events: seq<Event>,
                           g: Pipeline.Generation)
    requires Genuine(cfg, registry, events) && g in Run(cfg, registry, events).chat.log
    ensures Grounded(cfg, events, g)
  {
    RunIsGrounded(cfg, registry, events);
  }

  /** And no stage makes up a number or an ID: each one in a message that was sent stands in the system prompt,
      in the prompt, or in a memory that was written in the request's own scope. */
  lemma PromptsNeverFabricate(cfg: Pipeline.Config, registry: map<string, Failover.Entry>, events: seq<Event>,
                              g: Pipeline.Generation, msg: Message, t: string)
    requires cfg.chars.Sane() && PlainFrame(cfg.chars) && Genuine(cfg, registry, events)
    requires g in Run(cfg, registry, events).chat.log && msg in g.messages
    requires t in Compressor.Facts(cfg.chars, msg.content)
    ensures t in Compressor.Facts(cfg.chars, g.system) || t in Compressor.Facts(cfg.chars, g.prompt)
      || exists m :: Remember(Versioning.Write(g.ctx, m)) in events && t in Compressor.Facts(cfg.chars, m.content)
  {
    RunIsGrounded(cfg, registry, events);
    var ms :| GroundedIn(cfg, events, g, ms);
    NothingMadeUp(cfg, g.system, g.prompt, ms, msg, t);
    if m: Versioning.Memory :| m in ms && t in Compressor.Facts(cfg.chars, m.content) {
      assert Remember(Versioning.Write(g.ctx, m)) in events;
    }
  }

  // ---------------------------------------------------------------- the code

  class ChatService {
    const engine: MemoryEngine
    const pipeline: Pipeline.RequestPipeline

    constructor (engine: MemoryEngine, pipeline: Pipeline.RequestPipeline)
      ensures this.engine == engine && this.pipeline == pipeline
    {
      this.engine, this.pipeline := engine, pipeline;
    }

    /** What retrieval finds for the request: what the selection picks, or nothing without a memory. */
    ghost predicate Finds(req: Pipeline.Request, terms: seq<string>, now: real, found: seq<Candidate>)
      reads engine.store
    {
      var st := engine.store.byTenant;
      && Recalled(st, req.ctx, found) && Assembler.Retrievable(req.ctx, found, Pipeline.RETRIEVE_K)
      && if pipeline.cfg.useMemory
         then Picked(engine.recall, st, req.ctx, req.prompt, terms, Pipeline.RETRIEVE_K, now, found)
              && (found == [] <==> Versioning.ListOf(st, req.ctx, Versioning.LIMIT) == [])
         else found == []
    }

    /** What is answered without a backend, or else what retrieval finds. */
    method Consult(req: Pipeline.Request, terms: seq<string>, now: real)
      returns (early: Option<Result<Pipeline.ChatResult, Pipeline.Error>>, found: seq<Candidate>)
      requires pipeline.Valid() && engine.recall.Valid() && Versioning.StoreOk(engine.store.byTenant)
      requires Retrieval.Enumerates(terms, engine.recall.tokenize(req.prompt))
      ensures pipeline.Valid() && pipeline.Value() == old(pipeline.Value())
      ensures early == Pipeline.Early(pipeline.cfg, pipeline.Value(), req)
      ensures if early.Some? then found == [] else Finds(req, terms, now, found)
    {
      early := pipeline.AnswerEarly(req);
      found := [];
      if early.None? {
        found := Fetch(req, terms, now);
      }
    }

    method Fetch(req: Pipeline.Request, terms: seq<string>, now: real) returns (found: seq<Candidate>)
      requires engine.recall.Valid() && Versioning.StoreOk(engine.store.byTenant)
      requires Retrieval.Enumerates(terms, engine.recall.tokenize(req.prompt))
      ensures Finds(req, terms, now, found)
    {
      found := [];
      if pipeline.cfg.useMemory {
        found := engine.Retrieve(req.ctx, req.prompt, terms, Pipeline.RETRIEVE_K, now);
      }
    }

    /** A request through the memory engine and the pipeline: retrieval after the cache has missed and before
        anything is compressed, of the 12 best candidates of the request's own scope. */
    method Complete(req: Pipeline.Request, terms: seq<string>, now: real)
      returns (r: Result<Pipeline.ChatResult, Pipeline.Error>, found: seq<Candidate>)
      requires pipeline.Valid() && engine.recall.Valid() && Versioning.StoreOk(engine.store.byTenant)
      requires Retrieval.Enumerates(terms, engine.recall.tokenize(req.prompt))
      modifies pipeline`log, pipeline.cache.backend, pipeline.debugger.store, pipeline.backends.Breakers()
      ensures pipeline.Valid()
      ensures if Pipeline.Early(pipeline.cfg, old(pipeline.Value()), req).Some? then found == []
              else Finds(req, terms, now, found)
      ensures (pipeline.Value(), r) == Pipeline.StepWith(pipeline.cfg, old(pipeline.Value()), req, found)
    {
      var early;
      early, found := Consult(req, terms, now);
      r := pipeline.Conclude(req, early, found);
    }
  }
}
