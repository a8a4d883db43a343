/** Frozen context bundles and their replay (replay/bundle.py, replay/store.py, replay/engine.py).
    The prompt hash and the content address (`ContentAddress`) are parameters: any deterministic
    functions will do for replay. */
module Replay {
  import opened Prelude
  import opened Mmr
  import opened Messages
  import opened Tokenizer
  import Assembler

  /** What an assembly was made from. */
  datatype Inputs = Inputs(modelId: string, lam: real, weights: map<string, real>, budget: map<string, int>,
                           systemPrompt: string, userTurn: string, candidates: seq<Candidate>)

  datatype Bundle = Bundle(cid: string, traceId: string, ctx: Ctx, inputs: Inputs, rendered: seq<Message>,
                           promptHash: string, recordedOutput: Option<string>)

  datatype Env = Env(embedder: Embedder, count: Counter, hash: string -> string, address: Request -> string)

  function WeightsDict(w: Weights): map<string, real> {
    map["vector" := w.vector, "lexical" := w.lexical, "recency" := w.recency, "importance" := w.importance,
        "source" := w.source]
  }

  function BudgetDict(b: Assembler.Budget): map<string, int> {
    map["window_tokens" := b.window, "output_reserve" := b.outputReserve, "system_reserve" := b.systemReserve,
        "latest_user_reserve" := b.userReserve]
  }

  function At<V>(d: map<string, V>, k: string, default: V): V { if k in d then d[k] else default }

  /** Keyword arguments: `RankWeights(**d)` takes any of its five and has defaults for the others;
      `TokenBudget(**d)` takes exactly its four. */
  predicate TakesWeights(d: map<string, real>) {
    d.Keys <= {"vector", "lexical", "recency", "importance", "source"}
  }

  predicate TakesBudget(d: map<string, int>) {
    d.Keys == {"window_tokens", "output_reserve", "system_reserve", "latest_user_reserve"}
  }

  function WeightsFrom(d: map<string, real>): Weights {
    Weights(At(d, "vector", 0.40), At(d, "lexical", 0.20), At(d, "recency", 0.15), At(d, "importance", 0.15),
            At(d, "source", 0.10))
  }

  function BudgetFrom(d: map<string, int>): Assembler.Budget
    requires TakesBudget(d)
  {
    Assembler.Budget(d["window_tokens"], d["output_reserve"], d["system_reserve"], d["latest_user_reserve"])
  }

  lemma DictsRoundTrip(w: Weights, b: Assembler.Budget)
    ensures TakesWeights(WeightsDict(w)) && TakesBudget(BudgetDict(b))
    ensures WeightsFrom(WeightsDict(w)) == w && BudgetFrom(BudgetDict(b)) == b
  {
    var (d, e) := (WeightsDict(w), BudgetDict(b));
    assert d["vector"] == w.vector && d["lexical"] == w.lexical && d["recency"] == w.recency;
    assert e["window_tokens"] == b.window && e["output_reserve"] == b.outputReserve
      && e["system_reserve"] == b.systemReserve;
  }

  function SourcesOf(x: Inputs): Assembler.Sources { Assembler.Sources(x.systemPrompt, x.userTurn, x.candidates, []) }

  datatype ReplayError = BadInputs | Refused(e: Assembler.AssembleError)

  /** Assembly from frozen inputs. */
  function Rebuild(env: Env, x: Inputs): Result<Assembler.Assembled, ReplayError> {
    if !TakesBudget(x.budget) || !TakesWeights(x.weights) then Err(BadInputs)
    else
      match Assembler.Assemble(env.embedder, BudgetFrom(x.budget), SourcesOf(x), WeightsFrom(x.weights), env.count,
                               x.lam)
      case Ok(a) => Ok(a)
      case Err(e) => Err(Refused(e))
  }

  /** Inputs frozen without any weights are assembled under the default policy. */
  lemma DefaultPolicy(env: Env, x: Inputs)
    requires TakesBudget(x.budget) && x.weights == map[]
    ensures Rebuild(env, x) == Rebuild(env, x.(weights := WeightsDict(Weights(0.40, 0.20, 0.15, 0.15, 0.10))))
  {
    DictsRoundTrip(Weights(0.40, 0.20, 0.15, 0.15, 0.10), BudgetFrom(x.budget));
  }

  function PromptHash(env: Env, ms: seq<Message>): string { env.hash(Canonical(ms)) }

  // ---------------------------------------------------------------- the store

  type Store = map<string, map<string, Bundle>>

  function GetBundle(st: Store, tenant: string, trace: string): Option<Bundle> {
    if tenant in st && trace in st[tenant] then Some(st[tenant][trace]) else None
  }

  function PutBundle(st: Store, tenant: string, b: Bundle): Store {
    st[tenant := (if tenant in st then st[tenant] else map[])[b.traceId := b]]
  }

  function Attached(st: Store, tenant: string, trace: string, output: string): Store {
    match GetBundle(st, tenant, trace)
    case Some(b) => st[tenant := st[tenant][trace := b.(recordedOutput := Some(output))]]
    case None => st
  }

  lemma AttachedGet(st: Store, tenant: string, trace: string, output: string, t: string, tr: string)
    ensures var (b, b') := (GetBundle(st, t, tr), GetBundle(Attached(st, tenant, trace, output), t, tr));
      b' == if t == tenant && tr == trace && b.Some? then Some(b.value.(recordedOutput := Some(output))) else b
  {
  }

  // ---------------------------------------------------------------- the debugger

  datatype Mode = RecordedOutput | LiveBackend

  datatype Difference = CountDiffers | MessageDiffers(i: nat) | EncodingDrift | LiveNotCompared

  datatype ReplayResult = ReplayResult(traceId: string, cid: string, mode: Mode, promptEqual: bool, expected: string,
                                       actual: string, outputEqual: Option<bool>, recordedOutput: Option<string>,
                                       diff: Option<Difference>)

  function FirstDifference(expected: seq<Message>, actual: seq<Message>, i: nat): Difference
    requires |expected| == |actual| && i <= |expected|
    decreases |expected| - i
  {
    if i == |expected| then EncodingDrift
    else if expected[i] != actual[i] then MessageDiffers(i)
    else FirstDifference(expected, actual, i + 1)
  }

  function DiffOf(expected: seq<Message>, actual: seq<Message>): Difference {
    if |expected| != |actual| then CountDiffers else FirstDifference(expected, actual, 0)
  }

  method FirstDiff(expected: seq<Message>, actual: seq<Message>) returns (d: Difference)
    ensures d == DiffOf(expected, actual)
    ensures match d
      case CountDiffers => |expected| != |actual|
      case MessageDiffers(i) =>
        |expected| == |actual| && i < |expected| && expected[i] != actual[i] && expected[..i] == actual[..i]
      case EncodingDrift => expected == actual
      case LiveNotCompared => false
  {
    if |expected| != |actual| {
      return CountDiffers;
    }
    for i := 0 to |expected|
      invariant expected[..i] == actual[..i]
      invariant FirstDifference(expected, actual, i) == DiffOf(expected, actual)
    {
      if expected[i] != actual[i] {
        return MessageDiffers(i);
      }
      TakeSnoc(expected, i);
      TakeSnoc(actual, i);
    }
    assert expected[..|expected|] == expected && actual[..|actual|] == actual;
    d := EncodingDrift;
  }

  function ReplayOf(env: Env, trace: string, b: Bundle, mode: Mode): Result<ReplayResult, ReplayError> {
    match Rebuild(env, b.inputs)
    case Err(e) => Err(e)
    case Ok(a) =>
      var actual := PromptHash(env, a.messages);
      var same := actual == b.promptHash;
      Ok(ReplayResult(trace, b.cid, mode, same, b.promptHash, actual,
                      if mode == RecordedOutput then Some(same) else None, b.recordedOutput,
                      if !same then Some(DiffOf(b.rendered, a.messages))
                      else if mode == LiveBackend then Some(LiveNotCompared) else None))
  }

  /** Capturing what `assemble` has just returned. */
  datatype Request = Request(modelId: string, lam: real, weights: Weights, budget: Assembler.Budget,
                             systemPrompt: string, userTurn: string, candidates: seq<Candidate>)

  function AssembledFor(env: Env, r: Request): Result<Assembler.Assembled, Assembler.AssembleError> {
    Assembler.Assemble(env.embedder, r.budget, Assembler.Sources(r.systemPrompt, r.userTurn, r.candidates, []),
                       r.weights, env.count, r.lam)
  }

  function InputsOf(r: Request): Inputs {
    Inputs(r.modelId, r.lam, WeightsDict(r.weights), BudgetDict(r.budget), r.systemPrompt, r.userTurn, r.candidates)
  }

  function BundleFor(env: Env, trace: string, ctx: Ctx, r: Request, ms: seq<Message>): Bundle {
    Bundle(env.address(r), trace, ctx, InputsOf(r), ms, PromptHash(env, ms), None)
  }

  class InMemoryBundleStore {
    var byTenant: Store

    constructor ()
      ensures byTenant == map[]
    {
      byTenant := map[];
    }

    method Put(ctx: Ctx, b: Bundle)
      modifies this
      ensures byTenant == PutBundle(old(byTenant), ctx.tenant, b)
    {
      var mine := if ctx.tenant in byTenant then byTenant[ctx.tenant] else map[];
      byTenant := byTenant[ctx.tenant := mine[b.traceId := b]];
    }

    method AttachOutput(ctx: Ctx, trace: string, output: string) returns (ok: bool)
      modifies this
      ensures byTenant == Attached(old(byTenant), ctx.tenant, trace, output)
      ensures ok == GetBundle(old(byTenant), ctx.tenant, trace).Some?
    {
      var b := GetBundle(byTenant, ctx.tenant, trace);
      if b.None? {
        return false;
      }
      byTenant := byTenant[ctx.tenant := byTenant[ctx.tenant][trace := b.value.(recordedOutput := Some(output))]];
      ok := true;
    }
  }

  class ReplayDebugger {
    const env: Env
    const store: InMemoryBundleStore

    constructor (env: Env, store: InMemoryBundleStore)
      ensures this.env == env && this.store == store
    {
      this.env, this.store := env, store;
    }

    method Capture(trace: string, ctx: Ctx, r: Request, ms: seq<Message>) returns (b: Bundle)
      modifies store
      ensures b == BundleFor(env, trace, ctx, r, ms)
      ensures store.byTenant == PutBundle(old(store.byTenant), ctx.tenant, b)
    {
      b := Bundle(env.address(r), trace, ctx, InputsOf(r), ms, env.hash(Canonical(ms)), None);
      store.Put(ctx, b);
    }

    method Replay(ctx: Ctx, trace: string, mode: Mode)
      returns (r: Option<Result<ReplayResult, ReplayError>>)
      ensures r == match GetBundle(store.byTenant, ctx.tenant, trace)
        case Some(b) => Some(ReplayOf(env, trace, b, mode))
        case None => None
    {
      var found := GetBundle(store.byTenant, ctx.tenant, trace);
      if found.None? {
        return None;
      }
      var b := found.value;
      if !TakesBudget(b.inputs.budget) || !TakesWeights(b.inputs.weights) {
        return Some(Err(BadInputs));
      }
      var a := Assembler.Run(env.embedder, BudgetFrom(b.inputs.budget), SourcesOf(b.inputs),
                             WeightsFrom(b.inputs.weights),
                             env.count, b.inputs.lam);
      if a.Err? {
        return Some(Err(Refused(a.error)));
      }
      var actual := PromptHash(env, a.value.messages);
      var same := actual == b.promptHash;
      var diff: Option<Difference> := None;
      if !same {
        var d := FirstDiff(b.rendered, a.value.messages);
        diff := Some(d);
      } else if mode == LiveBackend {
        diff := Some(LiveNotCompared);
      }
      r := Some(Ok(ReplayResult(trace, b.cid, mode, same, b.promptHash, actual,
                                if mode == RecordedOutput then Some(same) else None, b.recordedOutput, diff)));
    }
  }

  // ---------------------------------------------------------------- one capture

  /** The rebuilt messages are the captured ones, so the replay verdict is positive; recorded output
      or not, it does not change. */
  lemma CaptureReplays(env: Env, trace: string, ctx: Ctx, r: Request, mode: Mode, output: Option<string>)
    requires AssembledFor(env, r).Ok?
    ensures var ms := AssembledFor(env, r).value.messages;
      var b := BundleFor(env, trace, ctx, r, ms).(recordedOutput := output);
      && Rebuild(env, b.inputs) == Ok(AssembledFor(env, r).value)
      && ReplayOf(env, trace, b, mode) == Ok(ReplayResult(trace, b.cid, mode, true, b.promptHash, b.promptHash,
           if mode == RecordedOutput then Some(true) else None, output,
           if mode == LiveBackend then Some(LiveNotCompared) else None))
  {
    DictsRoundTrip(r.weights, r.budget);
  }

  /** A bundle whose hash is that of its own messages is never reported as an encoding drift: a failed
      replay names a real difference. */
  lemma FailedReplayShowsDifference(env: Env, trace: string, b: Bundle, mode: Mode)
    requires b.promptHash == PromptHash(env, b.rendered) && ReplayOf(env, trace, b, mode).Ok?
    ensures var r := ReplayOf(env, trace, b, mode).value;
      !r.promptEqual ==>
        && Rebuild(env, b.inputs).value.messages != b.rendered
        && r.diff.Some? && (r.diff.value == CountDiffers || r.diff.value.MessageDiffers?)
  {
    var actual := Rebuild(env, b.inputs).value.messages;
    if |b.rendered| == |actual| && b.rendered != actual {
      FirstDifferenceFound(b.rendered, actual, 0);
    }
  }

  /** The verdict is true: under a collision-free hash it is positive exactly when the rebuilt messages have the
      plain form of the captured ones; so, for plain contents, exactly when they are the same messages. */
  lemma VerdictIsTrue(env: Env, trace: string, b: Bundle, mode: Mode)
    requires forall x, y :: env.hash(x) == env.hash(y) ==> x == y
    requires b.promptHash == PromptHash(env, b.rendered) && Rebuild(env, b.inputs).Ok?
    ensures ReplayOf(env, trace, b, mode).Ok?
    ensures var (actual, equal) := (Rebuild(env, b.inputs).value.messages,
                                    ReplayOf(env, trace, b, mode).value.promptEqual);
      && (equal <==> PlainForm(actual) == PlainForm(b.rendered))
      && ReplayOf(env, trace, b, mode).value.expected == env.hash(Canonical(b.rendered))
      && ReplayOf(env, trace, b, mode).value.actual == env.hash(Canonical(actual))
      && (AllPlain(actual) && AllPlain(b.rendered) ==> (equal <==> actual == b.rendered))
  {
    HashesSeparatePlainForms(env.hash, Rebuild(env, b.inputs).value.messages, b.rendered);
    HashesSeparatePlainForms(env.hash, b.rendered, b.rendered);
  }

  lemma {:induction false} FirstDifferenceFound(expected: seq<Message>, actual: seq<Message>, i: nat)
    requires |expected| == |actual| && i <= |expected| && expected[i..] != actual[i..]
    ensures FirstDifference(expected, actual, i).MessageDiffers?
    decreases |expected| - i
  {
    if i < |expected| && expected[i] == actual[i] {
      assert expected[i..] == [expected[i]] + expected[i + 1..] && actual[i..] == [actual[i]] + actual[i + 1..];
      FirstDifferenceFound(expected, actual, i + 1);
    }
  }

  // ---------------------------------------------------------------- whole runs

  datatype Event =
    | Captured(trace: string, ctx: Ctx, request: Request)
    | Output(trace: string, ctx: Ctx, output: string)

  /** A refused assembly captures nothing. */
  function Step(env: Env, st: Store, e: Event): Store {
    match e
    case Captured(trace, ctx, r) =>
      (match AssembledFor(env, r)
       case Ok(a) => PutBundle(st, ctx.tenant, BundleFor(env, trace, ctx, r, a.messages))
       case Err(_) => st)
    case Output(trace, ctx, output) => Attached(st, ctx.tenant, trace, output)
  }

  function After(env: Env, events: seq<Event>): Store {
    if events == [] then map[] else Step(env, After(env, events[..|events| - 1]), events[|events| - 1])
  }

  predicate Captures(env: Env, e: Event, tenant: string, trace: string) {
    e.Captured? && e.ctx.tenant == tenant && e.trace == trace && AssembledFor(env, e.request).Ok?
  }

  predicate Attaches(e: Event, tenant: string, trace: string) {
    e.Output? && e.ctx.tenant == tenant && e.trace == trace
  }

  /** The last capture of a trace, and the last output attached since. */
  function LastCapture(env: Env, events: seq<Event>, tenant: string, trace: string): (r: Option<nat>)
    ensures r.Some? ==> r.value < |events| && Captures(env, events[r.value], tenant, trace)
  {
    if events == [] then None
    else
      var n := |events| - 1;
      if Captures(env, events[n], tenant, trace) then Some(n) else LastCapture(env, events[..n], tenant, trace)
  }

  function OutputSince(env: Env, events: seq<Event>, tenant: string, trace: string): Option<string> {
    if events == [] || Captures(env, events[|events| - 1], tenant, trace) then None
    else if Attaches(events[|events| - 1], tenant, trace) then Some(events[|events| - 1].output)
    else OutputSince(env, events[..|events| - 1], tenant, trace)
  }

  function BundleOfEvent(env: Env, e: Event): Bundle
    requires e.Captured? && AssembledFor(env, e.request).Ok?
  {
    BundleFor(env, e.trace, e.ctx, e.request, AssembledFor(env, e.request).value.messages)
  }

  lemma PutGet(st: Store, tenant: string, b: Bundle, t: string, trace: string)
    ensures GetBundle(PutBundle(st, tenant, b), t, trace) ==
      if t == tenant && trace == b.traceId then Some(b) else GetBundle(st, t, trace)
  {
  }

  lemma StepGet(env: Env, st: Store, e: Event, tenant: string, trace: string)
    ensures var (b, b') := (GetBundle(st, tenant, trace), GetBundle(Step(env, st, e), tenant, trace));
      b' == if Captures(env, e, tenant, trace) then Some(BundleOfEvent(env, e))
            else if Attaches(e, tenant, trace) && b.Some? then Some(b.value.(recordedOutput := Some(e.output)))
            else b
  {
    match e {
      case Captured(tr, ctx, r) =>
        if AssembledFor(env, r).Ok? {
          PutGet(st, ctx.tenant, BundleOfEvent(env, e), tenant, trace);
        }
      case Output(tr, ctx, output) => AttachedGet(st, ctx.tenant, tr, output, tenant, trace);
    }
  }

  lemma {:induction false} StoreIsHistory(env: Env, events: seq<Event>, tenant: string, trace: string)
    ensures GetBundle(After(env, events), tenant, trace) ==
      match LastCapture(env, events, tenant, trace)
      case Some(i) => Some(BundleOfEvent(env, events[i]).(recordedOutput := OutputSince(env, events, tenant, trace)))
      case None => None
    decreases |events|
  {
    if events != [] {
      var n := |events| - 1;
      StoreIsHistory(env, events[..n], tenant, trace);
      StepGet(env, After(env, events[..n]), events[n], tenant, trace);
    }
  }

  /** Over every interleaving of captures and attachments across tenants, replaying a trace finds its
      own last capture or nothing, rebuilds the identical message list, reports equality with no
      difference, and shows the last output attached since; outputs never change the verdict. */
  lemma ReplayHoldsOverRuns(env: Env, events: seq<Event>, tenant: string, trace: string, mode: Mode)
    ensures var b := GetBundle(After(env, events), tenant, trace);
      match LastCapture(env, events, tenant, trace)
      case None => b.None?
      case Some(i) =>
        && b.Some? && b.value.traceId == trace
        && Rebuild(env, b.value.inputs).Ok?
        && Rebuild(env, b.value.inputs).value.messages == b.value.rendered
          == AssembledFor(env, events[i].request).value.messages
        && ReplayOf(env, trace, b.value, mode).Ok?
        && var r := ReplayOf(env, trace, b.value, mode).value;
           && r.promptEqual && r.expected == r.actual
           && r.outputEqual == (if mode == RecordedOutput then Some(true) else None)
           && r.recordedOutput == OutputSince(env, events, tenant, trace)
           && r.diff == (if mode == LiveBackend then Some(LiveNotCompared) else None)
  {
    StoreIsHistory(env, events, tenant, trace);
    var l := LastCapture(env, events, tenant, trace);
    if l.Some? {
      var e := events[l.value];
      CaptureReplays(env, trace, e.ctx, e.request, mode, OutputSince(env, events, tenant, trace));
    }
  }
}
