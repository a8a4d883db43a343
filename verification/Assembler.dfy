/** Budget, packing, placement and rendering (assembler/budget.py, assembler/engine.py). */
module Assembler {
  import opened Prelude
  import opened Mmr
  import opened EdgeLoad
  import opened Messages
  import opened Tokenizer

  // ---------------------------------------------------------------- budget

  datatype Budget = Budget(window: int, outputReserve: int, systemReserve: int, userReserve: int) {
    function HardFloor(): int { outputReserve + systemReserve + userReserve }

    function Soft(): nat { if window >= HardFloor() then window - HardFloor() else 0 }
  }

  datatype Sources = Sources(systemPrompt: string, userTurn: string, candidates: seq<Candidate>, history: seq<Message>)

  datatype Reason = Packed | BudgetFull | BelowTopK

  datatype Decision = Decision(id: string, blend: real, kept: bool, reason: Reason, placement: Option<nat>)

  datatype Assembled = Assembled(messages: seq<Message>, usedTokens: int, decisions: seq<Decision>)

  datatype AssembleError = PolicyError | ContextOverflow

  function Tokens(s: seq<Scored>, count: Counter): int { SumBy(s, (x: Scored) => count(x.c.content)) }

  /** What messages count themselves. */
  function SentTokens(ms: seq<Message>, count: Counter): int { SumBy(ms, (m: Message) => count(m.content)) }

  // ---------------------------------------------------------------- packing

  /** Greedy packing into the room that is left: survivors and one decision a candidate. */
  function Pack(selected: seq<Scored>, count: Counter, room: int): (seq<Scored>, seq<Decision>) {
    if selected == [] then ([], [])
    else
      var x := selected[0];
      var t := count(x.c.content);
      if t <= room then
        var (s, d) := Pack(selected[1..], count, room - t);
        ([x] + s, [Decision(x.c.id, x.blend, true, Packed, None)] + d)
      else
        var (s, d) := Pack(selected[1..], count, room);
        (s, [Decision(x.c.id, x.blend, false, BudgetFull, None)] + d)
  }

  predicate HasId(s: seq<Scored>, id: string) { exists i :: 0 <= i < |s| && s[i].c.id == id }

  function BelowTop(scored: seq<Scored>, selected: seq<Scored>): seq<Scored> {
    Filter(scored, (x: Scored) => !HasId(selected, x.c.id))
  }

  function DropDecision(x: Scored): Decision { Decision(x.c.id, x.blend, false, BelowTopK, None) }

  function Decisions(scored: seq<Scored>, selected: seq<Scored>, count: Counter, soft: nat): seq<Decision> {
    Pack(selected, count, soft).1 + Map(BelowTop(scored, selected), (x: Scored) => DropDecision(x))
  }

  method Knapsack(scored: seq<Scored>, selected: seq<Scored>, soft: nat, count: Counter)
    returns (survivors: seq<Scored>, decisions: seq<Decision>)
    ensures survivors == Pack(selected, count, soft).0
    ensures decisions == Decisions(scored, selected, count, soft)
  {
    survivors, decisions := [], [];
    var used := 0;
    assert selected[0..] == selected;
    for i := 0 to |selected|
      invariant survivors + Pack(selected[i..], count, soft - used).0 == Pack(selected, count, soft).0
      invariant decisions + Pack(selected[i..], count, soft - used).1 == Pack(selected, count, soft).1
    {
      var x := selected[i];
      assert selected[i..][1..] == selected[i + 1..];
      var toks := count(x.c.content);
      if used + toks <= soft {
        used := used + toks;
        survivors := survivors + [x];
        decisions := decisions + [Decision(x.c.id, x.blend, true, Packed, None)];
      } else {
        decisions := decisions + [Decision(x.c.id, x.blend, false, BudgetFull, None)];
      }
    }
    ghost var packed := decisions;
    var keep := (x: Scored) => !HasId(selected, x.c.id);
    var drop := (x: Scored) => DropDecision(x);
    for i := 0 to |scored|
      invariant decisions == packed + Map(Filter(scored[..i], keep), drop)
    {
      var x := scored[i];
      assert scored[..i + 1] == scored[..i] + [x];
      FilterConcat(scored[..i], [x], keep);
      if !HasId(selected, x.c.id) {
        decisions := decisions + [DropDecision(x)];
      }
    }
    assert scored[..|scored|] == scored;
  }

  ghost predicate Decides(d: Decision, x: Scored) {
    && d.id == x.c.id && d.blend == x.blend && d.placement.None?
    && d.reason == if d.kept then Packed else BudgetFull
  }

  /** Packing is sound and maximal: the survivors fit, they are exactly the candidates decided
      kept, in order, and nothing evicted for the budget would fit into what is left at the end. */
  lemma {:induction false} PackIsMaximal(selected: seq<Scored>, count: Counter, room: nat)
    ensures var (s, d) := Pack(selected, count, room);
      && 0 <= Tokens(s, count) <= room
      && |d| == |selected|
      && (forall i :: 0 <= i < |d| ==> Decides(d[i], selected[i]))
      && (forall i :: 0 <= i < |d| && !d[i].kept ==> count(selected[i].c.content) > room - Tokens(s, count))
      && s == KeptOf(selected, d)
  {
    if selected != [] {
      var t := count(selected[0].c.content);
      var next := if t <= room then room - t else room;
      PackIsMaximal(selected[1..], count, next);
      var (s, d) := Pack(selected, count, room);
      var (s', d') := Pack(selected[1..], count, next);
      assert d[1..] == d';
      if t <= room {
        assert s[1..] == s';
      }
    }
  }

  /** The candidates whose decision says kept. */
  ghost function KeptOf(selected: seq<Scored>, d: seq<Decision>): seq<Scored>
    requires |d| == |selected|
  {
    if selected == [] then []
    else (if d[0].kept then [selected[0]] else []) + KeptOf(selected[1..], d[1..])
  }

  function CountKept(d: seq<Decision>): nat {
    if d == [] then 0 else (if d[0].kept then 1 else 0) + CountKept(d[1..])
  }

  lemma {:induction false} CountKeptConcat(a: seq<Decision>, b: seq<Decision>)
    ensures CountKept(a + b) == CountKept(a) + CountKept(b)
  {
    if a == [] {
      assert a + b == b;
    } else {
      assert (a + b)[1..] == a[1..] + b;
      CountKeptConcat(a[1..], b);
    }
  }

  lemma {:induction false} CountKeptNone(d: seq<Decision>)
    requires forall i :: 0 <= i < |d| ==> !d[i].kept
    ensures CountKept(d) == 0
  {
    if d != [] {
      CountKeptNone(d[1..]);
    }
  }

  lemma {:induction false} PackCounts(selected: seq<Scored>, count: Counter, room: int)
    ensures var (s, d) := Pack(selected, count, room); CountKept(d) == |s|
  {
    if selected != [] {
      var t := count(selected[0].c.content);
      PackCounts(selected[1..], count, if t <= room then room - t else room);
    }
  }

  // ---------------------------------------------------------------- rendering

  function Bullet(x: Scored): string { "- " + x.c.content }

  /** The context message: a heading and one bullet a placed block. */
  function ContextText(placed: seq<Scored>): string {
    "Relevant context:\n" + Join(Map(placed, (x: Scored) => Bullet(x)), "\n")
  }

  function RenderMessages(src: Sources, placed: seq<Scored>): seq<Message> {
    (if src.systemPrompt != "" then [Message(System, src.systemPrompt)] else [])
    + (if placed != [] then [Message(System, ContextText(placed))] else [])
    + src.history + [Message(User, src.userTurn)]
  }

  /** What a request renders to when no block is placed and there is no history. */
  function BareMessages(systemPrompt: string, userTurn: string): seq<Message> {
    (if systemPrompt != "" then [Message(System, systemPrompt)] else []) + [Message(User, userTurn)]
  }

  /** `pos_by_id.get(id)`: the last place holding that id. */
  function PlaceById(placed: seq<Scored>, id: string): Option<nat> {
    if placed == [] then None
    else if placed[|placed| - 1].c.id == id then Some(|placed| - 1)
    else PlaceById(placed[..|placed| - 1], id)
  }

  function WithPlacement(placed: seq<Scored>, d: Decision): Decision {
    if d.kept then d.(placement := PlaceById(placed, d.id)) else d
  }

  function UsedTokens(src: Sources, placed: seq<Scored>, count: Counter): int {
    count(src.systemPrompt) + count(src.userTurn) + Tokens(placed, count) + HistoryTokens(src, count)
  }

  predicate WeightsOk(w: Weights) { -0.000001 <= TotalWeight(w) - 1.0 <= 0.000001 }

  /** The survivors of the packing and their final order. */
  function SurvivorsOf(e: Embedder, b: Budget, src: Sources, w: Weights, count: Counter, lam: real): seq<Scored> {
    Pack(Reranked(e, Blend(src.candidates, w), lam), count, b.Soft()).0
  }

  function PlacedOf(e: Embedder, b: Budget, src: Sources, w: Weights, count: Counter, lam: real): seq<Scored> {
    EdgeLoaded(SurvivorsOf(e, b, src, w, count, lam))
  }

  function DecisionsOf(e: Embedder, b: Budget, src: Sources, w: Weights, count: Counter, lam: real): seq<Decision> {
    var scored := Blend(src.candidates, w);
    var placed := PlacedOf(e, b, src, w, count, lam);
    Map(Decisions(scored, Reranked(e, scored, lam), count, b.Soft()), (d: Decision) => WithPlacement(placed, d))
  }

  function Assemble(e: Embedder, b: Budget, src: Sources, w: Weights, count: Counter,
                    lam: real): Result<Assembled, AssembleError>
  {
    if !WeightsOk(w) then Err(PolicyError)
    else if b.HardFloor() > b.window then Err(ContextOverflow)
    else
      var placed := PlacedOf(e, b, src, w, count, lam);
      Ok(Assembled(RenderMessages(src, placed), UsedTokens(src, placed, count), DecisionsOf(e, b, src, w, count, lam)))
  }

  method Run(e: Embedder, b: Budget, src: Sources, w: Weights, count: Counter, lam: real)
    returns (r: Result<Assembled, AssembleError>)
    ensures r == Assemble(e, b, src, w, count, lam)
  {
    if !WeightsOk(w) {
      return Err(PolicyError);
    }
    if b.HardFloor() > b.window {
      return Err(ContextOverflow);
    }
    var scored := Blend(src.candidates, w);
    var selected := Rerank(e, scored, lam);
    var survivors, decisions := Knapsack(scored, selected, b.Soft(), count);
    var placed := EdgeLoad.EdgeLoad(survivors);
    decisions := Map(decisions, (d: Decision) => WithPlacement(placed, d));
    r := Ok(Assembled(RenderMessages(src, placed), UsedTokens(src, placed, count), decisions));
  }

  // ---------------------------------------------------------------- what assembly guarantees

  lemma PlacedTokens(e: Embedder, b: Budget, src: Sources, w: Weights, count: Counter, lam: real)
    ensures 0 <= Tokens(PlacedOf(e, b, src, w, count, lam), count) <= b.Soft()
    ensures Tokens(PlacedOf(e, b, src, w, count, lam), count) == Tokens(SurvivorsOf(e, b, src, w, count, lam), count)
  {
    var survivors := SurvivorsOf(e, b, src, w, count, lam);
    PackIsMaximal(Reranked(e, Blend(src.candidates, w), lam), count, b.Soft());
    EdgeLoadPermutes(survivors);
    SumByPermutation(EdgeLoaded(survivors), survivors, (x: Scored) => count(x.c.content));
  }

  lemma {:induction false} SentNatural(ms: seq<Message>, count: Counter)
    ensures SentTokens(ms, count) >= 0
  {
    if ms != [] {
      SentNatural(ms[1..], count);
      assert SentTokens(ms, count) == count(ms[0].content) + SentTokens(ms[1..], count);
    }
  }

  lemma {:induction false} TokensNatural(s: seq<Scored>, count: Counter)
    ensures Tokens(s, count) >= 0
  {
    if s != [] {
      TokensNatural(s[1..], count);
      assert Tokens(s, count) == count(s[0].c.content) + Tokens(s[1..], count);
    }
  }

  /** The reserves of the fixed parts are what the same counter makes of them. */
  predicate Measured(b: Budget, src: Sources, count: Counter) {
    b.systemReserve == count(src.systemPrompt) && b.userReserve == count(src.userTurn)
  }

  function HistoryTokens(src: Sources, count: Counter): int { SentTokens(src.history, count) }

  /** The accounted prompt and the output reserve stay within the window exactly when the history fits
      into what packing left over; so they always do when there is no history. */
  lemma WindowHolds(e: Embedder, b: Budget, src: Sources, w: Weights, count: Counter, lam: real)
    requires Assemble(e, b, src, w, count, lam).Ok? && Measured(b, src, count)
    ensures var a := Assemble(e, b, src, w, count, lam).value;
      && (a.usedTokens + b.outputReserve <= b.window <==>
            HistoryTokens(src, count) <= b.Soft() - Tokens(PlacedOf(e, b, src, w, count, lam), count))
      && (src.history == [] ==> a.usedTokens + b.outputReserve <= b.window)
  {
    PlacedTokens(e, b, src, w, count, lam);
  }

  /** Assembly succeeds and accounts for no more than the window. */
  ghost predicate AccountedFits(e: Embedder, b: Budget, src: Sources, w: Weights, count: Counter, lam: real) {
    var r := Assemble(e, b, src, w, count, lam); r.Ok? && r.value.usedTokens + b.outputReserve <= b.window
  }

  /** The soft budget does not hold the history: the code never packs it. Before anything is retrieved,
      a caller can rely on the window exactly when the history counts nothing. */
  lemma HistoryMustBeFree(e: Embedder, b: Budget, src: Sources, w: Weights, count: Counter, lam: real, filler: string)
    requires WeightsOk(w) && b.HardFloor() <= b.window && Measured(b, src, count) && count(filler) == b.Soft()
    ensures (forall cands :: AccountedFits(e, b, src.(candidates := cands), w, count, lam)) <==>
      HistoryTokens(src, count) == 0
  {
    SentNatural(src.history, count);
    if HistoryTokens(src, count) == 0 {
      forall cands ensures AccountedFits(e, b, src.(candidates := cands), w, count, lam) {
        WindowHolds(e, b, src.(candidates := cands), w, count, lam);
        PlacedTokens(e, b, src.(candidates := cands), w, count, lam);
      }
    } else {
      var one := Filler(Ctx("", ""), "", filler);
      var full := src.(candidates := [one]);
      OneCandidate(one, count);
      EveryCandidatePlaced(e, b, full, w, count, lam);
      WindowHolds(e, b, full, w, count, lam);
      assert !AccountedFits(e, b, full, w, count, lam);
    }
  }

  function Filler(ctx: Ctx, id: string, text: string): Candidate {
    Candidate(id, ctx.tenant, ctx.namespace, Semantic, text, None, None, 0.0, 1.0, 0.5, None, None, 0.0, None)
  }

  /** Under the four-characters heuristic every budget can be filled exactly. */
  function FillerText(tokens: nat): (text: string)
    ensures HeuristicCount(text) == tokens && |text| == 4 * tokens
  {
    seq(4 * tokens, _ => 'a')
  }

  lemma HistoryMustBeFreeByHeuristic(e: Embedder, b: Budget, src: Sources, w: Weights, lam: real)
    requires WeightsOk(w) && b.HardFloor() <= b.window && Measured(b, src, HeuristicCount)
    ensures (forall cands :: AccountedFits(e, b, src.(candidates := cands), w, HeuristicCount, lam)) <==>
      HistoryTokens(src, HeuristicCount) == 0
  {
    HistoryMustBeFree(e, b, src, w, HeuristicCount, lam, FillerText(b.Soft()));
  }

  /** An input on which it goes wrong: one token is left beside the user turn, and the history takes two. */
  lemma HistoryOverflows(e: Embedder, lam: real)
    ensures var (b, w) := (Budget(2, 0, 0, 1), Weights(0.40, 0.20, 0.15, 0.15, 0.10));
      var src := Sources("", "abcd", [], [Message(User, "abcdefgh")]);
      var r := Assemble(e, b, src, w, HeuristicCount, lam);
      Measured(b, src, HeuristicCount) && r.Ok? && r.value.usedTokens + b.outputReserve > b.window
  {
    var (b, w) := (Budget(2, 0, 0, 1), Weights(0.40, 0.20, 0.15, 0.15, 0.10));
    var src := Sources("", "abcd", [], [Message(User, "abcdefgh")]);
    assert src.history[1..] == [];
    assert HistoryTokens(src, HeuristicCount) == 2;
    PlacedTokens(e, b, src, w, HeuristicCount, lam);
    WindowHolds(e, b, src, w, HeuristicCount, lam);
  }

  // ---------------------------------------------------------------- when everything fits

  lemma OneCandidate(c: Candidate, count: Counter)
    ensures CandidateTokens([c], count) == count(c.content)
  {
    assert [c][1..] == [] && CandidateTokens([], count) == 0;
    assert CandidateTokens([c], count) == count([c][0].content) + CandidateTokens([c][1..], count);
  }

  lemma {:induction false} TokensOfCandidates(s: seq<Scored>, cands: seq<Candidate>, count: Counter)
    requires |s| == |cands| && forall i :: 0 <= i < |s| ==> s[i].c == cands[i]
    ensures Tokens(s, count) == CandidateTokens(cands, count)
  {
    if s != [] {
      TokensOfCandidates(s[1..], cands[1..], count);
    }
  }

  lemma {:induction false} PackAll(selected: seq<Scored>, count: Counter, room: int)
    requires Tokens(selected, count) <= room
    ensures Pack(selected, count, room).0 == selected
  {
    if selected != [] {
      TokensNatural(selected[1..], count);
      PackAll(selected[1..], count, room - count(selected[0].c.content));
    }
  }

  lemma RerankingKeepsAll(e: Embedder, scored: seq<Scored>, lam: real)
    requires |scored| <= MMR_TOPK
    ensures multiset(Reranked(e, scored, lam)) == multiset(scored)
  {
    var dropped := TopIsTop(scored);
    RerankingPermutesTop(e, scored, lam);
    assert |multiset(Top(scored)) + multiset(dropped)| == |Top(scored)| + |dropped| == |scored|;
    assert dropped == [];
  }

  /** Candidates that fit the soft budget together, and are no more than 128, are all placed. */
  lemma EveryCandidatePlaced(e: Embedder, b: Budget, src: Sources, w: Weights, count: Counter, lam: real)
    requires |src.candidates| <= MMR_TOPK && CandidateTokens(src.candidates, count) <= b.Soft()
    ensures var placed := PlacedOf(e, b, src, w, count, lam);
      && multiset(placed) == multiset(Blend(src.candidates, w)) && |placed| == |src.candidates|
      && Tokens(placed, count) == CandidateTokens(src.candidates, count)
  {
    var scored := Blend(src.candidates, w);
    var selected := Reranked(e, scored, lam);
    RerankingKeepsAll(e, scored, lam);
    TokensOfCandidates(scored, src.candidates, count);
    SumByPermutation(selected, scored, (x: Scored) => count(x.c.content));
    PackAll(selected, count, b.Soft());
    EdgeLoadPermutes(selected);
    PlacedTokens(e, b, src, w, count, lam);
    assert |PlacedOf(e, b, src, w, count, lam)| == |multiset(scored)|;
  }

  lemma EvictedFromPack(scored: seq<Scored>, selected: seq<Scored>, count: Counter, soft: nat, i: nat)
    requires i < |Decisions(scored, selected, count, soft)|
      && Decisions(scored, selected, count, soft)[i].reason == BudgetFull
    ensures i < |selected| && Decisions(scored, selected, count, soft)[i].id == selected[i].c.id
    ensures count(selected[i].c.content) > soft - Tokens(Pack(selected, count, soft).0, count)
  {
    PackIsMaximal(selected, count, soft);
    var (s, d) := Pack(selected, count, soft);
    if i < |selected| {
      assert Decides(d[i], selected[i]);
    }
  }

  lemma RerankedFromScored(e: Embedder, scored: seq<Scored>, lam: real, i: nat)
    requires i < |Reranked(e, scored, lam)|
    ensures Reranked(e, scored, lam)[i] in scored
  {
    RerankingPermutesTop(e, scored, lam);
    var _ := TopIsTop(scored);
    assert Reranked(e, scored, lam)[i] in multiset(Top(scored));
    assert Reranked(e, scored, lam)[i] in multiset(scored);
  }

  /** Nothing evicted for the budget would have fitted the window beside what was kept. */
  lemma EvictedDoesNotFit(e: Embedder, b: Budget, src: Sources, w: Weights, count: Counter, lam: real, i: nat)
    requires Assemble(e, b, src, w, count, lam).Ok? && src.history == [] && Measured(b, src, count)
    requires var d := DecisionsOf(e, b, src, w, count, lam); i < |d| && d[i].reason == BudgetFull
    ensures var (a, d) := (Assemble(e, b, src, w, count, lam).value, DecisionsOf(e, b, src, w, count, lam));
      exists x :: x in Blend(src.candidates, w) && x.c.id == d[i].id
        && a.usedTokens + b.outputReserve + count(x.c.content) > b.window
  {
    var scored := Blend(src.candidates, w);
    var selected := Reranked(e, scored, lam);
    EvictedFromPack(scored, selected, count, b.Soft(), i);
    RerankedFromScored(e, scored, lam, i);
    PlacedTokens(e, b, src, w, count, lam);
    var x := selected[i];
    assert x in scored;
  }

  /** Which refusal it is: weights whose sum is off 1 by more than a millionth come first; then reserves that
      exceed the window. */
  lemma RefusalMeaning(e: Embedder, b: Budget, src: Sources, w: Weights, count: Counter, lam: real)
    ensures var (r, total) := (Assemble(e, b, src, w, count, lam),
                               w.vector + w.lexical + w.recency + w.importance + w.source);
      && (r == Err(PolicyError) <==> total < 0.999999 || total > 1.000001)
      && (r == Err(ContextOverflow) <==>
            0.999999 <= total <= 1.000001 && b.outputReserve + b.systemReserve + b.userReserve > b.window)
  {
  }

  /** Assembly refuses exactly on malformed weights or when even the bare messages would not leave
      room for the output; otherwise the fixed parts stand whole at the two ends of the prompt. */
  lemma HardReservesHold(e: Embedder, b: Budget, src: Sources, w: Weights, count: Counter, lam: real)
    requires Measured(b, src, count) && count("") == 0
    ensures var (r, bare) := (Assemble(e, b, src, w, count, lam), BareMessages(src.systemPrompt, src.userTurn));
      && (r.Ok? <==> WeightsOk(w) && SentTokens(bare, count) + b.outputReserve <= b.window)
      && (r.Ok? ==> var ms := r.value.messages;
            && |ms| >= |bare| && ms[|ms| - 1] == bare[|bare| - 1]
            && (src.systemPrompt != "" ==> ms[0] == bare[0]))
  {
    BareTokens(src.systemPrompt, src.userTurn, count);
  }

  lemma KeptCount(e: Embedder, b: Budget, src: Sources, w: Weights, count: Counter, lam: real)
    ensures CountKept(DecisionsOf(e, b, src, w, count, lam)) == |PlacedOf(e, b, src, w, count, lam)|
  {
    var scored := Blend(src.candidates, w);
    var selected := Reranked(e, scored, lam);
    var packed := Pack(selected, count, b.Soft()).1;
    var dropped := Map(BelowTop(scored, selected), (x: Scored) => DropDecision(x));
    PackCounts(selected, count, b.Soft());
    CountKeptConcat(packed, dropped);
    CountKeptNone(dropped);
    CountKeptMap(packed + dropped, PlacedOf(e, b, src, w, count, lam));
    EdgeLoadPermutes(SurvivorsOf(e, b, src, w, count, lam));
  }

  lemma BareIffNothingPlaced(src: Sources, placed: seq<Scored>)
    requires src.history == []
    ensures placed == [] <==> RenderMessages(src, placed) == BareMessages(src.systemPrompt, src.userTurn)
  {
    var (ms, bare) := (RenderMessages(src, placed), BareMessages(src.systemPrompt, src.userTurn));
    assert |ms| == |bare| + if placed != [] then 1 else 0;
  }

  /** Nothing is injected exactly when the messages are the bare ones plus the history. */
  lemma InjectedCountsBlocks(e: Embedder, b: Budget, src: Sources, w: Weights, count: Counter, lam: real)
    requires Assemble(e, b, src, w, count, lam).Ok?
    ensures var a := Assemble(e, b, src, w, count, lam).value;
      && CountKept(a.decisions) == |PlacedOf(e, b, src, w, count, lam)|
      && (src.history == [] ==>
            (CountKept(a.decisions) == 0 <==> a.messages == BareMessages(src.systemPrompt, src.userTurn)))
  {
    KeptCount(e, b, src, w, count, lam);
    if src.history == [] {
      BareIffNothingPlaced(src, PlacedOf(e, b, src, w, count, lam));
    }
  }

  lemma {:induction false} CountKeptMap(d: seq<Decision>, placed: seq<Scored>)
    ensures CountKept(Map(d, (x: Decision) => WithPlacement(placed, x))) == CountKept(d)
  {
    if d != [] {
      CountKeptMap(d[1..], placed);
      var f := (x: Decision) => WithPlacement(placed, x);
      assert Map(d, f)[1..] == Map(d[1..], f);
    }
  }

  // ---------------------------------------------------------------- one decision each

  /** Below the top are exactly the candidates that the cut at 128 dropped. */
  lemma BelowTopIsDropped(scored: seq<Scored>, selected: seq<Scored>, dropped: seq<Scored>)
    requires DistinctIds(scored) && multiset(selected) + multiset(dropped) == multiset(scored)
    ensures multiset(BelowTop(scored, selected)) == multiset(dropped)
  {
    var p := (x: Scored) => !HasId(selected, x.c.id);
    var (a, b) := (multiset(BelowTop(scored, selected)), multiset(dropped));
    forall x ensures a[x] == b[x] {
      FilterCount(scored, p, x);
      AtMostOne(scored, x);
      if !p(x) {
        var i :| 0 <= i < |selected| && selected[i].c.id == x.c.id;
        assert selected[i] in multiset(scored);
        assert x in multiset(scored) ==> x == selected[i];
      } else {
        assert x !in selected;
      }
    }
    assert a == b;
  }

  ghost predicate About(d: seq<Decision>, order: seq<Scored>) {
    |d| == |order| && forall i :: 0 <= i < |d| ==> d[i].id == order[i].c.id && d[i].blend == order[i].blend
  }

  lemma DecisionsAreAbout(scored: seq<Scored>, selected: seq<Scored>, count: Counter, soft: nat)
    ensures About(Decisions(scored, selected, count, soft), selected + BelowTop(scored, selected))
  {
    PackIsMaximal(selected, count, soft);
  }

  lemma EverySelectedOrBelow(e: Embedder, scored: seq<Scored>, lam: real)
    requires DistinctIds(scored)
    ensures var selected := Reranked(e, scored, lam);
      multiset(selected + BelowTop(scored, selected)) == multiset(scored)
  {
    var dropped := TopIsTop(scored);
    RerankingPermutesTop(e, scored, lam);
    BelowTopIsDropped(scored, Reranked(e, scored, lam), dropped);
  }

  /** Every candidate gets exactly one decision: position by position, the decisions are about a
      permutation of the blended candidates. */
  lemma OneDecisionEach(e: Embedder, b: Budget, src: Sources, w: Weights, count: Counter, lam: real)
    returns (order: seq<Scored>)
    requires forall i, j :: 0 <= i < j < |src.candidates| ==> src.candidates[i].id != src.candidates[j].id
    ensures multiset(order) == multiset(Blend(src.candidates, w))
    ensures About(DecisionsOf(e, b, src, w, count, lam), order)
  {
    var scored := Blend(src.candidates, w);
    var selected := Reranked(e, scored, lam);
    BlendKeepsDistinct(src.candidates, w);
    EverySelectedOrBelow(e, scored, lam);
    DecisionsAreAbout(scored, selected, count, b.Soft());
    order := selected + BelowTop(scored, selected);
    PlacementKeepsAbout(Decisions(scored, selected, count, b.Soft()), PlacedOf(e, b, src, w, count, lam), order);
  }

  lemma PlacementKeepsAbout(d: seq<Decision>, placed: seq<Scored>, order: seq<Scored>)
    requires About(d, order)
    ensures About(Map(d, (x: Decision) => WithPlacement(placed, x)), order)
  {
  }

  lemma BlendKeepsDistinct(cands: seq<Candidate>, w: Weights)
    requires forall i, j :: 0 <= i < j < |cands| ==> cands[i].id != cands[j].id
    ensures DistinctIds(Blend(cands, w))
  {
  }

  lemma {:induction false} PlaceByIdFinds(placed: seq<Scored>, id: string)
    ensures match PlaceById(placed, id)
      case Some(p) => p < |placed| && placed[p].c.id == id
      case None => forall x :: x in placed ==> x.c.id != id
  {
    if placed != [] {
      var n := |placed| - 1;
      PlaceByIdFinds(placed[..n], id);
      assert placed == placed[..n] + [placed[n]];
    }
  }

  lemma {:induction false} KeptIsPlaced(selected: seq<Scored>, d: seq<Decision>, i: nat)
    requires |d| == |selected| && i < |d| && d[i].kept
    ensures selected[i] in KeptOf(selected, d)
  {
    if i > 0 {
      KeptIsPlaced(selected[1..], d[1..], i - 1);
    }
  }

  /** A kept decision carries the place where its own block stands; no other decision has one. */
  lemma PlacementIsTrue(e: Embedder, b: Budget, src: Sources, w: Weights, count: Counter, lam: real, i: nat)
    requires i < |DecisionsOf(e, b, src, w, count, lam)|
    ensures var (d, placed) := (DecisionsOf(e, b, src, w, count, lam)[i], PlacedOf(e, b, src, w, count, lam));
      if d.kept then d.placement.Some? && d.placement.value < |placed| && placed[d.placement.value].c.id == d.id
      else d.placement.None?
  {
    var scored := Blend(src.candidates, w);
    var selected := Reranked(e, scored, lam);
    var survivors := SurvivorsOf(e, b, src, w, count, lam);
    var placed := PlacedOf(e, b, src, w, count, lam);
    var all := Decisions(scored, selected, count, b.Soft());
    PackIsMaximal(selected, count, b.Soft());
    PlaceByIdFinds(placed, all[i].id);
    if all[i].kept {
      KeptIsPlaced(selected, Pack(selected, count, b.Soft()).1, i);
      EdgeLoadPermutes(survivors);
      assert selected[i] in multiset(placed);
    }
  }

  // ---------------------------------------------------------------- the rendering bound

  lemma {:induction false} BulletLengths(placed: seq<Scored>)
    ensures SumBy(Map(placed, (x: Scored) => Bullet(x)), (p: string) => |p|)
         == SumBy(placed, (x: Scored) => |x.c.content|) + 2 * |placed|
  {
    if placed != [] {
      BulletLengths(placed[1..]);
      var f := (x: Scored) => Bullet(x);
      assert Map(placed, f)[1..] == Map(placed[1..], f);
    }
  }

  lemma {:induction false} CountsRoundUp(placed: seq<Scored>)
    ensures SumBy(placed, (x: Scored) => |x.c.content|) <= 4 * Tokens(placed, HeuristicCount)
  {
    if placed != [] {
      CountsRoundUp(placed[1..]);
      assert Tokens(placed, HeuristicCount)
        == HeuristicCount(placed[0].c.content) + Tokens(placed[1..], HeuristicCount);
      assert |placed[0].c.content| <= 4 * HeuristicCount(placed[0].c.content);
    }
  }

  /** A heading, and for every block a bullet and a line break. */
  lemma ContextLength(placed: seq<Scored>)
    requires placed != []
    ensures |ContextText(placed)| == SumBy(placed, (x: Scored) => |x.c.content|) + 17 + 3 * |placed|
  {
    JoinLength(Map(placed, (x: Scored) => Bullet(x)), "\n");
    BulletLengths(placed);
    assert |"Relevant context:\n"| == 18;
  }

  /** What rendering n blocks costs on top of what they were accounted at. */
  function Overhead(n: nat): nat { if n == 0 then 0 else (17 + 3 * n + 3) / 4 }

  /** Under the four-characters heuristic the context message of n >= 1 placed blocks costs at most
      ceil((17 + 3n) / 4) tokens more than the blocks were accounted at. */
  lemma RenderingOverhead(placed: seq<Scored>)
    requires placed != []
    ensures HeuristicCount(ContextText(placed)) <= Tokens(placed, HeuristicCount) + Overhead(|placed|)
  {
    ContextLength(placed);
    CountsRoundUp(placed);
  }

  // ---------------------------------------------------------------- what is sent

  lemma SentOne(m: Message, count: Counter)
    ensures SentTokens([m], count) == count(m.content)
  {
    assert [m][1..] == [] && SentTokens([], count) == 0;
    assert SentTokens([m], count) == count([m][0].content) + SentTokens([m][1..], count);
  }

  lemma BareTokens(systemPrompt: string, userTurn: string, count: Counter)
    requires count("") == 0
    ensures SentTokens(BareMessages(systemPrompt, userTurn), count) == count(systemPrompt) + count(userTurn)
  {
    var head := if systemPrompt != "" then [Message(System, systemPrompt)] else [];
    SentOne(Message(System, systemPrompt), count);
    SumBySnoc(head, Message(User, userTurn), (m: Message) => count(m.content));
  }

  /** The messages count what is accounted, except that the context message counts in place of its
      blocks. */
  lemma SentIsAccounted(src: Sources, placed: seq<Scored>, count: Counter)
    requires count("") == 0
    ensures SentTokens(RenderMessages(src, placed), count) == UsedTokens(src, placed, count) - Tokens(placed, count)
      + if placed == [] then 0 else count(ContextText(placed))
  {
    var f := (m: Message) => count(m.content);
    var head := if src.systemPrompt != "" then [Message(System, src.systemPrompt)] else [];
    var context := if placed != [] then [Message(System, ContextText(placed))] else [];
    SentOne(Message(System, src.systemPrompt), count);
    SentOne(Message(System, ContextText(placed)), count);
    SumByConcat(head, context, f);
    SumByConcat(head + context, src.history, f);
    SumBySnoc(head + context + src.history, Message(User, src.userTurn), f);
  }

  /** The messages sent count at most the rendering overhead more than was accounted, and without any
      block exactly what was accounted. */
  lemma SentBound(e: Embedder, b: Budget, src: Sources, w: Weights, lam: real)
    requires Assemble(e, b, src, w, HeuristicCount, lam).Ok?
    ensures var (a, n) := (Assemble(e, b, src, w, HeuristicCount, lam).value,
                           |PlacedOf(e, b, src, w, HeuristicCount, lam)|);
      && SentTokens(a.messages, HeuristicCount) <= a.usedTokens + Overhead(n)
      && (n == 0 ==> SentTokens(a.messages, HeuristicCount) == a.usedTokens)
      && n <= |src.candidates|
  {
    var placed := PlacedOf(e, b, src, w, HeuristicCount, lam);
    SentIsAccounted(src, placed, HeuristicCount);
    PlacedCount(e, b, src, w, HeuristicCount, lam);
    if placed != [] {
      RenderingOverhead(placed);
    } else {
      assert Tokens(placed, HeuristicCount) == 0;
    }
  }

  lemma {:induction false} PackKeepsFewer(selected: seq<Scored>, count: Counter, room: int)
    ensures |Pack(selected, count, room).0| <= |selected|
  {
    if selected != [] {
      var t := count(selected[0].c.content);
      PackKeepsFewer(selected[1..], count, if t <= room then room - t else room);
    }
  }

  lemma PlacedCount(e: Embedder, b: Budget, src: Sources, w: Weights, count: Counter, lam: real)
    ensures |PlacedOf(e, b, src, w, count, lam)| <= |src.candidates|
  {
    var scored := Blend(src.candidates, w);
    var _ := TopIsTop(scored);
    RerankingPermutesTop(e, scored, lam);
    PackKeepsFewer(Reranked(e, scored, lam), count, b.Soft());
    EdgeLoadPermutes(SurvivorsOf(e, b, src, w, count, lam));
  }

  /** Assembly succeeds and what it sends, with the output reserve, stays within the limit. */
  ghost predicate SentFits(e: Embedder, b: Budget, src: Sources, w: Weights, lam: real, limit: int) {
    var r := Assemble(e, b, src, w, HeuristicCount, lam);
    r.Ok? && SentTokens(r.value.messages, HeuristicCount) + b.outputReserve <= limit
  }

  /** A list that retrieval could return: at most n candidates of the scope, no two with one id. */
  ghost predicate Retrievable(ctx: Ctx, cands: seq<Candidate>, n: nat) {
    && |cands| <= n && Distinct(Map(cands, (c: Candidate) => c.id))
    && forall c :: c in cands ==> c.tenant == ctx.tenant && c.namespace == ctx.namespace
  }

  /** One candidate that fills the budget, and n - 1 that count nothing. */
  function Fillers(ctx: Ctx, tokens: nat, n: nat): (cands: seq<Candidate>)
    ensures |cands| == n
  {
    seq(n, i requires 0 <= i < n => Filler(ctx, FillerText(i), if i == 0 then FillerText(tokens) else ""))
  }

  lemma FillersAreRetrievable(ctx: Ctx, tokens: nat, n: nat)
    ensures Retrievable(ctx, Fillers(ctx, tokens, n), n)
  {
    var ids := Map(Fillers(ctx, tokens, n), (c: Candidate) => c.id);
    forall i, j | 0 <= i < j < |ids| ensures ids[i] != ids[j] {
      assert |ids[i]| == 4 * i && |ids[j]| == 4 * j;
    }
  }

  lemma {:induction false} BlanksCountNothing(cands: seq<Candidate>)
    requires forall i :: 0 <= i < |cands| ==> cands[i].content == ""
    ensures CandidateTokens(cands, HeuristicCount) == 0
  {
    if cands != [] {
      BlanksCountNothing(cands[1..]);
      assert CandidateTokens(cands, HeuristicCount)
        == HeuristicCount(cands[0].content) + CandidateTokens(cands[1..], HeuristicCount);
    }
  }

  lemma {:induction false} LengthsOfFillers(s: seq<Scored>)
    requires forall i :: 0 <= i < |s| ==> |s[i].c.content| == 4 * HeuristicCount(s[i].c.content)
    ensures SumBy(s, (x: Scored) => |x.c.content|) == 4 * Tokens(s, HeuristicCount)
  {
    if s != [] {
      LengthsOfFillers(s[1..]);
      assert Tokens(s, HeuristicCount) == HeuristicCount(s[0].c.content) + Tokens(s[1..], HeuristicCount);
    }
  }

  lemma FillersFit(ctx: Ctx, tokens: nat, n: nat)
    requires n >= 1
    ensures CandidateTokens(Fillers(ctx, tokens, n), HeuristicCount) == tokens
    ensures forall k :: 0 <= k < n ==>
      |Fillers(ctx, tokens, n)[k].content| == 4 * HeuristicCount(Fillers(ctx, tokens, n)[k].content)
  {
    var cands := Fillers(ctx, tokens, n);
    BlanksCountNothing(cands[1..]);
    assert CandidateTokens(cands, HeuristicCount)
      == HeuristicCount(cands[0].content) + CandidateTokens(cands[1..], HeuristicCount);
  }

  lemma FromCandidates(placed: seq<Scored>, cands: seq<Candidate>, w: Weights, i: nat) returns (k: nat)
    requires multiset(placed) == multiset(Blend(cands, w)) && i < |placed|
    ensures k < |cands| && placed[i].c == cands[k]
  {
    assert placed[i] in multiset(Blend(cands, w));
    k :| 0 <= k < |cands| && Blend(cands, w)[k] == placed[i];
  }

  /** Filled to the brim, n blocks cost the whole overhead. */
  lemma FullRender(e: Embedder, b: Budget, src: Sources, w: Weights, lam: real, ctx: Ctx, n: nat)
    requires 1 <= n <= MMR_TOPK && src.candidates == Fillers(ctx, b.Soft(), n)
    ensures var placed := PlacedOf(e, b, src, w, HeuristicCount, lam);
      placed != [] && HeuristicCount(ContextText(placed)) == b.Soft() + Overhead(n)
        && Tokens(placed, HeuristicCount) == b.Soft()
  {
    var placed := PlacedOf(e, b, src, w, HeuristicCount, lam);
    FillersFit(ctx, b.Soft(), n);
    EveryCandidatePlaced(e, b, src, w, HeuristicCount, lam);
    forall i | 0 <= i < |placed| ensures |placed[i].c.content| == 4 * HeuristicCount(placed[i].c.content) {
      var k := FromCandidates(placed, src.candidates, w, i);
    }
    LengthsOfFillers(placed);
    ContextLength(placed);
  }

  lemma OneBlockPlaced(e: Embedder, b: Budget, src: Sources, w: Weights, lam: real, c: Candidate)
    requires src.candidates == [c] && HeuristicCount(c.content) <= b.Soft()
    ensures var placed := PlacedOf(e, b, src, w, HeuristicCount, lam);
      |placed| == 1 && placed[0].c == c && Tokens(placed, HeuristicCount) == HeuristicCount(c.content)
  {
    OneCandidate(c, HeuristicCount);
    EveryCandidatePlaced(e, b, src, w, HeuristicCount, lam);
    var k := FromCandidates(PlacedOf(e, b, src, w, HeuristicCount, lam), src.candidates, w, 0);
  }

  lemma OneBlockLength(placed: seq<Scored>)
    requires |placed| == 1
    ensures HeuristicCount(ContextText(placed)) == (|placed[0].c.content| + 23) / 4
  {
    assert placed[1..] == [] && SumBy(placed, (x: Scored) => |x.c.content|) == |placed[0].c.content|;
    ContextLength(placed);
  }

  /** A single block that fits is placed and rendered: what is accounted, and what is sent. */
  lemma OneBlock(e: Embedder, b: Budget, src: Sources, w: Weights, lam: real, c: Candidate)
    requires Assemble(e, b, src, w, HeuristicCount, lam).Ok? && src.candidates == [c] && src.history == []
    requires HeuristicCount(c.content) <= b.Soft()
    ensures var a := Assemble(e, b, src, w, HeuristicCount, lam).value;
      var fixed := HeuristicCount(src.systemPrompt) + HeuristicCount(src.userTurn);
      a.usedTokens == fixed + HeuristicCount(c.content)
        && SentTokens(a.messages, HeuristicCount) == fixed + (|c.content| + 23) / 4
  {
    var placed := PlacedOf(e, b, src, w, HeuristicCount, lam);
    OneBlockPlaced(e, b, src, w, lam, c);
    OneBlockLength(placed);
    SentIsAccounted(src, placed, HeuristicCount);
  }

  /** A full list overruns any limit that leaves less than the overhead of n blocks. */
  lemma FillersOverrun(e: Embedder, b: Budget, src: Sources, w: Weights, lam: real, ctx: Ctx, n: nat, limit: int)
    requires WeightsOk(w) && b.HardFloor() <= b.window && Measured(b, src, HeuristicCount)
    requires src.history == [] && 1 <= n <= MMR_TOPK && limit < b.window + Overhead(n)
    ensures !SentFits(e, b, src.(candidates := Fillers(ctx, b.Soft(), n)), w, lam, limit)
  {
    var full := src.(candidates := Fillers(ctx, b.Soft(), n));
    FullRender(e, b, full, w, lam, ctx, n);
    SentIsAccounted(full, PlacedOf(e, b, full, w, HeuristicCount, lam), HeuristicCount);
  }

  /** The exact allowance: without history, and whatever up to n candidates of the scope are given, the
      prompt that is sent stays within a limit if and only if the limit leaves the overhead of n blocks
      beyond the window. In particular no window holds for every retrieval. */
  lemma SentWithinIff(e: Embedder, b: Budget, src: Sources, w: Weights, lam: real, ctx: Ctx, n: nat, limit: int)
    requires WeightsOk(w) && b.HardFloor() <= b.window && Measured(b, src, HeuristicCount)
    requires src.history == [] && 1 <= n <= MMR_TOPK
    ensures (forall cands :: Retrievable(ctx, cands, n) ==> SentFits(e, b, src.(candidates := cands), w, lam, limit))
      <==> b.window + Overhead(n) <= limit
  {
    if b.window + Overhead(n) <= limit {
      forall cands | Retrievable(ctx, cands, n) ensures SentFits(e, b, src.(candidates := cands), w, lam, limit) {
        SentBound(e, b, src.(candidates := cands), w, lam);
        WindowHolds(e, b, src.(candidates := cands), w, HeuristicCount, lam);
      }
    } else {
      FillersAreRetrievable(ctx, b.Soft(), n);
      FillersOverrun(e, b, src, w, lam, ctx, n, limit);
    }
  }

  lemma {:induction false} JoinHolds(parts: seq<string>, sep: string, i: nat) returns (before: string, after: string)
    requires i < |parts|
    ensures Join(parts, sep) == before + parts[i] + after
    ensures i == 0 ==> before == ""
    ensures i > 0 ==> EndsWith(before, sep)
    ensures if i + 1 == |parts| then after == "" else sep <= after
  {
    if i == 0 {
      before, after := "", if |parts| == 1 then "" else sep + Join(parts[1..], sep);
      assert Join(parts, sep) == parts[0] + after;
    } else {
      before, after := JoinHolds(parts[1..], sep, i - 1);
      Prepended(parts[0] + sep, before, parts[i], after);
      EndsAfter(parts[0], before, sep);
      before := parts[0] + sep + before;
    }
  }

  ghost predicate EndsWith(s: string, t: string) { |s| >= |t| && s[|s| - |t|..] == t }

  lemma Prepended(head: string, a: string, b: string, c: string)
    ensures head + (a + b + c) == head + a + b + c
  {
  }

  lemma EndsAfter(head: string, before: string, sep: string)
    requires before == "" || EndsWith(before, sep)
    ensures EndsWith(head + sep + before, sep)
  {
    var s := head + sep + before;
    if before != "" {
      assert s[|s| - |sep|..] == before[|before| - |sep|..];
    }
  }

  /** Every placed block stands in the context message whole, as a bullet on a line of its own. */
  lemma BlockStandsInContext(placed: seq<Scored>, i: nat) returns (before: string, after: string)
    requires i < |placed|
    ensures ContextText(placed) == before + "- " + placed[i].c.content + after
    ensures before != "" && before[|before| - 1] == '\n' && (after == "" || after[0] == '\n')
  {
    var heading := "Relevant context:\n";
    var b, a := JoinHolds(Map(placed, (x: Scored) => Bullet(x)), "\n", i);
    before, after := heading + b, a;
    assert heading + (b + Bullet(placed[i]) + a) == before + "- " + placed[i].c.content + after;
    assert b == "" || b[|b| - 1] == b[|b| - 1..][0];
  }

  lemma {:induction false} TokensMonotone(s: seq<Scored>, small: Counter, large: Counter)
    requires forall t :: small(t) <= large(t)
    ensures Tokens(s, small) <= Tokens(s, large)
  {
    if s != [] {
      TokensMonotone(s[1..], small, large);
      assert Tokens(s, small) == small(s[0].c.content) + Tokens(s[1..], small);
      assert Tokens(s, large) == large(s[0].c.content) + Tokens(s[1..], large);
    }
  }

  /** Packing against the conservative count never overfills the budget by the plain heuristic. */
  lemma ConservativePackingFits(selected: seq<Scored>, room: nat)
    ensures Tokens(Pack(selected, (t: string) => CountWith(None, t), room).0, HeuristicCount) <= room
  {
    var count := (t: string) => CountWith(None, t);
    PackIsMaximal(selected, count, room);
    forall t ensures HeuristicCount(t) <= count(t) { ConservativeOvercounts(t); }
    TokensMonotone(Pack(selected, count, room).0, HeuristicCount, count);
  }
}
