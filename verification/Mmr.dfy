/** Candidates, their blended relevance and the diversity reranking of assembler/engine.py.
    The embedder and the cosine are function values: nothing here depends on what they compute. */
module Mmr {
  import opened Prelude
  import opened Tokenizer

  datatype Embedder = Embedder(embed: string -> Vec, cosine: (Vec, Vec) -> real)

  datatype MemoryTier = Working | ShortTerm | LongTerm | Episodic | Semantic

  datatype Candidate = Candidate(id: string, tenant: string, namespace: string, tier: MemoryTier, content: string,
                                 vectorScore: Option<real>, bm25Score: Option<real>, rrfScore: real,
                                 recency: real, importance: real,
                                 rankInDense: Option<nat>, rankInSparse: Option<nat>,
                                 ageSeconds: real, sourceRef: Option<string>)

  /** What candidates count in all. */
  function CandidateTokens(cands: seq<Candidate>, count: Counter): int {
    SumBy(cands, (c: Candidate) => count(c.content))
  }

  datatype Weights = Weights(vector: real, lexical: real, recency: real, importance: real, source: real)

  datatype Scored = Scored(c: Candidate, blend: real)

  const MMR_TOPK := 128

  function OrZero(x: Option<real>): real { if x.Some? then x.value else 0.0 }

  function SourcePrior(c: Candidate): real { if c.importance >= 1.0 then 1.0 else 0.5 }

  /** BM25 scaled by the best of the set; 0 when the set has no lexical signal. */
  function Lexical(maxBm: real, c: Candidate): real { if maxBm > 0.0 then OrZero(c.bm25Score) / maxBm else 0.0 }

  function BlendOne(w: Weights, maxBm: real, c: Candidate): Scored {
    Scored(c, w.vector * OrZero(c.vectorScore) + w.lexical * Lexical(maxBm, c) + w.recency * c.recency
              + w.importance * c.importance + w.source * SourcePrior(c))
  }

  function Blend(cands: seq<Candidate>, w: Weights): (r: seq<Scored>)
    ensures |r| == |cands| && forall i :: 0 <= i < |cands| ==> r[i].c == cands[i]
  {
    var maxBm := MaxBy(cands, (c: Candidate) => OrZero(c.bm25Score));
    Map(cands, (c: Candidate) => BlendOne(w, maxBm, c))
  }

  lemma Scaled(w: real, x: real)
    requires w >= 0.0 && 0.0 <= x <= 1.0
    ensures 0.0 <= w * x <= w
  {
    if w > 0.0 && x < 1.0 {
      assert w * (1.0 - x) >= 0.0;
    }
  }

  lemma LexicalBounds(maxBm: real, c: Candidate)
    requires 0.0 <= OrZero(c.bm25Score) <= maxBm
    ensures 0.0 <= Lexical(maxBm, c) <= 1.0
    ensures OrZero(c.bm25Score) == maxBm > 0.0 ==> Lexical(maxBm, c) == 1.0
  {
  }

  /** The sum of the five weights. */
  function TotalWeight(w: Weights): real { w.vector + w.lexical + w.recency + w.importance + w.source }

  ghost predicate Nonnegative(w: Weights) {
    w.vector >= 0.0 && w.lexical >= 0.0 && w.recency >= 0.0 && w.importance >= 0.0 && w.source >= 0.0
  }

  /** Signals where retrieval puts them. */
  ghost predicate InUnit(c: Candidate) {
    && 0.0 <= OrZero(c.vectorScore) <= 1.0 && OrZero(c.bm25Score) >= 0.0
    && 0.0 <= c.recency <= 1.0 && 0.0 <= c.importance <= 1.0
  }

  lemma BlendOneBounds(w: Weights, maxBm: real, c: Candidate)
    requires Nonnegative(w) && InUnit(c) && OrZero(c.bm25Score) <= maxBm
    ensures 0.0 <= BlendOne(w, maxBm, c).blend <= TotalWeight(w)
    ensures OrZero(c.bm25Score) == maxBm > 0.0 ==> BlendOne(w, maxBm, c).blend >= w.lexical
  {
    LexicalBounds(maxBm, c);
    WeightedSum(w, OrZero(c.vectorScore), Lexical(maxBm, c), c.recency, c.importance, SourcePrior(c));
  }

  lemma WeightedSum(w: Weights, v: real, l: real, r: real, i: real, s: real)
    requires Nonnegative(w) && 0.0 <= v <= 1.0 && 0.0 <= l <= 1.0 && 0.0 <= r <= 1.0 && 0.0 <= i <= 1.0
      && 0.0 <= s <= 1.0
    ensures 0.0 <= w.vector * v + w.lexical * l + w.recency * r + w.importance * i + w.source * s <= TotalWeight(w)
    ensures l == 1.0 ==> w.vector * v + w.lexical * l + w.recency * r + w.importance * i + w.source * s >= w.lexical
  {
    var a := Share(w.vector, v);
    var b := Share(w.lexical, l);
    var c := Share(w.recency, r);
    var d := Share(w.importance, i);
    var e := Share(w.source, s);
    var sum := a + b + c + d + e;
    assert 0.0 <= sum <= TotalWeight(w) && (l == 1.0 ==> sum >= w.lexical);
    assert sum == w.vector * v + w.lexical * l + w.recency * r + w.importance * i + w.source * s;
  }

  lemma Share(w: real, x: real) returns (p: real)
    requires w >= 0.0 && 0.0 <= x <= 1.0
    ensures p == w * x && 0.0 <= p <= w && (x == 1.0 ==> p == w)
  {
    p := w * x;
    Scaled(w, x);
  }

  /** With signals in range and no negative weight, a blended score lies between 0 and the total
      weight, and the best lexical match of a set with any lexical signal gets that weight in full. */
  lemma BlendIsBounded(cands: seq<Candidate>, w: Weights, i: nat)
    requires Nonnegative(w) && i < |cands| && forall c :: c in cands ==> InUnit(c)
    ensures 0.0 <= Blend(cands, w)[i].blend <= TotalWeight(w)
    ensures var best := OrZero(cands[i].bm25Score);
      best > 0.0 && (forall c :: c in cands ==> OrZero(c.bm25Score) <= best) ==> Blend(cands, w)[i].blend >= w.lexical
  {
    var f := (c: Candidate) => OrZero(c.bm25Score);
    MaxByIsMax(cands, f);
    var best :| best in cands && f(best) == MaxBy(cands, f);
    assert cands[i] in cands && f(cands[i]) <= f(best);
    BlendOneBounds(w, MaxBy(cands, f), cands[i]);
  }

  function ByBlendDesc(): (Scored, Scored) -> bool { (x: Scored, y: Scored) => x.blend >= y.blend }

  /** The candidates the reranking sees: the best 128 by blended score. */
  function Top(scored: seq<Scored>): seq<Scored> { PyTake(Sort(scored, ByBlendDesc()), MMR_TOPK) }

  /** `{id: vec}` over the ranked list; a repeated id keeps its last vector. */
  function VecById(e: Embedder, ranked: seq<Scored>): (m: map<string, Vec>)
    ensures Known(m, ranked)
  {
    if ranked == [] then map[]
    else
      var last := ranked[|ranked| - 1].c;
      VecById(e, ranked[..|ranked| - 1])[last.id := e.embed(last.content)]
  }

  ghost predicate Known(vecs: map<string, Vec>, s: seq<Scored>) {
    forall i :: 0 <= i < |s| ==> s[i].c.id in vecs
  }

  lemma KnownStep(vecs: map<string, Vec>, pool: seq<Scored>, selected: seq<Scored>, k: int)
    requires Known(vecs, pool) && Known(vecs, selected) && 0 <= k < |pool|
    ensures Known(vecs, Without(pool, k)) && Known(vecs, selected + [pool[k]])
  {
  }

  // ---------------------------------------------------------------- the naive definition

  /** max(0, largest cosine of `v` to anything selected), recomputed from scratch. */
  function MaxSim(e: Embedder, vecs: map<string, Vec>, id: string, selected: seq<Scored>): real
    requires id in vecs && Known(vecs, selected)
  {
    if selected == [] then 0.0
    else
      var n := |selected| - 1;
      var m := MaxSim(e, vecs, id, selected[..n]);
      var sim := e.cosine(vecs[id], vecs[selected[n].c.id]);
      if sim > m then sim else m
  }

  /** What MaxSim means, without its recursion. */
  lemma {:induction false} MaxSimIsLargest(e: Embedder, vecs: map<string, Vec>, id: string, selected: seq<Scored>)
    requires id in vecs && Known(vecs, selected)
    ensures var m := MaxSim(e, vecs, id, selected);
      && m >= 0.0
      && (forall i :: 0 <= i < |selected| ==> e.cosine(vecs[id], vecs[selected[i].c.id]) <= m)
      && (m == 0.0 || exists i :: 0 <= i < |selected| && e.cosine(vecs[id], vecs[selected[i].c.id]) == m)
  {
    if selected != [] {
      var n := |selected| - 1;
      MaxSimIsLargest(e, vecs, id, selected[..n]);
      assert forall i :: 0 <= i < n ==> selected[..n][i] == selected[i];
    }
  }

  function Gain(lam: real, blend: real, sim: real): real { lam * blend - (1.0 - lam) * sim }

  function NaiveGain(e: Embedder, vecs: map<string, Vec>, lam: real, selected: seq<Scored>, x: Scored): real
    requires x.c.id in vecs && Known(vecs, selected)
  {
    Gain(lam, x.blend, MaxSim(e, vecs, x.c.id, selected))
  }

  ghost predicate FirstMaximiser(vals: seq<real>, k: int) {
    && 0 <= k < |vals|
    && (forall j :: 0 <= j < |vals| ==> vals[j] <= vals[k])
    && (forall j :: 0 <= j < k ==> vals[j] < vals[k])
  }

  /** Python's `max(range(n), key=...)`: the first index that attains the maximum. */
  function FirstMax(vals: seq<real>): (k: nat)
    requires vals != []
    ensures FirstMaximiser(vals, k)
  {
    if |vals| == 1 then 0
    else
      var n := |vals| - 1;
      var k := FirstMax(vals[..n]);
      assert forall j :: 0 <= j < n ==> vals[..n][j] == vals[j];
      if vals[n] > vals[k] then n else k
  }

  function NaiveGains(e: Embedder, vecs: map<string, Vec>, lam: real, pool: seq<Scored>,
                      selected: seq<Scored>): (r: seq<real>)
    requires Known(vecs, pool) && Known(vecs, selected)
    ensures |r| == |pool| && forall i :: 0 <= i < |pool| ==> r[i] == NaiveGain(e, vecs, lam, selected, pool[i])
  {
    seq(|pool|, i requires 0 <= i < |pool| => NaiveGain(e, vecs, lam, selected, pool[i]))
  }

  /** Maximal marginal relevance by definition: move the first best candidate over, repeat. */
  function NaiveMmr(e: Embedder, vecs: map<string, Vec>, lam: real, pool: seq<Scored>,
                    selected: seq<Scored>): seq<Scored>
    requires Known(vecs, pool) && Known(vecs, selected)
    decreases |pool|
  {
    if pool == [] then selected
    else
      var k := FirstMax(NaiveGains(e, vecs, lam, pool, selected));
      KnownStep(vecs, pool, selected, k);
      NaiveMmr(e, vecs, lam, Without(pool, k), selected + [pool[k]])
  }

  // ---------------------------------------------------------------- the code

  function Gains(lam: real, pool: seq<Scored>, maxSim: map<string, real>): (r: seq<real>)
    requires forall i :: 0 <= i < |pool| ==> pool[i].c.id in maxSim
    ensures |r| == |pool| && forall i :: 0 <= i < |pool| ==> r[i] == Gain(lam, pool[i].blend, maxSim[pool[i].c.id])
  {
    seq(|pool|, i requires 0 <= i < |pool| => Gain(lam, pool[i].blend, maxSim[pool[i].c.id]))
  }

  /** `maxSim` holds, for everything still in the pool, what the naive form would recompute. */
  ghost predicate UpToDate(e: Embedder, vecs: map<string, Vec>, pool: seq<Scored>, selected: seq<Scored>,
                           maxSim: map<string, real>)
    requires Known(vecs, pool) && Known(vecs, selected)
  {
    maxSim.Keys == vecs.Keys && forall i :: 0 <= i < |pool| ==>
      maxSim[pool[i].c.id] == MaxSim(e, vecs, pool[i].c.id, selected)
  }

  lemma GainsAgree(e: Embedder, vecs: map<string, Vec>, lam: real, pool: seq<Scored>, selected: seq<Scored>,
                   maxSim: map<string, real>)
    requires Known(vecs, pool) && Known(vecs, selected) && UpToDate(e, vecs, pool, selected, maxSim)
    ensures Gains(lam, pool, maxSim) == NaiveGains(e, vecs, lam, pool, selected)
  {
  }

  lemma StaysUpToDate(e: Embedder, vecs: map<string, Vec>, pool: seq<Scored>, k: int, selected: seq<Scored>,
                      maxSim: map<string, real>, raised: map<string, real>)
    requires Known(vecs, pool) && Known(vecs, selected) && 0 <= k < |pool|
    requires UpToDate(e, vecs, pool, selected, maxSim) && raised.Keys == maxSim.Keys
    requires Known(vecs, Without(pool, k))
    requires forall i :: 0 <= i < |pool| - 1 ==>
      raised[Without(pool, k)[i].c.id] == Raised(e, vecs, pool[k], maxSim, Without(pool, k)[i].c.id)
    ensures Known(vecs, selected + [pool[k]]) && Known(vecs, Without(pool, k))
    ensures UpToDate(e, vecs, Without(pool, k), selected + [pool[k]], raised)
  {
    assert (selected + [pool[k]])[..|selected|] == selected;
    var rest := Without(pool, k);
    forall i | 0 <= i < |rest|
      ensures raised[rest[i].c.id] == MaxSim(e, vecs, rest[i].c.id, selected + [pool[k]])
    {
      var j := if i < k then i else i + 1;
      assert rest[i] == pool[j];
    }
  }

  /** The incremental form: one running maximum per id, updated after each pick. It needs no
      assumption on the ids. */
  method IncrementalMmr(e: Embedder, vecs: map<string, Vec>, lam: real, ranked: seq<Scored>)
    returns (selected: seq<Scored>)
    requires Known(vecs, ranked)
    ensures selected == NaiveMmr(e, vecs, lam, ranked, [])
  {
    var pool := ranked;
    selected := [];
    var maxSim: map<string, real> := map id | id in vecs :: 0.0;
    while pool != []
      invariant Known(vecs, pool) && Known(vecs, selected)
      invariant UpToDate(e, vecs, pool, selected, maxSim)
      invariant NaiveMmr(e, vecs, lam, pool, selected) == NaiveMmr(e, vecs, lam, ranked, [])
      decreases |pool|
    {
      GainsAgree(e, vecs, lam, pool, selected, maxSim);
      var best := FirstMax(Gains(lam, pool, maxSim));
      KnownStep(vecs, pool, selected, best);
      var raised := UpdateSims(e, vecs, Without(pool, best), pool[best], maxSim);
      StaysUpToDate(e, vecs, pool, best, selected, maxSim, raised);
      pool, selected, maxSim := Without(pool, best), selected + [pool[best]], raised;
    }
  }

  method UpdateSims(e: Embedder, vecs: map<string, Vec>, pool: seq<Scored>, chosen: Scored, maxSim: map<string, real>)
    returns (r: map<string, real>)
    requires Known(vecs, pool) && chosen.c.id in vecs && maxSim.Keys == vecs.Keys
    ensures r.Keys == maxSim.Keys
    ensures forall j :: 0 <= j < |pool| ==> r[pool[j].c.id] == Raised(e, vecs, chosen, maxSim, pool[j].c.id)
  {
    r := maxSim;
    for i := 0 to |pool|
      invariant r.Keys == maxSim.Keys
      invariant forall id :: id in r ==> r[id] == maxSim[id] || r[id] == Raised(e, vecs, chosen, maxSim, id)
      invariant forall j :: 0 <= j < i ==> r[pool[j].c.id] == Raised(e, vecs, chosen, maxSim, pool[j].c.id)
    {
      var id := pool[i].c.id;
      var sim := e.cosine(vecs[id], vecs[chosen.c.id]);
      if sim > r[id] {
        r := r[id := sim];
      }
    }
  }

  function Raised(e: Embedder, vecs: map<string, Vec>, chosen: Scored, maxSim: map<string, real>, id: string): real
    requires id in vecs && chosen.c.id in vecs && id in maxSim
  {
    var sim := e.cosine(vecs[id], vecs[chosen.c.id]);
    if sim > maxSim[id] then sim else maxSim[id]
  }

  /** What `_mmr` returns. */
  function Reranked(e: Embedder, scored: seq<Scored>, lam: real): seq<Scored> {
    var ranked := Top(scored);
    NaiveMmr(e, VecById(e, ranked), lam, ranked, [])
  }

  method Rerank(e: Embedder, scored: seq<Scored>, lam: real) returns (selected: seq<Scored>)
    ensures selected == Reranked(e, scored, lam)
  {
    var ranked := Top(scored);
    if ranked == [] {
      return [];
    }
    selected := IncrementalMmr(e, VecById(e, ranked), lam, ranked);
  }

  // ---------------------------------------------------------------- what the naive form gives

  lemma {:induction false} NaivePermutes(e: Embedder, vecs: map<string, Vec>, lam: real, pool: seq<Scored>,
                                         selected: seq<Scored>)
    requires Known(vecs, pool) && Known(vecs, selected)
    ensures var r := NaiveMmr(e, vecs, lam, pool, selected);
      selected <= r && multiset(r[|selected|..]) == multiset(pool)
    decreases |pool|
  {
    if pool == [] {
      assert selected[|selected|..] == [];
    } else {
      var k := FirstMax(NaiveGains(e, vecs, lam, pool, selected));
      KnownStep(vecs, pool, selected, k);
      NaivePermutes(e, vecs, lam, Without(pool, k), selected + [pool[k]]);
      WithoutMultiset(pool, k);
      PickedFirst(NaiveMmr(e, vecs, lam, pool, selected), selected, pool[k], multiset(Without(pool, k)));
    }
  }

  /** A list that goes on from `selected + [x]` goes on from `selected` with x first. */
  lemma PickedFirst(r: seq<Scored>, selected: seq<Scored>, x: Scored, rest: multiset<Scored>)
    requires selected + [x] <= r && multiset(r[|selected| + 1..]) == rest
    ensures selected <= r && r[|selected|] == x && multiset(r[|selected|..]) == multiset{x} + rest
  {
    assert r[|selected|] == (selected + [x])[|selected|];
    assert r[|selected|..] == [x] + r[|selected| + 1..];
    assert selected == (selected + [x])[..|selected|] == r[..|selected|];
  }

  lemma NaiveKnown(e: Embedder, vecs: map<string, Vec>, lam: real, pool: seq<Scored>, selected: seq<Scored>)
    requires Known(vecs, pool) && Known(vecs, selected)
    ensures Known(vecs, NaiveMmr(e, vecs, lam, pool, selected))
  {
    var r := NaiveMmr(e, vecs, lam, pool, selected);
    NaivePermutes(e, vecs, lam, pool, selected);
    forall i | 0 <= i < |r| ensures r[i].c.id in vecs {
      if i < |selected| {
        assert r[i] == selected[i];
      } else {
        assert r[i] == r[|selected|..][i - |selected|] && r[i] in multiset(pool);
        var l :| 0 <= l < |pool| && pool[l] == r[i];
      }
    }
  }

  /** Every pick beats everything picked after it, by gains recomputed from scratch. */
  lemma {:induction false} EachPickIsBest(e: Embedder, vecs: map<string, Vec>, lam: real, pool: seq<Scored>,
                                          selected: seq<Scored>, i: nat, j: nat)
    requires Known(vecs, pool) && Known(vecs, selected)
    requires |selected| <= i < j < |NaiveMmr(e, vecs, lam, pool, selected)|
    ensures var r := NaiveMmr(e, vecs, lam, pool, selected);
      && Known(vecs, r)
      && NaiveGain(e, vecs, lam, r[..i], r[i]) >= NaiveGain(e, vecs, lam, r[..i], r[j])
    decreases |pool|
  {
    NaiveKnown(e, vecs, lam, pool, selected);
    if i == |selected| {
      FirstPickIsBest(e, vecs, lam, pool, selected, j);
    } else {
      var k := FirstMax(NaiveGains(e, vecs, lam, pool, selected));
      KnownStep(vecs, pool, selected, k);
      EachPickIsBest(e, vecs, lam, Without(pool, k), selected + [pool[k]], i, j);
    }
  }

  lemma FirstPick(e: Embedder, vecs: map<string, Vec>, lam: real, pool: seq<Scored>, selected: seq<Scored>)
    requires Known(vecs, pool) && Known(vecs, selected) && pool != []
    ensures var (r, n) := (NaiveMmr(e, vecs, lam, pool, selected), |selected|);
      && |r| > n && r[..n] == selected
      && r[n] == pool[FirstMax(NaiveGains(e, vecs, lam, pool, selected))]
  {
    var (r, n) := (NaiveMmr(e, vecs, lam, pool, selected), |selected|);
    var k := FirstMax(NaiveGains(e, vecs, lam, pool, selected));
    KnownStep(vecs, pool, selected, k);
    NaivePermutes(e, vecs, lam, Without(pool, k), selected + [pool[k]]);
    PickedFirst(r, selected, pool[k], multiset(Without(pool, k)));
  }

  lemma PickedFromPool(e: Embedder, vecs: map<string, Vec>, lam: real, pool: seq<Scored>, selected: seq<Scored>, j: nat)
    returns (l: nat)
    requires Known(vecs, pool) && Known(vecs, selected)
    requires |selected| <= j < |NaiveMmr(e, vecs, lam, pool, selected)|
    ensures l < |pool| && NaiveMmr(e, vecs, lam, pool, selected)[j] == pool[l]
  {
    var (r, n) := (NaiveMmr(e, vecs, lam, pool, selected), |selected|);
    NaivePermutes(e, vecs, lam, pool, selected);
    assert r[j] == r[n..][j - n] && r[j] in multiset(pool);
    l :| 0 <= l < |pool| && pool[l] == r[j];
  }

  lemma FirstPickIsBest(e: Embedder, vecs: map<string, Vec>, lam: real, pool: seq<Scored>, selected: seq<Scored>,
                        j: nat)
    requires Known(vecs, pool) && Known(vecs, selected)
    requires |selected| < j < |NaiveMmr(e, vecs, lam, pool, selected)|
    ensures var (r, n) := (NaiveMmr(e, vecs, lam, pool, selected), |selected|);
      && r[..n] == selected && r[n].c.id in vecs && r[j].c.id in vecs
      && NaiveGain(e, vecs, lam, selected, r[n]) >= NaiveGain(e, vecs, lam, selected, r[j])
  {
    var l := PickedFromPool(e, vecs, lam, pool, selected, j);
    FirstPick(e, vecs, lam, pool, selected);
    var gains := NaiveGains(e, vecs, lam, pool, selected);
    assert gains[l] <= gains[FirstMax(gains)];
  }

  lemma ByBlendIsTotal()
    ensures TotalPreorder(ByBlendDesc())
  {
  }

  lemma SortedCut(s: seq<Scored>, n: nat)
    requires SortedBy(s, ByBlendDesc()) && n <= |s|
    ensures forall x, y :: x in s[..n] && y in s[n..] ==> x.blend >= y.blend
  {
    forall x, y | x in s[..n] && y in s[n..] ensures x.blend >= y.blend {
      var i :| 0 <= i < n && s[..n][i] == x;
      var j :| 0 <= j < |s| - n && s[n..][j] == y;
      assert ByBlendDesc()(s[i], s[n + j]);
    }
  }

  /** What the cut at 128 leaves out scores no higher than anything it keeps. */
  lemma TopIsTop(scored: seq<Scored>) returns (dropped: seq<Scored>)
    ensures multiset(Top(scored)) + multiset(dropped) == multiset(scored)
    ensures |Top(scored)| == if |scored| <= 128 then |scored| else 128
    ensures forall x, y :: x in Top(scored) && y in dropped ==> x.blend >= y.blend
  {
    var sorted := Sort(scored, ByBlendDesc());
    var n := |Top(scored)|;
    SortPermutes(scored, ByBlendDesc());
    ByBlendIsTotal();
    SortSorts(scored, ByBlendDesc());
    SortedCut(sorted, n);
    dropped := sorted[n..];
    assert Top(scored) == sorted[..n] && sorted == sorted[..n] + dropped;
  }

  /** The reranking is a permutation of the 128 best by blended score. */
  lemma RerankingPermutesTop(e: Embedder, scored: seq<Scored>, lam: real)
    ensures multiset(Reranked(e, scored, lam)) == multiset(Top(scored))
    ensures |Reranked(e, scored, lam)| == |Top(scored)|
  {
    var (ranked, r) := (Top(scored), Reranked(e, scored, lam));
    NaivePermutes(e, VecById(e, ranked), lam, ranked, []);
    assert r[0..] == r;
    assert |r| == |multiset(r)| == |multiset(ranked)| == |ranked|;
  }

  // ---------------------------------------------------------------- pure policies

  datatype Signal = Dense | Bm25 | Recency | Importance | Source

  /** The policy that puts its whole weight on one signal. */
  function Pure(g: Signal): Weights {
    Weights(if g.Dense? then 1.0 else 0.0, if g.Bm25? then 1.0 else 0.0, if g.Recency? then 1.0 else 0.0,
            if g.Importance? then 1.0 else 0.0, if g.Source? then 1.0 else 0.0)
  }

  function SignalOf(g: Signal, c: Candidate): real {
    match g
    case Dense => OrZero(c.vectorScore)
    case Bm25 => OrZero(c.bm25Score)
    case Recency => c.recency
    case Importance => c.importance
    case Source => SourcePrior(c)
  }

  /** x comes no later than y: the stronger signal first. */
  ghost predicate NoWeaker(g: Signal, x: Scored, y: Scored) { SignalOf(g, x.c) >= SignalOf(g, y.c) }

  lemma PureBlend(g: Signal, maxBm: real, c: Candidate)
    ensures BlendOne(Pure(g), maxBm, c).blend == if g.Bm25? then Lexical(maxBm, c) else SignalOf(g, c)
  {
    match g {
      case Dense =>
      case Bm25 =>
      case Recency =>
      case Importance =>
      case Source =>
    }
  }

  lemma ShareOrder(a: real, b: real, m: real)
    requires m > 0.0
    ensures a / m >= b / m <==> a >= b
  {
    var (p, q) := (a / m, b / m);
    assert p * m == a && q * m == b;
    assert (p - q) * m == a - b;
  }

  lemma PureBlendOrder(g: Signal, maxBm: real, x: Candidate, y: Candidate)
    requires g.Bm25? ==> maxBm > 0.0
    ensures BlendOne(Pure(g), maxBm, x).blend >= BlendOne(Pure(g), maxBm, y).blend <==> SignalOf(g, x) >= SignalOf(g, y)
  {
    PureBlend(g, maxBm, x);
    PureBlend(g, maxBm, y);
    if g.Bm25? {
      ShareOrder(OrZero(x.bm25Score), OrZero(y.bm25Score), maxBm);
    }
  }

  /** A policy that puts its whole weight on one signal ranks by that signal, and with diversity
      switched off (lambda 1) that ranking is the selection: strongest first, and nothing that the cut
      at 128 dropped is stronger than anything selected. */
  lemma PureWeightsRankBySignal(e: Embedder, cands: seq<Candidate>, g: Signal) returns (dropped: seq<Scored>)
    requires g.Bm25? ==> exists c :: c in cands && OrZero(c.bm25Score) > 0.0
    ensures var r := Reranked(e, Blend(cands, Pure(g)), 1.0);
      && multiset(r) + multiset(dropped) == multiset(Blend(cands, Pure(g)))
      && (forall i, j :: 0 <= i < j < |r| ==> NoWeaker(g, r[i], r[j]))
      && (forall x, y :: x in r && y in dropped ==> NoWeaker(g, x, y))
  {
    var scored := Blend(cands, Pure(g));
    dropped := TopIsTop(scored);
    RelevanceAlone(e, scored);
    PureBlendsCompare(cands, g);
    var r := Reranked(e, scored, 1.0);
    forall x | x in r || x in dropped ensures x in scored { assert x in multiset(r) + multiset(dropped); }
  }

  lemma PureBlendsCompare(cands: seq<Candidate>, g: Signal)
    requires g.Bm25? ==> exists c :: c in cands && OrZero(c.bm25Score) > 0.0
    ensures forall x, y :: x in Blend(cands, Pure(g)) && y in Blend(cands, Pure(g)) && x.blend >= y.blend ==>
      NoWeaker(g, x, y)
  {
    var f := (c: Candidate) => OrZero(c.bm25Score);
    var (scored, maxBm) := (Blend(cands, Pure(g)), MaxBy(cands, f));
    if g.Bm25? {
      var c :| c in cands && OrZero(c.bm25Score) > 0.0;
      MaxByIsMax(cands, f);
      assert f(c) <= maxBm;
    }
    forall x, y | x in scored && y in scored && x.blend >= y.blend ensures NoWeaker(g, x, y) {
      PureBlendOrder(g, maxBm, x.c, y.c);
    }
  }

  /** With lambda 1 the reranking is the ranking: the diversity penalty vanishes. */
  lemma RelevanceAlone(e: Embedder, scored: seq<Scored>)
    ensures Reranked(e, scored, 1.0) == Top(scored)
    ensures SortedBy(Top(scored), ByBlendDesc())
  {
    ByBlendIsTotal();
    SortSorts(scored, ByBlendDesc());
    NaiveKeepsOrder(e, VecById(e, Top(scored)), Top(scored), []);
    assert [] + Top(scored) == Top(scored);
  }

  lemma SortedPicksHead(e: Embedder, vecs: map<string, Vec>, pool: seq<Scored>, selected: seq<Scored>)
    requires Known(vecs, pool) && Known(vecs, selected) && SortedBy(pool, ByBlendDesc()) && pool != []
    ensures FirstMax(NaiveGains(e, vecs, 1.0, pool, selected)) == 0
  {
    forall i | 0 < i < |pool| ensures pool[0].blend >= pool[i].blend {
      assert ByBlendDesc()(pool[0], pool[i]);
    }
    var gains := NaiveGains(e, vecs, 1.0, pool, selected);
    assert forall i :: 0 <= i < |pool| ==> gains[i] == pool[i].blend;
  }

  lemma ConsRegroup(selected: seq<Scored>, pool: seq<Scored>)
    requires pool != []
    ensures selected + [pool[0]] + pool[1..] == selected + pool
  {
  }

  lemma {:induction false} NaiveKeepsOrder(e: Embedder, vecs: map<string, Vec>, pool: seq<Scored>,
                                           selected: seq<Scored>)
    requires Known(vecs, pool) && Known(vecs, selected) && SortedBy(pool, ByBlendDesc())
    ensures NaiveMmr(e, vecs, 1.0, pool, selected) == selected + pool
    decreases |pool|
  {
    if pool == [] {
      assert selected + pool == selected;
    } else {
      SortedPicksHead(e, vecs, pool, selected);
      KnownStep(vecs, pool, selected, 0);
      assert Without(pool, 0) == pool[1..];
      NaiveKeepsOrder(e, vecs, pool[1..], selected + [pool[0]]);
      ConsRegroup(selected, pool);
    }
  }

  // ---------------------------------------------------------------- relevance against redundancy

  /** The vector under an id is the embedding of the last candidate with it: of the only one, when ids are
      distinct. */
  lemma {:induction false} VecByIdIsLast(e: Embedder, ranked: seq<Scored>, k: nat)
    requires k < |ranked| && forall l :: k < l < |ranked| ==> ranked[l].c.id != ranked[k].c.id
    ensures VecById(e, ranked)[ranked[k].c.id] == e.embed(ranked[k].c.content)
    decreases |ranked|
  {
    var n := |ranked| - 1;
    if k < n {
      assert forall l :: k < l < n ==> ranked[..n][l].c.id != ranked[..n][k].c.id;
      VecByIdIsLast(e, ranked[..n], k);
    }
  }

  ghost predicate IdsDistinct(s: seq<Scored>) { forall i, j :: 0 <= i < j < |s| ==> s[i].c.id != s[j].c.id }

  /** How alike two blocks are. */
  function Alike(e: Embedder, x: Scored, y: Scored): real { e.cosine(e.embed(x.c.content), e.embed(y.c.content)) }

  /** m is the largest likeness of x to any of these, or 0 when none is above 0. */
  ghost predicate Redundancy(e: Embedder, x: Scored, picked: seq<Scored>, m: real) {
    && m >= 0.0 && (forall y :: y in picked ==> Alike(e, x, y) <= m)
    && (m == 0.0 || exists y :: y in picked && Alike(e, x, y) == m)
  }

  lemma TopIsDistinct(scored: seq<Scored>)
    requires IdsDistinct(scored)
    ensures IdsDistinct(Top(scored))
  {
    var top := Top(scored);
    var dropped := TopIsTop(scored);
    assert multiset(top) <= multiset(top) + multiset(dropped);
    forall i, j | 0 <= i < j < |top| ensures top[i].c.id != top[j].c.id {
      TakenTwice(scored, top, (x: Scored) => x.c.id, i, j);
    }
  }

  lemma RankedVector(e: Embedder, ranked: seq<Scored>, x: Scored)
    requires IdsDistinct(ranked) && x in ranked
    ensures x.c.id in VecById(e, ranked) && VecById(e, ranked)[x.c.id] == e.embed(x.c.content)
  {
    var k :| 0 <= k < |ranked| && ranked[k] == x;
    VecByIdIsLast(e, ranked, k);
  }

  lemma RedundancyIsMaxSim(e: Embedder, ranked: seq<Scored>, x: Scored, picked: seq<Scored>, m: real)
    requires IdsDistinct(ranked) && x in ranked && (forall y :: y in picked ==> y in ranked)
    requires Redundancy(e, x, picked, m)
    ensures x.c.id in VecById(e, ranked) && Known(VecById(e, ranked), picked)
    ensures MaxSim(e, VecById(e, ranked), x.c.id, picked) == m
  {
    var vecs := VecById(e, ranked);
    RankedVector(e, ranked, x);
    forall i | 0 <= i < |picked|
      ensures picked[i].c.id in vecs && vecs[picked[i].c.id] == e.embed(picked[i].c.content)
    {
      RankedVector(e, ranked, picked[i]);
    }
    forall i | 0 <= i < |picked| ensures e.cosine(vecs[x.c.id], vecs[picked[i].c.id]) == Alike(e, x, picked[i]) {}
    MaxSimIsLargest(e, vecs, x.c.id, picked);
    var best := MaxSim(e, vecs, x.c.id, picked);
    if best != 0.0 {
      var i :| 0 <= i < |picked| && e.cosine(vecs[x.c.id], vecs[picked[i].c.id]) == best;
      assert Alike(e, x, picked[i]) == best && picked[i] in picked;
    }
    if m != 0.0 {
      var y :| y in picked && Alike(e, x, y) == m;
      var i :| 0 <= i < |picked| && picked[i] == y;
      assert e.cosine(vecs[x.c.id], vecs[picked[i].c.id]) == m;
    }
  }

  lemma LaterGainsLess(e: Embedder, scored: seq<Scored>, lam: real, i: nat, j: nat, m: real, n: real)
    requires IdsDistinct(scored) && i < j < |Reranked(e, scored, lam)|
    requires var r := Reranked(e, scored, lam); Redundancy(e, r[i], r[..i], m) && Redundancy(e, r[j], r[..i], n)
    ensures var r := Reranked(e, scored, lam); Gain(lam, r[i].blend, m) >= Gain(lam, r[j].blend, n)
  {
    var (ranked, r) := (Top(scored), Reranked(e, scored, lam));
    TopIsDistinct(scored);
    RerankingPermutesTop(e, scored, lam);
    forall x | x in r ensures x in ranked { assert x in multiset(r) && x in multiset(ranked); }
    assert forall y :: y in r[..i] ==> y in r;
    RedundancyIsMaxSim(e, ranked, r[i], r[..i], m);
    RedundancyIsMaxSim(e, ranked, r[j], r[..i], n);
    EachPickIsBest(e, VecById(e, ranked), lam, ranked, [], i, j);
  }

  /** The selection trades relevance against redundancy: beside what was picked before, no later pick has more of
      lambda times its relevance less (1 - lambda) times its redundancy. */
  lemma SelectionTradesOff(e: Embedder, scored: seq<Scored>, lam: real, i: nat, j: nat, m: real, n: real)
    requires IdsDistinct(scored) && i < j < |Reranked(e, scored, lam)|
    requires var r := Reranked(e, scored, lam); Redundancy(e, r[i], r[..i], m) && Redundancy(e, r[j], r[..i], n)
    ensures var r := Reranked(e, scored, lam);
      lam * r[i].blend - (1.0 - lam) * m >= lam * r[j].blend - (1.0 - lam) * n
  {
    LaterGainsLess(e, scored, lam, i, j, m, n);
  }

  /** So, for a lambda below 1, of two candidates that are equally relevant the one that is less like what was
      picked before is picked first. */
  lemma LessRedundantFirst(e: Embedder, scored: seq<Scored>, lam: real, i: nat, j: nat, m: real, n: real)
    requires IdsDistinct(scored) && lam < 1.0 && i < j < |Reranked(e, scored, lam)|
    requires var r := Reranked(e, scored, lam); Redundancy(e, r[i], r[..i], m) && Redundancy(e, r[j], r[..i], n)
    requires Reranked(e, scored, lam)[i].blend == Reranked(e, scored, lam)[j].blend
    ensures m <= n
  {
    SelectionTradesOff(e, scored, lam, i, j, m, n);
    if m > n {
      ShareOfLess(1.0 - lam, m, n);
    }
  }

  lemma ShareOfLess(k: real, m: real, n: real)
    requires k > 0.0 && m > n
    ensures k * m > k * n
  {
    assert k * (m - n) > 0.0;
  }

  // ---------------------------------------------------------------- what a blend is made of

  lemma SameSignals(w: Weights, maxBm: real, c: Candidate, c': Candidate)
    requires OrZero(c.vectorScore) == OrZero(c'.vectorScore) && OrZero(c.bm25Score) == OrZero(c'.bm25Score)
    requires c.recency == c'.recency && c.importance == c'.importance
    ensures BlendOne(w, maxBm, c).blend == BlendOne(w, maxBm, c').blend
  {
    assert Lexical(maxBm, c) == Lexical(maxBm, c') && SourcePrior(c) == SourcePrior(c');
  }

  ghost predicate Zeroed(x: Option<real>, y: Option<real>) { y == if x.None? then Some(0.0) else x }

  /** A signal that is missing counts as 0. */
  lemma MissingSignals(cands: seq<Candidate>, w: Weights, i: nat, c: Candidate)
    requires i < |cands| && Zeroed(cands[i].vectorScore, c.vectorScore) && Zeroed(cands[i].bm25Score, c.bm25Score)
    requires c.recency == cands[i].recency && c.importance == cands[i].importance
    ensures Blend(cands, w)[i].blend == Blend(cands[i := c], w)[i].blend
  {
    var f := (c: Candidate) => OrZero(c.bm25Score);
    SameMax(cands, cands[i := c], f);
    SameSignals(w, MaxBy(cands, f), cands[i], c);
  }

  lemma MaxNoMore(a: seq<Candidate>, b: seq<Candidate>, f: Candidate -> real)
    requires |a| == |b| > 0 && forall i :: 0 <= i < |a| ==> f(a[i]) == f(b[i])
    ensures MaxBy(a, f) <= MaxBy(b, f)
  {
    MaxByIsMax(a, f);
    MaxByIsMax(b, f);
    var x :| x in a && f(x) == MaxBy(a, f);
    var i :| 0 <= i < |a| && a[i] == x;
    assert b[i] in b;
  }

  lemma SameMax(a: seq<Candidate>, b: seq<Candidate>, f: Candidate -> real)
    requires |a| == |b| && forall i :: 0 <= i < |a| ==> f(a[i]) == f(b[i])
    ensures MaxBy(a, f) == MaxBy(b, f)
  {
    if a != [] {
      MaxNoMore(a, b, f);
      MaxNoMore(b, a, f);
    }
  }

  /** Pinned memories, of importance 1, carry full provenance trust and all others half of it. */
  lemma PinnedLead(cands: seq<Candidate>, w: Weights, i: nat, j: nat)
    requires i < |cands| && j < |cands| && cands[j].importance < 1.0 <= cands[i].importance
    requires cands[i].vectorScore == cands[j].vectorScore && cands[i].bm25Score == cands[j].bm25Score
    requires cands[i].recency == cands[j].recency
    ensures Blend(cands, w)[i].blend - Blend(cands, w)[j].blend
         == w.importance * (cands[i].importance - cands[j].importance) + w.source / 2.0
  {
  }
}
