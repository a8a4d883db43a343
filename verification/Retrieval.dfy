/** Hybrid retrieval with near-duplicate collapse (memory/engine.py). Rows come scope-filtered from
    the store, with their recency factor already computed. */
module Retrieval {
  import opened Prelude
  import opened Mmr
  import opened Scoring

  const N_DENSE := 200
  const N_SPARSE := 200
  const MAX_CANDIDATES := 512
  const RRF_K := 60
  const COS_DUP := 0.95
  const BOTTOM := -1000000000000000000.0

  datatype Row = Row(id: string, tenant: string, namespace: string, tier: MemoryTier, content: string, importance: real,
                     recency: real, ageSeconds: real, sourceId: Option<string>)

  // ---------------------------------------------------------------- near-duplicate collapse

  function Similarity(e: Embedder, c: Candidate, s: Candidate): real {
    e.cosine(e.embed(c.content), e.embed(s.content))
  }

  /** `max(..., default=0.0)` over what is selected. */
  function MaxCos(e: Embedder, c: Candidate, selected: seq<Candidate>): real {
    MaxBy(selected, (s: Candidate) => Similarity(e, c, s))
  }

  predicate IsDup(e: Embedder, c: Candidate, selected: seq<Candidate>) { MaxCos(e, c, selected) >= COS_DUP }

  function Val(e: Embedder, score: Candidate -> real, c: Candidate, selected: seq<Candidate>): real {
    0.70 * score(c) - (1.0 - 0.70) * MaxCos(e, c, selected)
  }

  /** A candidate is rejected as a duplicate exactly when it is close to something selected. */
  lemma DupMeansClose(e: Embedder, c: Candidate, selected: seq<Candidate>)
    ensures IsDup(e, c, selected) <==> exists s :: s in selected && Similarity(e, c, s) >= COS_DUP
  {
    if selected != [] {
      var f := (s: Candidate) => Similarity(e, c, s);
      MaxByIsMax(selected, f);
      var m :| m in selected && f(m) == MaxBy(selected, f);
      assert Similarity(e, c, m) == MaxCos(e, c, selected);
      assert forall s :: s in selected ==> f(s) == Similarity(e, c, s);
    }
  }

  /** Worth picking at all: no duplicate, and above the loop's starting value. */
  predicate Open(e: Embedder, score: Candidate -> real, c: Candidate, selected: seq<Candidate>) {
    !IsDup(e, c, selected) && Val(e, score, c, selected) > BOTTOM
  }

  /** c is not a better pick than the value v. */
  predicate NoBetter(e: Embedder, score: Candidate -> real, c: Candidate, selected: seq<Candidate>, v: real) {
    Open(e, score, c, selected) ==> Val(e, score, c, selected) <= v
  }

  method PickBest(e: Embedder, score: Candidate -> real, pool: seq<Candidate>, selected: seq<Candidate>)
    returns (best: Option<nat>)
    ensures best.None? <==> forall i :: 0 <= i < |pool| ==> !Open(e, score, pool[i], selected)
    ensures best.Some? ==>
      && best.value < |pool| && Open(e, score, pool[best.value], selected)
      && var v := Val(e, score, pool[best.value], selected);
         && (forall i :: 0 <= i < |pool| ==> NoBetter(e, score, pool[i], selected, v))
         && (forall i :: 0 <= i < best.value && Open(e, score, pool[i], selected) ==>
               Val(e, score, pool[i], selected) < v)
  {
    best := None;
    var bestVal := BOTTOM;
    for pos := 0 to |pool|
      invariant best.None? ==> bestVal == BOTTOM && forall i :: 0 <= i < pos ==> !Open(e, score, pool[i], selected)
      invariant best.Some? ==> best.value < pos && Open(e, score, pool[best.value], selected)
                               && bestVal == Val(e, score, pool[best.value], selected)
      invariant best.Some? ==> forall i :: 0 <= i < pos ==> NoBetter(e, score, pool[i], selected, bestVal)
      invariant best.Some? ==> forall i :: 0 <= i < best.value && Open(e, score, pool[i], selected) ==>
        Val(e, score, pool[i], selected) < bestVal
    {
      var c := pool[pos];
      if MaxCos(e, c, selected) < COS_DUP {
        var val := Val(e, score, c, selected);
        if val > bestVal {
          bestVal, best := val, Some(pos);
        }
      }
    }
  }

  ghost predicate NearDuplicateFree(e: Embedder, s: seq<Candidate>) {
    forall i, j :: 0 <= i < j < |s| ==> Similarity(e, s[j], s[i]) < COS_DUP
  }

  /** Each pick was best, given what had been picked before it, among everything picked or left later. */
  ghost predicate Greedy(e: Embedder, score: Candidate -> real, selected: seq<Candidate>, left: seq<Candidate>) {
    forall i, c :: 0 <= i < |selected| && c in selected[i + 1..] + left ==>
      NoBetter(e, score, c, selected[..i], Val(e, score, selected[i], selected[..i]))
  }

  lemma GreedyStep(e: Embedder, score: Candidate -> real, selected: seq<Candidate>, pool: seq<Candidate>, k: nat)
    requires Greedy(e, score, selected, pool) && k < |pool|
    requires forall i :: 0 <= i < |pool| ==> NoBetter(e, score, pool[i], selected, Val(e, score, pool[k], selected))
    ensures Greedy(e, score, selected + [pool[k]], Without(pool, k))
  {
    var next := selected + [pool[k]];
    WithoutMembers(pool, k);
    forall i, c | 0 <= i < |next| && c in next[i + 1..] + Without(pool, k)
      ensures NoBetter(e, score, c, next[..i], Val(e, score, next[i], next[..i]))
    {
      if i < |selected| {
        assert next[..i] == selected[..i] && next[i + 1..] == selected[i + 1..] + [pool[k]];
        assert c in selected[i + 1..] + pool;
      } else {
        assert next[..i] == selected && next[i + 1..] == [];
        assert c in pool;
      }
    }
  }

  lemma FreeStep(e: Embedder, selected: seq<Candidate>, c: Candidate)
    requires NearDuplicateFree(e, selected) && !IsDup(e, c, selected)
    ensures NearDuplicateFree(e, selected + [c])
  {
    DupMeansClose(e, c, selected);
  }

  /** Selected and left over make up the candidates; no two selected are near duplicates; whatever
      is left over is a near duplicate of something selected, or worthless, or the cap was reached. */
  method Dedup(e: Embedder, score: Candidate -> real, cands: seq<Candidate>)
    returns (selected: seq<Candidate>, ghost left: seq<Candidate>)
    ensures multiset(selected) + multiset(left) == multiset(cands) && |selected| <= MAX_CANDIDATES
    ensures NearDuplicateFree(e, selected) && Greedy(e, score, selected, left)
    ensures forall c :: c in left && |selected| < MAX_CANDIDATES ==> !Open(e, score, c, selected)
  {
    var le := (x: Candidate, y: Candidate) => score(x) >= score(y);
    var pool := Sort(cands, le);
    SortPermutes(cands, le);
    selected := [];
    while pool != [] && |selected| < MAX_CANDIDATES
      invariant multiset(selected) + multiset(pool) == multiset(cands) && |selected| <= MAX_CANDIDATES
      invariant NearDuplicateFree(e, selected) && Greedy(e, score, selected, pool)
      decreases |pool|
    {
      var best := PickBest(e, score, pool, selected);
      if best.None? {
        break;
      }
      GreedyStep(e, score, selected, pool, best.value);
      FreeStep(e, selected, pool[best.value]);
      WithoutMultiset(pool, best.value);
      selected, pool := selected + [pool[best.value]], Without(pool, best.value);
    }
    left := pool;
  }

  // ---------------------------------------------------------------- the two rankings

  function At(scores: seq<real>, i: nat): real { if i < |scores| then scores[i] else 0.0 }

  function ByScoreDesc(scores: seq<real>): (nat, nat) -> bool { (i: nat, j: nat) => At(scores, i) >= At(scores, j) }

  function Order(scores: seq<real>): seq<nat> { Sort(Range(|scores|), ByScoreDesc(scores)) }

  /** Every index, best score first. */
  function DenseIdx(scores: seq<real>): seq<nat> { PyTake(Order(scores), N_DENSE) }

  function Positives(scores: seq<real>): seq<nat> { Filter(Order(scores), (i: nat) => At(scores, i) > 0.0) }

  /** The indices with a positive score, best first. */
  function SparseIdx(scores: seq<real>): seq<nat> { PyTake(Positives(scores), N_SPARSE) }

  /** Strictly before in the order of `sorted`: a higher score, or the same score and the earlier row. */
  ghost predicate Ahead(scores: seq<real>, i: nat, j: nat) {
    At(scores, i) > At(scores, j) || (At(scores, i) == At(scores, j) && i < j)
  }

  ghost predicate AllAhead(scores: seq<real>, s: seq<nat>) {
    forall k, l :: 0 <= k < l < |s| ==> Ahead(scores, s[k], s[l])
  }

  lemma OrderIndices(scores: seq<real>)
    ensures |Order(scores)| == |scores| && Distinct(Order(scores)) && SortedBy(Order(scores), ByScoreDesc(scores))
    ensures forall i: nat :: i in Order(scores) <==> i < |scores|
  {
    var (n, le) := (|scores|, ByScoreDesc(scores));
    SortPermutes(Range(n), le);
    SortSorts(Range(n), le);
    forall x ensures multiset(Range(n))[x] <= 1 { AtMostOne(Range(n), x); }
    PermutationKeepsDistinct(Range(n), Order(scores));
    forall i: nat ensures i in Order(scores) <==> i < n {
      if i < n { assert Range(n)[i] in Range(n); }
      assert i in Order(scores) <==> i in Range(n);
    }
  }

  lemma RangeAscends(n: nat, p: nat -> bool)
    ensures SortedBy(Filter(Range(n), p), (i: nat, j: nat) => i < j)
  {
    forall x ensures multiset(Range(n))[x] <= 1 { AtMostOne(Range(n), x); }
    FilterKeepsOrder(Range(n), p, (i: nat, j: nat) => i < j);
  }

  /** Ties keep the order of the rows: the sort is stable. */
  lemma TiesInRowOrder(scores: seq<real>, k: nat, l: nat)
    requires k < l < |Order(scores)|
    ensures Ahead(scores, Order(scores)[k], Order(scores)[l])
  {
    var (o, le, n) := (Order(scores), ByScoreDesc(scores), |scores|);
    OrderIndices(scores);
    assert le(o[k], o[l]);
    if At(scores, o[k]) == At(scores, o[l]) {
      var a := o[k];
      var tied := (y: nat) => le(a, y) && le(y, a);
      SortIsStable(Range(n), le, a, tied);
      RangeAscends(n, tied);
      var i, j := FilterKeepsPlaces(o, tied, k, l);
    }
  }

  /** The full ranking: strictly descending in (score, earlier row), hence the only one. */
  lemma OrderIsStrict(scores: seq<real>)
    ensures AllAhead(scores, Order(scores))
  {
    forall k, l | 0 <= k < l < |Order(scores)| ensures Ahead(scores, Order(scores)[k], Order(scores)[l]) {
      TiesInRowOrder(scores, k, l);
    }
  }

  lemma {:induction false} FilterKeepsOrder<T>(s: seq<T>, p: T -> bool, le: (T, T) -> bool)
    requires SortedBy(s, le) && Distinct(s)
    ensures SortedBy(Filter(s, p), le) && Distinct(Filter(s, p))
  {
    if s != [] {
      FilterKeepsOrder(s[1..], p, le);
      FilterMembers(s[1..], p);
      var (rest, t) := (s[1..], Filter(s[1..], p));
      forall x | x in t ensures le(s[0], x) && s[0] != x {
        assert x in rest;
        var k :| 0 <= k < |rest| && rest[k] == x;
        assert s[k + 1] == x;
      }
      forall j | 0 <= j < |t| ensures le(s[0], t[j]) && s[0] != t[j] {
        assert t[j] in t;
      }
    }
  }

  lemma {:induction false} FilterKeepsAhead(scores: seq<real>, s: seq<nat>, p: nat -> bool)
    requires AllAhead(scores, s)
    ensures AllAhead(scores, Filter(s, p))
  {
    if s != [] {
      FilterKeepsAhead(scores, s[1..], p);
      FilterMembers(s[1..], p);
      var (rest, t) := (s[1..], Filter(s[1..], p));
      forall l | 0 <= l < |t| ensures Ahead(scores, s[0], t[l]) {
        assert t[l] in t && t[l] in rest;
        var k :| 0 <= k < |rest| && rest[k] == t[l];
        assert s[k + 1] == t[l];
      }
    }
  }

  /** The sparse list is exactly the documents that share a query term, by descending score and then in
      row order, cut at 200. */
  lemma SparseListIsOverlap(p: Params, docs: seq<seq<string>>, terms: seq<string>, scores: seq<real>)
    requires p.Valid() && |scores| == |docs|
    requires forall i :: 0 <= i < |docs| ==> scores[i] == Score(p, docs, terms, docs[i])
    ensures AllAhead(scores, Positives(scores)) && Distinct(Positives(scores))
    ensures forall i: nat :: i in Positives(scores) <==> i < |docs| && Overlaps(terms, docs[i])
    ensures SparseIdx(scores) == PyTake(Positives(scores), 200)
  {
    OrderIndices(scores);
    OrderIsStrict(scores);
    FilterKeepsOrder(Order(scores), (i: nat) => At(scores, i) > 0.0, ByScoreDesc(scores));
    FilterKeepsAhead(scores, Order(scores), (i: nat) => At(scores, i) > 0.0);
    FilterMembers(Order(scores), (i: nat) => At(scores, i) > 0.0);
    forall i: nat ensures i in Positives(scores) <==> i < |docs| && Overlaps(terms, docs[i]) {
      if i < |docs| {
        Bm25PositiveAndSaturating(p, docs, terms, docs[i]);
      }
    }
  }

  // ---------------------------------------------------------------- retrieval

  ghost predicate RowsOk(rows: seq<Row>) {
    && (forall i, j :: 0 <= i < j < |rows| ==> rows[i].id != rows[j].id)
    && (forall i :: 0 <= i < |rows| ==> 0.0 <= rows[i].importance <= 1.0 && 0.0 < rows[i].recency <= 1.0)
  }

  function IdsAt(rows: seq<Row>, idx: seq<nat>): (r: seq<string>)
    requires forall k :: 0 <= k < |idx| ==> idx[k] < |rows|
    ensures |r| == |idx| && forall k :: 0 <= k < |idx| ==> r[k] == rows[idx[k]].id
  {
    seq(|idx|, k requires 0 <= k < |idx| => rows[idx[k]].id)
  }

  /** `{mid: rank}` counted from 1. */
  function RankIn(order: seq<string>, id: string): Option<nat> {
    if order == [] then None
    else if order[|order| - 1] == id then Some(|order|)
    else RankIn(order[..|order| - 1], id)
  }

  lemma {:induction false} RankInFinds(order: seq<string>, id: string)
    ensures RankIn(order, id).Some? <==> id in order
    ensures RankIn(order, id).Some? ==>
      1 <= RankIn(order, id).value <= |order| && order[RankIn(order, id).value - 1] == id
  {
    if order != [] {
      var n := |order| - 1;
      RankInFinds(order[..n], id);
      assert order == order[..n] + [order[n]];
    }
  }

  function SelectionScore(norm: map<string, real>, c: Candidate): real {
    0.60 * (if c.id in norm then norm[c.id] else 0.0) + 0.25 * c.recency + 0.15 * c.importance
  }

  lemma {:induction false} DistinctSize<T>(s: seq<T>)
    requires Distinct(s)
    ensures |set x | x in s| == |s|
  {
    if s != [] {
      DistinctSize(s[1..]);
      assert (set x | x in s) == {s[0]} + set x | x in s[1..];
    }
  }

  lemma {:induction false} SetSize<T>(s: seq<T>)
    ensures |set x | x in s| <= |s|
  {
    if s != [] {
      SetSize(s[1..]);
      assert (set x | x in s) == {s[0]} + set x | x in s[1..];
    }
  }

  lemma SubsetSize<T>(a: set<T>, b: set<T>)
    requires a <= b
    ensures |a| <= |b|
  {
    assert b == a + (b - a);
  }

  /** Distinct things drawn from two lists are no more than the lists are long. */
  lemma AtMostBoth(ids: seq<string>, a: seq<string>, b: seq<string>)
    requires Distinct(ids) && forall k :: 0 <= k < |ids| ==> ids[k] in a || ids[k] in b
    ensures |ids| <= |a| + |b|
  {
    DistinctSize(ids);
    SetSize(a);
    SetSize(b);
    var (s, x, y) := (set k | k in ids, set k | k in a, set k | k in b);
    assert x + y == x + (y - x);
    SubsetSize(y - x, y);
    SubsetSize(s, x + y);
  }

  function CandidateOf(row: Row, vectorScore: real, bm25: real, rrf: real, dense: seq<string>,
                       sparse: seq<string>): Candidate
  {
    Candidate(row.id, row.tenant, row.namespace, row.tier, row.content,
              if RankIn(dense, row.id).Some? then Some(vectorScore) else None,
              if RankIn(sparse, row.id).Some? then Some(bm25) else None,
              rrf, row.recency, row.importance, RankIn(dense, row.id), RankIn(sparse, row.id),
              row.ageSeconds, row.sourceId)
  }

  /** The rank is the 1-based place of the id in the list, and absent when it is not listed. */
  ghost predicate RankIs(order: seq<string>, id: string, rank: Option<nat>) {
    match rank
    case Some(r) => 1 <= r <= |order| && order[r - 1] == id
    case None => id !in order
  }

  /** A candidate carries its true places in the two lists, and a raw score exactly for its lists. */
  ghost predicate RanksTrue(c: Candidate, dense: seq<string>, sparse: seq<string>) {
    && RankIs(dense, c.id, c.rankInDense) && (c.vectorScore.Some? <==> c.id in dense)
    && RankIs(sparse, c.id, c.rankInSparse) && (c.bm25Score.Some? <==> c.id in sparse)
  }

  lemma BuiltRanksTrue(row: Row, vectorScore: real, bm25: real, rrf: real, dense: seq<string>, sparse: seq<string>)
    ensures RanksTrue(CandidateOf(row, vectorScore, bm25, rrf, dense, sparse), dense, sparse)
  {
    RankInFinds(dense, row.id);
    RankInFinds(sparse, row.id);
  }

  /** c is the candidate built from row i. */
  ghost predicate BuiltFrom(c: Candidate, rows: seq<Row>, i: int, vector: seq<real>, bm25: seq<real>,
                            dense: seq<string>, sparse: seq<string>, rrf: map<string, real>)
    requires |vector| == |bm25| == |rows|
  {
    && 0 <= i < |rows| && rows[i].id in rrf
    && c == CandidateOf(rows[i], vector[i], bm25[i], rrf[rows[i].id], dense, sparse)
  }

  /** The rows of either list, in row order, as raw candidates. */
  method Collect(rows: seq<Row>, vector: seq<real>, bm25: seq<real>, dense: seq<string>, sparse: seq<string>,
                 rrf: map<string, real>)
    returns (cands: seq<Candidate>)
    requires RowsOk(rows) && |vector| == |bm25| == |rows|
    ensures forall k, l :: 0 <= k < l < |cands| ==> cands[k].id != cands[l].id
    ensures forall c :: c in cands ==>
      RanksTrue(c, dense, sparse) && exists i :: BuiltFrom(c, rows, i, vector, bm25, dense, sparse, rrf)
    ensures forall i :: 0 <= i < |rows| && rows[i].id in rrf ==>
      exists c :: c in cands && BuiltFrom(c, rows, i, vector, bm25, dense, sparse, rrf)
  {
    cands := [];
    for i := 0 to |rows|
      invariant forall k, l :: 0 <= k < l < |cands| ==> cands[k].id != cands[l].id
      invariant forall c :: c in cands ==>
        RanksTrue(c, dense, sparse) && exists j :: j < i && BuiltFrom(c, rows, j, vector, bm25, dense, sparse, rrf)
      invariant forall j :: 0 <= j < i && rows[j].id in rrf ==>
        exists c :: c in cands && BuiltFrom(c, rows, j, vector, bm25, dense, sparse, rrf)
    {
      if rows[i].id in rrf {
        forall k | 0 <= k < |cands| ensures cands[k].id != rows[i].id {
          assert cands[k] in cands;
        }
        var c := CandidateOf(rows[i], vector[i], bm25[i], rrf[rows[i].id], dense, sparse);
        BuiltRanksTrue(rows[i], vector[i], bm25[i], rrf[rows[i].id], dense, sparse);
        ghost var before := cands;
        cands := cands + [c];
        assert BuiltFrom(c, rows, i, vector, bm25, dense, sparse, rrf) && c in cands;
        assert forall x :: x in before ==> x in cands;
      }
    }
  }

  function VectorScores(e: Embedder, rows: seq<Row>, query: string): (r: seq<real>)
    ensures |r| == |rows|
  {
    Map(rows, (row: Row) => e.cosine(e.embed(query), e.embed(row.content)))
  }

  function Documents(tokenize: string -> seq<string>, rows: seq<Row>): (r: seq<seq<string>>)
    ensures |r| == |rows|
  {
    Map(rows, (row: Row) => tokenize(row.content))
  }

  function LexicalScores(p: Params, terms: seq<string>, docs: seq<seq<string>>): (r: seq<real>)
    ensures |r| == |docs|
  {
    if docs == [] then [] else Map(docs, (d: seq<string>) => Score(p, docs, terms, d))
  }

  function DenseIds(e: Embedder, rows: seq<Row>, query: string): seq<string> {
    IndicesInRange(VectorScores(e, rows, query));
    IdsAt(rows, DenseIdx(VectorScores(e, rows, query)))
  }

  function SparseIds(p: Params, tokenize: string -> seq<string>, terms: seq<string>, rows: seq<Row>): seq<string> {
    var scores := LexicalScores(p, terms, Documents(tokenize, rows));
    IndicesInRange(scores);
    IdsAt(rows, SparseIdx(scores))
  }

  /** Any enumeration of the set of the query's tokens. */
  ghost predicate Enumerates(terms: seq<string>, tokens: seq<string>) {
    Distinct(terms) && forall t :: t in terms <==> t in tokens
  }

  /** The scores by which the code picks, min-max normalized reciprocal-rank sums of the two lists to be
      blended with recency and importance; and the candidates that carry the sums. */
  ghost predicate FusedBy(rows: seq<Row>, vector: seq<real>, bm25: seq<real>, dense: seq<string>, sparse: seq<string>,
                          cands: seq<Candidate>, norm: map<string, real>)
    requires |vector| == |bm25| == |rows|
  {
    exists rrf :: FusionOf(dense, sparse, rrf) && Normalized(rrf, norm)
      && AllBuilt(cands, rows, vector, bm25, dense, sparse, rrf)
  }

  ghost predicate AllBuilt(cands: seq<Candidate>, rows: seq<Row>, vector: seq<real>, bm25: seq<real>,
                           dense: seq<string>, sparse: seq<string>, rrf: map<string, real>)
    requires |vector| == |bm25| == |rows|
  {
    forall c :: c in cands ==> exists i :: BuiltFrom(c, rows, i, vector, bm25, dense, sparse, rrf)
  }

  ghost predicate FusionOf(dense: seq<string>, sparse: seq<string>, rrf: map<string, real>) {
    && rrf.Keys == (set id | id in dense) + (set id | id in sparse)
    && forall id :: id in rrf ==> rrf[id] == RankSum(dense, RRF_K, id) + RankSum(sparse, RRF_K, id)
  }

  /** The candidate stands for row i: everything of it but the scores is the row's. */
  ghost predicate StandsFor(c: Candidate, rows: seq<Row>, i: int) {
    && 0 <= i < |rows| && c.id == rows[i].id && c.content == rows[i].content && c.tier == rows[i].tier
    && c.tenant == rows[i].tenant && c.namespace == rows[i].namespace && c.recency == rows[i].recency
    && c.importance == rows[i].importance && c.ageSeconds == rows[i].ageSeconds && c.sourceRef == rows[i].sourceId
  }

  /** Exactly the rows of either list have a candidate. */
  ghost predicate Covers(cands: seq<Candidate>, rows: seq<Row>, dense: seq<string>, sparse: seq<string>) {
    forall i :: 0 <= i < |rows| ==> (HasRow(cands, rows, i) <==> rows[i].id in dense || rows[i].id in sparse)
  }

  ghost predicate HasRow(cands: seq<Candidate>, rows: seq<Row>, i: int) {
    exists c :: c in cands && StandsFor(c, rows, i)
  }

  /** Every candidate stands for a row, and no two for the same one. */
  ghost predicate FromRows(cands: seq<Candidate>, rows: seq<Row>) {
    && (forall c :: c in cands ==> exists i :: StandsFor(c, rows, i))
    && forall k, l :: 0 <= k < l < |cands| ==> cands[k].id != cands[l].id
  }

  lemma FewerFromRows(cands: seq<Candidate>, fewer: seq<Candidate>, rows: seq<Row>)
    requires FromRows(cands, rows) && multiset(fewer) <= multiset(cands)
    ensures FromRows(fewer, rows)
  {
    forall c | c in fewer ensures exists i :: StandsFor(c, rows, i) {
      assert c in multiset(fewer) && c in multiset(cands) && c in cands;
    }
    forall k, l | 0 <= k < l < |fewer| ensures fewer[k].id != fewer[l].id {
      TakenTwice(cands, fewer, (c: Candidate) => c.id, k, l);
    }
  }

  lemma CutFromRows(e: Embedder, cands: seq<Candidate>, kept: seq<Candidate>, cut: seq<Candidate>, rows: seq<Row>)
    requires FromRows(cands, rows) && multiset(kept) <= multiset(cands) && NearDuplicateFree(e, kept) && cut <= kept
    ensures FromRows(cut, rows) && NearDuplicateFree(e, cut)
  {
    assert kept == cut + kept[|cut|..];
    FewerFromRows(cands, cut, rows);
  }

  lemma NothingToPick(e: Embedder)
    ensures FusedBy([], [], [], [], [], [], map[]) && PickedGreedily(e, map[], [], [])
  {
    var none: seq<Candidate> := [];
    assert FusionOf([], [], map[]) && AllBuilt([], [], [], [], [], [], map[]);
    assert Greedy(e, (c: Candidate) => SelectionScore(map[], c), none, none);
    assert multiset(none) + multiset(none) == multiset(none);
  }

  /** What `retrieve` considers, keeps and returns. The candidates stand for the rows of either list, no two for
      the same one, with their scores in the two lists. What is kept is near-duplicate free and maximal: every
      row of either list is in it or is a near duplicate of something in it. Each pick is the best one left by
      the fused score against what was picked before. The result is the beginning of it. */
  ghost predicate PickedFrom(e: Embedder, p: Params, tokenize: string -> seq<string>, terms: seq<string>,
                             rows: seq<Row>, query: string, k: int, r: seq<Candidate>, considered: seq<Candidate>,
                             kept: seq<Candidate>, norm: map<string, real>)
  {
    var (vector, bm25) := (VectorScores(e, rows, query), LexicalScores(p, terms, Documents(tokenize, rows)));
    var (dense, sparse) := (DenseIds(e, rows, query), SparseIds(p, tokenize, terms, rows));
    && FromRows(considered, rows) && Covers(considered, rows, dense, sparse)
    && FusedBy(rows, vector, bm25, dense, sparse, considered, norm)
    && PickedGreedily(e, norm, considered, kept) && NearDuplicateFree(e, kept)
    && (forall c :: c in considered && c !in kept ==> exists s :: s in kept && Similarity(e, c, s) >= COS_DUP)
    && r == PyTake(kept, if k < MAX_CANDIDATES then k else MAX_CANDIDATES)
  }

  /** The cap of 512 never bites, since the two lists hold at most 400 ids. */
  method Retrieve(e: Embedder, p: Params, tokenize: string -> seq<string>, terms: seq<string>, rows: seq<Row>,
                  query: string, k: int)
    returns (r: seq<Candidate>, considered: seq<Candidate>, kept: seq<Candidate>, norm: map<string, real>)
    requires p.Valid() && RowsOk(rows) && Enumerates(terms, tokenize(query))
    ensures PickedFrom(e, p, tokenize, terms, rows, query, k, r, considered, kept, norm)
    ensures FromRows(r, rows) && NearDuplicateFree(e, r) && |considered| <= N_DENSE + N_SPARSE
    ensures k >= 0 ==> |r| <= k
  {
    if rows == [] {
      NothingToPick(e);
      return [], [], [], map[];
    }
    var vector := VectorScores(e, rows, query);
    var bm25 := Bm25Scores(p, terms, Documents(tokenize, rows));
    assert bm25 == LexicalScores(p, terms, Documents(tokenize, rows));
    var dense := DenseIds(e, rows, query);
    var sparse := SparseIds(p, tokenize, terms, rows);
    considered, norm := Fuse(rows, vector, bm25, dense, sparse);
    kept := Select(e, norm, considered);
    r := PyTake(kept, if k < MAX_CANDIDATES then k else MAX_CANDIDATES);
    CutFromRows(e, considered, kept, r, rows);
  }

  /** Every candidate is kept or left, and each pick was the best of what was picked or left later. */
  ghost predicate PickedGreedily(e: Embedder, norm: map<string, real>, considered: seq<Candidate>, kept: seq<Candidate>)
  {
    exists left :: multiset(kept) + multiset(left) == multiset(considered)
      && Greedy(e, (c: Candidate) => SelectionScore(norm, c), kept, left)
  }

  /** Nothing that the selection score is made of is negative. */
  predicate Worthy(norm: map<string, real>, c: Candidate) {
    c.recency >= 0.0 && c.importance >= 0.0 && (c.id in norm ==> norm[c.id] >= 0.0)
  }

  /** Fusion and normalization of the two lists, and the candidates that stand for their rows. */
  method Fuse(rows: seq<Row>, vector: seq<real>, bm25: seq<real>, dense: seq<string>, sparse: seq<string>)
    returns (considered: seq<Candidate>, norm: map<string, real>)
    requires RowsOk(rows) && |vector| == |bm25| == |rows|
    ensures |considered| <= |dense| + |sparse| && FromRows(considered, rows)
    ensures Covers(considered, rows, dense, sparse)
    ensures FusedBy(rows, vector, bm25, dense, sparse, considered, norm)
    ensures forall c :: c in considered ==> Worthy(norm, c)
  {
    var rrf := RrfFuse(dense, sparse, RRF_K);
    norm := MinMaxNormalize(rrf);
    considered := Collect(rows, vector, bm25, dense, sparse, rrf);
    assert FusionOf(dense, sparse, rrf) && AllBuilt(considered, rows, vector, bm25, dense, sparse, rrf);
    ConsideredBound(considered, rows, vector, bm25, dense, sparse, rrf);
    CollectedStand(considered, rows, vector, bm25, dense, sparse, rrf);
    CollectedCover(considered, rows, vector, bm25, dense, sparse, rrf);
    CollectedAreWorthy(considered, rows, vector, bm25, dense, sparse, rrf, norm);
  }

  lemma CollectedCover(cands: seq<Candidate>, rows: seq<Row>, vector: seq<real>, bm25: seq<real>,
                       dense: seq<string>, sparse: seq<string>, rrf: map<string, real>)
    requires |vector| == |bm25| == |rows| && rrf.Keys == (set id | id in dense) + (set id | id in sparse)
    requires AllBuilt(cands, rows, vector, bm25, dense, sparse, rrf)
    requires forall i :: 0 <= i < |rows| && rows[i].id in rrf ==>
      exists c :: c in cands && BuiltFrom(c, rows, i, vector, bm25, dense, sparse, rrf)
    ensures Covers(cands, rows, dense, sparse)
  {
    forall i | 0 <= i < |rows| ensures HasRow(cands, rows, i) <==> rows[i].id in dense || rows[i].id in sparse {
      InEitherList(rows[i].id, dense, sparse, rrf);
      if rows[i].id in rrf {
        FusedHasRow(cands, rows, i, vector, bm25, dense, sparse, rrf);
      }
      if HasRow(cands, rows, i) {
        RowIsFused(cands, rows, i, vector, bm25, dense, sparse, rrf);
      }
    }
  }

  lemma InEitherList(id: string, dense: seq<string>, sparse: seq<string>, rrf: map<string, real>)
    requires rrf.Keys == (set x | x in dense) + (set x | x in sparse)
    ensures id in rrf <==> id in dense || id in sparse
  {
  }

  lemma FusedHasRow(cands: seq<Candidate>, rows: seq<Row>, i: int, vector: seq<real>, bm25: seq<real>,
                    dense: seq<string>, sparse: seq<string>, rrf: map<string, real>)
    requires |vector| == |bm25| == |rows| && 0 <= i < |rows|
    requires exists c :: c in cands && BuiltFrom(c, rows, i, vector, bm25, dense, sparse, rrf)
    ensures HasRow(cands, rows, i)
  {
    var c :| c in cands && BuiltFrom(c, rows, i, vector, bm25, dense, sparse, rrf);
    BuiltStands(c, rows, i, vector, bm25, dense, sparse, rrf);
  }

  lemma RowIsFused(cands: seq<Candidate>, rows: seq<Row>, i: int, vector: seq<real>, bm25: seq<real>,
                   dense: seq<string>, sparse: seq<string>, rrf: map<string, real>)
    requires |vector| == |bm25| == |rows| && AllBuilt(cands, rows, vector, bm25, dense, sparse, rrf)
    requires HasRow(cands, rows, i)
    ensures 0 <= i < |rows| && rows[i].id in rrf
  {
    var c :| c in cands && StandsFor(c, rows, i);
    var j :| BuiltFrom(c, rows, j, vector, bm25, dense, sparse, rrf);
    BuiltStands(c, rows, j, vector, bm25, dense, sparse, rrf);
  }

  lemma BuiltStands(c: Candidate, rows: seq<Row>, i: int, vector: seq<real>, bm25: seq<real>, dense: seq<string>,
                    sparse: seq<string>, rrf: map<string, real>)
    requires |vector| == |bm25| == |rows| && BuiltFrom(c, rows, i, vector, bm25, dense, sparse, rrf)
    ensures StandsFor(c, rows, i) && rows[i].id in rrf
  {
  }

  lemma CollectedAreWorthy(cands: seq<Candidate>, rows: seq<Row>, vector: seq<real>, bm25: seq<real>,
                           dense: seq<string>, sparse: seq<string>, rrf: map<string, real>, norm: map<string, real>)
    requires RowsOk(rows) && |vector| == |bm25| == |rows| && Normalized(rrf, norm)
    requires forall c :: c in cands ==> exists i :: BuiltFrom(c, rows, i, vector, bm25, dense, sparse, rrf)
    ensures forall c :: c in cands ==> Worthy(norm, c)
  {
    forall c | c in cands ensures Worthy(norm, c) {
      var i :| BuiltFrom(c, rows, i, vector, bm25, dense, sparse, rrf);
    }
  }

  method Select(e: Embedder, norm: map<string, real>, considered: seq<Candidate>) returns (kept: seq<Candidate>)
    requires |considered| <= N_DENSE + N_SPARSE && forall c :: c in considered ==> Worthy(norm, c)
    ensures multiset(kept) <= multiset(considered)
    ensures NearDuplicateFree(e, kept) && PickedGreedily(e, norm, considered, kept)
    ensures forall c :: c in considered && c !in kept ==> exists s :: s in kept && Similarity(e, c, s) >= COS_DUP
  {
    ghost var left;
    kept, left := Dedup(e, (c: Candidate) => SelectionScore(norm, c), considered);
    CapNeverBites(considered, kept, left);
    assert multiset(kept) <= multiset(kept) + multiset(left);
    forall c | c in considered && c !in kept ensures exists s :: s in kept && Similarity(e, c, s) >= COS_DUP {
      assert c in multiset(kept) + multiset(left) && c in left;
      assert !Open(e, (c: Candidate) => SelectionScore(norm, c), c, kept);
      NeverWorthless(e, norm, c, kept);
      DupMeansClose(e, c, kept);
    }
  }

  lemma CollectedStand(cands: seq<Candidate>, rows: seq<Row>, vector: seq<real>, bm25: seq<real>,
                       dense: seq<string>, sparse: seq<string>, rrf: map<string, real>)
    requires |vector| == |bm25| == |rows|
    requires forall k, l :: 0 <= k < l < |cands| ==> cands[k].id != cands[l].id
    requires forall c :: c in cands ==> exists i :: BuiltFrom(c, rows, i, vector, bm25, dense, sparse, rrf)
    ensures FromRows(cands, rows)
  {
    forall c | c in cands ensures exists i :: StandsFor(c, rows, i) {
      var i :| BuiltFrom(c, rows, i, vector, bm25, dense, sparse, rrf);
      BuiltStands(c, rows, i, vector, bm25, dense, sparse, rrf);
    }
  }

  lemma ConsideredBound(cands: seq<Candidate>, rows: seq<Row>, vector: seq<real>, bm25: seq<real>,
                        dense: seq<string>, sparse: seq<string>, rrf: map<string, real>)
    requires |vector| == |bm25| == |rows| && rrf.Keys == (set id | id in dense) + (set id | id in sparse)
    requires forall k, l :: 0 <= k < l < |cands| ==> cands[k].id != cands[l].id
    requires forall c :: c in cands ==> exists i :: BuiltFrom(c, rows, i, vector, bm25, dense, sparse, rrf)
    ensures |cands| <= |dense| + |sparse|
  {
    var ids := Map(cands, (c: Candidate) => c.id);
    forall k | 0 <= k < |ids| ensures ids[k] in dense || ids[k] in sparse {
      assert cands[k] in cands;
      var i :| BuiltFrom(cands[k], rows, i, vector, bm25, dense, sparse, rrf);
      assert ids[k] in rrf;
    }
    AtMostBoth(ids, dense, sparse);
  }

  lemma CapNeverBites(considered: seq<Candidate>, kept: seq<Candidate>, left: seq<Candidate>)
    requires multiset(kept) + multiset(left) == multiset(considered)
    requires |considered| <= N_DENSE + N_SPARSE
    ensures |kept| < MAX_CANDIDATES
  {
    assert |kept| == |multiset(kept)| && |left| == |multiset(left)| && |considered| == |multiset(considered)|;
  }

  lemma IndicesInRange(scores: seq<real>)
    ensures forall k :: 0 <= k < |DenseIdx(scores)| ==> DenseIdx(scores)[k] < |scores|
    ensures forall k :: 0 <= k < |SparseIdx(scores)| ==> SparseIdx(scores)[k] < |scores|
  {
    OrderIndices(scores);
    FilterMembers(Order(scores), (i: nat) => At(scores, i) > 0.0);
    forall k | 0 <= k < |DenseIdx(scores)| ensures DenseIdx(scores)[k] < |scores| {
      assert DenseIdx(scores)[k] == Order(scores)[k] && Order(scores)[k] in Order(scores);
    }
    forall k | 0 <= k < |SparseIdx(scores)| ensures SparseIdx(scores)[k] < |scores| {
      assert SparseIdx(scores)[k] == Positives(scores)[k] && Positives(scores)[k] in Positives(scores);
    }
  }

  /** Selection scores are never negative, so a value is worthless for no candidate that is not a
      duplicate. */
  lemma NeverWorthless(e: Embedder, norm: map<string, real>, c: Candidate, selected: seq<Candidate>)
    requires Worthy(norm, c)
    ensures IsDup(e, c, selected) || Open(e, (c: Candidate) => SelectionScore(norm, c), c, selected)
  {
  }

  /** Something is always found among rows: the dense list ranks them all. */
  lemma SomethingIsPicked(e: Embedder, p: Params, tokenize: string -> seq<string>, terms: seq<string>,
                          rows: seq<Row>, query: string, k: int, r: seq<Candidate>, considered: seq<Candidate>,
                          kept: seq<Candidate>, norm: map<string, real>)
    requires PickedFrom(e, p, tokenize, terms, rows, query, k, r, considered, kept, norm) && k >= 1
    ensures r == [] <==> rows == []
  {
    if rows != [] {
      var scores := VectorScores(e, rows, query);
      IndicesInRange(scores);
      OrderIndices(scores);
      var i := DenseIdx(scores)[0];
      assert DenseIds(e, rows, query)[0] == rows[i].id;
      assert HasRow(considered, rows, i);
      var c :| c in considered && StandsFor(c, rows, i);
      assert kept != [];
    } else if kept != [] {
      KeptIsConsidered(e, norm, considered, kept, kept[0]);
    }
  }

  lemma KeptIsConsidered(e: Embedder, norm: map<string, real>, considered: seq<Candidate>, kept: seq<Candidate>,
                         c: Candidate)
    requires PickedGreedily(e, norm, considered, kept) && c in kept
    ensures c in considered
  {
    var left :| multiset(kept) + multiset(left) == multiset(considered)
      && Greedy(e, (c: Candidate) => SelectionScore(norm, c), kept, left);
    assert c in multiset(kept) + multiset(left);
  }
}
