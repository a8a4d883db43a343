/** What retrieval prefers (memory/engine.py), in terms of similarities, places in the two lists, recency and
    importance. */
module RetrievalMeaning {
  import opened Prelude
  import opened Mmr
  import opened Scoring
  import opened Retrieval

  // ---------------------------------------------------------------- the dense list

  function Nearness(e: Embedder, query: string, row: Row): real { e.cosine(e.embed(query), e.embed(row.content)) }

  /** Row i is nearer to the query than row j, or as near and listed before it. */
  ghost predicate Nearer(e: Embedder, query: string, rows: seq<Row>, i: nat, j: nat) {
    && i < |rows| && j < |rows|
    && (Nearness(e, query, rows[i]) > Nearness(e, query, rows[j])
        || (Nearness(e, query, rows[i]) == Nearness(e, query, rows[j]) && i < j))
  }

  /** The dense list holds the 200 rows nearest to the query, or all of them, nearest first. */
  ghost predicate NearestFirst(e: Embedder, query: string, rows: seq<Row>, idx: seq<nat>) {
    && |idx| == (if |rows| <= 200 then |rows| else 200) && Distinct(idx)
    && (forall k :: 0 <= k < |idx| ==> idx[k] < |rows|)
    && (forall k, l :: 0 <= k < l < |idx| ==> Nearer(e, query, rows, idx[k], idx[l]))
    && (forall k, j: nat :: 0 <= k < |idx| && j < |rows| && j !in idx ==> Nearer(e, query, rows, idx[k], j))
  }

  lemma DenseListIsNearest(e: Embedder, rows: seq<Row>, query: string) returns (idx: seq<nat>)
    ensures NearestFirst(e, query, rows, idx)
    ensures |DenseIds(e, rows, query)| == |idx|
    ensures forall k :: 0 <= k < |idx| ==> idx[k] < |rows| && DenseIds(e, rows, query)[k] == rows[idx[k]].id
  {
    var scores := VectorScores(e, rows, query);
    idx := DenseIdx(scores);
    IndicesInRange(scores);
    OrderIndices(scores);
    OrderIsStrict(scores);
    var order := Order(scores);
    assert forall k :: 0 <= k < |idx| ==> idx[k] == order[k] && idx[k] in idx;
    forall k, l | 0 <= k < l < |order| ensures Nearer(e, query, rows, order[k], order[l]) {
      assert order[k] in order && order[l] in order && Ahead(scores, order[k], order[l]);
    }
    forall k, j: nat | 0 <= k < |idx| && j < |rows| && j !in idx ensures Nearer(e, query, rows, idx[k], j) {
      assert j in order;
      var l :| 0 <= l < |order| && order[l] == j;
    }
  }

  lemma DenseIsDistinct(e: Embedder, rows: seq<Row>, query: string)
    requires RowsOk(rows)
    ensures Distinct(DenseIds(e, rows, query))
  {
    var idx := DenseListIsNearest(e, rows, query);
    var ids := DenseIds(e, rows, query);
    forall k, l | 0 <= k < l < |ids| ensures ids[k] != ids[l] {
      assert idx[k] != idx[l];
    }
  }

  lemma SparseIsDistinct(p: Params, tokenize: string -> seq<string>, terms: seq<string>, rows: seq<Row>)
    requires RowsOk(rows)
    ensures Distinct(SparseIds(p, tokenize, terms, rows))
  {
    var scores := LexicalScores(p, terms, Documents(tokenize, rows));
    var (idx, ids) := (SparseIdx(scores), SparseIds(p, tokenize, terms, rows));
    IndicesInRange(scores);
    OrderIndices(scores);
    FilterKeepsOrder(Order(scores), (i: nat) => At(scores, i) > 0.0, ByScoreDesc(scores));
    assert forall k :: 0 <= k < |idx| ==> idx[k] == Positives(scores)[k];
    forall k, l | 0 <= k < l < |ids| ensures ids[k] != ids[l] {
      assert idx[k] != idx[l];
    }
  }

  // ---------------------------------------------------------------- what a pick is worth

  /** The fused score: normalized reciprocal ranks, recency and importance. */
  function Worth(norm: map<string, real>, c: Candidate): real
    requires c.id in norm
  {
    0.60 * norm[c.id] + 0.25 * c.recency + 0.15 * c.importance
  }

  /** m is the largest similarity of c to anything picked, or 0 when nothing is. */
  ghost predicate Closeness(e: Embedder, c: Candidate, picked: seq<Candidate>, m: real) {
    if picked == [] then m == 0.0
    else
      && (exists s :: s in picked && e.cosine(e.embed(c.content), e.embed(s.content)) == m)
      && forall s :: s in picked ==> e.cosine(e.embed(c.content), e.embed(s.content)) <= m
  }

  lemma ClosenessIsMaxCos(e: Embedder, c: Candidate, picked: seq<Candidate>, m: real)
    requires Closeness(e, c, picked, m)
    ensures MaxCos(e, c, picked) == m
  {
    if picked != [] {
      MaxByIsMax(picked, (s: Candidate) => Similarity(e, c, s));
    }
  }

  lemma ConsideredIsWorthy(rows: seq<Row>, vector: seq<real>, bm25: seq<real>, dense: seq<string>, sparse: seq<string>,
                           considered: seq<Candidate>, norm: map<string, real>, c: Candidate)
    requires RowsOk(rows) && |vector| == |bm25| == |rows| && c in considered
    requires FusedBy(rows, vector, bm25, dense, sparse, considered, norm)
    ensures Worthy(norm, c) && c.id in norm
  {
    var rrf :| FusionOf(dense, sparse, rrf) && Normalized(rrf, norm)
      && AllBuilt(considered, rows, vector, bm25, dense, sparse, rrf);
    var i :| BuiltFrom(c, rows, i, vector, bm25, dense, sparse, rrf);
  }

  /** Each pick trades worth against closeness to what was picked before: nothing that was still to be had, and is
      no near duplicate, has more of 0.70 of its worth less 0.30 of its closeness. */
  lemma PicksTradeOff(e: Embedder, p: Params, tokenize: string -> seq<string>, terms: seq<string>, rows: seq<Row>,
                      query: string, k: int, r: seq<Candidate>, considered: seq<Candidate>, kept: seq<Candidate>,
                      norm: map<string, real>, i: nat, c: Candidate, m: real, n: real)
    requires RowsOk(rows) && PickedFrom(e, p, tokenize, terms, rows, query, k, r, considered, kept, norm)
    requires i < |kept| && c in considered && c !in kept[..i]
    requires Closeness(e, kept[i], kept[..i], m) && Closeness(e, c, kept[..i], n) && n < 0.95
    ensures kept[i].id in norm && c.id in norm
    ensures 0.70 * Worth(norm, kept[i]) - 0.30 * m >= 0.70 * Worth(norm, c) - 0.30 * n
  {
    var (vector, bm25) := (VectorScores(e, rows, query), LexicalScores(p, terms, Documents(tokenize, rows)));
    var (dense, sparse) := (DenseIds(e, rows, query), SparseIds(p, tokenize, terms, rows));
    KeptIsConsidered(e, norm, considered, kept, kept[i]);
    ConsideredIsWorthy(rows, vector, bm25, dense, sparse, considered, norm, c);
    ConsideredIsWorthy(rows, vector, bm25, dense, sparse, considered, norm, kept[i]);
    ClosenessIsMaxCos(e, kept[i], kept[..i], m);
    ClosenessIsMaxCos(e, c, kept[..i], n);
    var score := (c: Candidate) => SelectionScore(norm, c);
    var left :| multiset(kept) + multiset(left) == multiset(considered) && Greedy(e, score, kept, left);
    StillToBeHad(considered, kept, left, i, c);
    if c != kept[i] {
      assert c in kept[i + 1..] + left;
      assert NoBetter(e, score, c, kept[..i], Val(e, score, kept[i], kept[..i]));
      BetterValue(e, norm, kept[..i], kept[i], c);
    }
  }

  lemma BetterValue(e: Embedder, norm: map<string, real>, picked: seq<Candidate>, x: Candidate, c: Candidate)
    requires Worthy(norm, c) && x.id in norm && c.id in norm && MaxCos(e, c, picked) < 0.95
    requires var score := (c: Candidate) => SelectionScore(norm, c);
      NoBetter(e, score, c, picked, Val(e, score, x, picked))
    ensures 0.70 * Worth(norm, x) - 0.30 * MaxCos(e, x, picked) >= 0.70 * Worth(norm, c) - 0.30 * MaxCos(e, c, picked)
  {
    NeverWorthless(e, norm, c, picked);
  }

  lemma StillToBeHad(considered: seq<Candidate>, kept: seq<Candidate>, left: seq<Candidate>, i: nat, c: Candidate)
    requires multiset(kept) + multiset(left) == multiset(considered)
    requires i < |kept| && c in considered && c !in kept[..i]
    ensures c == kept[i] || c in kept[i + 1..] + left
  {
    assert c in multiset(kept) + multiset(left);
    assert kept == kept[..i] + [kept[i]] + kept[i + 1..];
  }

  // ---------------------------------------------------------------- the first result

  /** a is at least as recent and important as b, stands no later in either list, and in one of them. */
  ghost predicate Dominates(dense: seq<string>, sparse: seq<string>, a: Candidate, b: Candidate) {
    && a.id != b.id && a.recency >= b.recency && a.importance >= b.importance
    && NoLater(dense, a.id, b.id) && NoLater(sparse, a.id, b.id) && (a.id in dense || a.id in sparse)
  }

  lemma DominatorIsWorthMore(rows: seq<Row>, vector: seq<real>, bm25: seq<real>, dense: seq<string>,
                             sparse: seq<string>, considered: seq<Candidate>, norm: map<string, real>, a: Candidate,
                             b: Candidate)
    requires RowsOk(rows) && |vector| == |bm25| == |rows| && a in considered && b in considered
    requires FusedBy(rows, vector, bm25, dense, sparse, considered, norm) && Distinct(dense) && Distinct(sparse)
    requires Dominates(dense, sparse, a, b)
    ensures a.id in norm && b.id in norm && Worth(norm, a) > Worth(norm, b)
  {
    var rrf :| FusionOf(dense, sparse, rrf) && Normalized(rrf, norm)
      && AllBuilt(considered, rows, vector, bm25, dense, sparse, rrf);
    ConsideredIsWorthy(rows, vector, bm25, dense, sparse, considered, norm, a);
    ConsideredIsWorthy(rows, vector, bm25, dense, sparse, considered, norm, b);
    SumsAreShares(dense, sparse, RRF_K, rrf);
    EarlierScoresMore(dense, sparse, RRF_K, rrf, a.id, b.id);
  }

  /** The first result is dominated by no other candidate. */
  lemma FirstIsUndominated(e: Embedder, p: Params, tokenize: string -> seq<string>, terms: seq<string>, rows: seq<Row>,
                           query: string, k: int, r: seq<Candidate>, considered: seq<Candidate>, kept: seq<Candidate>,
                           norm: map<string, real>, c: Candidate)
    requires RowsOk(rows) && PickedFrom(e, p, tokenize, terms, rows, query, k, r, considered, kept, norm)
    requires r != [] && c in considered
    ensures !Dominates(DenseIds(e, rows, query), SparseIds(p, tokenize, terms, rows), c, r[0])
  {
    var (vector, bm25) := (VectorScores(e, rows, query), LexicalScores(p, terms, Documents(tokenize, rows)));
    var (dense, sparse) := (DenseIds(e, rows, query), SparseIds(p, tokenize, terms, rows));
    assert r[0] == kept[0] && kept[..0] == [];
    PicksTradeOff(e, p, tokenize, terms, rows, query, k, r, considered, kept, norm, 0, c, 0.0, 0.0);
    KeptIsConsidered(e, norm, considered, kept, kept[0]);
    if Dominates(dense, sparse, c, r[0]) {
      DenseIsDistinct(e, rows, query);
      SparseIsDistinct(p, tokenize, terms, rows);
      DominatorIsWorthMore(rows, vector, bm25, dense, sparse, considered, norm, c, r[0]);
    }
  }

  // ---------------------------------------------------------------- what a candidate carries

  /** A candidate carries the similarity of its content to the query exactly when the dense list has it, and its
      lexical score exactly when the sparse list does. */
  lemma CarriesItsScores(e: Embedder, p: Params, tokenize: string -> seq<string>, terms: seq<string>, rows: seq<Row>,
                         query: string, k: int, r: seq<Candidate>, considered: seq<Candidate>, kept: seq<Candidate>,
                         norm: map<string, real>, c: Candidate)
    requires PickedFrom(e, p, tokenize, terms, rows, query, k, r, considered, kept, norm) && c in considered
    ensures c.vectorScore == if c.id in DenseIds(e, rows, query)
                             then Some(e.cosine(e.embed(query), e.embed(c.content))) else None
    ensures c.bm25Score == if c.id in SparseIds(p, tokenize, terms, rows)
                           then Some(Score(p, Documents(tokenize, rows), terms, tokenize(c.content))) else None
  {
    var (vector, bm25) := (VectorScores(e, rows, query), LexicalScores(p, terms, Documents(tokenize, rows)));
    var (dense, sparse) := (DenseIds(e, rows, query), SparseIds(p, tokenize, terms, rows));
    var rrf :| FusionOf(dense, sparse, rrf) && Normalized(rrf, norm)
      && AllBuilt(considered, rows, vector, bm25, dense, sparse, rrf);
    var i :| BuiltFrom(c, rows, i, vector, bm25, dense, sparse, rrf);
    RankInFinds(dense, c.id);
    RankInFinds(sparse, c.id);
  }
}
