/** Pure scoring for hybrid retrieval (memory/scoring.py). `log` is a parameter of which only
    positivity above 1 is used; the query terms come in any enumeration of the query's set. */
module Scoring {
  import opened Prelude

  function DocFreq(docs: seq<seq<string>>, t: string): nat {
    if docs == [] then 0 else (if t in docs[0] then 1 else 0) + DocFreq(docs[1..], t)
  }

  lemma {:induction false} DocFreqConcat(a: seq<seq<string>>, b: seq<seq<string>>, t: string)
    ensures DocFreq(a + b, t) == DocFreq(a, t) + DocFreq(b, t)
  {
    if a == [] {
      assert a + b == b;
    } else {
      assert (a + b)[1..] == a[1..] + b;
      DocFreqConcat(a[1..], b, t);
    }
  }

  /** No term occurs in more documents than there are. */
  lemma {:induction false} DocFreqBounded(docs: seq<seq<string>>, t: string)
    ensures DocFreq(docs, t) <= |docs|
    ensures (exists d :: d in docs && t in d) <==> DocFreq(docs, t) > 0
  {
    if docs != [] {
      DocFreqBounded(docs[1..], t);
      assert docs == [docs[0]] + docs[1..];
      if t in docs[0] {
        assert docs[0] in docs;
      }
    }
  }

  function TotalLength(docs: seq<seq<string>>): nat {
    if docs == [] then 0 else |docs[0]| + TotalLength(docs[1..])
  }

  datatype Params = Params(k1: real, b: real, log: real -> real) {
    ghost predicate Valid() { k1 > 0.0 && 0.0 <= b <= 1.0 && forall x :: x > 1.0 ==> log(x) > 0.0 }
  }

  function AverageLength(docs: seq<seq<string>>): real
    requires docs != []
  {
    TotalLength(docs) as real / |docs| as real
  }

  function Idf(p: Params, docs: seq<seq<string>>, t: string): real {
    var (n, df) := (|docs| as real, DocFreq(docs, t) as real);
    p.log(1.0 + (n - df + 0.5) / (df + 0.5))
  }

  function Denominator(p: Params, f: nat, length: nat, average: real): real {
    f as real + Norm(p.k1, p.b, if average != 0.0 then length as real / average else 0.0)
  }

  /** The length normalisation, from a document's length over the average. */
  function Norm(k1: real, b: real, share: real): real { k1 * (1.0 - b + b * share) }

  /** What one term adds to a document's score. */
  function Contribution(p: Params, docs: seq<seq<string>>, d: seq<string>, t: string): real
    requires docs != []
  {
    var f := multiset(d)[t];
    if f == 0 then 0.0
    else
      var denom := Denominator(p, f, |d|, AverageLength(docs));
      if denom != 0.0 then Idf(p, docs, t) * (f as real * (p.k1 + 1.0)) / denom else 0.0
  }

  function Score(p: Params, docs: seq<seq<string>>, terms: seq<string>, d: seq<string>): real
    requires docs != []
  {
    if terms == [] then 0.0
    else
      var n := |terms| - 1;
      Score(p, docs, terms[..n], d) + Contribution(p, docs, d, terms[n])
  }

  method DocFreqs(docs: seq<seq<string>>, terms: seq<string>) returns (df: map<string, nat>)
    ensures forall t :: t in terms ==> t in df && df[t] == DocFreq(docs, t)
  {
    df := map t | t in terms :: 0;
    for i := 0 to |docs|
      invariant df.Keys == set t | t in terms
      invariant forall t :: t in df ==> df[t] == DocFreq(docs[..i], t)
    {
      TakeSnoc(docs, i);
      forall t ensures DocFreq(docs[..i + 1], t) == DocFreq(docs[..i], t) + if t in docs[i] then 1 else 0 {
        DocFreqConcat(docs[..i], [docs[i]], t);
        assert [docs[i]][1..] == [];
      }
      df := map t | t in df :: if t in docs[i] then df[t] + 1 else df[t];
    }
    assert docs[..|docs|] == docs;
  }

  method Bm25Scores(p: Params, terms: seq<string>, docs: seq<seq<string>>) returns (out: seq<real>)
    requires p.Valid()
    ensures |out| == |docs|
    ensures forall i :: 0 <= i < |docs| ==> out[i] == Score(p, docs, terms, docs[i])
  {
    out := [];
    if docs == [] {
      return;
    }
    var df := DocFreqs(docs, terms);
    var idf := map t | t in terms :: p.log(1.0 + (|docs| as real - df[t] as real + 0.5) / (df[t] as real + 0.5));
    var average := AverageLength(docs);
    for i := 0 to |docs|
      invariant |out| == i
      invariant forall j :: 0 <= j < i ==> out[j] == Score(p, docs, terms, docs[j])
    {
      var score := ScoreLoop(p, docs, terms, docs[i], idf, average);
      out := out + [score];
    }
  }

  method ScoreLoop(p: Params, docs: seq<seq<string>>, terms: seq<string>, d: seq<string>, idf: map<string, real>,
                   average: real)
    returns (score: real)
    requires p.Valid() && docs != [] && average == AverageLength(docs)
    requires forall t :: t in terms ==> t in idf && idf[t] == Idf(p, docs, t)
    ensures score == Score(p, docs, terms, d)
  {
    score := 0.0;
    for k := 0 to |terms|
      invariant score == Score(p, docs, terms[..k], d)
    {
      assert terms[..k + 1][..k] == terms[..k];
      var gain := TermScore(p, docs, d, terms[k], idf[terms[k]], average);
      score := score + gain;
    }
    assert terms[..|terms|] == terms;
  }

  method TermScore(p: Params, docs: seq<seq<string>>, d: seq<string>, t: string, idf: real, average: real)
    returns (gain: real)
    requires p.Valid() && docs != [] && average == AverageLength(docs) && idf == Idf(p, docs, t)
    ensures gain == Contribution(p, docs, d, t)
  {
    var f := multiset(d)[t];
    if f == 0 {
      return 0.0;
    }
    var denom := Denominator(p, f, |d|, average);
    DenominatorExceeds(p, f, |d|, docs);
    gain := idf * (f as real * (p.k1 + 1.0)) / denom;
  }

  // ---------------------------------------------------------------- positivity and saturation

  lemma ProductPositive(x: real, y: real)
    requires x > 0.0 && y > 0.0
    ensures x * y > 0.0
  {
  }

  lemma QuotientPositive(x: real, y: real)
    requires x > 0.0 && y > 0.0
    ensures x / y > 0.0
  {
    assert x / y * y == x;
  }

  /** The average length of documents is positive as soon as one token exists, so the length
      normalisation keeps the denominator above the term frequency. */
  lemma DenominatorExceeds(p: Params, f: nat, length: nat, docs: seq<seq<string>>)
    requires p.Valid() && f > 0 && docs != []
    ensures length > 0 && TotalLength(docs) > 0 ==> Denominator(p, f, length, AverageLength(docs)) > f as real
    ensures Denominator(p, f, length, AverageLength(docs)) > 0.0
  {
    var average := AverageLength(docs);
    var share := if average != 0.0 then length as real / average else 0.0;
    var norm := Norm(p.k1, p.b, share);
    assert Denominator(p, f, length, average) == f as real + norm;
    if TotalLength(docs) > 0 {
      QuotientPositive(TotalLength(docs) as real, |docs| as real);
      assert average > 0.0;
      if length > 0 {
        QuotientPositive(length as real, average);
        NormPositive(p.k1, p.b, share);
        assert norm > 0.0;
      }
    }
    assert share >= 0.0;
    NormPositive(p.k1, p.b, share);
  }

  lemma NormPositive(k1: real, b: real, share: real)
    requires k1 > 0.0 && 0.0 <= b <= 1.0 && share >= 0.0
    ensures Norm(k1, b, share) >= 0.0
    ensures share > 0.0 ==> Norm(k1, b, share) > 0.0
  {
    var x := b * share;
    if b > 0.0 && share > 0.0 {
      ProductPositive(b, share);
    } else {
      assert x == 0.0;
    }
    var y := 1.0 - b + x;
    assert share > 0.0 ==> y > 0.0;
    if y > 0.0 {
      ProductPositive(k1, y);
    } else {
      assert k1 * y == 0.0;
    }
  }

  lemma IdfPositive(p: Params, docs: seq<seq<string>>, t: string)
    requires p.Valid()
    ensures Idf(p, docs, t) > 0.0
  {
    DocFreqBounded(docs, t);
    var (n, df) := (|docs| as real, DocFreq(docs, t) as real);
    QuotientPositive(n - df + 0.5, df + 0.5);
  }

  /** Under an increasing logarithm the rarer of two terms weighs more. */
  lemma RareTermsWeighMore(p: Params, docs: seq<seq<string>>, t: string, u: string)
    requires p.Valid() && DocFreq(docs, t) < DocFreq(docs, u)
    requires forall x, y :: 1.0 < x < y ==> p.log(x) < p.log(y)
    ensures Idf(p, docs, t) > Idf(p, docs, u)
  {
    DocFreqBounded(docs, u);
    var n := |docs| as real;
    var (a, b) := (DocFreq(docs, t) as real, DocFreq(docs, u) as real);
    QuotientPositive(n - a + 0.5, a + 0.5);
    QuotientPositive(n - b + 0.5, b + 0.5);
    OddsFall(n - b + 0.5, n - a + 0.5, a + 0.5, b + 0.5);
  }

  /** A larger dividend over a smaller divisor makes the larger quotient. */
  lemma OddsFall(low: real, high: real, small: real, large: real)
    requires 0.0 < low < high && 0.0 < small < large
    ensures low / large < high / small
  {
    var (x, y) := (low / large, high / small);
    QuotientPositive(low, large);
    ProductPositive(x, large - small);
    CancelFactor(x, y, small);
  }

  lemma CancelFactor(x: real, y: real, d: real)
    requires d > 0.0 && x * d < y * d
    ensures x < y
  {
    if y <= x { ProductOrder(y, x, d); }
  }

  lemma ProductOrder(x: real, y: real, d: real)
    requires d > 0.0 && x <= y
    ensures x * d <= y * d
  {
    if x < y { ProductPositive(y - x, d); }
    assert (y - x) * d == y * d - x * d;
  }

  /** x scaled by a proper fraction. */
  lemma ProperShare(x: real, f: real, g: real)
    requires x > 0.0 && 0.0 < f < g
    ensures 0.0 < x * f / g < x
  {
    ProductPositive(x, f);
    QuotientPositive(x * f, g);
    ProductPositive(x, g - f);
    QuotientPositive(x * (g - f), g);
    assert x * (g - f) / g == x - x * f / g by {
      var (q, r) := (x * f / g, x * (g - f) / g);
      assert q * g == x * f && r * g == x * (g - f);
      assert (q + r) * g == x * g;
    }
  }

  lemma ContributionBounds(p: Params, docs: seq<seq<string>>, d: seq<string>, t: string)
    requires p.Valid() && d in docs
    ensures t !in d ==> Contribution(p, docs, d, t) == 0.0
    ensures t in d ==> 0.0 < Contribution(p, docs, d, t) < (p.k1 + 1.0) * Idf(p, docs, t)
  {
    if t in d {
      var f := multiset(d)[t];
      TotalLengthPositive(docs, d);
      DenominatorExceeds(p, f, |d|, docs);
      IdfPositive(p, docs, t);
      var (idf, denom) := (Idf(p, docs, t), Denominator(p, f, |d|, AverageLength(docs)));
      var x := (p.k1 + 1.0) * idf;
      ProductPositive(p.k1 + 1.0, idf);
      ProperShare(x, f as real, denom);
      ProductRegroup(idf, f as real, p.k1 + 1.0);
    }
  }

  lemma ProductRegroup(x: real, f: real, k: real)
    ensures x * (f * k) == k * x * f
  {
  }

  lemma {:induction false} TotalLengthPositive(docs: seq<seq<string>>, d: seq<string>)
    requires d in docs && d != []
    ensures TotalLength(docs) > 0
  {
    if docs[0] != d {
      TotalLengthPositive(docs[1..], d);
    }
  }

  /** (k1 + 1) times the idf, summed over the query terms that a document has. */
  ghost function Ceiling(p: Params, docs: seq<seq<string>>, terms: seq<string>, d: seq<string>): real {
    if terms == [] then 0.0
    else
      var n := |terms| - 1;
      Ceiling(p, docs, terms[..n], d) + if terms[n] in d then (p.k1 + 1.0) * Idf(p, docs, terms[n]) else 0.0
  }

  ghost predicate Overlaps(terms: seq<string>, d: seq<string>) { exists t :: t in terms && t in d }

  lemma OverlapsSnoc(init: seq<string>, t: string, d: seq<string>)
    ensures Overlaps(init + [t], d) <==> Overlaps(init, d) || t in d
  {
    if t in d { assert t in init + [t]; }
    if Overlaps(init, d) {
      var u :| u in init && u in d;
      assert u in init + [t];
    }
  }

  /** The score is zero without an overlap, and with one it is positive and strictly below the
      ceiling. */
  ghost predicate Saturates(overlap: bool, score: real, ceiling: real) {
    if overlap then 0.0 < score < ceiling else score == 0.0 == ceiling
  }

  lemma SaturatesSum(o: bool, s: real, c: real, o': bool, s': real, c': real)
    requires Saturates(o, s, c) && Saturates(o', s', c')
    ensures Saturates(o || o', s + s', c + c')
  {
  }

  /** A document scores above zero exactly when it shares a query term, and then stays strictly
      below (k1 + 1) times the summed idf of the terms it shares. */
  lemma {:induction false} Bm25PositiveAndSaturating(p: Params, docs: seq<seq<string>>, terms: seq<string>,
                                                     d: seq<string>)
    requires p.Valid() && d in docs
    ensures Saturates(Overlaps(terms, d), Score(p, docs, terms, d), Ceiling(p, docs, terms, d))
    decreases |terms|
  {
    if terms != [] {
      var n := |terms| - 1;
      var (init, t) := (terms[..n], terms[n]);
      Bm25PositiveAndSaturating(p, docs, init, d);
      ContributionBounds(p, docs, d, t);
      assert terms == init + [t];
      OverlapsSnoc(init, t, d);
      SaturatesSum(Overlaps(init, d), Score(p, docs, init, d), Ceiling(p, docs, init, d),
                   t in d, Contribution(p, docs, d, t), if t in d then (p.k1 + 1.0) * Idf(p, docs, t) else 0.0);
    }
  }

  lemma {:induction false} ScoreConcat(p: Params, docs: seq<seq<string>>, a: seq<string>, b: seq<string>,
                                       d: seq<string>)
    requires docs != []
    ensures Score(p, docs, a + b, d) == Score(p, docs, a, d) + Score(p, docs, b, d)
    decreases |b|
  {
    if b == [] {
      assert a + b == a;
    } else {
      var n := |b| - 1;
      ScoreConcat(p, docs, a, b[..n], d);
      assert (a + b)[..|a + b| - 1] == a + b[..n];
    }
  }

  /** The score of a document does not depend on the order in which the query's terms are enumerated. */
  lemma {:induction false} ScoreIgnoresEnumeration(p: Params, docs: seq<seq<string>>, a: seq<string>, b: seq<string>,
                                                   d: seq<string>)
    requires docs != [] && multiset(a) == multiset(b)
    ensures Score(p, docs, a, d) == Score(p, docs, b, d)
    decreases |a|
  {
    if a == [] {
      assert |b| == |multiset(b)| == 0;
    } else {
      var n := |a| - 1;
      var k := SameLast(a, b);
      ScoreIgnoresEnumeration(p, docs, a[..n], Without(b, k), d);
      ScoreWithout(p, docs, b, k, d);
    }
  }

  lemma SameLast(a: seq<string>, b: seq<string>) returns (k: nat)
    requires a != [] && multiset(a) == multiset(b)
    ensures k < |b| && b[k] == a[|a| - 1] && multiset(a[..|a| - 1]) == multiset(Without(b, k))
  {
    var n := |a| - 1;
    assert a == a[..n] + [a[n]] && a[n] in multiset(b);
    k :| 0 <= k < |b| && b[k] == a[n];
    WithoutMultiset(b, k);
  }

  lemma ScoreWithout(p: Params, docs: seq<seq<string>>, b: seq<string>, k: nat, d: seq<string>)
    requires docs != [] && k < |b|
    ensures Score(p, docs, b, d) == Score(p, docs, Without(b, k), d) + Contribution(p, docs, d, b[k])
  {
    ScoreConcat(p, docs, b[..k + 1], b[k + 1..], d);
    ScoreConcat(p, docs, b[..k], b[k + 1..], d);
    assert b == b[..k + 1] + b[k + 1..] && b[..k + 1][..k] == b[..k];
  }

  // ---------------------------------------------------------------- reciprocal rank fusion

  /** The sum of 1 / (k + rank) over the places (counted from 1) where the id occurs. */
  function RankSum(order: seq<string>, k: nat, id: string): real {
    if order == [] then 0.0
    else
      var n := |order| - 1;
      RankSum(order[..n], k, id) + if order[n] == id then RankTerm(k, n) else 0.0
  }

  /** 1 / (k + rank) for the place r counted from 0. */
  function RankTerm(k: nat, r: nat): (x: real)
    ensures x > 0.0
  {
    QuotientPositive(1.0, (k + r + 1) as real);
    1.0 / (k + r + 1) as real
  }

  lemma {:induction false} RankSumOf(order: seq<string>, k: nat, id: string)
    ensures id !in order ==> RankSum(order, k, id) == 0.0
    ensures id in order ==> RankSum(order, k, id) > 0.0
  {
    if order != [] {
      var n := |order| - 1;
      RankSumOf(order[..n], k, id);
      assert order == order[..n] + [order[n]];
    }
  }

  /** In a list without repetition the sum is the one term of the id's rank. */
  lemma {:induction false} RankSumAt(order: seq<string>, k: nat, r: nat)
    requires Distinct(order) && r < |order|
    ensures RankSum(order, k, order[r]) == RankTerm(k, r)
  {
    var n := |order| - 1;
    if r == n {
      assert order[n] !in order[..n];
      RankSumOf(order[..n], k, order[n]);
    } else {
      RankSumAt(order[..n], k, r);
    }
  }

  method AddRanks(order: seq<string>, k: nat, start: map<string, real>) returns (scores: map<string, real>)
    ensures scores.Keys == start.Keys + set id | id in order
    ensures forall id :: id in scores ==> scores[id] == (if id in start then start[id] else 0.0) + RankSum(order, k, id)
  {
    scores := start;
    for r := 0 to |order|
      invariant scores.Keys == start.Keys + set id | id in order[..r]
      invariant forall id :: id in scores ==>
        scores[id] == (if id in start then start[id] else 0.0) + RankSum(order[..r], k, id)
    {
      TakeSnoc(order, r);
      assert order[..r + 1][..r] == order[..r];
      var id := order[r];
      RankSumOf(order[..r], k, id);
      scores := scores[id := (if id in scores then scores[id] else 0.0) + RankTerm(k, r)];
    }
    assert order[..|order|] == order;
  }

  /** Fusion scores exactly the ids of either list, each by its ranks in both. */
  method RrfFuse(dense: seq<string>, sparse: seq<string>, k: nat) returns (scores: map<string, real>)
    ensures scores.Keys == (set id | id in dense) + (set id | id in sparse)
    ensures forall id :: id in scores ==>
      scores[id] == RankSum(dense, k, id) + RankSum(sparse, k, id) && scores[id] > 0.0
    ensures Distinct(dense) && Distinct(sparse) ==> SharesOfPlaces(dense, sparse, k, scores)
  {
    var first := AddRanks(dense, k, map[]);
    scores := AddRanks(sparse, k, first);
    forall id | id in scores
      ensures scores[id] == RankSum(dense, k, id) + RankSum(sparse, k, id) && scores[id] > 0.0
    {
      RankSumOf(dense, k, id);
      RankSumOf(sparse, k, id);
    }
    if Distinct(dense) && Distinct(sparse) {
      SumsAreShares(dense, sparse, k, scores);
    }
  }

  /** x is what a list gives an id: the reciprocal of k plus its place counted from 1, or 0. */
  ghost predicate ShareOfPlace(order: seq<string>, k: nat, id: string, x: real) {
    if id in order then exists r: nat :: r < |order| && order[r] == id && x * (k + r + 1) as real == 1.0 else x == 0.0
  }

  /** Every id has the sum of what the two lists give it. */
  ghost predicate SharesOfPlaces(dense: seq<string>, sparse: seq<string>, k: nat, scores: map<string, real>) {
    forall id :: id in scores ==> exists x, y ::
      ShareOfPlace(dense, k, id, x) && ShareOfPlace(sparse, k, id, y) && scores[id] == x + y
  }

  lemma SumIsShare(order: seq<string>, k: nat, id: string)
    requires Distinct(order)
    ensures ShareOfPlace(order, k, id, RankSum(order, k, id))
  {
    RankSumOf(order, k, id);
    if id in order {
      var r: nat :| r < |order| && order[r] == id;
      RankSumAt(order, k, r);
    }
  }

  lemma SumsAreShares(dense: seq<string>, sparse: seq<string>, k: nat, scores: map<string, real>)
    requires Distinct(dense) && Distinct(sparse)
    requires forall id :: id in scores ==> scores[id] == RankSum(dense, k, id) + RankSum(sparse, k, id)
    ensures SharesOfPlaces(dense, sparse, k, scores)
  {
    forall id | id in scores
      ensures exists x, y ::
        ShareOfPlace(dense, k, id, x) && ShareOfPlace(sparse, k, id, y) && scores[id] == x + y
    {
      SumIsShare(dense, k, id);
      SumIsShare(sparse, k, id);
    }
  }

  /** a stands no later in the list than b: b is not listed, or a is and not after it. */
  ghost predicate NoLater(order: seq<string>, a: string, b: string) {
    b in order ==> a in order && forall i, j ::
      0 <= i < |order| && 0 <= j < |order| && order[i] == a && order[j] == b ==> i <= j
  }

  lemma EarlierShare(order: seq<string>, k: nat, a: string, b: string, x: real, y: real)
    requires ShareOfPlace(order, k, a, x) && ShareOfPlace(order, k, b, y) && NoLater(order, a, b)
    ensures x >= y
    ensures a != b && a in order ==> x > y
  {
    if a in order {
      var d := PlaceOf(order, k, a, x);
      ReciprocalPositive(x, d);
      if b in order {
        var e := PlaceOf(order, k, b, y);
        PlacesCompare(order, k, a, b, d, e);
        ReciprocalsFall(x, d, y, e);
      }
    }
  }

  /** k plus a place of the id, counted from 1. */
  ghost predicate PlaceIs(order: seq<string>, k: nat, id: string, d: real) {
    exists r: nat :: r < |order| && order[r] == id && d == (k + r + 1) as real
  }

  lemma PlaceOf(order: seq<string>, k: nat, id: string, x: real) returns (d: real)
    requires ShareOfPlace(order, k, id, x) && id in order
    ensures PlaceIs(order, k, id, d) && d > 0.0 && x * d == 1.0
  {
    var r: nat :| r < |order| && order[r] == id && x * (k + r + 1) as real == 1.0;
    d := (k + r + 1) as real;
  }

  lemma PlacesCompare(order: seq<string>, k: nat, a: string, b: string, d: real, e: real)
    requires NoLater(order, a, b) && PlaceIs(order, k, a, d) && PlaceIs(order, k, b, e)
    ensures d <= e && (a != b ==> d < e)
  {
    var r: nat :| r < |order| && order[r] == a && d == (k + r + 1) as real;
    var s: nat :| s < |order| && order[s] == b && e == (k + s + 1) as real;
  }

  lemma ReciprocalPositive(x: real, d: real)
    requires d > 0.0 && x * d == 1.0
    ensures x > 0.0
  {
    if x <= 0.0 { ProductOrder(x, 0.0, d); }
  }

  lemma ReciprocalsFall(x: real, d: real, y: real, e: real)
    requires 0.0 < d <= e && x * d == 1.0 && y * e == 1.0
    ensures x >= y
    ensures d < e ==> x > y
  {
    ReciprocalPositive(x, d);
    ReciprocalPositive(y, e);
    ProductOrder(d, e, y);
    assert y * d <= x * d;
    if x < y { ProductPositive(y - x, d); }
    if x == y && d < e { ProductPositive(e - d, y); }
  }

  /** An id that stands no later than another in both lists, and is listed at all, scores strictly more. */
  lemma EarlierScoresMore(dense: seq<string>, sparse: seq<string>, k: nat, scores: map<string, real>, a: string,
                          b: string)
    requires SharesOfPlaces(dense, sparse, k, scores) && a in scores && b in scores && a != b
    requires NoLater(dense, a, b) && NoLater(sparse, a, b) && (a in dense || a in sparse)
    ensures scores[a] > scores[b]
  {
    var x, y :| ShareOfPlace(dense, k, a, x) && ShareOfPlace(sparse, k, a, y) && scores[a] == x + y;
    var u, v :| ShareOfPlace(dense, k, b, u) && ShareOfPlace(sparse, k, b, v) && scores[b] == u + v;
    EarlierShare(dense, k, a, b, x, u);
    EarlierShare(sparse, k, a, b, y, v);
  }

  // ---------------------------------------------------------------- min-max normalisation

  ghost predicate Extremes(values: map<string, real>, lo: real, hi: real) {
    && (exists x :: x in values && values[x] == lo) && (exists x :: x in values && values[x] == hi)
    && forall x :: x in values ==> lo <= values[x] <= hi
  }

  /** Where a value lands between the extremes. */
  function ScaleOrOne(x: real, lo: real, hi: real): real
    requires lo <= hi
  {
    if hi == lo then 1.0 else Scale(x, lo, hi)
  }

  /** Values are scaled between the extremes: they land in [0, 1], in the same order; the largest lands
      on 1, and the smallest on 0 unless all are equal. */
  ghost predicate Normalized(values: map<string, real>, r: map<string, real>) {
    && r.Keys == values.Keys
    && (forall lo, hi :: Extremes(values, lo, hi) ==>
          lo <= hi && forall x :: x in r ==> r[x] == ScaleOrOne(values[x], lo, hi))
    && (forall x :: x in r ==> 0.0 <= r[x] <= 1.0)
    && (forall x, y :: x in r && y in r ==> (r[x] < r[y] <==> values[x] < values[y]))
    && (values != map[] ==> exists x :: x in r && r[x] == 1.0)
    && ((exists x, y :: x in r && y in r && values[x] != values[y]) ==> exists x :: x in r && r[x] == 0.0)
  }

  function Scale(x: real, lo: real, hi: real): real
    requires lo < hi
  {
    (x - lo) / (hi - lo)
  }

  lemma ScaleKeepsOrder(x: real, y: real, lo: real, hi: real)
    requires lo < hi && lo <= x <= hi && lo <= y <= hi
    ensures 0.0 <= Scale(x, lo, hi) <= 1.0
    ensures Scale(x, lo, hi) < Scale(y, lo, hi) <==> x < y
    ensures Scale(lo, lo, hi) == 0.0 && Scale(hi, lo, hi) == 1.0
  {
    ScaleOrder(x - lo, y - lo, hi - lo);
    ScaleOrder(x - lo, 0.0, hi - lo);
    ScaleOrder(hi - lo, x - lo, hi - lo);
  }

  lemma ExtremesAreUnique(values: map<string, real>, lo: real, hi: real)
    requires Extremes(values, lo, hi)
    ensures lo <= hi && forall a, b :: Extremes(values, a, b) ==> a == lo && b == hi
  {
  }

  lemma EvenIsNormalized(values: map<string, real>, x: real)
    requires Extremes(values, x, x)
    ensures Normalized(values, map i | i in values :: 1.0)
  {
    var r := map i | i in values :: 1.0;
    var w :| w in values && values[w] == x;
    ExtremesAreUnique(values, x, x);
    assert r[w] == 1.0;
  }

  lemma ScaledIsNormalized(values: map<string, real>, lo: real, hi: real)
    requires Extremes(values, lo, hi) && lo < hi
    ensures Normalized(values, map i | i in values :: Scale(values[i], lo, hi))
  {
    var r := map i | i in values :: Scale(values[i], lo, hi);
    var v :| v in values && values[v] == lo;
    var w :| w in values && values[w] == hi;
    ExtremesAreUnique(values, lo, hi);
    forall x, y | x in r && y in r
      ensures 0.0 <= r[x] <= 1.0 && (r[x] < r[y] <==> values[x] < values[y])
    {
      ScaleKeepsOrder(values[x], values[y], lo, hi);
    }
    ScaleKeepsOrder(hi, lo, lo, hi);
    assert r[w] == 1.0 && r[v] == 0.0;
  }

  method MinMaxNormalize(values: map<string, real>) returns (r: map<string, real>)
    ensures Normalized(values, r)
  {
    if values == map[] {
      return map[];
    }
    var lo, hi := Bounds(values);
    if hi == lo {
      r := map x | x in values :: 1.0;
      EvenIsNormalized(values, lo);
    } else {
      r := map x | x in values :: Scale(values[x], lo, hi);
      ScaledIsNormalized(values, lo, hi);
    }
  }

  lemma ScaleOrder(a: real, b: real, span: real)
    requires span > 0.0
    ensures a < b <==> a / span < b / span
    ensures 0.0 / span == 0.0 && span / span == 1.0
  {
    assert a / span * span == a && b / span * span == b;
    if a < b {
      QuotientPositive(b - a, span);
      assert b / span - a / span == (b - a) / span;
    } else {
      assert a - b >= 0.0;
      if a > b {
        QuotientPositive(a - b, span);
        assert a / span - b / span == (a - b) / span;
      }
    }
  }

  method Bounds(values: map<string, real>) returns (lo: real, hi: real)
    requires values != map[]
    ensures Extremes(values, lo, hi)
  {
    var todo := values.Keys;
    var x :| x in todo;
    lo, hi, todo := values[x], values[x], todo - {x};
    while todo != {}
      invariant todo <= values.Keys
      invariant exists y :: y in values && values[y] == lo
      invariant exists y :: y in values && values[y] == hi
      invariant forall y :: y in values && y !in todo ==> lo <= values[y] <= hi
      invariant lo <= hi
      decreases |todo|
    {
      var y :| y in todo;
      if values[y] < lo { lo := values[y]; }
      if values[y] > hi { hi := values[y]; }
      todo := todo - {y};
    }
  }
}
