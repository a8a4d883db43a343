/** What BM25 rewards (memory/scoring.py): rare terms, repeated terms and short documents. */
module Bm25Meaning {
  import opened Prelude
  import opened Scoring

  function LengthsOf(docs: seq<seq<string>>): int { SumBy(docs, (d: seq<string>) => |d|) }

  lemma {:induction false} TotalIsSum(docs: seq<seq<string>>)
    ensures TotalLength(docs) == LengthsOf(docs)
  {
    if docs != [] {
      TotalIsSum(docs[1..]);
      assert LengthsOf(docs) == |docs[0]| + LengthsOf(docs[1..]);
    }
  }

  /** The idf of a term is the logarithm of one more than the number of documents over half more than the number
      of those with the term. */
  lemma IdfMeaning(p: Params, docs: seq<seq<string>>, t: string) returns (x: real)
    ensures Idf(p, docs, t) == p.log(x)
    ensures x * (Having(docs, t) as real + 0.5) == |docs| as real + 1.0
  {
    HavingIsDocFreq(docs, t);
    var (n, df) := (|docs| as real, DocFreq(docs, t) as real);
    x := 1.0 + (n - df + 0.5) / (df + 0.5);
    assert (n - df + 0.5) / (df + 0.5) * (df + 0.5) == n - df + 0.5;
    assert x * (df + 0.5) == df + 0.5 + (n - df + 0.5) / (df + 0.5) * (df + 0.5);
  }

  /** In how many documents the term stands. */
  function Having(docs: seq<seq<string>>, t: string): nat { |Filter(docs, (d: seq<string>) => t in d)| }

  lemma {:induction false} HavingIsDocFreq(docs: seq<seq<string>>, t: string)
    ensures DocFreq(docs, t) == Having(docs, t)
  {
    if docs != [] {
      HavingIsDocFreq(docs[1..], t);
    }
  }

  // ---------------------------------------------------------------- one term of one document

  /** A document's length over the average. */
  function Share(docs: seq<seq<string>>, d: seq<string>): real
    requires docs != []
  {
    if AverageLength(docs) != 0.0 then |d| as real / AverageLength(docs) else 0.0
  }

  lemma DenominatorOf(p: Params, docs: seq<seq<string>>, d: seq<string>, t: string) returns (norm: real)
    requires p.Valid() && docs != [] && LengthsOf(docs) > 0 && t in d
    ensures AverageLength(docs) > 0.0 && norm > 0.0 && norm == Norm(p.k1, p.b, Share(docs, d))
    ensures Contribution(p, docs, d, t)
         == Idf(p, docs, t) * (multiset(d)[t] as real * (p.k1 + 1.0)) / (multiset(d)[t] as real + norm)
  {
    TotalIsSum(docs);
    QuotientPositive(TotalLength(docs) as real, |docs| as real);
    DenominatorExceeds(p, multiset(d)[t], |d|, docs);
    norm := Norm(p.k1, p.b, Share(docs, d));
  }

  lemma AverageShare(docs: seq<seq<string>>, d: seq<string>)
    requires docs != [] && d != [] && |d| * |docs| == LengthsOf(docs)
    ensures Share(docs, d) == 1.0
  {
    TotalIsSum(docs);
    var average := AverageLength(docs);
    var (x, n) := (TotalLength(docs), |docs| as real);
    QuotientTimes(x as real, n);
    ProductOfReals(|d|, |docs|);
    assert x == |d| * |docs| && average == x as real / n;
    SameFactor(average, |d| as real, |docs| as real);
    OverItself(average);
  }

  lemma QuotientTimes(x: real, n: real)
    requires n > 0.0
    ensures x / n * n == x
  {
  }

  lemma ProductOfReals(x: nat, y: nat)
    ensures (x * y) as real == x as real * y as real
  {
  }

  lemma OverItself(x: real)
    requires x != 0.0
    ensures x / x == 1.0
  {
  }

  lemma NormOfAverage(k1: real, b: real)
    ensures Norm(k1, b, 1.0) == k1
  {
  }

  /** In a document of average length a term that stands there f times counts idf * f * (k1 + 1) / (f + k1). */
  lemma AverageDocument(p: Params, docs: seq<seq<string>>, d: seq<string>, t: string)
    requires p.Valid() && docs != [] && t in d && |d| * |docs| == LengthsOf(docs)
    ensures var f := multiset(d)[t] as real;
      f + p.k1 > 0.0 && Contribution(p, docs, d, t) == Idf(p, docs, t) * (f * (p.k1 + 1.0)) / (f + p.k1)
  {
    LengthPositive(|d|, |docs|);
    var norm := DenominatorOf(p, docs, d, t);
    AverageShare(docs, d);
    NormOfAverage(p.k1, p.b);
  }

  lemma LengthPositive(x: nat, n: nat)
    requires x > 0 && n > 0
    ensures x * n > 0
  {
  }

  lemma SameFactor(x: real, y: real, k: real)
    requires k > 0.0 && x * k == y * k
    ensures x == y
  {
    if x < y { ProductPositive(y - x, k); }
    if y < x { ProductPositive(x - y, k); }
  }

  /** Of two documents of one length the one with the term more often counts more. */
  lemma RepetitionCounts(p: Params, docs: seq<seq<string>>, d: seq<string>, d': seq<string>, t: string)
    requires p.Valid() && docs != [] && LengthsOf(docs) > 0 && |d| == |d'|
    requires 0 < multiset(d)[t] < multiset(d')[t]
    ensures Contribution(p, docs, d, t) < Contribution(p, docs, d', t)
  {
    assert t in multiset(d) && t in multiset(d');
    var norm := DenominatorOf(p, docs, d, t);
    var norm' := DenominatorOf(p, docs, d', t);
    assert norm == norm';
    IdfPositive(p, docs, t);
    MoreOfBoth(Idf(p, docs, t), p.k1 + 1.0, multiset(d)[t] as real, multiset(d')[t] as real, norm);
  }

  lemma MoreOfBoth(idf: real, k: real, f: real, g: real, norm: real)
    requires idf > 0.0 && k > 0.0 && norm > 0.0 && 0.0 < f < g
    ensures idf * (f * k) / (f + norm) < idf * (g * k) / (g + norm)
  {
    SharesRise(f, g, norm);
    ProductPositive(idf, k);
    LessTimes(idf * k, f / (f + norm), g / (g + norm));
    RegroupedShare(idf, f, k, f + norm);
    RegroupedShare(idf, g, k, g + norm);
  }

  lemma RegroupedShare(idf: real, f: real, k: real, d: real)
    requires d > 0.0
    ensures idf * (f * k) / d == idf * k * (f / d)
  {
    Regroup(idf, f, k);
    ShareOfProduct(idf * k, f, d);
  }

  lemma LessTimes(x: real, r: real, s: real)
    requires x > 0.0 && r < s
    ensures x * r < x * s
  {
    ProductPositive(x, s - r);
    Distribute(x, s, r);
  }

  lemma ShareOfProduct(x: real, f: real, d: real)
    requires d > 0.0
    ensures x * f / d == x * (f / d)
  {
    assert x * f / d * d == x * f && f / d * d == f;
    Associate(x, f / d, d);
    SameFactor(x * f / d, x * (f / d), d);
  }

  lemma Associate(a: real, b: real, c: real)
    ensures a * b * c == a * (b * c)
  {
  }

  lemma Regroup(idf: real, f: real, k: real)
    ensures idf * (f * k) == idf * k * f
  {
  }

  lemma SharesRise(f: real, g: real, norm: real)
    requires norm > 0.0 && 0.0 < f < g
    ensures f / (f + norm) < g / (g + norm)
  {
    var (r, s) := (f / (f + norm), g / (g + norm));
    assert r * (f + norm) == f && s * (g + norm) == g;
    Complement(f, norm);
    Complement(g, norm);
    LargerDivisor(norm, f + norm, g + norm);
  }

  lemma Complement(f: real, norm: real)
    requires norm > 0.0 && f > 0.0
    ensures f / (f + norm) == 1.0 - norm / (f + norm)
  {
    assert f / (f + norm) * (f + norm) == f && norm / (f + norm) * (f + norm) == norm;
    SameFactor(f / (f + norm) + norm / (f + norm), 1.0, f + norm);
  }

  lemma LargerDivisor(x: real, d: real, e: real)
    requires x > 0.0 && 0.0 < d < e
    ensures x / e < x / d
  {
    var (u, v) := (x / d, x / e);
    assert u * d == x && v * e == x;
    QuotientPositive(x, e);
    ProductPositive(v, e - d);
    Distribute(v, e, d);
    CancelFactor(v, u, d);
  }

  lemma Distribute(v: real, e: real, d: real)
    ensures v * (e - d) == v * e - v * d
  {
  }

  /** Of two documents with the term equally often the shorter one counts more, unless b is 0. */
  lemma BrevityCounts(p: Params, docs: seq<seq<string>>, d: seq<string>, d': seq<string>, t: string)
    requires p.Valid() && p.b > 0.0 && docs != [] && LengthsOf(docs) > 0
    requires |d| < |d'| && multiset(d)[t] == multiset(d')[t] > 0
    ensures Contribution(p, docs, d, t) > Contribution(p, docs, d', t)
  {
    assert t in multiset(d) && t in multiset(d');
    var norm := DenominatorOf(p, docs, d, t);
    var norm' := DenominatorOf(p, docs, d', t);
    TotalIsSum(docs);
    QuotientPositive(TotalLength(docs) as real, |docs| as real);
    SharesGrow(|d| as real, |d'| as real, AverageLength(docs));
    NormGrows(p.k1, p.b, |d| as real / AverageLength(docs), |d'| as real / AverageLength(docs));
    IdfPositive(p, docs, t);
    var f := multiset(d)[t] as real;
    ProductPositive(f, p.k1 + 1.0);
    ProductPositive(Idf(p, docs, t), f * (p.k1 + 1.0));
    LargerDivisor(Idf(p, docs, t) * (f * (p.k1 + 1.0)), f + norm, f + norm');
  }

  lemma SharesGrow(a: real, b: real, m: real)
    requires m > 0.0 && a < b
    ensures a / m < b / m
  {
    assert a / m * m == a && b / m * m == b;
    CancelFactor(a / m, b / m, m);
  }

  lemma NormGrows(k1: real, b: real, s: real, s': real)
    requires k1 > 0.0 && b > 0.0 && s < s'
    ensures Norm(k1, b, s) < Norm(k1, b, s')
  {
    LessTimes(b, s, s');
    var (x, y) := (1.0 - b + b * s, 1.0 - b + b * s');
    LessTimes(k1, x, y);
    assert Norm(k1, b, s) == k1 * x && Norm(k1, b, s') == k1 * y;
  }
}
