/** What routing prefers and whom it admits (router/engine.py), in terms of the backends' own data. */
module RouterTradeoff {
  import opened Prelude
  import opened Router

  // ---------------------------------------------------------------- who is in the chain

  /** The hard filters. */
  ghost predicate Admissible(q: Query, s: Spec) {
    && q.policyAllows(s.modelId)
    && (q.residency == "" || s.residency == q.residency)
    && (q.maxCostPer1k.Some? ==> s.costPer1k <= q.maxCostPer1k.value)
    && forall c :: c in q.required ==> c in s.capabilities
  }

  ghost predicate AnyAdmissible(q: Query, registry: seq<Spec>, healthy: string -> bool) {
    exists s :: s in registry && Admissible(q, s) && healthy(s.name)
  }

  lemma PassesIffAdmissible(q: Query, s: Spec)
    ensures Verdict(q, s).None? <==> Admissible(q, s)
  {
  }

  lemma PoolIsAdmissible(q: Query, registry: seq<Spec>, healthy: string -> bool, s: Spec)
    ensures s in Pool(q, registry, healthy) <==>
      s in registry && Admissible(q, s) && (healthy(s.name) || !AnyAdmissible(q, registry, healthy))
  {
    var eligible := Eligible(q, registry);
    var up := Filter(eligible, (s: Spec) => healthy(s.name));
    FilterMembers(registry, (s: Spec) => Verdict(q, s).None?);
    FilterMembers(eligible, (s: Spec) => healthy(s.name));
    forall x ensures x in eligible <==> x in registry && Admissible(q, x) { PassesIffAdmissible(q, x); }
    if up != [] {
      assert up[0] in up;
    }
    if AnyAdmissible(q, registry, healthy) {
      var x :| x in registry && Admissible(q, x) && healthy(x.name);
      assert x in up;
    }
  }

  /** A backend is tried exactly when it passes every hard filter and is healthy, or nobody who passes is; and
      the request is refused exactly when nobody passes. */
  lemma ChainIsAdmissible(q: Query, registry: seq<Spec>, healthy: string -> bool, s: Spec)
    requires DistinctNames(registry) && s in registry
    ensures RouteOf(q, registry, healthy).Err? <==> forall x :: x in registry ==> !Admissible(q, x)
    ensures var r := RouteOf(q, registry, healthy);
      r.Ok? ==> (s.name in Chain(r.value) <==>
        Admissible(q, s) && (healthy(s.name) || !AnyAdmissible(q, registry, healthy)))
  {
    var r := RouteOf(q, registry, healthy);
    var ranked := Ranked(q, Pool(q, registry, healthy));
    RouteMeaning(q, registry, healthy);
    forall x ensures Verdict(q, x).None? <==> Admissible(q, x) { PassesIffAdmissible(q, x); }
    if r.Ok? {
      PoolIsAdmissible(q, registry, healthy, s);
      SortPermutes(Pool(q, registry, healthy), ByUtility(q, Pool(q, registry, healthy)));
      assert s in Pool(q, registry, healthy) <==> s in multiset(ranked);
      NameInRanking(q, registry, healthy, s);
    }
  }

  lemma NameInRanking(q: Query, registry: seq<Spec>, healthy: string -> bool, s: Spec)
    requires DistinctNames(registry) && s in registry
    ensures var ranked := Ranked(q, Pool(q, registry, healthy)); s.name in Names(ranked) <==> s in ranked
  {
    var ranked := Ranked(q, Pool(q, registry, healthy));
    if s in ranked {
      var i :| 0 <= i < |ranked| && ranked[i] == s;
      assert Names(ranked)[i] == s.name;
    }
    if s.name in Names(ranked) {
      var i :| 0 <= i < |ranked| && Names(ranked)[i] == s.name;
      RankedAreRegistered(q, registry, healthy, ranked[i]);
      var k :| 0 <= k < |registry| && registry[k] == ranked[i];
      var l :| 0 <= l < |registry| && registry[l] == s;
    }
  }

  /** The reason given for a backend is the first filter it fails, in the order policy, residency, cost,
      capabilities. */
  ghost predicate Fails(q: Query, s: Spec, why: Rejection) {
    match why
    case PolicyDenied => !q.policyAllows(s.modelId)
    case WrongResidency => q.residency != "" && s.residency != q.residency
    case OverBudget => q.maxCostPer1k.Some? && s.costPer1k > q.maxCostPer1k.value
    case MissingCapability => exists c :: c in q.required && c !in s.capabilities
  }

  ghost predicate FailsFirst(q: Query, s: Spec, why: Rejection) {
    && Fails(q, s, why)
    && (why != PolicyDenied ==> !Fails(q, s, PolicyDenied))
    && (why == OverBudget || why == MissingCapability ==> !Fails(q, s, WrongResidency))
    && (why == MissingCapability ==> !Fails(q, s, OverBudget))
  }

  lemma {:induction false} RejectedForReason(q: Query, registry: seq<Spec>, s: Spec, why: Rejection)
    requires s in registry && FailsFirst(q, s, why)
    ensures (s.name, why) in Rejections(q, registry)
  {
    if registry[0] == s {
      assert Verdict(q, s) == Some(why);
    } else {
      RejectedForReason(q, registry[1..], s, why);
    }
  }

  // ---------------------------------------------------------------- quality, cost and latency

  /** m is the largest of these. */
  ghost predicate Largest(pool: seq<Spec>, f: Spec -> real, m: real) {
    (exists s :: s in pool && f(s) == m) && forall s :: s in pool ==> f(s) <= m
  }

  /** The difference of two amounts on the scale that the largest sets, if that is positive. */
  function OnScale(difference: real, largest: real): real { if largest > 0.0 then difference / largest else 0.0 }

  lemma LargestIsMax(pool: seq<Spec>, f: Spec -> real, m: real)
    requires Largest(pool, f, m)
    ensures MaxBy(pool, f) == m
  {
    MaxByIsMax(pool, f);
  }

  lemma SharesSubtract(a: real, b: real, m: real)
    requires m > 0.0
    ensures a / m - b / m == (a - b) / m
  {
    assert (a / m - b / m) * m == a - b;
  }

  lemma ScoreDifference(q: Query, c: real, l: real, x: Spec, y: Spec)
    ensures Score(q, c, l, x) - Score(q, c, l, y)
         == q.difficulty * (x.quality - y.quality)
            - 0.6 * (1.0 - q.difficulty) * OnScale(x.costPer1k - y.costPer1k, c)
            - 0.05 * OnScale(x.latencyMs - y.latencyMs, l)
  {
    if c > 0.0 { SharesSubtract(x.costPer1k, y.costPer1k, c); }
    if l > 0.0 { SharesSubtract(x.latencyMs, y.latencyMs, l); }
    var (nx, ny) := (if c > 0.0 then x.costPer1k / c else 0.0, if c > 0.0 then y.costPer1k / c else 0.0);
    Distribute(q.difficulty, x.quality, y.quality);
    Distribute(0.6 * (1.0 - q.difficulty), nx, ny);
  }

  lemma Distribute(k: real, a: real, b: real)
    ensures k * a - k * b == k * (a - b)
  {
  }

  /** The utility that a decision reports: quality weighted by the difficulty, less cost weighted by 0.6 of the ease
      and latency weighted by 0.05, both on the scale of the pool. */
  lemma ReportedUtility(q: Query, pool: seq<Spec>, c: real, l: real, x: Spec)
    requires Largest(pool, (s: Spec) => s.costPer1k, c) && Largest(pool, (s: Spec) => s.latencyMs, l)
    ensures Utility(q, pool, x) == q.difficulty * x.quality
      - 0.6 * (1.0 - q.difficulty) * OnScale(x.costPer1k, c) - 0.05 * OnScale(x.latencyMs, l)
  {
    LargestIsMax(pool, (s: Spec) => s.costPer1k, c);
    LargestIsMax(pool, (s: Spec) => s.latencyMs, l);
  }

  /** The place of a backend in the ranking. */
  ghost predicate Precedes(q: Query, pool: seq<Spec>, x: Spec, y: Spec) {
    exists i, j :: 0 <= i < j < |Ranked(q, pool)| && Ranked(q, pool)[i] == x && Ranked(q, pool)[j] == y
  }

  /** The trade-off: how much more quality, weighted by the difficulty, x offers than it costs more, weighted by
      0.6 of the ease, and than it is slower, weighted by 0.05. */
  ghost predicate WorthMore(q: Query, c: real, l: real, x: Spec, y: Spec) {
    q.difficulty * (x.quality - y.quality)
      > 0.6 * (1.0 - q.difficulty) * OnScale(x.costPer1k - y.costPer1k, c)
        + 0.05 * OnScale(x.latencyMs - y.latencyMs, l)
  }

  lemma PlacesOf(q: Query, pool: seq<Spec>, x: Spec, y: Spec) returns (i: nat, j: nat)
    requires x in pool && y in pool
    ensures i < |Ranked(q, pool)| && j < |Ranked(q, pool)| && Ranked(q, pool)[i] == x && Ranked(q, pool)[j] == y
    ensures i < j ==> ByUtility(q, pool)(x, y)
    ensures j < i ==> ByUtility(q, pool)(y, x)
  {
    var ranked := Ranked(q, pool);
    ByUtilityIsTotal(q, pool);
    SortPermutes(pool, ByUtility(q, pool));
    SortSorts(pool, ByUtility(q, pool));
    assert x in multiset(ranked) && y in multiset(ranked);
    i :| 0 <= i < |ranked| && ranked[i] == x;
    j :| 0 <= j < |ranked| && ranked[j] == y;
  }

  lemma UtilitiesCompare(q: Query, pool: seq<Spec>, c: real, l: real, x: Spec, y: Spec)
    requires Largest(pool, (s: Spec) => s.costPer1k, c) && Largest(pool, (s: Spec) => s.latencyMs, l)
    ensures WorthMore(q, c, l, x, y) <==> Utility(q, pool, x) > Utility(q, pool, y)
  {
    LargestIsMax(pool, (s: Spec) => s.costPer1k, c);
    LargestIsMax(pool, (s: Spec) => s.latencyMs, l);
    ScoreDifference(q, c, l, x, y);
  }

  /** Of two backends of a pool, x comes first exactly when it is worth more, or neither is and it has the later
      name. */
  lemma WorthMoreFirst(q: Query, pool: seq<Spec>, c: real, l: real, x: Spec, y: Spec)
    requires Largest(pool, (s: Spec) => s.costPer1k, c) && Largest(pool, (s: Spec) => s.latencyMs, l)
    requires DistinctNames(pool) && x in pool && y in pool && x.name != y.name
    ensures Precedes(q, pool, x, y) <==>
      WorthMore(q, c, l, x, y) || (!WorthMore(q, c, l, y, x) && StrLe(y.name, x.name))
  {
    UtilitiesCompare(q, pool, c, l, x, y);
    UtilitiesCompare(q, pool, c, l, y, x);
    StrLeTotal(x.name, y.name);
    if Precedes(q, pool, x, y) {
      var i, j :| 0 <= i < j < |Ranked(q, pool)| && Ranked(q, pool)[i] == x && Ranked(q, pool)[j] == y;
      ByUtilityIsTotal(q, pool);
      SortSorts(pool, ByUtility(q, pool));
      assert ByUtility(q, pool)(x, y);
    }
    var i, j := PlacesOf(q, pool, x, y);
  }

  lemma LargestExists(pool: seq<Spec>, f: Spec -> real)
    requires pool != []
    ensures Largest(pool, f, MaxBy(pool, f))
  {
    MaxByIsMax(pool, f);
  }

  /** Of two backends with the same cost and quality the faster one comes first, whatever the difficulty. */
  lemma FasterFirst(q: Query, pool: seq<Spec>, x: Spec, y: Spec)
    requires DistinctNames(pool) && x in pool && y in pool && 0.0 <= x.latencyMs < y.latencyMs
    requires x.costPer1k == y.costPer1k && x.quality == y.quality
    ensures Precedes(q, pool, x, y)
  {
    var (c, l) := (MaxBy(pool, (s: Spec) => s.costPer1k), MaxBy(pool, (s: Spec) => s.latencyMs));
    LargestExists(pool, (s: Spec) => s.costPer1k);
    LargestExists(pool, (s: Spec) => s.latencyMs);
    ShareGrows(x.latencyMs, y.latencyMs, l);
    SharesSubtract(x.latencyMs, y.latencyMs, l);
    assert q.difficulty * (x.quality - y.quality) == 0.0;
    assert OnScale(x.costPer1k - y.costPer1k, c) == 0.0;
    assert WorthMore(q, c, l, x, y);
    NamesTellApart(pool, x, y);
    WorthMoreFirst(q, pool, c, l, x, y);
  }

  lemma NamesTellApart(pool: seq<Spec>, x: Spec, y: Spec)
    requires DistinctNames(pool) && x in pool && y in pool && x != y
    ensures x.name != y.name
  {
    var i :| 0 <= i < |pool| && pool[i] == x;
    var j :| 0 <= j < |pool| && pool[j] == y;
  }

  /** Difficulty shifts the choice one way only: a better and costlier backend that is worth more than another at
      one difficulty stays worth more at every higher one. */
  lemma HarderFavoursQuality(q: Query, harder: Query, c: real, l: real, x: Spec, y: Spec)
    requires WorthMore(q, c, l, x, y) && q.difficulty <= harder.difficulty
    requires x.quality >= y.quality && x.costPer1k >= y.costPer1k
    ensures WorthMore(harder, c, l, x, y)
  {
    var (dq, dc) := (x.quality - y.quality, OnScale(x.costPer1k - y.costPer1k, c));
    if c > 0.0 { ShareNonnegative(x.costPer1k - y.costPer1k, c); }
    var more := harder.difficulty - q.difficulty;
    ProductNonnegative(more, dq);
    ProductNonnegative(more, dc);
    assert harder.difficulty * dq == q.difficulty * dq + more * dq;
    assert 0.6 * (1.0 - harder.difficulty) * dc == 0.6 * (1.0 - q.difficulty) * dc - 0.6 * (more * dc);
  }

  lemma ShareNonnegative(a: real, m: real)
    requires a >= 0.0 && m > 0.0
    ensures a / m >= 0.0
  {
  }

  lemma ProductNonnegative(a: real, b: real)
    requires a >= 0.0 && b >= 0.0
    ensures a * b >= 0.0
  {
  }
}
