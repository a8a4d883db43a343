/** Edge-loading (assembler/engine.py): strongest survivors at both ends, weakest in the middle. */
module EdgeLoad {
  import opened Prelude
  import opened Mmr

  /** `sorted(key=(score, id))`: weakest first. */
  function WeakestFirst(): (Scored, Scored) -> bool {
    (x: Scored, y: Scored) => x.blend < y.blend || (x.blend == y.blend && StrLe(x.c.id, y.c.id))
  }

  ghost predicate Weaker(x: Scored, y: Scored) { WeakestFirst()(x, y) && x.c.id != y.c.id }

  ghost predicate DistinctIds(s: seq<Scored>) { forall i, j :: 0 <= i < j < |s| ==> s[i].c.id != s[j].c.id }

  lemma WeakestFirstIsTotal()
    ensures TotalPreorder(WeakestFirst())
    ensures forall x, y :: WeakestFirst()(x, y) && WeakestFirst()(y, x) ==> x.c.id == y.c.id
  {
    var le := WeakestFirst();
    forall x, y ensures le(x, y) || le(y, x) { StrLeTotal(x.c.id, y.c.id); }
    forall x, y, z | le(x, y) && le(y, z) ensures le(x, z) {
      if StrLe(x.c.id, y.c.id) && StrLe(y.c.id, z.c.id) {
        StrLeTransitive(x.c.id, y.c.id, z.c.id);
      }
    }
    forall x, y | le(x, y) && le(y, x) ensures x.c.id == y.c.id { StrLeTotal(x.c.id, y.c.id); }
  }

  /** Where the i-th weakest of n goes ... */
  function PlaceOf(n: nat, i: nat): int { if i % 2 == 0 then n / 2 + i / 2 else n / 2 - (i + 1) / 2 }

  /** ... and which of the n stands at place p. */
  function IndexAt(n: nat, p: nat): (i: nat)
    requires p < n
    ensures i < n && PlaceOf(n, i) == p
  {
    if p >= n / 2 then 2 * (p - n / 2) else 2 * (n / 2 - p) - 1
  }

  lemma PlaceInverts(n: nat, i: nat)
    requires i < n
    ensures 0 <= PlaceOf(n, i) < n && IndexAt(n, PlaceOf(n, i)) == i
  {
    if i % 2 == 0 {
      assert i == 2 * (i / 2);
    } else {
      assert i + 1 == 2 * ((i + 1) / 2);
    }
  }

  /** The closed form of the arrangement. */
  function Arrange(ranked: seq<Scored>): (r: seq<Scored>)
    ensures |r| == |ranked|
  {
    seq(|ranked|, p requires 0 <= p < |ranked| => ranked[IndexAt(|ranked|, p)])
  }

  function EdgeLoaded(survivors: seq<Scored>): seq<Scored> { Arrange(Sort(survivors, WeakestFirst())) }

  /** One more survivor goes to the right of an even arrangement, and to the left of an odd one. */
  lemma PlacesShift(n: nat, p: nat)
    requires p < n
    ensures if n % 2 == 0 then IndexAt(n + 1, p) == IndexAt(n, p) else IndexAt(n + 1, p + 1) == IndexAt(n, p)
    ensures if n % 2 == 0 then IndexAt(n + 1, n) == n else IndexAt(n + 1, 0) == n
  {
  }

  lemma ArrangeSnoc(r: seq<Scored>, x: Scored)
    ensures Arrange(r + [x]) == if |r| % 2 == 0 then Arrange(r) + [x] else [x] + Arrange(r)
  {
    var n := |r|;
    forall p | 0 <= p < n
      ensures Arrange(r + [x])[if n % 2 == 0 then p else p + 1] == Arrange(r)[p]
    {
      PlacesShift(n, p);
    }
    if n > 0 {
      PlacesShift(n, 0);
    }
  }

  /** The code's deque walk computes the closed form. */
  method EdgeLoad(survivors: seq<Scored>) returns (out: seq<Scored>)
    ensures out == EdgeLoaded(survivors)
  {
    var ranked := Sort(survivors, WeakestFirst());
    out := [];
    for i := 0 to |ranked|
      invariant out == Arrange(ranked[..i])
    {
      assert ranked[..i + 1] == ranked[..i] + [ranked[i]];
      ArrangeSnoc(ranked[..i], ranked[i]);
      if i % 2 == 0 {
        out := out + [ranked[i]];
      } else {
        out := [ranked[i]] + out;
      }
    }
    assert ranked[..|ranked|] == ranked;
  }

  lemma {:induction false} ArrangePermutes(r: seq<Scored>)
    ensures multiset(Arrange(r)) == multiset(r)
    decreases |r|
  {
    if r != [] {
      var n := |r| - 1;
      assert r == r[..n] + [r[n]];
      ArrangePermutes(r[..n]);
      ArrangeSnoc(r[..n], r[n]);
    }
  }

  lemma EdgeLoadPermutes(survivors: seq<Scored>)
    ensures multiset(EdgeLoaded(survivors)) == multiset(survivors)
    ensures |EdgeLoaded(survivors)| == |survivors|
  {
    SortPermutes(survivors, WeakestFirst());
    ArrangePermutes(Sort(survivors, WeakestFirst()));
  }

  lemma RankedStrictly(survivors: seq<Scored>)
    requires DistinctIds(survivors)
    ensures var r := Sort(survivors, WeakestFirst());
      |r| == |survivors| && forall i, j :: 0 <= i < j < |r| ==> Weaker(r[i], r[j])
  {
    var r := Sort(survivors, WeakestFirst());
    WeakestFirstIsTotal();
    SortPermutes(survivors, WeakestFirst());
    SortSorts(survivors, WeakestFirst());
    forall x ensures multiset(survivors)[x] <= 1 { AtMostOne(survivors, x); }
    PermutationKeepsDistinct(survivors, r);
    forall i, j | 0 <= i < j < |r| ensures Weaker(r[i], r[j]) {
      assert r[i] in survivors && r[j] in survivors && r[i] != r[j];
    }
  }

  /** The i-th weakest survivor stands at n/2 + i/2 for even i and at n/2 - (i+1)/2 for odd i. */
  lemma EdgeLoadPlaces(survivors: seq<Scored>, i: nat)
    requires i < |survivors|
    ensures var (r, out, n) := (Sort(survivors, WeakestFirst()), EdgeLoaded(survivors), |survivors|);
      |r| == |out| == n && 0 <= PlaceOf(n, i) < n && out[PlaceOf(n, i)] == r[i]
  {
    EdgeLoadPermutes(survivors);
    SortPermutes(survivors, WeakestFirst());
    PlaceInverts(|survivors|, i);
  }

  lemma WeakerByIndex(survivors: seq<Scored>, p: nat, q: nat)
    requires DistinctIds(survivors) && p < |survivors| && q < |survivors|
    requires IndexAt(|survivors|, p) < IndexAt(|survivors|, q)
    ensures |EdgeLoaded(survivors)| == |survivors|
    ensures Weaker(EdgeLoaded(survivors)[p], EdgeLoaded(survivors)[q])
  {
    RankedStrictly(survivors);
  }

  /** Strength by place: falling up to n/2, rising from there on, and strongest at the ends. */
  lemma IndexOrder(n: nat, p: nat, q: nat)
    requires p < q < n
    ensures q <= n / 2 ==> IndexAt(n, q) < IndexAt(n, p)
    ensures n / 2 <= p ==> IndexAt(n, p) < IndexAt(n, q)
    ensures 0 < p && q == n - 1 ==> IndexAt(n, p) < IndexAt(n, q)
    ensures p == 0 && q < n - 1 ==> IndexAt(n, q) < IndexAt(n, p)
  {
  }

  /** Strength falls strictly to a single valley at n/2 and rises strictly after it, and no inner
      survivor is as strong as either end. */
  lemma EdgeLoadValley(survivors: seq<Scored>)
    requires DistinctIds(survivors)
    ensures var (out, n) := (EdgeLoaded(survivors), |survivors|);
      && |out| == n
      && (forall p, q :: 0 <= p < q <= n / 2 && q < n ==> Weaker(out[q], out[p]))
      && (forall p, q :: n / 2 <= p < q < n ==> Weaker(out[p], out[q]))
      && (forall p :: 0 < p < n - 1 ==> Weaker(out[p], out[0]) && Weaker(out[p], out[n - 1]))
  {
    var (out, n) := (EdgeLoaded(survivors), |survivors|);
    EdgeLoadPermutes(survivors);
    forall p, q | 0 <= p < q <= n / 2 && q < n ensures Weaker(out[q], out[p]) {
      IndexOrder(n, p, q);
      WeakerByIndex(survivors, q, p);
    }
    forall p, q | n / 2 <= p < q < n ensures Weaker(out[p], out[q]) {
      IndexOrder(n, p, q);
      WeakerByIndex(survivors, p, q);
    }
    forall p | 0 < p < n - 1 ensures Weaker(out[p], out[0]) && Weaker(out[p], out[n - 1]) {
      EndsAreStrongest(survivors, p);
    }
  }

  lemma EndsAreStrongest(survivors: seq<Scored>, p: nat)
    requires DistinctIds(survivors) && 0 < p < |survivors| - 1
    ensures var (out, n) := (EdgeLoaded(survivors), |survivors|);
      |out| == n && Weaker(out[p], out[0]) && Weaker(out[p], out[n - 1])
  {
    var n := |survivors|;
    IndexOrder(n, 0, p);
    IndexOrder(n, p, n - 1);
    WeakerByIndex(survivors, p, 0);
    WeakerByIndex(survivors, p, n - 1);
  }

  /** The arrangement is the same for every order in which the survivors come. */
  lemma EdgeLoadIgnoresOrder(a: seq<Scored>, b: seq<Scored>)
    requires DistinctIds(a) && multiset(a) == multiset(b)
    ensures EdgeLoaded(a) == EdgeLoaded(b)
  {
    WeakestFirstIsTotal();
    SortIgnoresOrder(a, b, WeakestFirst());
  }
}
