/** Which sentences extraction keeps (compressor/engine.py): exactly, and without the loop that chooses them. */
module ExtractiveChoice {
  import opened Prelude
  import opened Text
  import opened Tokenizer
  import opened Compressor

  /** Sentence i shares more words with the query than j, or as many and comes earlier. */
  ghost predicate Ahead(cs: Chars, query: string, sents: seq<string>, i: nat, j: nat) {
    && i < |sents| && j < |sents|
    && (Overlap(cs, query, sents[i]) > Overlap(cs, query, sents[j])
        || (Overlap(cs, query, sents[i]) == Overlap(cs, query, sents[j]) && i < j))
  }

  ghost predicate Best(cs: Chars, query: string, sents: seq<string>, j: nat) {
    j < |sents| && forall i: nat :: !Ahead(cs, query, sents, i, j)
  }

  function CountIf(sents: seq<string>, count: Counter, keep: nat -> bool, i: nat): int {
    if i < |sents| && keep(i) then count(sents[i]) else 0
  }

  /** What the kept sentences that are ahead of j count together. */
  ghost function SpentAhead(cs: Chars, query: string, sents: seq<string>, count: Counter, kept: set<nat>, j: nat): int {
    SumBy(Range(|sents|), (i: nat) => CountIf(sents, count, (k: nat) => k in kept && Ahead(cs, query, sents, k, j), i))
  }

  // ---------------------------------------------------------------- the greedy loop

  /** What the kept ones of a list of places count together. */
  function Spent(order: seq<nat>, sents: seq<string>, count: Counter, kept: set<nat>): int {
    SumBy(order, (i: nat) => CountIf(sents, count, (k: nat) => k in kept, i))
  }

  lemma SpentCons(order: seq<nat>, sents: seq<string>, count: Counter, kept: set<nat>)
    requires order != []
    ensures Spent(order, sents, count, kept)
         == (if order[0] < |sents| && order[0] in kept then count(sents[order[0]]) else 0)
            + Spent(order[1..], sents, count, kept)
  {
    var f := (i: nat) => CountIf(sents, count, (k: nat) => k in kept, i);
    assert SumBy(order, f) == f(order[0]) + SumBy(order[1..], f);
  }

  lemma {:induction false} KeepWithin(order: seq<nat>, sents: seq<string>, target: int, count: Counter, kept: set<nat>,
                                      used: int)
    requires forall k :: 0 <= k < |order| ==> order[k] < |sents|
    ensures var all := Keep(order, sents, target, count, kept, used);
      kept <= all && forall i :: i in all ==> i in kept || i in order
    decreases |order|
  {
    if order != [] {
      var t := count(sents[order[0]]);
      if used + t > target && kept != {} {
        KeepWithin(order[1..], sents, target, count, kept, used);
      } else if used + t < target {
        KeepWithin(order[1..], sents, target, count, kept + {order[0]}, used + t);
      }
    }
  }

  ghost predicate Open(order: seq<nat>, sents: seq<string>, kept: set<nat>) {
    Distinct(order) && forall k :: 0 <= k < |order| ==> order[k] < |sents| && order[k] !in kept
  }

  /** Once something is kept, a sentence is kept exactly when the target is not yet reached at its turn and it
      still fits. */
  lemma {:induction false} KeptAtTurn(order: seq<nat>, sents: seq<string>, target: int, count: Counter, kept: set<nat>,
                                      used: int, k: nat)
    requires Open(order, sents, kept) && k < |order| && kept != {} && used < target
    ensures var all := Keep(order, sents, target, count, kept, used);
      var spent := used + Spent(order[..k], sents, count, all);
      order[k] in all <==> spent < target && spent + count(sents[order[k]]) <= target
    decreases |order|
  {
    var (x, rest, t) := (order[0], order[1..], count(sents[order[0]]));
    var all := Keep(order, sents, target, count, kept, used);
    KeepWithin(order, sents, target, count, kept, used);
    assert x !in rest;
    if k > 0 {
      assert order[..k][1..] == rest[..k - 1];
      SpentCons(order[..k], sents, count, all);
    }
    if used + t > target {
      KeepWithin(rest, sents, target, count, kept, used);
      if k > 0 { KeptAtTurn(rest, sents, target, count, kept, used, k - 1); }
    } else if used + t >= target {
      SpentNatural(rest[..if k > 0 then k - 1 else 0], sents, count, all);
      assert all == kept + {x};
    } else {
      KeepWithin(rest, sents, target, count, kept + {x}, used + t);
      if k > 0 { KeptAtTurn(rest, sents, target, count, kept + {x}, used + t, k - 1); }
    }
  }

  lemma {:induction false} SpentNatural(order: seq<nat>, sents: seq<string>, count: Counter, kept: set<nat>)
    ensures Spent(order, sents, count, kept) >= 0
  {
    if order != [] {
      SpentCons(order, sents, count, kept);
      SpentNatural(order[1..], sents, count, kept);
    }
  }

  /** The first one is always kept; every later one as above. */
  lemma KeptFromStart(order: seq<nat>, sents: seq<string>, target: int, count: Counter, k: nat)
    requires Open(order, sents, {}) && k < |order|
    ensures var all := Keep(order, sents, target, count, {}, 0);
      var spent := Spent(order[..k], sents, count, all);
      order[k] in all <==> k == 0 || (spent < target && spent + count(sents[order[k]]) <= target)
  {
    var (x, rest, t) := (order[0], order[1..], count(sents[order[0]]));
    var all := Keep(order, sents, target, count, {}, 0);
    assert x !in rest;
    if t >= target {
      assert all == {x};
      if k > 0 {
        assert order[..k][1..] == rest[..k - 1] && order[..k][0] == x && order[k] == rest[k - 1];
        SpentCons(order[..k], sents, count, all);
        SpentNatural(rest[..k - 1], sents, count, all);
      }
    } else {
      assert {} + {x} == {x};
      KeepWithin(rest, sents, target, count, {x}, t);
      if k > 0 {
        assert order[..k][1..] == rest[..k - 1] && order[..k][0] == x && order[k] == rest[k - 1];
        SpentCons(order[..k], sents, count, all);
        KeptAtTurn(rest, sents, target, count, {x}, t, k - 1);
      }
    }
  }

  // ---------------------------------------------------------------- the reading order

  /** Sentences are considered in the order of `Ahead`. */
  lemma OrderIsAhead(cs: Chars, query: string, sents: seq<string>, k: nat, l: nat)
    requires k < l < |sents|
    ensures var order := ReadingOrder(cs, query, sents);
      |order| == |sents| && Ahead(cs, query, sents, order[k], order[l]) && !Ahead(cs, query, sents, order[l], order[k])
  {
    var le := (i: nat, j: nat) => ScoreAt(cs, query, sents, i) >= ScoreAt(cs, query, sents, j);
    var order := ReadingOrder(cs, query, sents);
    OrderInRange(cs, query, sents);
    SortSorts(Range(|sents|), le);
    assert le(order[k], order[l]);
    OverlapThenLead(cs, query, sents, order[k], order[l]);
    OverlapThenLead(cs, query, sents, order[l], order[k]);
  }

  lemma {:induction false} SumSplit(order: seq<nat>, k: nat, f: nat -> int, g: nat -> int)
    requires k <= |order|
    requires forall l :: 0 <= l < k ==> f(order[l]) == g(order[l])
    requires forall l :: k <= l < |order| ==> f(order[l]) == 0
    ensures SumBy(order, f) == SumBy(order[..k], g)
  {
    if order != [] {
      if k > 0 {
        assert order[..k][1..] == order[1..][..k - 1];
        SumSplit(order[1..], k - 1, f, g);
      } else {
        SumSplit(order[1..], 0, f, g);
      }
    }
  }

  lemma SpentBefore(cs: Chars, query: string, sents: seq<string>, count: Counter, kept: set<nat>, k: nat)
    requires k < |sents|
    ensures var order := ReadingOrder(cs, query, sents);
      |order| == |sents| && SpentAhead(cs, query, sents, count, kept, order[k]) == Spent(order[..k], sents, count, kept)
  {
    var order := ReadingOrder(cs, query, sents);
    var le := (i: nat, j: nat) => ScoreAt(cs, query, sents, i) >= ScoreAt(cs, query, sents, j);
    OrderInRange(cs, query, sents);
    var j := order[k];
    var f := (i: nat) => CountIf(sents, count, (m: nat) => m in kept && Ahead(cs, query, sents, m, j), i);
    var g := (i: nat) => CountIf(sents, count, (m: nat) => m in kept, i);
    SortPermutes(Range(|sents|), le);
    SumByPermutation(Range(|sents|), order, f);
    forall l | 0 <= l < |order| ensures if l < k then f(order[l]) == g(order[l]) else f(order[l]) == 0 {
      if l < k {
        OrderIsAhead(cs, query, sents, l, k);
      } else if k < l {
        OrderIsAhead(cs, query, sents, k, l);
      }
    }
    SumSplit(order, k, f, g);
  }

  // ---------------------------------------------------------------- what is kept

  /** A sentence is kept if and only if none is ahead of it, or what is kept ahead of it does not reach the target
      and leaves room for it. */
  lemma KeptExactly(cs: Chars, text: string, target: int, count: Counter, query: string, j: nat)
    requires j < |Sentences(cs, text)|
    ensures var sents := Sentences(cs, text);
      var kept := KeptSet(cs, text, target, count, query);
      var spent := SpentAhead(cs, query, sents, count, kept, j);
      j in kept <==> Best(cs, query, sents, j) || (spent < target && spent + count(sents[j]) <= target)
  {
    var sents := Sentences(cs, text);
    var order := ReadingOrder(cs, query, sents);
    OrderInRange(cs, query, sents);
    var k := PlaceInOrder(cs, query, sents, j);
    KeptFromStart(order, sents, target, count, k);
    SpentBefore(cs, query, sents, count, KeptSet(cs, text, target, count, query), k);
    BestIsFirst(cs, query, sents, k);
  }

  lemma PlaceInOrder(cs: Chars, query: string, sents: seq<string>, j: nat) returns (k: nat)
    requires j < |sents|
    ensures k < |ReadingOrder(cs, query, sents)| && ReadingOrder(cs, query, sents)[k] == j
  {
    var le := (i: nat, j: nat) => ScoreAt(cs, query, sents, i) >= ScoreAt(cs, query, sents, j);
    var order := ReadingOrder(cs, query, sents);
    SortPermutes(Range(|sents|), le);
    assert Range(|sents|)[j] == j && j in multiset(order);
    k :| 0 <= k < |order| && order[k] == j;
  }

  lemma BestIsFirst(cs: Chars, query: string, sents: seq<string>, k: nat)
    requires k < |sents|
    ensures |ReadingOrder(cs, query, sents)| == |sents|
    ensures Best(cs, query, sents, ReadingOrder(cs, query, sents)[k]) <==> k == 0
  {
    var order := ReadingOrder(cs, query, sents);
    OrderInRange(cs, query, sents);
    if k > 0 {
      OrderIsAhead(cs, query, sents, 0, k);
    } else {
      forall i: nat ensures !Ahead(cs, query, sents, i, order[0]) {
        if i < |sents| && i != order[0] {
          var l := PlaceInOrder(cs, query, sents, i);
          OrderIsAhead(cs, query, sents, 0, l);
        }
      }
    }
  }

  /** In particular the sentence with most query words, the earliest of several, is always kept. */
  lemma BestIsKept(cs: Chars, text: string, target: int, count: Counter, query: string, j: nat)
    requires Best(cs, query, Sentences(cs, text), j)
    ensures j in KeptSet(cs, text, target, count, query)
  {
    KeptExactly(cs, text, target, count, query, j);
  }
}
