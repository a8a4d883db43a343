/** Python dictionaries where their order matters: overwriting a key keeps its place. */
module Dict {
  import opened Prelude

  datatype Pair<K, V> = Pair(key: K, val: V)

  function Put<K(==), V>(d: seq<Pair<K, V>>, k: K, v: V): seq<Pair<K, V>> {
    if d == [] then [Pair(k, v)]
    else if d[0].key == k then [Pair(k, v)] + d[1..]
    else [d[0]] + Put(d[1..], k, v)
  }

  function Get<K(==), V>(d: seq<Pair<K, V>>, k: K): Option<V> {
    if d == [] then None else if d[0].key == k then Some(d[0].val) else Get(d[1..], k)
  }

  function Keys<K, V>(d: seq<Pair<K, V>>): (r: seq<K>)
    ensures |r| == |d| && forall i :: 0 <= i < |d| ==> r[i] == d[i].key
  {
    if d == [] then [] else [d[0].key] + Keys(d[1..])
  }

  function Values<K, V>(d: seq<Pair<K, V>>): seq<V> { Map(d, (p: Pair<K, V>) => p.val) }

  lemma {:induction false} PutThenGet<K, V>(d: seq<Pair<K, V>>, k: K, v: V, j: K)
    ensures Get(Put(d, k, v), j) == if j == k then Some(v) else Get(d, j)
  {
    if d != [] && d[0].key != k {
      PutThenGet(d[1..], k, v, j);
    }
  }

  lemma KeysCons<K, V>(d: seq<Pair<K, V>>)
    requires d != []
    ensures Keys(d) == [d[0].key] + Keys(d[1..])
    ensures Distinct(Keys(d)) ==> Distinct(Keys(d[1..])) && d[0].key !in Keys(d[1..])
  {
    if Distinct(Keys(d)) {
      forall i | 0 <= i < |d| - 1 ensures Keys(d[1..])[i] == Keys(d)[i + 1] && Keys(d)[i + 1] != Keys(d)[0] {}
    }
  }

  lemma {:induction false} GetIsIn<K, V>(d: seq<Pair<K, V>>, k: K)
    ensures Get(d, k).Some? <==> k in Keys(d)
    ensures Get(d, k).Some? ==> Pair(k, Get(d, k).value) in d
  {
    if d != [] {
      KeysCons(d);
      GetIsIn(d[1..], k);
      assert d[0] in d;
    }
  }

  lemma {:induction false} GetAt<K, V>(d: seq<Pair<K, V>>, i: nat)
    requires Distinct(Keys(d)) && i < |d|
    ensures Get(d, d[i].key) == Some(d[i].val)
  {
    KeysCons(d);
    if i > 0 {
      assert Keys(d[1..])[i - 1] == d[1..][i - 1].key == d[i].key;
      GetAt(d[1..], i - 1);
    }
  }

  lemma PutCons<K, V>(d: seq<Pair<K, V>>, k: K, v: V)
    requires d != [] && d[0].key != k
    ensures Keys(Put(d, k, v)) == [d[0].key] + Keys(Put(d[1..], k, v))
  {
    TailOfCons(d[0], Put(d[1..], k, v));
  }

  lemma TailOfCons<T>(h: T, t: seq<T>)
    ensures ([h] + t)[1..] == t && ([h] + t)[0] == h
  {
  }

  lemma AppendedKey<K>(h: K, t: seq<K>, k: K)
    requires h != k
    ensures k in [h] + t <==> k in t
    ensures [h] + (t + [k]) == [h] + t + [k]
  {
  }

  /** Overwriting keeps every key in its place; a new key goes to the end. */
  lemma {:induction false} PutKeepsPlaces<K, V>(d: seq<Pair<K, V>>, k: K, v: V)
    ensures Keys(Put(d, k, v)) == if k in Keys(d) then Keys(d) else Keys(d) + [k]
  {
    if d == [] {
      assert Keys([Pair(k, v)]) == [k];
    } else if d[0].key == k {
      TailOfCons(Pair(k, v), d[1..]);
    } else {
      KeysCons(d);
      PutCons(d, k, v);
      PutKeepsPlaces(d[1..], k, v);
      AppendedKey(d[0].key, Keys(d[1..]), k);
    }
  }

  /** The same, index by index. */
  lemma PutKeyAt<K, V>(d: seq<Pair<K, V>>, k: K, v: V)
    ensures |Put(d, k, v)| == if k in Keys(d) then |d| else |d| + 1
    ensures forall i :: 0 <= i < |d| ==> Put(d, k, v)[i].key == d[i].key
    ensures k !in Keys(d) ==> Put(d, k, v)[|d|].key == k
  {
    var d' := Put(d, k, v);
    PutKeepsPlaces(d, k, v);
    assert |d'| == |Keys(d')| && |d| == |Keys(d)|;
    forall i | 0 <= i < |d| ensures d'[i].key == d[i].key {
      assert Keys(d')[i] == Keys(d)[i];
    }
    if k !in Keys(d) {
      assert Keys(d')[|d|] == k;
    }
  }

  lemma PutKeepsDistinct<K, V>(d: seq<Pair<K, V>>, k: K, v: V)
    requires Distinct(Keys(d))
    ensures Distinct(Keys(Put(d, k, v)))
  {
    PutKeepsPlaces(d, k, v);
    if k !in Keys(d) {
      AppendKeepsDistinct(Keys(d), k);
    }
  }

  lemma AppendKeepsDistinct<T>(s: seq<T>, x: T)
    requires Distinct(s) && x !in s
    ensures Distinct(s + [x])
  {
    forall i, j | 0 <= i < j < |s| + 1 ensures (s + [x])[i] != (s + [x])[j] {
      assert (s + [x])[i] == s[i] && s[i] in s;
    }
  }

  lemma ConsAppend<T>(s: seq<T>, x: T)
    requires s != []
    ensures [s[0]] + (s[1..] + [x]) == s + [x]
  {
  }

  lemma {:induction false} PutAppends<K, V>(d: seq<Pair<K, V>>, k: K, v: V)
    requires k !in Keys(d)
    ensures Put(d, k, v) == d + [Pair(k, v)]
  {
    if d != [] {
      KeysCons(d);
      PutAppends(d[1..], k, v);
      ConsAppend(d, Pair(k, v));
    }
  }

  lemma {:induction false} PutMembers<K, V>(d: seq<Pair<K, V>>, k: K, v: V)
    ensures forall p :: p in Put(d, k, v) ==> p == Pair(k, v) || p in d
  {
    if d != [] {
      PutMembers(d[1..], k, v);
    }
  }

  /** A pair under another key stays. */
  lemma {:induction false} PutSpares<K, V>(d: seq<Pair<K, V>>, k: K, v: V, p: Pair<K, V>)
    requires p in d && p.key != k
    ensures p in Put(d, k, v)
  {
    if d[0].key != k && p != d[0] {
      PutSpares(d[1..], k, v, p);
    }
  }

  /** Overwriting changes one value. */
  lemma {:induction false} PutAt<K, V>(d: seq<Pair<K, V>>, k: K, v: V, i: nat)
    requires k in Keys(d) && Distinct(Keys(d)) && i < |d|
    ensures |Put(d, k, v)| == |d| && Put(d, k, v)[i] == if d[i].key == k then Pair(k, v) else d[i]
  {
    KeysCons(d);
    if d[0].key == k {
      if i > 0 {
        assert Keys(d[1..])[i - 1] == d[1..][i - 1].key == d[i].key;
      }
    } else {
      PutAt(d[1..], k, v, if i > 0 then i - 1 else 0);
    }
  }
}
