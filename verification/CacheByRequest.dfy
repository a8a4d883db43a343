/** What the cache answers, in terms of requests: partitions and normalized queries in place of hashed keys,
    and when a request is answered from another partition. */
module CacheByRequest {
  import opened Prelude
  import opened Cache
  import opened Dict

  /** The write is effective and was made for this partition and this normalized query. */
  predicate MadeFor(env: Env, w: Write, p: Partition, query: string) {
    Effective(env, w) && w.partition == p && Normalize(env.chars, w.query) == Normalize(env.chars, query)
  }

  function LatestFor(env: Env, h: seq<Write>, p: Partition, query: string): (r: Option<nat>)
    ensures r.Some? ==> r.value < |h| && MadeFor(env, h[r.value], p, query)
  {
    if h == [] then None
    else if MadeFor(env, h[|h| - 1], p, query) then Some(|h| - 1)
    else LatestFor(env, h[..|h| - 1], p, query)
  }

  function FirstFor(env: Env, h: seq<Write>, p: Partition, query: string): Option<nat> {
    if h == [] then None
    else
      var f := FirstFor(env, h[..|h| - 1], p, query);
      if f.Some? then f else if MadeFor(env, h[|h| - 1], p, query) then Some(|h| - 1) else None
  }

  /** Keys mean requests: under a collision-free hash a write has the key of a request exactly when it was
      made for it, provided that no field of the request but the tenant holds \x1f. */
  lemma KeysMeanRequests(env: Env, w: Write, p: Partition, query: string)
    requires env.HashOk() && SepFree(p.Rest())
    ensures Writes(env, w, p.tenant, ExactKey(env, p, query)) <==> MadeFor(env, w, p, query)
  {
    KeysSeparate(env, w.partition, w.query, p, query);
    UniqueInTenant(p);
    assert w.partition.tenant == p.tenant && PartitionText(w.partition) == PartitionText(p) ==> Twin(p, w.partition);
  }

  lemma {:induction false} HistoryByRequest(env: Env, h: seq<Write>, p: Partition, query: string)
    requires env.HashOk() && SepFree(p.Rest())
    ensures Latest(env, h, p.tenant, ExactKey(env, p, query)) == LatestFor(env, h, p, query)
    ensures First(env, h, p.tenant, ExactKey(env, p, query)) == FirstFor(env, h, p, query)
  {
    if h != [] {
      HistoryByRequest(env, h[..|h| - 1], p, query);
      KeysMeanRequests(env, h[|h| - 1], p, query);
    }
  }

  /** After any history of writes, a lookup is an exact hit exactly when the last write for the same
      partition and normalized query is unexpired, and then returns its response. */
  lemma ExactTierByRequest(env: Env, h: seq<Write>, p: Partition, query: string, now: real)
    requires env.HashOk() && SepFree(p.Rest())
    ensures var l := LatestFor(env, h, p, query);
      var hit := Lookup(env, After(env, h), p, query, now);
      && (hit.Some? && hit.value.tier == Exact <==> l.Some? && InTime(env, h[l.value], now))
      && (hit.Some? && hit.value.tier == Exact ==> hit.value.response == h[l.value].response)
  {
    HistoryByRequest(env, h, p, query);
    ExactTierIsHistory(env, h, p, query, now);
  }

  /** Write j was made for p, is the last for its query, unexpired and similar enough. */
  ghost predicate CandidateFor(env: Env, h: seq<Write>, p: Partition, v: Vec, now: real, j: nat) {
    && j < |h| && h[j].partition == p && LatestFor(env, h, p, h[j].query) == Some(j)
    && InTime(env, h[j], now)
    && Likeness(env, v, h[j]) >= env.threshold && Likeness(env, v, h[j]) > -1.0
  }

  /** The query of write j was first asked before that of write k. */
  ghost predicate AskedBefore(env: Env, h: seq<Write>, p: Partition, j: nat, k: nat)
    requires j < |h| && k < |h|
  {
    var (x, y) := (FirstFor(env, h, p, h[j].query), FirstFor(env, h, p, h[k].query));
    x.Some? && y.Some? && x.value < y.value
  }

  ghost predicate BestFor(env: Env, h: seq<Write>, p: Partition, v: Vec, now: real, j: nat) {
    && CandidateFor(env, h, p, v, now, j)
    && forall k: nat :: CandidateFor(env, h, p, v, now, k) ==>
         var (a, b) := (Likeness(env, v, h[j]), Likeness(env, v, h[k]));
         b < a || (b == a && (k == j || AskedBefore(env, h, p, j, k)))
  }

  lemma CandidatesByRequest(env: Env, h: seq<Write>, p: Partition, v: Vec, now: real, j: nat)
    requires env.HashOk() && SepFree(p.Rest())
    ensures Candidate(env, h, p, Probe(Prefilter(env, p), v, now), j) <==> CandidateFor(env, h, p, v, now, j)
  {
    if j < |h| && h[j].partition.tenant == p.tenant {
      KeysSeparate(env, h[j].partition, h[j].query, p, h[j].query);
      UniqueInTenant(p);
      assert PartitionText(h[j].partition) == PartitionText(p) <==> Twin(p, h[j].partition);
      HistoryByRequest(env, h, p, h[j].query);
    }
  }

  lemma BestByRequest(env: Env, h: seq<Write>, p: Partition, v: Vec, now: real, j: nat)
    requires env.HashOk() && SepFree(p.Rest()) && BestWrite(env, h, p, Probe(Prefilter(env, p), v, now), j)
    ensures BestFor(env, h, p, v, now, j)
  {
    var q := Probe(Prefilter(env, p), v, now);
    CandidatesByRequest(env, h, p, v, now, j);
    HistoryByRequest(env, h, p, h[j].query);
    forall k: nat | CandidateFor(env, h, p, v, now, k)
      ensures var (a, b) := (Likeness(env, v, h[j]), Likeness(env, v, h[k]));
        b < a || (b == a && (k == j || AskedBefore(env, h, p, j, k)))
    {
      CandidatesByRequest(env, h, p, v, now, k);
      HistoryByRequest(env, h, p, h[k].query);
    }
  }

  ghost predicate Reports(env: Env, v: Vec, w: Write, hit: Hit) {
    hit.tier == Semantic && hit.response == w.response && hit.similarity == Likeness(env, v, w)
  }

  /** Otherwise it returns a most similar unexpired last write of the same partition, ties to the query
      asked first, and misses exactly when there is none similar enough. */
  lemma SemanticTierByRequest(env: Env, h: seq<Write>, p: Partition, query: string, now: real)
    requires env.HashOk() && SepFree(p.Rest()) && env.embed(Normalize(env.chars, query)).Some?
    requires var l := LatestFor(env, h, p, query); l.Some? ==> !InTime(env, h[l.value], now)
    ensures var v := env.embed(Normalize(env.chars, query)).value;
      match Lookup(env, After(env, h), p, query, now)
      case None => forall j: nat :: !CandidateFor(env, h, p, v, now, j)
      case Some(hit) => exists j: nat :: BestFor(env, h, p, v, now, j) && Reports(env, v, h[j], hit)
  {
    var v := env.embed(Normalize(env.chars, query)).value;
    var q := Probe(Prefilter(env, p), v, now);
    ExactTierByRequest(env, h, p, query, now);
    GetIsLatest(env, h, p.tenant, ExactKey(env, p, query));
    HistoryByRequest(env, h, p, query);
    SemanticTierIsHistory(env, h, p, query, now);
    var hit := Lookup(env, After(env, h), p, query, now);
    if hit.None? {
      forall j: nat ensures !CandidateFor(env, h, p, v, now, j) { CandidatesByRequest(env, h, p, v, now, j); }
    } else {
      var j: nat :| BestWrite(env, h, p, q, j) && hit.value == SemanticHit(env, q, h[j]);
      BestByRequest(env, h, p, v, now, j);
      assert Reports(env, v, h[j], hit.value);
    }
  }

  // ---------------------------------------------------------------- answers from another partition

  /** A lookup that is answered although nothing was ever written for its partition. */
  ghost predicate Misdirected(env: Env, h: seq<Write>, p: Partition, query: string, now: real) {
    Lookup(env, After(env, h), p, query, now).Some? && forall i :: 0 <= i < |h| ==> h[i].partition != p
  }

  /** A live write for a twin of the partition and the same normalized query answers the lookup. */
  lemma TwinAnswers(env: Env, w: Write, p: Partition, query: string, now: real)
    requires env.HashOk() && Effective(env, w) && InTime(env, w, now)
    requires Twin(p, w.partition) && Normalize(env.chars, w.query) == Normalize(env.chars, query)
    ensures Lookup(env, After(env, [w]), p, query, now).Some?
  {
    assert [w][..0] == [];
    OwnWriteAnswers(env, map[], w, p, query, now);
  }

  /** Whatever a lookup returns, and on whichever tier, is the response of a write whose time to live had not
      passed: its own if it is not 0, or else the default. */
  lemma AnsweredInTime(env: Env, h: seq<Write>, p: Partition, query: string, now: real) returns (j: nat)
    requires Lookup(env, After(env, h), p, query, now).Some?
    ensures j < |h| && h[j].partition.tenant == p.tenant
    ensures h[j].response == Lookup(env, After(env, h), p, query, now).value.response
    ensures var ttl := if h[j].ttl.Some? && h[j].ttl.value != 0 then h[j].ttl.value else env.defaultTtl;
      now < h[j].at + ttl as real
  {
    ExactTierIsHistory(env, h, p, query, now);
    var key := ExactKey(env, p, query);
    var l := Latest(env, h, p.tenant, key);
    LatestIsLatest(env, h, p.tenant, key);
    if l.Some? && InTime(env, h[l.value], now) {
      j := l.value;
    } else {
      GetIsLatest(env, h, p.tenant, key);
      SemanticTierIsHistory(env, h, p, query, now);
      var q := Probe(Prefilter(env, p), env.embed(Normalize(env.chars, query)).value, now);
      j :| BestWrite(env, h, p, q, j) && Lookup(env, After(env, h), p, query, now) == Some(SemanticHit(env, q, h[j]));
    }
  }

  /** So a partition can be answered from another one exactly when one of its fields other than the tenant
      holds \x1f. */
  lemma MisdirectedIff(env: Env, p: Partition, query: string)
    requires env.HashOk() && env.embed(Normalize(env.chars, query)).Some?
    ensures (exists h, q, now :: Misdirected(env, h, p, q, now)) <==> !SepFree(p.Rest())
  {
    if SepFree(p.Rest()) {
      forall h, q, now ensures !Misdirected(env, h, p, q, now) { NeverMisdirected(env, h, p, q, now); }
    } else {
      UniqueInTenant(p);
      var p' :| Twin(p, p') && p' != p;
      var w := Write(0.0, p', query, "", false, Some(1));
      TwinAnswers(env, w, p, query, 0.0);
      assert Misdirected(env, [w], p, query, 0.0);
    }
  }

  lemma NeverMisdirected(env: Env, h: seq<Write>, p: Partition, query: string, now: real)
    requires env.HashOk() && SepFree(p.Rest())
    ensures !Misdirected(env, h, p, query, now)
  {
    ExactTierByRequest(env, h, p, query, now);
    var l := LatestFor(env, h, p, query);
    if !(l.Some? && InTime(env, h[l.value], now)) && env.embed(Normalize(env.chars, query)).Some? {
      SemanticTierByRequest(env, h, p, query, now);
    }
  }

  // ---------------------------------------------------------------- what one more write changes

  /** Every entry stands under the exact key, and carries the fingerprint, of the partition it was made for. */
  ghost predicate KeysFit(env: Env, rows: Rows) {
    forall row :: row in rows ==> row.key == row.val.key && exists p, q :: MadeUnder(env, row.val, p, q)
  }

  ghost predicate MadeUnder(env: Env, s: Stored, p: Partition, query: string) {
    s.key == ExactKey(env, p, query) && s.fingerprint == Prefilter(env, p)
  }

  ghost predicate HasMatch(env: Env, q: Probe, rows: Rows) {
    exists row :: row in rows && Matches(env, q, row.val)
  }

  lemma SearchFindsMatch(env: Env, q: Probe, rows: Rows)
    ensures Search(env, q, Values(rows)).Some? <==> HasMatch(env, q, rows)
  {
    var entries := Values(rows);
    SearchIsFirstBest(env, q, entries);
    if HasMatch(env, q, rows) {
      var row :| row in rows && Matches(env, q, row.val);
      var i :| 0 <= i < |rows| && rows[i] == row;
      assert Matches(env, q, entries[i]);
    }
    forall i | 0 <= i < |entries| && Matches(env, q, entries[i]) ensures HasMatch(env, q, rows) {
      assert rows[i] in rows;
    }
  }

  /** An entry of another partition matches before and after. */
  lemma OtherMatches(env: Env, rows: Rows, w: Write, p: Partition, q: Probe)
    requires env.HashOk() && KeysFit(env, rows) && q.pre == Prefilter(env, p)
    requires PartitionText(w.partition) != PartitionText(p)
    ensures HasMatch(env, q, Put(rows, KeyOf(env, w), StoredOf(env, w))) <==> HasMatch(env, q, rows)
  {
    var (key, s) := (KeyOf(env, w), StoredOf(env, w));
    KeysSeparate(env, w.partition, w.query, p, w.query);
    PutMembers(rows, key, s);
    if HasMatch(env, q, rows) {
      var row :| row in rows && Matches(env, q, row.val);
      var p', q' :| MadeUnder(env, row.val, p', q');
      KeysSeparate(env, w.partition, w.query, p', q');
      KeysSeparate(env, p, w.query, p', q');
      PutSpares(rows, key, s, row);
    }
  }

  /** A write for another partition text changes for no query whether it is answered. */
  lemma OtherWriteChangesNothing(env: Env, st: State, w: Write, p: Partition, query: string, now: real)
    requires env.HashOk() && Effective(env, w) && w.partition.tenant == p.tenant
    requires PartitionText(w.partition) != PartitionText(p) && KeysFit(env, RowsOf(st, p.tenant))
    ensures Lookup(env, StoreIn(env, st, w), p, query, now).Some? <==> Lookup(env, st, p, query, now).Some?
  {
    var (rows, key) := (RowsOf(st, p.tenant), ExactKey(env, p, query));
    KeysSeparate(env, w.partition, w.query, p, query);
    PutThenGet(rows, KeyOf(env, w), StoredOf(env, w), key);
    var v := env.embed(Normalize(env.chars, query));
    if v.Some? {
      var q := Probe(Prefilter(env, p), v.value, now);
      OtherMatches(env, rows, w, p, q);
      SearchFindsMatch(env, q, rows);
      SearchFindsMatch(env, q, Put(rows, KeyOf(env, w), StoredOf(env, w)));
    }
  }

  /** A write for the same partition text and normalized query answers until it expires, whatever else the cache
      holds. */
  lemma OwnWriteAnswers(env: Env, st: State, w: Write, p: Partition, query: string, now: real)
    requires env.HashOk() && Effective(env, w) && InTime(env, w, now)
    requires Twin(p, w.partition) && Normalize(env.chars, w.query) == Normalize(env.chars, query)
    ensures var hit := Lookup(env, StoreIn(env, st, w), p, query, now);
      hit.Some? && hit.value.tier == Exact && hit.value.response == w.response
  {
    KeysSeparate(env, p, query, w.partition, w.query);
    PutThenGet(RowsOf(st, p.tenant), KeyOf(env, w), StoredOf(env, w), ExactKey(env, p, query));
  }
}
