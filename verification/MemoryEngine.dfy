/** Retrieval from the memory store (memory/engine.py): the listing of the request's scope, and candidates that
    stand for its rows. A memory's tier, importance, age and source are given by a function of the memory and
    the reading of the clock. */
module MemoryEngine {
  import opened Prelude
  import opened Mmr
  import Assembler
  import Retrieval
  import Scoring
  import Versioning

  datatype Details = Details(tier: MemoryTier, importance: real, recency: real, ageSeconds: real,
                             sourceId: Option<string>)

  datatype Recall = Recall(embedder: Embedder, params: Scoring.Params, tokenize: string -> seq<string>,
                           details: (Versioning.Memory, real) -> Details)
  {
    ghost predicate Valid() {
      params.Valid()
      && forall m, now :: 0.0 <= details(m, now).importance <= 1.0 && 0.0 < details(m, now).recency <= 1.0
    }
  }

  function RowFor(recall: Recall, m: Versioning.Memory, now: real): Retrieval.Row {
    var d := recall.details(m, now);
    Retrieval.Row(m.id, m.tenant, m.namespace, d.tier, m.content, d.importance, d.recency, d.ageSeconds, d.sourceId)
  }

  function RowsFor(recall: Recall, st: Versioning.Store, ctx: Ctx, now: real): seq<Retrieval.Row> {
    Map(Versioning.ListOf(st, ctx, Versioning.LIMIT), (m: Versioning.Memory) => RowFor(recall, m, now))
  }

  /** The candidate stands for the memory: its identity, its scope and its content. */
  predicate Recalls(c: Candidate, m: Versioning.Memory) {
    c.id == m.id && c.tenant == m.tenant && c.namespace == m.namespace && c.content == m.content
  }

  /** Every candidate stands for a memory listed in the scope. */
  ghost predicate Recalled(st: Versioning.Store, ctx: Ctx, found: seq<Candidate>) {
    forall c :: c in found ==> exists m :: m in Versioning.ListOf(st, ctx, Versioning.LIMIT) && Recalls(c, m)
  }

  /** It carries the memory's tier, importance and source, and its recency and age at this reading of the clock. */
  ghost predicate CarriesDetails(recall: Recall, c: Candidate, m: Versioning.Memory, now: real) {
    var d := recall.details(m, now);
    && c.tier == d.tier && c.importance == d.importance && c.sourceRef == d.sourceId
    && c.recency == d.recency && c.ageSeconds == d.ageSeconds
  }

  ghost predicate Detailed(recall: Recall, st: Versioning.Store, ctx: Ctx, now: real, found: seq<Candidate>) {
    forall c :: c in found ==> exists m ::
      m in Versioning.ListOf(st, ctx, Versioning.LIMIT) && Recalls(c, m) && CarriesDetails(recall, c, m, now)
  }

  /** The candidates are what `retrieve` picks from the rows of the scope at this reading of the clock: the
      beginning of a greedy, near-duplicate-free and maximal selection. */
  ghost predicate Picked(recall: Recall, st: Versioning.Store, ctx: Ctx, query: string, terms: seq<string>, k: int,
                         now: real, found: seq<Candidate>)
  {
    exists considered, kept, norm ::
      Retrieval.PickedFrom(recall.embedder, recall.params, recall.tokenize, terms, RowsFor(recall, st, ctx, now),
                           query, k, found, considered, kept, norm)
  }

  lemma ListedRowsOk(recall: Recall, st: Versioning.Store, ctx: Ctx, now: real)
    requires recall.Valid() && Versioning.StoreOk(st)
    ensures Retrieval.RowsOk(RowsFor(recall, st, ctx, now))
  {
    var listed := Versioning.ListOf(st, ctx, Versioning.LIMIT);
    Versioning.ListingIsDistinct(st, ctx);
    forall i, j | 0 <= i < j < |listed| ensures listed[i].id != listed[j].id {
      assert Versioning.Ids(listed)[i] != Versioning.Ids(listed)[j];
    }
  }

  lemma FromRowsIsRecalled(recall: Recall, st: Versioning.Store, ctx: Ctx, now: real, found: seq<Candidate>, k: nat)
    requires Versioning.StoreOk(st) && |found| <= k && Retrieval.FromRows(found, RowsFor(recall, st, ctx, now))
    ensures Recalled(st, ctx, found) && Assembler.Retrievable(ctx, found, k)
    ensures Detailed(recall, st, ctx, now, found)
  {
    var (listed, rows) := (Versioning.ListOf(st, ctx, Versioning.LIMIT), RowsFor(recall, st, ctx, now));
    Versioning.ListingIsDistinct(st, ctx);
    forall c | c in found
      ensures (exists m :: m in listed && Recalls(c, m) && CarriesDetails(recall, c, m, now))
        && c.tenant == ctx.tenant && c.namespace == ctx.namespace
    {
      var i :| Retrieval.StandsFor(c, rows, i);
      assert listed[i] in listed && Recalls(c, listed[i]) && CarriesDetails(recall, c, listed[i], now);
    }
  }

  class MemoryEngine {
    const store: Versioning.InMemoryStore
    const recall: Recall

    constructor (store: Versioning.InMemoryStore, recall: Recall)
      ensures this.store == store && this.recall == recall
    {
      this.store, this.recall := store, recall;
    }

    /** Up to k candidates, no two for the same memory, all of memories in the scope: those that the selection
        picks, and some whenever the scope holds a memory. */
    method Retrieve(ctx: Ctx, query: string, terms: seq<string>, k: nat, now: real) returns (found: seq<Candidate>)
      requires recall.Valid() && Versioning.StoreOk(store.byTenant)
      requires Retrieval.Enumerates(terms, recall.tokenize(query))
      ensures Recalled(store.byTenant, ctx, found) && Assembler.Retrievable(ctx, found, k)
      ensures Detailed(recall, store.byTenant, ctx, now, found)
      ensures Picked(recall, store.byTenant, ctx, query, terms, k, now, found)
      ensures Retrieval.NearDuplicateFree(recall.embedder, found)
      ensures k >= 1 ==> (found == [] <==> Versioning.ListOf(store.byTenant, ctx, Versioning.LIMIT) == [])
    {
      var rows := RowsFor(recall, store.byTenant, ctx, now);
      ListedRowsOk(recall, store.byTenant, ctx, now);
      var considered, kept, norm;
      found, considered, kept, norm :=
        Retrieval.Retrieve(recall.embedder, recall.params, recall.tokenize, terms, rows, query, k);
      FromRowsIsRecalled(recall, store.byTenant, ctx, now, found, k);
      if k >= 1 {
        Retrieval.SomethingIsPicked(recall.embedder, recall.params, recall.tokenize, terms, rows, query, k, found,
                                    considered, kept, norm);
      }
    }
  }
}
