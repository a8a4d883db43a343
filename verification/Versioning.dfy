/** The tenant-partitioned memory store (store/memory_store.py) and the snapshots over it
    (versioning/engine.py). Commit ids are fresh ULIDs, so they are inputs. */
module Versioning {
  import opened Prelude
  import opened Dict

  datatype Memory = Memory(id: string, tenant: string, namespace: string, content: string)

  type Rows = seq<Pair<string, Memory>>

  type Store = map<string, Rows>

  const LIMIT := 4096

  datatype Error = AccessDenied | UnknownCommit

  function RowsOf(st: Store, tenant: string): Rows { if tenant in st then st[tenant] else [] }

  /** Everything the context may see, in insertion order. */
  function Scope(st: Store, ctx: Ctx): seq<Memory> {
    Filter(Values(RowsOf(st, ctx.tenant)), (m: Memory) => m.namespace == ctx.namespace)
  }

  function ListOf(st: Store, ctx: Ctx, limit: int): seq<Memory> { PyTake(Scope(st, ctx), limit) }

  function Ids(ms: seq<Memory>): seq<string> { Map(ms, (m: Memory) => m.id) }

  predicate InScope(ctx: Ctx, m: Memory) { m.tenant == ctx.tenant && m.namespace == ctx.namespace }

  function Added(st: Store, ctx: Ctx, m: Memory): Result<Store, Error> {
    if !InScope(ctx, m) then Err(AccessDenied)
    else Ok(st[ctx.tenant := Put(RowsOf(st, ctx.tenant), m.id, m)])
  }

  /** Rows sit under their own tenant and id. */
  ghost predicate StoreOk(st: Store) {
    forall t :: t in st ==> Distinct(Keys(st[t])) && forall p :: p in st[t] ==> p.key == p.val.id && p.val.tenant == t
  }

  // ---------------------------------------------------------------- the code

  datatype CommitRecord = CommitRecord(cid: string, branch: string, note: string, snapshot: seq<Memory>)

  type Commits = map<string, map<string, CommitRecord>>

  function CommitOf(commits: Commits, tenant: string, cid: string): Option<CommitRecord> {
    if tenant in commits && cid in commits[tenant] then Some(commits[tenant][cid]) else None
  }

  class InMemoryStore {
    var byTenant: Store

    constructor ()
      ensures byTenant == map[] && StoreOk(byTenant)
    {
      byTenant := map[];
    }

    method AddMemory(ctx: Ctx, m: Memory) returns (r: Result<Memory, Error>)
      modifies this
      ensures match Added(old(byTenant), ctx, m)
        case Ok(st) => byTenant == st && r == Ok(m)
        case Err(e) => byTenant == old(byTenant) && r == Err(e)
    {
      if m.tenant != ctx.tenant || m.namespace != ctx.namespace {
        return Err(AccessDenied);
      }
      byTenant := byTenant[ctx.tenant := Put(RowsOf(byTenant, ctx.tenant), m.id, m)];
      r := Ok(m);
    }

    /** A row of another tenant or namespace is invisible. */
    method GetMemory(ctx: Ctx, id: string) returns (r: Option<Memory>)
      requires StoreOk(byTenant)
      ensures r.Some? <==> exists m :: m in Scope(byTenant, ctx) && m.id == id
      ensures r.Some? ==> r.value in Scope(byTenant, ctx) && r.value.id == id && InScope(ctx, r.value)
    {
      var rows := RowsOf(byTenant, ctx.tenant);
      r := Get(rows, id);
      GetScoped(byTenant, ctx, id);
      if r.Some? && r.value.namespace != ctx.namespace {
        r := None;
      }
    }
  }

  class MemoryVersioning {
    const store: InMemoryStore
    var commits: Commits

    constructor (store: InMemoryStore)
      ensures this.store == store && commits == map[]
    {
      this.store := store;
      commits := map[];
    }

    method Commit(ctx: Ctx, cid: string, note: string, branch: string)
      modifies this
      ensures commits == Committed(old(commits), store.byTenant, ctx, cid, note, branch)
    {
      var rows := ListOf(store.byTenant, ctx, LIMIT);
      var mine := if ctx.tenant in commits then commits[ctx.tenant] else map[];
      commits := commits[ctx.tenant := mine[cid := CommitRecord(cid, branch, note, rows)]];
    }

    method Rollback(ctx: Ctx, cid: string) returns (r: Result<nat, Error>)
      modifies store
      ensures (store.byTenant, r) == RolledBack(old(store.byTenant), commits, ctx, cid)
    {
      var commit := CommitOf(commits, ctx.tenant, cid);
      if commit.None? {
        return Err(UnknownCommit);
      }
      var snapshot := commit.value.snapshot;
      var present := Ids(ListOf(store.byTenant, ctx, LIMIT));
      var restored := 0;
      var i := 0;
      ghost var goal := Restore(store.byTenant, ctx, snapshot, present);
      assert snapshot[0..] == snapshot;
      while i < |snapshot|
        invariant 0 <= i <= |snapshot|
        invariant var (st, q) := Restore(store.byTenant, ctx, snapshot[i..], present);
                  goal == (st, if q.Ok? then Ok(q.value + restored) else q)
      {
        var m := snapshot[i];
        assert snapshot[i..][1..] == snapshot[i + 1..];
        if m.id !in present {
          var added := store.AddMemory(ctx, m);
          if added.Err? {
            return Err(added.error);
          }
          restored := restored + 1;
        }
        i := i + 1;
      }
      r := Ok(restored);
    }
  }

  function Committed(commits: Commits, st: Store, ctx: Ctx, cid: string, note: string, branch: string): Commits {
    var mine := if ctx.tenant in commits then commits[ctx.tenant] else map[];
    commits[ctx.tenant := mine[cid := CommitRecord(cid, branch, note, ListOf(st, ctx, LIMIT))]]
  }

  /** Put back every snapshot row whose id is not present; the first refused write ends it. */
  function Restore(st: Store, ctx: Ctx, snapshot: seq<Memory>, present: seq<string>): (Store, Result<nat, Error>)
    decreases |snapshot|
  {
    if snapshot == [] then (st, Ok(0))
    else if snapshot[0].id in present then Restore(st, ctx, snapshot[1..], present)
    else
      match Added(st, ctx, snapshot[0])
      case Err(e) => (st, Err(e))
      case Ok(st') =>
        var (st'', r) := Restore(st', ctx, snapshot[1..], present);
        (st'', if r.Ok? then Ok(r.value + 1) else r)
  }

  function RolledBack(st: Store, commits: Commits, ctx: Ctx, cid: string): (Store, Result<nat, Error>) {
    match CommitOf(commits, ctx.tenant, cid)
    case None => (st, Err(UnknownCommit))
    case Some(c) => Restore(st, ctx, c.snapshot, Ids(ListOf(st, ctx, LIMIT)))
  }

  datatype MemoryDiff = MemoryDiff(added: set<string>, removed: set<string>, changed: set<string>)

  /** `{id: content}`, the last one winning. */
  function ContentMap(ms: seq<Memory>): (r: map<string, string>)
    ensures r.Keys == set m | m in ms :: m.id
  {
    if ms == [] then map[]
    else
      assert ms == ms[..|ms| - 1] + [ms[|ms| - 1]];
      ContentMap(ms[..|ms| - 1])[ms[|ms| - 1].id := ms[|ms| - 1].content]
  }

  function Diff(commits: Commits, ctx: Ctx, a: string, b: string): Result<MemoryDiff, Error> {
    match (CommitOf(commits, ctx.tenant, a), CommitOf(commits, ctx.tenant, b))
    case (Some(x), Some(y)) =>
      var (m, n) := (ContentMap(x.snapshot), ContentMap(y.snapshot));
      Ok(MemoryDiff(n.Keys - m.Keys, m.Keys - n.Keys, set i | i in m && i in n && m[i] != n[i]))
    case _ => Err(UnknownCommit)
  }

  // ---------------------------------------------------------------- one write

  lemma ValuesMember(rows: Rows, m: Memory)
    requires m in Values(rows)
    ensures exists p :: p in rows && p.val == m
  {
    var i :| 0 <= i < |rows| && Values(rows)[i] == m;
    assert rows[i] in rows;
  }

  lemma ScopeMembers(st: Store, ctx: Ctx)
    requires StoreOk(st)
    ensures forall m :: m in Scope(st, ctx) ==> InScope(ctx, m)
  {
    FilterMembers(Values(RowsOf(st, ctx.tenant)), (m: Memory) => m.namespace == ctx.namespace);
    forall m | m in Scope(st, ctx) ensures InScope(ctx, m) {
      ValuesMember(RowsOf(st, ctx.tenant), m);
    }
  }

  /** A write keeps an id's namespace when the id is new to the tenant or already in that namespace. */
  ghost predicate KeepsNamespace(rows: Rows, m: Memory) {
    forall p :: p in rows && p.key == m.id ==> p.val.namespace == m.namespace
  }

  /** The ids of the rows of one namespace. */
  function IdsIn(rows: Rows, ns: string): seq<string> { Ids(Filter(Values(rows), (x: Memory) => x.namespace == ns)) }

  lemma IdsInCons(rows: Rows, ns: string)
    requires rows != []
    ensures IdsIn(rows, ns) == (if rows[0].val.namespace == ns then [rows[0].val.id] else []) + IdsIn(rows[1..], ns)
  {
    var f := (x: Memory) => x.namespace == ns;
    assert Values(rows)[1..] == Values(rows[1..]);
    var t := Filter(Values(rows[1..]), f);
    assert Ids([rows[0].val] + t) == [rows[0].val.id] + Ids(t);
  }

  lemma {:induction false} PutGrowsScope(rows: Rows, m: Memory, ns: string)
    requires KeepsNamespace(rows, m) && forall p :: p in rows ==> p.key == p.val.id
    ensures IdsIn(rows, ns) <= IdsIn(Put(rows, m.id, m), ns)
  {
    if rows != [] {
      var rows' := Put(rows, m.id, m);
      assert rows[0] in rows;
      IdsInCons(rows, ns);
      IdsInCons(rows', ns);
      if rows[0].key == m.id {
        assert rows'[1..] == rows[1..];
      } else {
        assert rows'[1..] == Put(rows[1..], m.id, m);
        PutGrowsScope(rows[1..], m, ns);
      }
    }
  }

  lemma AddedKeepsOk(st: Store, ctx: Ctx, m: Memory)
    requires StoreOk(st) && InScope(ctx, m)
    ensures StoreOk(Added(st, ctx, m).value)
  {
    PutKeepsDistinct(RowsOf(st, ctx.tenant), m.id, m);
    PutMembers(RowsOf(st, ctx.tenant), m.id, m);
  }

  lemma AddedGrowsScope(st: Store, ctx: Ctx, m: Memory, c: Ctx)
    requires StoreOk(st) && InScope(ctx, m) && KeepsNamespace(RowsOf(st, ctx.tenant), m)
    ensures Ids(Scope(st, c)) <= Ids(Scope(Added(st, ctx, m).value, c))
  {
    if c.tenant == ctx.tenant {
      PutGrowsScope(RowsOf(st, ctx.tenant), m, c.namespace);
      assert Ids(Scope(st, c)) == IdsIn(RowsOf(st, ctx.tenant), c.namespace);
    }
  }

  /** Growing scopes need the condition: a write keeps every scope's listing as a prefix exactly when
      it leaves its id in the namespace where it was. */
  lemma ScopesGrowIffNamespaceKept(st: Store, ctx: Ctx, m: Memory)
    requires StoreOk(st) && InScope(ctx, m)
    ensures (forall c :: Ids(Scope(st, c)) <= Ids(Scope(Added(st, ctx, m).value, c))) <==>
      KeepsNamespace(RowsOf(st, ctx.tenant), m)
  {
    var (rows, st') := (RowsOf(st, ctx.tenant), Added(st, ctx, m).value);
    if KeepsNamespace(rows, m) {
      forall c ensures Ids(Scope(st, c)) <= Ids(Scope(st', c)) { AddedGrowsScope(st, ctx, m, c); }
    } else {
      var p :| p in rows && p.key == m.id && p.val.namespace != m.namespace;
      MovedOut(st, ctx, m, p);
    }
  }

  lemma MovedOut(st: Store, ctx: Ctx, m: Memory, p: Pair<string, Memory>)
    requires StoreOk(st) && InScope(ctx, m)
    requires p in RowsOf(st, ctx.tenant) && p.key == m.id && p.val.namespace != m.namespace
    ensures var c := Ctx(ctx.tenant, p.val.namespace);
      m.id in Ids(Scope(st, c)) && m.id !in Ids(Scope(Added(st, ctx, m).value, c))
  {
    var (c, st') := (Ctx(ctx.tenant, p.val.namespace), Added(st, ctx, m).value);
    RowIsListed(st, c, p);
    AddedKeepsOk(st, ctx, m);
    PutThenGet(RowsOf(st, ctx.tenant), m.id, m, m.id);
    if m.id in Ids(Scope(st', c)) {
      var j :| 0 <= j < |Scope(st', c)| && Ids(Scope(st', c))[j] == m.id;
      ListedIsRow(st', c, Scope(st', c)[j]);
    }
  }

  lemma RowIsListed(st: Store, c: Ctx, p: Pair<string, Memory>)
    requires StoreOk(st) && p in RowsOf(st, c.tenant) && p.val.namespace == c.namespace
    ensures p.key in Ids(Scope(st, c))
  {
    RowInScope(st, c, p);
    var k :| 0 <= k < |Scope(st, c)| && Scope(st, c)[k] == p.val;
    assert Ids(Scope(st, c))[k] == p.key;
  }

  lemma ListedIsRow(st: Store, c: Ctx, x: Memory)
    requires StoreOk(st) && x in Scope(st, c)
    ensures Get(RowsOf(st, c.tenant), x.id) == Some(x) && x.namespace == c.namespace
  {
    var rows := RowsOf(st, c.tenant);
    FilterMembers(Values(rows), (x: Memory) => x.namespace == c.namespace);
    var q :| 0 <= q < |rows| && Values(rows)[q] == x;
    assert rows[q] in rows;
    GetAt(rows, q);
  }

  lemma {:induction false} ContentAt(ms: seq<Memory>, k: nat)
    requires Distinct(Ids(ms)) && k < |ms|
    ensures ms[k].id in ContentMap(ms) && ContentMap(ms)[ms[k].id] == ms[k].content
  {
    var n := |ms| - 1;
    assert ms[n] in ms && ms[k] in ms;
    if k < n {
      assert forall i :: 0 <= i < n ==> Ids(ms[..n])[i] == Ids(ms)[i];
      ContentAt(ms[..n], k);
      assert Ids(ms)[k] != Ids(ms)[n];
    }
  }

  /** What a difference says of snapshots without repeated ids, row by row: an id is added when only the
      second snapshot has it, removed when only the first does, and changed when both do with different
      contents. So a difference read backwards is its mirror, and that of a commit to itself is empty. */
  lemma DiffMeaning(commits: Commits, ctx: Ctx, a: string, b: string)
    requires Diff(commits, ctx, a, b).Ok?
    requires Distinct(Ids(CommitOf(commits, ctx.tenant, a).value.snapshot))
    requires Distinct(Ids(CommitOf(commits, ctx.tenant, b).value.snapshot))
    ensures var (d, x, y) := (Diff(commits, ctx, a, b).value, CommitOf(commits, ctx.tenant, a).value.snapshot,
                              CommitOf(commits, ctx.tenant, b).value.snapshot);
      && (forall m :: m in y ==> (m.id in d.added <==> m.id !in Ids(x)))
      && (forall m :: m in x ==> (m.id in d.removed <==> m.id !in Ids(y)))
      && (forall m, n :: m in x && n in y && m.id == n.id ==> (m.id in d.changed <==> m.content != n.content))
      && d.added <= (set i | i in Ids(y)) && d.removed + d.changed <= (set i | i in Ids(x))
  {
    var (x, y) := (CommitOf(commits, ctx.tenant, a).value.snapshot, CommitOf(commits, ctx.tenant, b).value.snapshot);
    IdsAreKeys(x);
    IdsAreKeys(y);
    forall m, n | m in x && n in y && m.id == n.id
      ensures ContentMap(x)[m.id] == m.content && ContentMap(y)[n.id] == n.content
    {
      var k :| 0 <= k < |x| && x[k] == m;
      var l :| 0 <= l < |y| && y[l] == n;
      ContentAt(x, k);
      ContentAt(y, l);
    }
  }

  lemma IdsAreKeys(ms: seq<Memory>)
    ensures forall id :: id in ContentMap(ms) <==> id in Ids(ms)
  {
    forall id | id in Ids(ms) ensures id in ContentMap(ms) {
      var k :| 0 <= k < |ms| && Ids(ms)[k] == id;
      assert ms[k] in ms;
    }
    forall id | id in ContentMap(ms) ensures id in Ids(ms) {
      var m :| m in ms && m.id == id;
      var k :| 0 <= k < |ms| && ms[k] == m;
      assert Ids(ms)[k] == id;
    }
  }

  /** An id is listed in a scope exactly when the tenant's row of that id is in the namespace. */
  lemma GetScoped(st: Store, ctx: Ctx, id: string)
    requires StoreOk(st)
    ensures var r := Get(RowsOf(st, ctx.tenant), id);
      && (r.Some? && r.value.namespace == ctx.namespace ==>
            r.value in Scope(st, ctx) && r.value.id == id && InScope(ctx, r.value))
      && ((exists m :: m in Scope(st, ctx) && m.id == id) ==> r.Some? && r.value.namespace == ctx.namespace)
  {
    var rows := RowsOf(st, ctx.tenant);
    var r := Get(rows, id);
    GetIsIn(rows, id);
    if r.Some? && r.value.namespace == ctx.namespace {
      RowInScope(st, ctx, Pair(id, r.value));
    }
    if m :| m in Scope(st, ctx) && m.id == id {
      ListedIsRow(st, ctx, m);
    }
  }

  lemma RowInScope(st: Store, c: Ctx, p: Pair<string, Memory>)
    requires StoreOk(st) && p in RowsOf(st, c.tenant) && p.val.namespace == c.namespace
    ensures p.val in Scope(st, c) && InScope(c, p.val) && p.val.id == p.key
  {
    var rows := RowsOf(st, c.tenant);
    FilterMembers(Values(rows), (x: Memory) => x.namespace == c.namespace);
    var i :| 0 <= i < |rows| && rows[i] == p;
    assert Values(rows)[i] == p.val;
  }

  // ---------------------------------------------------------------- loss-free runs

  datatype Event =
    | Write(ctx: Ctx, m: Memory)
    | Snap(ctx: Ctx, cid: string, note: string, branch: string)
    | Back(ctx: Ctx, cid: string)

  datatype State = State(store: Store, commits: Commits)

  function Step(s: State, e: Event): State {
    match e
    case Write(ctx, m) => s.(store := match Added(s.store, ctx, m) case Ok(st) => st case Err(_) => s.store)
    case Snap(ctx, cid, note, branch) => s.(commits := Committed(s.commits, s.store, ctx, cid, note, branch))
    case Back(ctx, cid) => s.(store := RolledBack(s.store, s.commits, ctx, cid).0)
  }

  function After(events: seq<Event>): State {
    if events == [] then State(map[], map[])
    else Step(After(events[..|events| - 1]), events[|events| - 1])
  }

  /** Writes keep namespaces (fresh ids do), and commit ids are not reused. */
  ghost predicate LossFree(events: seq<Event>) {
    && (forall i :: 0 <= i < |events| && events[i].Write? ==>
          KeepsNamespace(RowsOf(After(events[..i]).store, events[i].ctx.tenant), events[i].m))
    && (forall i, j :: 0 <= i < j < |events| && events[i].Snap? && events[j].Snap? ==> events[i].cid != events[j].cid)
  }

  /** What holds after the first k events: scopes only ever grew at the end, and the commit of event
      i still holds the first 4096 rows of its scope at that time. */
  ghost predicate Grown(events: seq<Event>, k: nat, i: nat, c: Ctx)
    requires i <= k <= |events|
  {
    Ids(Scope(After(events[..i]).store, c)) <= Ids(Scope(After(events[..k]).store, c))
  }

  ghost predicate CommitHeld(events: seq<Event>, k: nat, i: nat)
    requires i < k <= |events|
  {
    events[i].Snap? ==>
      CommitOf(After(events[..k]).commits, events[i].ctx.tenant, events[i].cid)
      == Some(CommitRecord(events[i].cid, events[i].branch, events[i].note,
                     ListOf(After(events[..i]).store, events[i].ctx, LIMIT)))
  }

  ghost predicate CommitsKnown(events: seq<Event>, k: nat)
    requires k <= |events|
  {
    forall t, cid :: CommitOf(After(events[..k]).commits, t, cid).Some? ==>
      exists i :: 0 <= i < k && events[i].Snap? && events[i].ctx.tenant == t && events[i].cid == cid
  }

  lemma AfterSnoc(events: seq<Event>, k: nat)
    requires k < |events|
    ensures After(events[..k + 1]) == Step(After(events[..k]), events[k])
  {
    assert events[..k + 1][..k] == events[..k];
  }

  /** Rows that are all present, or all out of the caller's scope, change nothing when restored. */
  lemma {:induction false} RestoreNothing(st: Store, ctx: Ctx, snapshot: seq<Memory>, present: seq<string>)
    requires forall m :: m in snapshot ==> m.id in present || !InScope(ctx, m)
    ensures Restore(st, ctx, snapshot, present).0 == st
    ensures (forall m :: m in snapshot ==> m.id in present) ==> Restore(st, ctx, snapshot, present).1 == Ok(0)
    decreases |snapshot|
  {
    if snapshot != [] && snapshot[0].id in present {
      RestoreNothing(st, ctx, snapshot[1..], present);
    }
  }

  lemma TakePrefix(a: seq<Memory>, b: seq<Memory>)
    requires Ids(a) <= Ids(b)
    ensures Ids(PyTake(a, LIMIT)) <= Ids(PyTake(b, LIMIT))
    ensures forall m :: m in PyTake(a, LIMIT) ==> m.id in Ids(PyTake(b, LIMIT))
  {
    var (x, y) := (PyTake(a, LIMIT), PyTake(b, LIMIT));
    assert forall k :: 0 <= k < |x| ==> Ids(a)[k] == a[k].id == Ids(b)[k];
    forall m | m in x ensures m.id in Ids(y) {
      var k :| 0 <= k < |x| && x[k] == m;
      assert Ids(y)[k] == m.id;
    }
  }

  /** Rolling back a held commit in its own scope, while scopes have only grown, restores nothing;
      in another scope it is refused or restores nothing. Either way the store is untouched. */
  lemma RollbackIsIdle(st0: Store, st: Store, own: Ctx, ctx: Ctx)
    requires StoreOk(st0) && ctx.tenant == own.tenant && Ids(Scope(st0, own)) <= Ids(Scope(st, own))
    ensures var r := Restore(st, ctx, ListOf(st0, own, LIMIT), Ids(ListOf(st, ctx, LIMIT)));
      r.0 == st && (ctx == own ==> r.1 == Ok(0))
  {
    ScopeMembers(st0, own);
    var (snapshot, present) := (ListOf(st0, own, LIMIT), Ids(ListOf(st, ctx, LIMIT)));
    if ctx == own {
      TakePrefix(Scope(st0, own), Scope(st, own));
    }
    assert forall m :: m in snapshot ==> m in Scope(st0, own);
    RestoreNothing(st, ctx, snapshot, present);
  }

  ghost predicate Inv(events: seq<Event>, k: nat)
    requires k <= |events|
  {
    && CommitsKnown(events, k)
    && (forall i :: 0 <= i <= k ==> StoreOk(After(events[..i]).store))
    && (forall i, c :: 0 <= i <= k ==> Grown(events, k, i, c))
    && (forall i :: 0 <= i < k ==> CommitHeld(events, k, i))
  }

  lemma IdleBack(events: seq<Event>, k: nat)
    requires k < |events| && Inv(events, k) && events[k].Back?
    ensures Step(After(events[..k]), events[k]).store == After(events[..k]).store
  {
    var (s, ctx, cid) := (After(events[..k]), events[k].ctx, events[k].cid);
    if CommitOf(s.commits, ctx.tenant, cid).Some? {
      var i :| 0 <= i < k && events[i].Snap? && events[i].ctx.tenant == ctx.tenant && events[i].cid == cid;
      assert CommitHeld(events, k, i) && Grown(events, k, i, events[i].ctx);
      RollbackIsIdle(After(events[..i]).store, s.store, events[i].ctx, ctx);
    }
  }

  lemma StoreStep(events: seq<Event>, k: nat, c: Ctx)
    requires LossFree(events) && k < |events| && Inv(events, k)
    ensures var (s, s') := (After(events[..k]), Step(After(events[..k]), events[k]));
      StoreOk(s'.store) && Ids(Scope(s.store, c)) <= Ids(Scope(s'.store, c))
  {
    var s := After(events[..k]);
    match events[k] {
      case Write(ctx, m) =>
        if InScope(ctx, m) {
          AddedKeepsOk(s.store, ctx, m);
          AddedGrowsScope(s.store, ctx, m, c);
        }
      case Snap(_, _, _, _) =>
      case Back(_, _) => IdleBack(events, k);
    }
  }

  lemma KnownStep(events: seq<Event>, j: nat, k: nat)
    requires k == j + 1 <= |events| && CommitsKnown(events, j)
    ensures CommitsKnown(events, k)
  {
    AfterSnoc(events, j);
    var (s, s') := (After(events[..j]), After(events[..k]));
    forall t, id | CommitOf(s'.commits, t, id).Some?
      ensures exists i :: 0 <= i < k && events[i].Snap? && events[i].ctx.tenant == t && events[i].cid == id
    {
      if CommitOf(s.commits, t, id).Some? {
        var i :| 0 <= i < j && events[i].Snap? && events[i].ctx.tenant == t && events[i].cid == id;
      } else {
        assert events[j].Snap? && events[j].ctx.tenant == t && events[j].cid == id;
      }
    }
  }

  lemma HeldStep(events: seq<Event>, j: nat, k: nat, i: nat)
    requires k == j + 1 <= |events| && i < k
    requires i < j ==> CommitHeld(events, j, i)
    requires i < j && events[i].Snap? && events[j].Snap? ==> events[i].cid != events[j].cid
    ensures CommitHeld(events, k, i)
  {
    AfterSnoc(events, j);
  }

  lemma GrownStep(events: seq<Event>, j: nat, k: nat, i: nat, c: Ctx)
    requires k == j + 1 <= |events| && i <= k && (i <= j ==> Grown(events, j, i, c))
    requires Ids(Scope(After(events[..j]).store, c)) <= Ids(Scope(After(events[..k]).store, c))
    ensures Grown(events, k, i, c)
  {
    if i <= j {
      PrefixTransitive(Ids(Scope(After(events[..i]).store, c)), Ids(Scope(After(events[..j]).store, c)),
                       Ids(Scope(After(events[..k]).store, c)));
    }
  }

  lemma OkStep(events: seq<Event>, j: nat, k: nat, i: nat)
    requires LossFree(events) && k == j + 1 <= |events| && Inv(events, j) && i <= k
    ensures StoreOk(After(events[..i]).store)
  {
    if i == k {
      AfterSnoc(events, j);
      StoreStep(events, j, events[j].ctx);
    }
  }

  lemma PrefixTransitive(a: seq<string>, b: seq<string>, c: seq<string>)
    requires a <= b <= c
    ensures a <= c
  {
  }

  lemma {:induction false} LossFreeInvariant(events: seq<Event>, k: nat)
    requires LossFree(events) && k <= |events|
    ensures Inv(events, k)
  {
    if k > 0 {
      var j := k - 1;
      LossFreeInvariant(events, j);
      KnownStep(events, j, k);
      forall i | 0 <= i < k ensures CommitHeld(events, k, i) { HeldStep(events, j, k, i); }
      AfterSnoc(events, j);
      forall i, c: Ctx | 0 <= i <= k ensures Grown(events, k, i, c) {
        StoreStep(events, j, c);
        GrownStep(events, j, k, i, c);
      }
      forall i | 0 <= i <= k ensures StoreOk(After(events[..i]).store) { OkStep(events, j, k, i); }
    }
  }

  /** In every loss-free run, of two commits of one scope the earlier snapshot's ids are a prefix of
      the later one's, at any size; between them nothing is removed, and exactly the rest of the later
      one is added; and rolling the earlier one back at the end restores nothing and leaves the store
      alone. */
  lemma VersioningOverRuns(events: seq<Event>, i: nat, j: nat)
    requires LossFree(events) && i < j < |events|
    requires events[i].Snap? && events[j].Snap? && events[i].ctx == events[j].ctx
    ensures var (s, ctx) := (After(events), events[i].ctx);
      var (a, b) := (CommitOf(s.commits, ctx.tenant, events[i].cid), CommitOf(s.commits, ctx.tenant, events[j].cid));
      && a.Some? && b.Some? && Ids(a.value.snapshot) <= Ids(b.value.snapshot)
      && Diff(s.commits, ctx, events[i].cid, events[j].cid).Ok?
      && Diff(s.commits, ctx, events[i].cid, events[j].cid).value.removed == {}
      && Diff(s.commits, ctx, events[i].cid, events[j].cid).value.added
           == (set id | id in Ids(b.value.snapshot)[|a.value.snapshot|..])
      && RolledBack(s.store, s.commits, ctx, events[i].cid) == (s.store, Ok(0))
  {
    var ctx := events[i].ctx;
    HeldAtEnd(events, i);
    HeldAtEnd(events, j);
    ScopeGrew(events, i, j, ctx);
    TakePrefix(Scope(After(events[..i]).store, ctx), Scope(After(events[..j]).store, ctx));
    RollbackIsIdle(After(events[..i]).store, After(events).store, ctx, ctx);
    ListingIsDistinct(After(events[..j]).store, ctx);
    PrefixDiff(ListOf(After(events[..i]).store, ctx, LIMIT), ListOf(After(events[..j]).store, ctx, LIMIT));
  }

  lemma HeldAtEnd(events: seq<Event>, i: nat)
    requires LossFree(events) && i < |events| && events[i].Snap?
    ensures var (e, st) := (events[i], After(events[..i]).store);
      && StoreOk(st) && Ids(Scope(st, e.ctx)) <= Ids(Scope(After(events).store, e.ctx))
      && CommitOf(After(events).commits, e.ctx.tenant, e.cid)
           == Some(CommitRecord(e.cid, e.branch, e.note, ListOf(st, e.ctx, LIMIT)))
  {
    assert events[..|events|] == events;
    LossFreeInvariant(events, |events|);
    assert CommitHeld(events, |events|, i) && Grown(events, |events|, i, events[i].ctx);
  }

  /** A listing repeats no id and stays in its scope. */
  lemma ListingIsDistinct(st: Store, c: Ctx)
    requires StoreOk(st)
    ensures Distinct(Ids(Scope(st, c))) && Distinct(Ids(ListOf(st, c, LIMIT)))
    ensures forall m :: m in ListOf(st, c, LIMIT) ==> InScope(c, m)
  {
    var rows := RowsOf(st, c.tenant);
    ScopeMembers(st, c);
    assert forall k :: 0 <= k < |rows| ==> rows[k] in rows && Ids(Values(rows))[k] == Keys(rows)[k];
    FilterKeepsDistinctIds(Values(rows), (m: Memory) => m.namespace == c.namespace);
    var (all, listed) := (Scope(st, c), ListOf(st, c, LIMIT));
    assert forall k :: 0 <= k < |listed| ==> Ids(listed)[k] == Ids(all)[k];
  }

  lemma ScopeGrew(events: seq<Event>, i: nat, j: nat, c: Ctx)
    requires LossFree(events) && i <= j <= |events|
    ensures Ids(Scope(After(events[..i]).store, c)) <= Ids(Scope(After(events[..j]).store, c))
  {
    LossFreeInvariant(events, j);
    assert Grown(events, j, i, c);
  }

  lemma PrefixDiff(x: seq<Memory>, y: seq<Memory>)
    requires Ids(x) <= Ids(y) && Distinct(Ids(y))
    ensures ContentMap(x).Keys - ContentMap(y).Keys == {}
    ensures ContentMap(y).Keys - ContentMap(x).Keys == set id | id in Ids(y)[|x|..]
  {
    IdsAreKeys(x);
    IdsAreKeys(y);
    var rest := Ids(y)[|x|..];
    assert Ids(y) == Ids(x) + rest;
    forall id | id in rest ensures id !in Ids(x) {
      var k :| 0 <= k < |rest| && rest[k] == id;
      assert Ids(y)[|x| + k] == id;
    }
  }

  // ---------------------------------------------------------------- after a loss

  function Missing(snapshot: seq<Memory>, present: seq<string>): seq<Memory> {
    Filter(snapshot, (m: Memory) => m.id !in present)
  }

  function AsRows(ms: seq<Memory>): Rows { Map(ms, (m: Memory) => Pair(m.id, m)) }

  lemma AppendOne(st: Store, ctx: Ctx, m: Memory)
    requires InScope(ctx, m) && m.id !in Keys(RowsOf(st, ctx.tenant))
    ensures var st' := Added(st, ctx, m).value;
      && RowsOf(st', ctx.tenant) == RowsOf(st, ctx.tenant) + [Pair(m.id, m)]
      && Keys(RowsOf(st', ctx.tenant)) == Keys(RowsOf(st, ctx.tenant)) + [m.id]
      && forall t :: t != ctx.tenant ==> RowsOf(st', t) == RowsOf(st, t)
  {
    PutKeepsPlaces(RowsOf(st, ctx.tenant), m.id, m);
    PutAppends(RowsOf(st, ctx.tenant), m.id, m);
  }

  /** `st'` is `st` with these rows at the end of the tenant's dictionary. */
  ghost predicate Extended(st: Store, st': Store, tenant: string, ms: seq<Memory>) {
    && RowsOf(st', tenant) == RowsOf(st, tenant) + AsRows(ms)
    && forall t :: t != tenant ==> RowsOf(st', t) == RowsOf(st, t)
  }

  lemma ExtendedCons(st: Store, st': Store, st'': Store, tenant: string, m: Memory, ms: seq<Memory>)
    requires RowsOf(st', tenant) == RowsOf(st, tenant) + [Pair(m.id, m)]
    requires forall t :: t != tenant ==> RowsOf(st', t) == RowsOf(st, t)
    requires Extended(st', st'', tenant, ms)
    ensures Extended(st, st'', tenant, [m] + ms)
  {
    assert AsRows([m] + ms) == [Pair(m.id, m)] + AsRows(ms);
  }

  lemma {:induction false} RestoreAppends(st: Store, ctx: Ctx, snapshot: seq<Memory>, present: seq<string>)
    requires forall m :: m in snapshot ==> InScope(ctx, m)
    requires Distinct(Ids(snapshot))
    requires forall m :: m in snapshot && m.id !in present ==> m.id !in Keys(RowsOf(st, ctx.tenant))
    ensures var (st', r) := Restore(st, ctx, snapshot, present);
      r == Ok(|Missing(snapshot, present)|) && Extended(st, st', ctx.tenant, Missing(snapshot, present))
    decreases |snapshot|
  {
    if snapshot != [] {
      var (m, rest) := (snapshot[0], snapshot[1..]);
      assert m in snapshot && forall x :: x in rest ==> x in snapshot;
      assert forall k :: 0 <= k < |rest| ==>
        Ids(rest)[k] == Ids(snapshot)[k + 1] && Ids(snapshot)[0] != Ids(snapshot)[k + 1];
      if m.id in present {
        RestoreAppends(st, ctx, rest, present);
      } else {
        AppendOne(st, ctx, m);
        var st' := Added(st, ctx, m).value;
        forall x | x in rest && x.id !in present ensures x.id !in Keys(RowsOf(st', ctx.tenant)) {
          var k :| 0 <= k < |rest| && rest[k] == x;
          assert Ids(rest)[k] == x.id;
        }
        RestoreAppends(st', ctx, rest, present);
        ExtendedCons(st, st', Restore(st', ctx, rest, present).0, ctx.tenant, m, Missing(rest, present));
      }
    }
  }

  /** None of these ids belongs to another namespace of the tenant. */
  ghost predicate Settled(st: Store, ctx: Ctx, ms: seq<Memory>) {
    forall m :: m in ms ==> var r := Get(RowsOf(st, ctx.tenant), m.id); r.Some? ==> r.value.namespace == ctx.namespace
  }

  /** A snapshot as `commit` takes it: no id twice, all rows in scope. */
  ghost predicate Sound(ctx: Ctx, snapshot: seq<Memory>) {
    Distinct(Ids(snapshot)) && forall m :: m in snapshot ==> InScope(ctx, m)
  }

  /** After any loss that leaves at most 4096 rows in scope, rollback appends exactly the missing
      snapshot rows, in order, and keeps everything else; a second rollback restores 0 exactly when
      the scope then still fits the listing limit of 4096. */
  lemma RollbackAfterLoss(st: Store, commits: Commits, ctx: Ctx, cid: string)
    requires StoreOk(st) && |Scope(st, ctx)| <= LIMIT && CommitOf(commits, ctx.tenant, cid).Some?
    requires var snapshot := CommitOf(commits, ctx.tenant, cid).value.snapshot;
      Sound(ctx, snapshot) && Settled(st, ctx, Missing(snapshot, Ids(Scope(st, ctx))))
    ensures AppendsMissing(st, commits, ctx, cid)
  {
    var snapshot := CommitOf(commits, ctx.tenant, cid).value.snapshot;
    RestoredScope(st, ctx, snapshot);
    var st' := RolledBack(st, commits, ctx, cid).0;
    SecondRollback(st', ctx, snapshot, Scope(st, ctx), Missing(snapshot, Ids(Scope(st, ctx))));
  }

  ghost predicate AppendsMissing(st: Store, commits: Commits, ctx: Ctx, cid: string)
    requires CommitOf(commits, ctx.tenant, cid).Some?
  {
    var missing := Missing(CommitOf(commits, ctx.tenant, cid).value.snapshot, Ids(Scope(st, ctx)));
    var (st', r) := RolledBack(st, commits, ctx, cid);
    && r == Ok(|missing|)
    && Extended(st, st', ctx.tenant, missing)
    && Scope(st', ctx) == Scope(st, ctx) + missing
    && (RolledBack(st', commits, ctx, cid).1 == Ok(0) <==> |Scope(st, ctx)| + |missing| <= LIMIT || missing == [])
  }

  lemma SettledIsAbsent(st: Store, ctx: Ctx, m: Memory)
    requires StoreOk(st) && Settled(st, ctx, [m]) && m.id !in Ids(Scope(st, ctx))
    ensures m.id !in Keys(RowsOf(st, ctx.tenant))
  {
    var rows := RowsOf(st, ctx.tenant);
    assert m in [m];
    GetIsIn(rows, m.id);
    if m.id in Keys(rows) {
      RowIsListed(st, ctx, Pair(m.id, Get(rows, m.id).value));
    }
  }

  /** What is left of a store after rows were lost. */
  ghost predicate Survives(st: Store, full: Store) {
    StoreOk(st) && forall t, p :: p in RowsOf(st, t) ==> p in RowsOf(full, t)
  }

  /** Over runs: whatever rows are lost after a loss-free run, rolling back any commit of the run in its
      own scope meets the conditions above, so it appends exactly what is missing. */
  lemma RollbackAfterRunAndLoss(events: seq<Event>, i: nat, st: Store)
    requires LossFree(events) && i < |events| && events[i].Snap?
    requires Survives(st, After(events).store) && |Scope(st, events[i].ctx)| <= LIMIT
    ensures CommitOf(After(events).commits, events[i].ctx.tenant, events[i].cid).Some?
    ensures AppendsMissing(st, After(events).commits, events[i].ctx, events[i].cid)
  {
    var (ctx, full) := (events[i].ctx, After(events).store);
    var snapshot := ListOf(After(events[..i]).store, ctx, LIMIT);
    HeldAtEnd(events, i);
    ListingIsDistinct(After(events[..i]).store, ctx);
    FilterMembers(snapshot, (m: Memory) => m.id !in Ids(Scope(st, ctx)));
    assert events[..|events|] == events;
    LossFreeInvariant(events, |events|);
    forall m | m in snapshot && Get(RowsOf(st, ctx.tenant), m.id).Some?
      ensures Get(RowsOf(st, ctx.tenant), m.id).value.namespace == ctx.namespace
    {
      ListedLater(After(events[..i]).store, full, ctx, m);
      SurvivorIsRow(st, full, ctx, m.id);
    }
    RollbackAfterLoss(st, After(events).commits, ctx, events[i].cid);
  }

  lemma ListedLater(st: Store, full: Store, ctx: Ctx, m: Memory)
    requires StoreOk(full) && Ids(Scope(st, ctx)) <= Ids(Scope(full, ctx)) && m in ListOf(st, ctx, LIMIT)
    ensures var r := Get(RowsOf(full, ctx.tenant), m.id); r.Some? && r.value.namespace == ctx.namespace
  {
    var k :| 0 <= k < |ListOf(st, ctx, LIMIT)| && ListOf(st, ctx, LIMIT)[k] == m;
    assert Ids(Scope(st, ctx))[k] == m.id == Ids(Scope(full, ctx))[k];
    ListedIsRow(full, ctx, Scope(full, ctx)[k]);
  }

  lemma SurvivorIsRow(st: Store, full: Store, ctx: Ctx, id: string)
    requires Survives(st, full) && StoreOk(full) && Get(RowsOf(st, ctx.tenant), id).Some?
    ensures Get(RowsOf(full, ctx.tenant), id) == Get(RowsOf(st, ctx.tenant), id)
  {
    GetIsIn(RowsOf(st, ctx.tenant), id);
    var rows := RowsOf(full, ctx.tenant);
    var k :| 0 <= k < |rows| && rows[k] == Pair(id, Get(RowsOf(st, ctx.tenant), id).value);
    GetAt(rows, k);
  }

  // ---------------------------------------------------------------- rollback across namespaces

  lemma GetRowsCons(m: Memory, ms: seq<Memory>, id: string)
    ensures Get(AsRows([m] + ms), id) == if m.id == id then Some(m) else Get(AsRows(ms), id)
  {
    assert AsRows([m] + ms)[1..] == AsRows(ms);
  }

  lemma AbsentRow(ms: seq<Memory>, id: string)
    requires forall m :: m in ms ==> m.id != id
    ensures Get(AsRows(ms), id).None?
  {
    GetIsIn(AsRows(ms), id);
    forall k | 0 <= k < |ms| ensures Keys(AsRows(ms))[k] != id {
      assert ms[k] in ms;
    }
  }

  /** Each of the rows has taken its id over, wherever that stood, and every other id keeps its row. */
  ghost predicate TookOver(st: Store, st': Store, tenant: string, ms: seq<Memory>, id: string) {
    && (forall t :: t != tenant ==> RowsOf(st', t) == RowsOf(st, t))
    && var back := Get(AsRows(ms), id);
       Get(RowsOf(st', tenant), id) == if back.Some? then back else Get(RowsOf(st, tenant), id)
  }

  lemma TookOverCons(st: Store, st': Store, st'': Store, ctx: Ctx, m: Memory, ms: seq<Memory>, id: string)
    requires InScope(ctx, m) && st' == Added(st, ctx, m).value && TookOver(st', st'', ctx.tenant, ms, id)
    requires forall x :: x in ms ==> x.id != m.id
    ensures TookOver(st, st'', ctx.tenant, [m] + ms, id)
  {
    PutThenGet(RowsOf(st, ctx.tenant), m.id, m, id);
    GetRowsCons(m, ms, id);
    if id == m.id {
      AbsentRow(ms, id);
    }
  }

  lemma RestoreKept(st: Store, ctx: Ctx, snapshot: seq<Memory>, present: seq<string>)
    requires snapshot != [] && snapshot[0].id in present
    ensures Restore(st, ctx, snapshot, present) == Restore(st, ctx, snapshot[1..], present)
    ensures Missing(snapshot, present) == Missing(snapshot[1..], present)
  {
  }

  lemma RestoreBack(st: Store, ctx: Ctx, snapshot: seq<Memory>, present: seq<string>)
    requires snapshot != [] && snapshot[0].id !in present && InScope(ctx, snapshot[0])
    ensures var (st', r) := Restore(Added(st, ctx, snapshot[0]).value, ctx, snapshot[1..], present);
      Restore(st, ctx, snapshot, present) == (st', if r.Ok? then Ok(r.value + 1) else r)
    ensures Missing(snapshot, present) == [snapshot[0]] + Missing(snapshot[1..], present)
  {
  }

  /** What a rollback leaves, id by id and for every store, crowded or not: the missing rows are back
      under their ids, and nothing else has changed. */
  lemma {:induction false} RestoreMeaning(st: Store, ctx: Ctx, snapshot: seq<Memory>, present: seq<string>, id: string)
    requires StoreOk(st) && Sound(ctx, snapshot)
    ensures var (missing, (st', r)) := (Missing(snapshot, present), Restore(st, ctx, snapshot, present));
      r == Ok(|missing|) && StoreOk(st') && TookOver(st, st', ctx.tenant, missing, id)
    decreases |snapshot|
  {
    if snapshot == [] {
      assert AsRows([]) == [];
    } else {
      var (m, rest) := (snapshot[0], snapshot[1..]);
      SoundTail(ctx, snapshot);
      if m.id in present {
        RestoreKept(st, ctx, snapshot, present);
        RestoreMeaning(st, ctx, rest, present, id);
      } else {
        var st1 := Added(st, ctx, m).value;
        RestoreBack(st, ctx, snapshot, present);
        AddedKeepsOk(st, ctx, m);
        RestoreMeaning(st1, ctx, rest, present, id);
        FilterMembers(rest, (m: Memory) => m.id !in present);
        TookOverCons(st, st1, Restore(st1, ctx, rest, present).0, ctx, m, Missing(rest, present), id);
      }
    }
  }

  lemma SoundTail(ctx: Ctx, snapshot: seq<Memory>)
    requires Sound(ctx, snapshot) && snapshot != []
    ensures Sound(ctx, snapshot[1..]) && InScope(ctx, snapshot[0])
    ensures forall x :: x in snapshot[1..] ==> x.id != snapshot[0].id
  {
    var rest := snapshot[1..];
    assert forall k :: 0 <= k < |rest| ==> Ids(rest)[k] == Ids(snapshot)[k + 1];
    forall x | x in rest ensures x.id != snapshot[0].id {
      var k :| 0 <= k < |rest| && rest[k] == x;
      assert Ids(snapshot)[0] != Ids(snapshot)[k + 1];
    }
  }

  lemma {:induction false} PutElsewhere(rows: Rows, m: Memory, ns: string)
    requires KeepsNamespace(rows, m) && ns != m.namespace && forall p :: p in rows ==> p.key == p.val.id
    ensures var f := (x: Memory) => x.namespace == ns; Filter(Values(Put(rows, m.id, m)), f) == Filter(Values(rows), f)
  {
    var f := (x: Memory) => x.namespace == ns;
    var rows' := Put(rows, m.id, m);
    if rows == [] {
      assert Values(rows')[1..] == [];
    } else {
      assert rows[0] in rows && Values(rows)[1..] == Values(rows[1..]);
      if rows[0].key == m.id {
        assert Values(rows')[1..] == Values(rows[1..]);
      } else {
        PutElsewhere(rows[1..], m, ns);
        assert Values(rows')[1..] == Values(Put(rows[1..], m.id, m));
      }
    }
  }

  lemma {:induction false} RestoreSpares(st: Store, ctx: Ctx, snapshot: seq<Memory>, present: seq<string>, ns: string)
    requires StoreOk(st) && Sound(ctx, snapshot) && Settled(st, ctx, Missing(snapshot, present)) && ns != ctx.namespace
    ensures var c := Ctx(ctx.tenant, ns); Scope(Restore(st, ctx, snapshot, present).0, c) == Scope(st, c)
    decreases |snapshot|
  {
    if snapshot != [] {
      var (m, rest, rows) := (snapshot[0], snapshot[1..], RowsOf(st, ctx.tenant));
      SoundTail(ctx, snapshot);
      if m.id in present {
        RestoreSpares(st, ctx, rest, present, ns);
      } else {
        SettledStep(st, ctx, m, rest, present);
        AddedKeepsOk(st, ctx, m);
        PutElsewhere(rows, m, ns);
        RestoreSpares(Added(st, ctx, m).value, ctx, rest, present, ns);
      }
    }
  }

  /** Restoring one row leaves the others settled. */
  lemma SettledStep(st: Store, ctx: Ctx, m: Memory, rest: seq<Memory>, present: seq<string>)
    requires StoreOk(st) && InScope(ctx, m) && m.id !in present && (forall x :: x in rest ==> x.id != m.id)
    requires Settled(st, ctx, Missing([m] + rest, present))
    ensures KeepsNamespace(RowsOf(st, ctx.tenant), m)
    ensures Settled(Added(st, ctx, m).value, ctx, Missing(rest, present))
  {
    var (rows, missing) := (RowsOf(st, ctx.tenant), Missing(rest, present));
    assert ([m] + rest)[1..] == rest && Missing([m] + rest, present) == [m] + missing;
    FilterMembers(rest, (m: Memory) => m.id !in present);
    SettledKeepsNamespace(st, ctx, m);
    forall x | x in missing
      ensures Get(RowsOf(Added(st, ctx, m).value, ctx.tenant), x.id) == Get(rows, x.id)
    {
      PutThenGet(rows, m.id, m, x.id);
    }
    assert forall x :: x in missing ==> x in [m] + missing;
  }

  lemma SettledKeepsNamespace(st: Store, ctx: Ctx, m: Memory)
    requires StoreOk(st) && Settled(st, ctx, [m]) && InScope(ctx, m)
    ensures KeepsNamespace(RowsOf(st, ctx.tenant), m)
  {
    var rows := RowsOf(st, ctx.tenant);
    assert m in [m];
    forall p | p in rows && p.key == m.id ensures p.val.namespace == m.namespace {
      var k :| 0 <= k < |rows| && rows[k] == p;
      GetAt(rows, k);
    }
  }

  /** Rollback leaves the tenant's other namespaces alone exactly when no missing id has moved to one of
      them: otherwise the row there is overwritten and its namespace loses it. */
  lemma RollbackSparesOthersIff(st: Store, commits: Commits, ctx: Ctx, cid: string)
    requires StoreOk(st) && CommitOf(commits, ctx.tenant, cid).Some?
    requires Sound(ctx, CommitOf(commits, ctx.tenant, cid).value.snapshot)
    ensures var missing := Missing(CommitOf(commits, ctx.tenant, cid).value.snapshot, Ids(ListOf(st, ctx, LIMIT)));
      var st' := RolledBack(st, commits, ctx, cid).0;
      (forall ns :: ns != ctx.namespace ==> SameScope(st, st', Ctx(ctx.tenant, ns))) <==> Settled(st, ctx, missing)
  {
    var (snapshot, present) := (CommitOf(commits, ctx.tenant, cid).value.snapshot, Ids(ListOf(st, ctx, LIMIT)));
    var missing := Missing(snapshot, present);
    if Settled(st, ctx, missing) {
      forall ns | ns != ctx.namespace ensures SameScope(st, RolledBack(st, commits, ctx, cid).0, Ctx(ctx.tenant, ns)) {
        RestoreSpares(st, ctx, snapshot, present, ns);
      }
    } else {
      var m :| m in missing && Get(RowsOf(st, ctx.tenant), m.id).Some?
        && Get(RowsOf(st, ctx.tenant), m.id).value.namespace != ctx.namespace;
      RestoreSteals(st, ctx, snapshot, present, m);
    }
  }

  ghost predicate SameScope(st: Store, st': Store, c: Ctx) { Scope(st', c) == Scope(st, c) }

  lemma RestoreSteals(st: Store, ctx: Ctx, snapshot: seq<Memory>, present: seq<string>, m: Memory)
    requires StoreOk(st) && Sound(ctx, snapshot) && m in Missing(snapshot, present)
    requires var r := Get(RowsOf(st, ctx.tenant), m.id); r.Some? && r.value.namespace != ctx.namespace
    ensures var c := Ctx(ctx.tenant, Get(RowsOf(st, ctx.tenant), m.id).value.namespace);
      !SameScope(st, Restore(st, ctx, snapshot, present).0, c)
  {
    var row := Get(RowsOf(st, ctx.tenant), m.id).value;
    var (c, st') := (Ctx(ctx.tenant, row.namespace), Restore(st, ctx, snapshot, present).0);
    var missing := Missing(snapshot, present);
    RestoreMeaning(st, ctx, snapshot, present, m.id);
    FilterMembers(snapshot, (m: Memory) => m.id !in present);
    GetIsIn(AsRows(missing), m.id);
    var k :| 0 <= k < |missing| && missing[k] == m;
    assert Keys(AsRows(missing))[k] == m.id;
    GetIsIn(RowsOf(st, ctx.tenant), m.id);
    RowInScope(st, c, Pair(m.id, row));
    var back := Get(AsRows(missing), m.id).value;
    var l :| 0 <= l < |missing| && AsRows(missing)[l] == Pair(m.id, back);
    assert missing[l] in snapshot && back.namespace == ctx.namespace;
    if row in Scope(st', c) {
      ListedIsRow(st', c, row);
    }
  }

  /** An input on which it does not, reached by three writes and commits: one id is written in namespace a,
      committed there, and written again in namespace b of the same tenant. Rolling a back then restores
      one row to a and leaves b empty. */
  lemma RollbackStealsOnARun(a: Ctx, b: Ctx, m: Memory, n: Memory, cid: string)
    requires a.tenant == b.tenant && a.namespace != b.namespace && InScope(a, m) && InScope(b, n) && m.id == n.id
    ensures var s := After([Write(a, m), Snap(a, cid, "", "main"), Write(b, n)]);
      var (st', r) := RolledBack(s.store, s.commits, a, cid);
      && Scope(s.store, a) == [] && Scope(s.store, b) == [n]
      && r == Ok(1) && Scope(st', a) == [m] && Scope(st', b) == []
  {
    var events := [Write(a, m), Snap(a, cid, "", "main"), Write(b, n)];
    AfterSnoc(events, 0);
    AfterSnoc(events, 1);
    AfterSnoc(events, 2);
    assert events[..3] == events;
    var (written, committed, moved) := (After(events[..1]), After(events[..2]), After(events));
    assert RowsOf(written.store, a.tenant) == [Pair(m.id, m)];
    OneRowScope(written.store, a, m);
    assert ListOf(committed.store, a, LIMIT) == [m];
    assert RowsOf(moved.store, a.tenant) == [Pair(n.id, n)];
    OneRowScope(moved.store, a, n);
    OneRowScope(moved.store, b, n);
    assert Ids([]) == [];
    var st' := RolledBack(moved.store, moved.commits, a, cid).0;
    RestoreOne(moved.store, a, m, []);
    assert RowsOf(st', a.tenant) == [Pair(m.id, m)];
    OneRowScope(st', a, m);
    OneRowScope(st', b, m);
  }

  lemma OneRowScope(st: Store, c: Ctx, m: Memory)
    requires RowsOf(st, c.tenant) == [Pair(m.id, m)]
    ensures Scope(st, c) == if m.namespace == c.namespace then [m] else []
  {
    var f := (x: Memory) => x.namespace == c.namespace;
    assert Values([Pair(m.id, m)]) == [m] && [m][1..] == [] && Filter([], f) == [];
    assert Filter([m], f) == (if f(m) then [m] else []) + Filter([m][1..], f);
  }

  // ---------------------------------------------------------------- rollback over any scope

  lemma ScopedIffRow(st: Store, c: Ctx, m: Memory)
    requires StoreOk(st)
    ensures m in Scope(st, c) <==> Get(RowsOf(st, c.tenant), m.id) == Some(m) && m.namespace == c.namespace
  {
    GetIsIn(RowsOf(st, c.tenant), m.id);
    if m in Scope(st, c) {
      ListedIsRow(st, c, m);
    } else if Get(RowsOf(st, c.tenant), m.id) == Some(m) && m.namespace == c.namespace {
      RowInScope(st, c, Pair(m.id, m));
    }
  }

  lemma BackIsMissing(ms: seq<Memory>, id: string)
    ensures match Get(AsRows(ms), id)
      case Some(m) => m in ms && m.id == id
      case None => forall m :: m in ms ==> m.id != id
  {
    var rows := AsRows(ms);
    GetIsIn(rows, id);
    if Get(rows, id).Some? {
      var k :| 0 <= k < |rows| && rows[k] == Pair(id, Get(rows, id).value);
      assert ms[k] in ms;
    } else {
      forall m | m in ms ensures m.id != id {
        var k :| 0 <= k < |ms| && ms[k] == m;
        assert Keys(rows)[k] == m.id;
      }
    }
  }

  /** Rollback leaves every row that is already in scope as it is exactly when no missing row stands in the
      scope with other contents. It can: rows beyond the first 4096 of the listing count as missing. */
  lemma RollbackKeepsScopeIff(st: Store, commits: Commits, ctx: Ctx, cid: string)
    requires StoreOk(st) && CommitOf(commits, ctx.tenant, cid).Some?
    requires Sound(ctx, CommitOf(commits, ctx.tenant, cid).value.snapshot)
    ensures var missing := Missing(CommitOf(commits, ctx.tenant, cid).value.snapshot, Ids(ListOf(st, ctx, LIMIT)));
      var st' := RolledBack(st, commits, ctx, cid).0;
      (forall m :: m in Scope(st, ctx) ==> m in Scope(st', ctx)) <==> NoneChanged(Scope(st, ctx), missing)
  {
    var (snapshot, present) := (CommitOf(commits, ctx.tenant, cid).value.snapshot, Ids(ListOf(st, ctx, LIMIT)));
    forall m | m in Scope(st, ctx)
      ensures m in Scope(RolledBack(st, commits, ctx, cid).0, ctx) <==> Unchanged(m, Missing(snapshot, present))
    {
      RestoredRow(st, ctx, snapshot, present, m);
    }
  }

  /** No missing row has the id of m with anything else in it. */
  ghost predicate Unchanged(m: Memory, missing: seq<Memory>) { forall s :: s in missing && s.id == m.id ==> s == m }

  ghost predicate NoneChanged(scope: seq<Memory>, missing: seq<Memory>) {
    forall m :: m in scope ==> Unchanged(m, missing)
  }

  lemma RestoredRow(st: Store, ctx: Ctx, snapshot: seq<Memory>, present: seq<string>, m: Memory)
    requires StoreOk(st) && Sound(ctx, snapshot) && m in Scope(st, ctx)
    ensures m in Scope(Restore(st, ctx, snapshot, present).0, ctx) <==> Unchanged(m, Missing(snapshot, present))
  {
    var (st', missing) := (Restore(st, ctx, snapshot, present).0, Missing(snapshot, present));
    RestoreMeaning(st, ctx, snapshot, present, m.id);
    ScopedIffRow(st, ctx, m);
    ScopedIffRow(st', ctx, m);
    BackIsMissing(missing, m.id);
    MissingIsSound(ctx, snapshot, present);
    forall s, s' | s in missing && s' in missing && s.id == s'.id ensures s == s' {
      SameIdSameRow(missing, s, s');
    }
  }

  lemma MissingIsSound(ctx: Ctx, snapshot: seq<Memory>, present: seq<string>)
    requires Sound(ctx, snapshot)
    ensures Sound(ctx, Missing(snapshot, present))
    ensures forall m :: m in Missing(snapshot, present) <==> m in snapshot && m.id !in present
  {
    FilterKeepsDistinctIds(snapshot, (m: Memory) => m.id !in present);
    FilterMembers(snapshot, (m: Memory) => m.id !in present);
  }

  lemma SameIdSameRow(ms: seq<Memory>, s: Memory, s': Memory)
    requires Distinct(Ids(ms)) && s in ms && s' in ms && s.id == s'.id
    ensures s == s'
  {
    var k :| 0 <= k < |ms| && ms[k] == s;
    var l :| 0 <= l < |ms| && ms[l] == s';
    assert Ids(ms)[k] == Ids(ms)[l];
  }

  /** After a rollback every snapshot id is listed in the scope, somewhere. */
  lemma SnapshotIsListed(st: Store, ctx: Ctx, snapshot: seq<Memory>, m: Memory)
    requires StoreOk(st) && Sound(ctx, snapshot) && m in snapshot
    ensures m.id in Ids(Scope(Restore(st, ctx, snapshot, Ids(ListOf(st, ctx, LIMIT))).0, ctx))
  {
    var present := Ids(ListOf(st, ctx, LIMIT));
    var (st', missing) := (Restore(st, ctx, snapshot, present).0, Missing(snapshot, present));
    RestoreMeaning(st, ctx, snapshot, present, m.id);
    MissingIsSound(ctx, snapshot, present);
    BackIsMissing(missing, m.id);
    if m.id in present {
      var k :| 0 <= k < |present| && present[k] == m.id;
      ListedIsRow(st, ctx, Scope(st, ctx)[k]);
      forall s | s in missing ensures s.id != m.id {}
    }
    var row := Get(RowsOf(st', ctx.tenant), m.id).value;
    GetIsIn(RowsOf(st', ctx.tenant), m.id);
    RowIsListed(st', ctx, Pair(m.id, row));
  }

  lemma {:induction false} RestoreGrows(st: Store, ctx: Ctx, snapshot: seq<Memory>, present: seq<string>)
    requires StoreOk(st) && Sound(ctx, snapshot) && Settled(st, ctx, Missing(snapshot, present))
    ensures Ids(Scope(st, ctx)) <= Ids(Scope(Restore(st, ctx, snapshot, present).0, ctx))
    decreases |snapshot|
  {
    if snapshot != [] {
      var (m, rest) := (snapshot[0], snapshot[1..]);
      SoundTail(ctx, snapshot);
      if m.id in present {
        RestoreGrows(st, ctx, rest, present);
      } else {
        SettledStep(st, ctx, m, rest, present);
        AddedKeepsOk(st, ctx, m);
        AddedGrowsScope(st, ctx, m, ctx);
        RestoreGrows(Added(st, ctx, m).value, ctx, rest, present);
      }
    }
  }

  /** Rolling back twice, from any store: the second time nothing is restored once the scope fits the
      listing; and when no missing id had moved to another namespace, only then or if nothing was missing
      in the first place. */
  lemma RollbackTwice(st: Store, commits: Commits, ctx: Ctx, cid: string)
    requires StoreOk(st) && CommitOf(commits, ctx.tenant, cid).Some?
    requires Sound(ctx, CommitOf(commits, ctx.tenant, cid).value.snapshot)
    ensures var missing := Missing(CommitOf(commits, ctx.tenant, cid).value.snapshot, Ids(ListOf(st, ctx, LIMIT)));
      var (st', r) := RolledBack(st, commits, ctx, cid);
      var again := RolledBack(st', commits, ctx, cid).1;
      && r == Ok(|missing|) && again.Ok?
      && (|Scope(st', ctx)| <= LIMIT ==> again == Ok(0))
      && (Settled(st, ctx, missing) ==> (again == Ok(0) <==> missing == [] || |Scope(st', ctx)| <= LIMIT))
  {
    var (snapshot, present) := (CommitOf(commits, ctx.tenant, cid).value.snapshot, Ids(ListOf(st, ctx, LIMIT)));
    var missing := Missing(snapshot, present);
    var st' := RolledBack(st, commits, ctx, cid).0;
    var present' := Ids(ListOf(st', ctx, LIMIT));
    RestoreMeaning(st, ctx, snapshot, present, "");
    RestoreMeaning(st', ctx, snapshot, present', "");
    if |Scope(st', ctx)| <= LIMIT {
      forall m | m in snapshot ensures m.id in present' { SnapshotIsListed(st, ctx, snapshot, m); }
      RestoreNothing(st', ctx, snapshot, present');
    } else if Settled(st, ctx, missing) {
      CrowdedOut(st, ctx, snapshot);
    }
  }

  lemma CrowdedOut(st: Store, ctx: Ctx, snapshot: seq<Memory>)
    requires StoreOk(st) && Sound(ctx, snapshot) && Settled(st, ctx, Missing(snapshot, Ids(ListOf(st, ctx, LIMIT))))
    requires |Scope(Restore(st, ctx, snapshot, Ids(ListOf(st, ctx, LIMIT))).0, ctx)| > LIMIT
    ensures var present := Ids(ListOf(st, ctx, LIMIT));
      var st' := Restore(st, ctx, snapshot, present).0;
      Missing(snapshot, Ids(ListOf(st', ctx, LIMIT))) == [] <==> Missing(snapshot, present) == []
  {
    var present := Ids(ListOf(st, ctx, LIMIT));
    var st' := Restore(st, ctx, snapshot, present).0;
    var missing := Missing(snapshot, present);
    MissingIsSound(ctx, snapshot, present);
    if missing == [] {
      assert forall m :: m in snapshot ==> m.id in present;
      RestoreNothing(st, ctx, snapshot, present);
    } else {
      RestoreGrows(st, ctx, snapshot, present);
      if |Scope(st, ctx)| >= LIMIT {
        SameListing(Scope(st, ctx), Scope(st', ctx));
      } else {
        LastIsCutOff(st, ctx, snapshot);
      }
    }
  }

  lemma SameListing(a: seq<Memory>, b: seq<Memory>)
    requires Ids(a) <= Ids(b) && |a| >= LIMIT
    ensures Ids(PyTake(a, LIMIT)) == Ids(PyTake(b, LIMIT))
  {
    forall k | 0 <= k < LIMIT ensures Ids(PyTake(a, LIMIT))[k] == Ids(PyTake(b, LIMIT))[k] {
      assert Ids(a)[k] == Ids(b)[k];
    }
  }

  /** A scope that the restored rows took over the limit: the second rollback misses some of them. */
  lemma LastIsCutOff(st: Store, ctx: Ctx, snapshot: seq<Memory>)
    requires StoreOk(st) && Sound(ctx, snapshot) && Settled(st, ctx, Missing(snapshot, Ids(ListOf(st, ctx, LIMIT))))
    requires |Scope(st, ctx)| < LIMIT < |Scope(Restore(st, ctx, snapshot, Ids(ListOf(st, ctx, LIMIT))).0, ctx)|
    ensures var st' := Restore(st, ctx, snapshot, Ids(ListOf(st, ctx, LIMIT))).0;
      Missing(snapshot, Ids(ListOf(st', ctx, LIMIT))) != []
  {
    var present := Ids(ListOf(st, ctx, LIMIT));
    var st' := Restore(st, ctx, snapshot, present).0;
    var missing := Missing(snapshot, present);
    assert ListOf(st, ctx, LIMIT) == Scope(st, ctx);
    RestoredScope(st, ctx, snapshot);
    SecondRollback(st', ctx, snapshot, Scope(st, ctx), missing);
    RestoreMeaning(st, ctx, snapshot, present, "");
    RestoreMeaning(st', ctx, snapshot, Ids(ListOf(st', ctx, LIMIT)), "");
  }

  lemma RestoredScope(st: Store, ctx: Ctx, snapshot: seq<Memory>)
    requires StoreOk(st) && Sound(ctx, snapshot) && |Scope(st, ctx)| <= LIMIT
    requires Settled(st, ctx, Missing(snapshot, Ids(Scope(st, ctx))))
    ensures var missing := Missing(snapshot, Ids(Scope(st, ctx)));
      var (st', r) := Restore(st, ctx, snapshot, Ids(Scope(st, ctx)));
      && r == Ok(|missing|) && Extended(st, st', ctx.tenant, missing) && Scope(st', ctx) == Scope(st, ctx) + missing
  {
    var present := Ids(Scope(st, ctx));
    var missing := Missing(snapshot, present);
    MissingIsSound(ctx, snapshot, present);
    forall m | m in snapshot && m.id !in present ensures m.id !in Keys(RowsOf(st, ctx.tenant)) {
      assert m in missing;
      SettledIsAbsent(st, ctx, m);
    }
    RestoreAppends(st, ctx, snapshot, present);
    ScopeAppends(st, Restore(st, ctx, snapshot, present).0, ctx, missing);
  }

  // ---------------------------------------------------------------- when the listing overflows

  function UnaryId(n: nat): string { seq(n, _ => 'x') }

  /** n rows with ids of lengths 1 to n. */
  function Crowd(ctx: Ctx, n: nat): (rows: Rows)
    ensures |rows| == n
  {
    seq(n, i requires 0 <= i < n => Pair(UnaryId(i + 1), Memory(UnaryId(i + 1), ctx.tenant, ctx.namespace, "")))
  }

  /** An input on which a second rollback restores again: a full listing of 4096 other rows stands before
      the row that the first rollback put back. */
  lemma SecondRollbackRestoresAgain(ctx: Ctx, cid: string) returns (st: Store, commits: Commits)
    ensures StoreOk(st) && |Scope(st, ctx)| == LIMIT
    ensures CommitOf(commits, ctx.tenant, cid).Some? && Sound(ctx, CommitOf(commits, ctx.tenant, cid).value.snapshot)
    ensures var (st', r) := RolledBack(st, commits, ctx, cid);
      r == Ok(1) && RolledBack(st', commits, ctx, cid).1 == Ok(1)
  {
    var rows := Crowd(ctx, LIMIT);
    var lost := Memory("", ctx.tenant, ctx.namespace, "");
    st := map[ctx.tenant := rows];
    commits := map[ctx.tenant := map[cid := CommitRecord(cid, "main", "", [lost])]];
    CrowdIsOk(ctx, LIMIT);
    FilterAll(Values(rows), (m: Memory) => m.namespace == ctx.namespace);
    assert Scope(st, ctx) == Values(rows);
    forall k | 0 <= k < LIMIT ensures Ids(Values(rows))[k] != "" && Keys(rows)[k] != "" {}
    OneLost(st, commits, ctx, cid, lost);
  }

  /** An input on which rollback is not append-only: the 4097th row of a scope is newer than the snapshot's,
      counts as missing, and is overwritten. */
  lemma RollbackOverwrites(ctx: Ctx, cid: string) returns (st: Store, commits: Commits)
    ensures StoreOk(st) && |Scope(st, ctx)| == LIMIT + 1 && CommitOf(commits, ctx.tenant, cid).Some?
    ensures Sound(ctx, CommitOf(commits, ctx.tenant, cid).value.snapshot)
    ensures !forall m :: m in Scope(st, ctx) ==> m in Scope(RolledBack(st, commits, ctx, cid).0, ctx)
  {
    var (older, newer) := (Memory("", ctx.tenant, ctx.namespace, "old"), Memory("", ctx.tenant, ctx.namespace, "new"));
    var rows := Crowd(ctx, LIMIT) + [Pair("", newer)];
    st := map[ctx.tenant := rows];
    commits := map[ctx.tenant := map[cid := CommitRecord(cid, "main", "", [older])]];
    CrowdIsOk(ctx, LIMIT);
    CrowdAnd(ctx, LIMIT, newer);
    FilterAll(Values(rows), (m: Memory) => m.namespace == ctx.namespace);
    assert Scope(st, ctx) == Values(rows);
    var present := Ids(ListOf(st, ctx, LIMIT));
    forall k | 0 <= k < LIMIT ensures present[k] != "" {
      assert present[k] == Values(rows)[k].id == rows[k].val.id;
    }
    RollbackKeepsScopeIff(st, commits, ctx, cid);
    FilterAll([older], (m: Memory) => m.id !in present);
    assert Missing([older], present) == [older] && older in [older];
    assert Values(rows)[LIMIT] == newer && newer in Scope(st, ctx) && !Unchanged(newer, [older]);
  }

  lemma CrowdAndDiffers(ctx: Ctx, n: nat, m: Memory)
    requires m.id == ""
    ensures var rows: Rows := Crowd(ctx, n) + [Pair("", m)]; Distinct(Keys(rows))
  {
    var rows: Rows := Crowd(ctx, n) + [Pair("", m)];
    forall i, j | 0 <= i < j < n + 1 ensures Keys(rows)[i] != Keys(rows)[j] {
      assert |Keys(rows)[i]| == i + 1 && (j == n || |Keys(rows)[j]| == j + 1);
    }
  }

  lemma CrowdAnd(ctx: Ctx, n: nat, m: Memory)
    requires m.id == "" && InScope(ctx, m)
    ensures var rows: Rows := Crowd(ctx, n) + [Pair("", m)];
      && Distinct(Keys(rows)) && (forall p :: p in rows ==> p.key == p.val.id && InScope(ctx, p.val))
      && (forall x :: x in Values(rows) ==> x.namespace == ctx.namespace)
  {
    var rows: Rows := Crowd(ctx, n) + [Pair("", m)];
    CrowdIsOk(ctx, n);
    CrowdAndDiffers(ctx, n, m);
    forall x: Memory | x in Values(rows) ensures x.namespace == ctx.namespace {
      var k :| 0 <= k < |rows| && Values(rows)[k] == x;
      assert rows[k] in rows;
    }
  }

  lemma CrowdIsOk(ctx: Ctx, n: nat)
    ensures Distinct(Keys(Crowd(ctx, n)))
    ensures forall p :: p in Crowd(ctx, n) ==> p.key == p.val.id && InScope(ctx, p.val)
    ensures forall m :: m in Values(Crowd(ctx, n)) ==> m.namespace == ctx.namespace
  {
    var rows := Crowd(ctx, n);
    forall i, j | 0 <= i < j < n ensures Keys(rows)[i] != Keys(rows)[j] {
      assert |Keys(rows)[i]| == i + 1 && |Keys(rows)[j]| == j + 1;
    }
  }

  lemma OneLost(st: Store, commits: Commits, ctx: Ctx, cid: string, lost: Memory)
    requires StoreOk(st) && |Scope(st, ctx)| == LIMIT && InScope(ctx, lost)
    requires CommitOf(commits, ctx.tenant, cid).Some? && CommitOf(commits, ctx.tenant, cid).value.snapshot == [lost]
    requires lost.id !in Keys(RowsOf(st, ctx.tenant)) && lost.id !in Ids(Scope(st, ctx))
    ensures var (st', r) := RolledBack(st, commits, ctx, cid);
      r == Ok(1) && RolledBack(st', commits, ctx, cid).1 == Ok(1)
  {
    var present := Ids(Scope(st, ctx));
    GetIsIn(RowsOf(st, ctx.tenant), lost.id);
    FilterAll([lost], (m: Memory) => m.id !in present);
    assert Missing([lost], present) == [lost];
    RollbackAfterLoss(st, commits, ctx, cid);
    var st' := RolledBack(st, commits, ctx, cid).0;
    RestoreOne(st', ctx, lost, Ids(ListOf(st', ctx, LIMIT)));
  }

  lemma RestoreOne(st: Store, ctx: Ctx, m: Memory, present: seq<string>)
    requires InScope(ctx, m)
    ensures Restore(st, ctx, [m], present).1 == Ok(if m.id in present then 0 else 1)
  {
    assert [m][1..] == [];
  }

  lemma ScopeAppends(st: Store, st': Store, ctx: Ctx, missing: seq<Memory>)
    requires RowsOf(st', ctx.tenant) == RowsOf(st, ctx.tenant) + AsRows(missing)
    requires forall m :: m in missing ==> InScope(ctx, m)
    ensures Scope(st', ctx) == Scope(st, ctx) + missing
  {
    var f := (m: Memory) => m.namespace == ctx.namespace;
    assert Values(RowsOf(st', ctx.tenant)) == Values(RowsOf(st, ctx.tenant)) + missing;
    FilterConcat(Values(RowsOf(st, ctx.tenant)), missing, f);
    FilterAll(missing, f);
  }

  lemma SecondRollback(st: Store, ctx: Ctx, snapshot: seq<Memory>, before: seq<Memory>, missing: seq<Memory>)
    requires |before| <= LIMIT && Scope(st, ctx) == before + missing && missing == Missing(snapshot, Ids(before))
    requires Distinct(Ids(snapshot)) && forall m :: m in snapshot ==> InScope(ctx, m)
    ensures Restore(st, ctx, snapshot, Ids(ListOf(st, ctx, LIMIT))).1 == Ok(0) <==>
      |before| + |missing| <= LIMIT || missing == []
  {
    var (all, listed) := (before + missing, ListOf(st, ctx, LIMIT));
    FilterMembers(snapshot, (m: Memory) => m.id !in Ids(before));
    if |all| <= LIMIT || missing == [] {
      forall m | m in snapshot ensures m.id in Ids(listed) {
        if m.id in Ids(before) {
          var k :| 0 <= k < |before| && Ids(before)[k] == m.id;
          assert Ids(listed)[k] == m.id;
        } else {
          assert m in missing;
          var k :| 0 <= k < |missing| && missing[k] == m;
          assert Ids(listed)[|before| + k] == m.id;
        }
      }
      RestoreNothing(st, ctx, snapshot, Ids(listed));
    } else {
      var last := missing[|missing| - 1];
      assert last in missing;
      FilterKeepsDistinctIds(snapshot, (m: Memory) => m.id !in Ids(before));
      forall k | 0 <= k < |listed| ensures Ids(listed)[k] != last.id {
        if k < |before| {
          assert Ids(before)[k] == all[k].id;
        } else {
          assert Ids(missing)[k - |before|] != Ids(missing)[|missing| - 1];
        }
      }
      RestoreSomething(st, ctx, snapshot, Ids(listed), last);
    }
  }

  lemma {:induction false} FilterKeepsDistinctIds(s: seq<Memory>, p: Memory -> bool)
    requires Distinct(Ids(s))
    ensures Distinct(Ids(Filter(s, p)))
  {
    if s != [] {
      assert forall k :: 0 <= k < |s| - 1 ==> Ids(s[1..])[k] == Ids(s)[k + 1];
      FilterKeepsDistinctIds(s[1..], p);
      FilterMembers(s[1..], p);
      var (rest, t) := (s[1..], Filter(s[1..], p));
      forall j | 0 <= j < |t| ensures t[j].id != s[0].id {
        assert t[j] in t && t[j] in rest;
        var k :| 0 <= k < |rest| && rest[k] == t[j];
        assert Ids(s)[0] != Ids(s)[k + 1];
      }
      assert Ids([s[0]] + t) == [s[0].id] + Ids(t);
    }
  }

  lemma {:induction false} RestoreSomething(st: Store, ctx: Ctx, snapshot: seq<Memory>, present: seq<string>, m: Memory)
    requires m in snapshot && m.id !in present && forall x :: x in snapshot ==> InScope(ctx, x)
    ensures Restore(st, ctx, snapshot, present).1.Ok? ==> Restore(st, ctx, snapshot, present).1.value > 0
    decreases |snapshot|
  {
    assert snapshot[0] in snapshot;
    if snapshot[0].id in present {
      RestoreSomething(st, ctx, snapshot[1..], present, m);
    } else {
      var rest := Restore(Added(st, ctx, snapshot[0]).value, ctx, snapshot[1..], present).1;
      assert rest.Ok? ==> rest.value >= 0;
    }
  }
}
