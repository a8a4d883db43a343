/** Rollback from any store (versioning/engine.py): what the scope lists afterwards, when the missing rows are
    appended, and what a second rollback restores. No assumption on the size of the scope or on where the
    missing ids have gone. */
module Rollback {
  import opened Prelude
  import opened Dict
  import opened Versioning

  // ---------------------------------------------------------------- the listing after a rollback

  /** The ids, in the order of the dictionary, of the rows that are in the namespace or among these ids. */
  function Joining(rows: Rows, ns: string, ids: seq<string>): seq<string> {
    if rows == [] then [] else Joins(rows[0], ns, ids) + Joining(rows[1..], ns, ids)
  }

  function Joins(p: Pair<string, Memory>, ns: string, ids: seq<string>): seq<string> {
    if p.val.namespace == ns || p.key in ids then [p.key] else []
  }

  /** Where the missing rows go: one whose id the tenant still has, in this namespace or in another, takes that
      row's place; the others follow at the end. */
  function Rejoined(rows: Rows, ns: string, missing: seq<Memory>): seq<string> {
    Joining(rows, ns, Ids(missing)) + Ids(Missing(missing, Keys(rows)))
  }

  ghost predicate RowsOk(rows: Rows) { Distinct(Keys(rows)) && forall p :: p in rows ==> p.key == p.val.id }

  lemma RowsOkTail(rows: Rows)
    requires RowsOk(rows) && rows != []
    ensures RowsOk(rows[1..]) && rows[0].key !in Keys(rows[1..])
  {
    KeysCons(rows);
    assert forall k :: 0 <= k < |rows| - 1 ==> Keys(rows[1..])[k] == Keys(rows)[k + 1];
  }

  lemma {:induction false} JoiningNobody(rows: Rows, ns: string)
    requires RowsOk(rows)
    ensures Joining(rows, ns, []) == IdsIn(rows, ns)
  {
    if rows != [] {
      RowsOkTail(rows);
      IdsInCons(rows, ns);
      assert rows[0] in rows;
      JoiningNobody(rows[1..], ns);
    }
  }

  /** An id that no row has makes no difference. */
  lemma {:induction false} JoiningStranger(rows: Rows, ns: string, id: string, ids: seq<string>)
    requires id !in Keys(rows)
    ensures Joining(rows, ns, [id] + ids) == Joining(rows, ns, ids)
  {
    if rows != [] {
      KeysCons(rows);
      JoiningStranger(rows[1..], ns, id, ids);
    }
  }

  /** A row put back joins the listing where its id stood, or at the end. */
  lemma {:induction false} JoiningPut(rows: Rows, m: Memory, ns: string, ids: seq<string>)
    requires RowsOk(rows) && m.namespace == ns && m.id !in ids
    ensures Joining(Put(rows, m.id, m), ns, ids)
         == Joining(rows, ns, [m.id] + ids) + if m.id in Keys(rows) then [] else [m.id]
  {
    if rows == [] {
      assert Put(rows, m.id, m)[1..] == [];
    } else {
      RowsOkTail(rows);
      KeysCons(rows);
      var rest := rows[1..];
      if rows[0].key == m.id {
        JoiningStranger(rest, ns, m.id, ids);
        TailOfCons(Pair(m.id, m), rest);
      } else {
        JoiningPut(rest, m, ns, ids);
        TailOfCons(rows[0], Put(rest, m.id, m));
        JoinsAlike(rows[0], m.id, ns, ids);
        Associate(Joins(rows[0], ns, ids), Joining(rest, ns, [m.id] + ids), if m.id in Keys(rest) then [] else [m.id]);
      }
    }
  }

  lemma JoinsAlike(p: Pair<string, Memory>, id: string, ns: string, ids: seq<string>)
    requires p.key != id
    ensures Joins(p, ns, [id] + ids) == Joins(p, ns, ids)
  {
  }

  lemma Associate<T>(a: seq<T>, b: seq<T>, c: seq<T>)
    ensures a + b + c == a + (b + c)
  {
  }

  lemma {:induction false} MissingAlike(ms: seq<Memory>, a: seq<string>, b: seq<string>)
    requires forall m :: m in ms ==> (m.id in a <==> m.id in b)
    ensures Missing(ms, a) == Missing(ms, b)
  {
    if ms != [] {
      assert ms[0] in ms;
      MissingAlike(ms[1..], a, b);
    }
  }

  lemma IdsCons(m: Memory, rest: seq<Memory>)
    ensures Ids([m] + rest) == [m.id] + Ids(rest)
  {
  }

  lemma MissingCons(m: Memory, rest: seq<Memory>, keys: seq<string>)
    ensures Ids(Missing([m] + rest, keys)) == (if m.id in keys then [] else [m.id]) + Ids(Missing(rest, keys))
  {
    assert ([m] + rest)[1..] == rest;
    if m.id !in keys {
      assert Missing([m] + rest, keys) == [m] + Missing(rest, keys);
      IdsCons(m, Missing(rest, keys));
    }
  }

  /** Putting one row back and then rejoining the rest is rejoining them all. */
  lemma {:induction false} RejoinedStep(rows: Rows, m: Memory, rest: seq<Memory>)
    requires RowsOk(rows) && forall x :: x in rest ==> x.id != m.id
    ensures Rejoined(Put(rows, m.id, m), m.namespace, rest) == Rejoined(rows, m.namespace, [m] + rest)
  {
    var (rows', ns, joining) := (Put(rows, m.id, m), m.namespace, Joining(rows, m.namespace, [m.id] + Ids(rest)));
    NotAmong(rest, m.id);
    JoiningPut(rows, m, ns, Ids(rest));
    StillMissing(rows, m, rest);
    IdsCons(m, rest);
    MissingCons(m, rest, Keys(rows));
    Associate(joining, if m.id in Keys(rows) then [] else [m.id], Ids(Missing(rest, Keys(rows))));
  }

  lemma StillMissing(rows: Rows, m: Memory, rest: seq<Memory>)
    requires forall x :: x in rest ==> x.id != m.id
    ensures Missing(rest, Keys(Put(rows, m.id, m))) == Missing(rest, Keys(rows))
  {
    PutKeepsPlaces(rows, m.id, m);
    MissingAlike(rest, Keys(rows), Keys(Put(rows, m.id, m)));
  }

  lemma NotAmong(ms: seq<Memory>, id: string)
    requires forall x :: x in ms ==> x.id != id
    ensures id !in Ids(ms)
  {
    forall k | 0 <= k < |ms| ensures Ids(ms)[k] != id {
      assert ms[k] in ms;
    }
  }

  lemma StoreRowsOk(st: Store, tenant: string)
    requires StoreOk(st)
    ensures RowsOk(RowsOf(st, tenant))
  {
  }

  /** What the scope lists after a rollback, from any store. */
  lemma {:induction false} RejoinedScope(st: Store, ctx: Ctx, snapshot: seq<Memory>, present: seq<string>)
    requires StoreOk(st) && Sound(ctx, snapshot)
    ensures Ids(Scope(Restore(st, ctx, snapshot, present).0, ctx))
         == Rejoined(RowsOf(st, ctx.tenant), ctx.namespace, Missing(snapshot, present))
    decreases |snapshot|
  {
    var rows := RowsOf(st, ctx.tenant);
    StoreRowsOk(st, ctx.tenant);
    if snapshot == [] {
      JoiningNobody(rows, ctx.namespace);
    } else {
      var (m, rest) := (snapshot[0], snapshot[1..]);
      SoundTail(ctx, snapshot);
      if m.id in present {
        RestoreKept(st, ctx, snapshot, present);
        RejoinedScope(st, ctx, rest, present);
      } else {
        RestoreBack(st, ctx, snapshot, present);
        AddedKeepsOk(st, ctx, m);
        RejoinedScope(Added(st, ctx, m).value, ctx, rest, present);
        FilterMembers(rest, (m: Memory) => m.id !in present);
        RejoinedStep(rows, m, Missing(rest, present));
      }
    }
  }

  // ---------------------------------------------------------------- a second rollback

  /** The ids that the first rollback finds missing. */
  function MissingNow(st: Store, commits: Commits, ctx: Ctx, cid: string): seq<Memory>
    requires CommitOf(commits, ctx.tenant, cid).Some?
  {
    Missing(CommitOf(commits, ctx.tenant, cid).value.snapshot, Ids(ListOf(st, ctx, LIMIT)))
  }

  function RejoinedNow(st: Store, commits: Commits, ctx: Ctx, cid: string): seq<string>
    requires CommitOf(commits, ctx.tenant, cid).Some?
  {
    Rejoined(RowsOf(st, ctx.tenant), ctx.namespace, MissingNow(st, commits, ctx, cid))
  }

  lemma ListedIds(st: Store, ctx: Ctx)
    ensures Ids(ListOf(st, ctx, LIMIT)) == PyTake(Ids(Scope(st, ctx)), LIMIT)
  {
  }

  lemma NoneMissing(snapshot: seq<Memory>, present: seq<string>)
    ensures |Missing(snapshot, present)| == 0 <==> forall m :: m in snapshot ==> m.id in present
  {
    var missing := Missing(snapshot, present);
    FilterMembers(snapshot, (m: Memory) => m.id !in present);
    if missing != [] {
      assert missing[0] in missing;
    } else {
      assert forall m :: m in snapshot && m.id !in present ==> m in missing;
    }
  }

  /** From any store: the first rollback restores every missing row and leaves the listing above, so a second
      one restores exactly the snapshot rows that do not stand among its first 4096. It restores nothing if
      and only if they all do; in particular whenever the scope fits the listing, and, unless a missing id
      has moved to another namespace, only then or when nothing was missing. */
  lemma RollbackTwiceIff(st: Store, commits: Commits, ctx: Ctx, cid: string)
    requires StoreOk(st) && CommitOf(commits, ctx.tenant, cid).Some?
    requires Sound(ctx, CommitOf(commits, ctx.tenant, cid).value.snapshot)
    ensures var snapshot := CommitOf(commits, ctx.tenant, cid).value.snapshot;
      var ids := RejoinedNow(st, commits, ctx, cid);
      var (st', r) := RolledBack(st, commits, ctx, cid);
      var again := RolledBack(st', commits, ctx, cid).1;
      && r == Ok(|MissingNow(st, commits, ctx, cid)|) && Ids(Scope(st', ctx)) == ids
      && again == Ok(|Missing(snapshot, PyTake(ids, 4096))|)
      && (again == Ok(0) <==> forall m :: m in snapshot ==> m.id in PyTake(ids, 4096))
      && (|ids| <= 4096 ==> again == Ok(0))
      && (Settled(st, ctx, MissingNow(st, commits, ctx, cid)) ==>
            (again == Ok(0) <==> |ids| <= 4096 || MissingNow(st, commits, ctx, cid) == []))
  {
    var snapshot := CommitOf(commits, ctx.tenant, cid).value.snapshot;
    var present := Ids(ListOf(st, ctx, LIMIT));
    var st' := RolledBack(st, commits, ctx, cid).0;
    RejoinedScope(st, ctx, snapshot, present);
    RestoreMeaning(st, ctx, snapshot, present, "");
    ListedIds(st', ctx);
    RestoreMeaning(st', ctx, snapshot, Ids(ListOf(st', ctx, LIMIT)), "");
    NoneMissing(snapshot, Ids(ListOf(st', ctx, LIMIT)));
    RollbackTwice(st, commits, ctx, cid);
  }

  // ---------------------------------------------------------------- append-only

  /** Rollback is documented as append-only. From any store it appends the missing rows, in order, and changes
      nothing else if and only if the tenant has none of their ids any more, in this namespace beyond the
      listing or in another one. */
  lemma AppendsIff(st: Store, commits: Commits, ctx: Ctx, cid: string)
    requires StoreOk(st) && CommitOf(commits, ctx.tenant, cid).Some?
    requires Sound(ctx, CommitOf(commits, ctx.tenant, cid).value.snapshot)
    ensures var (missing, (st', r)) := (MissingNow(st, commits, ctx, cid), RolledBack(st, commits, ctx, cid));
      && r == Ok(|missing|)
      && (Extended(st, st', ctx.tenant, missing) <==> NoneKnown(st, ctx, missing))
      && (Extended(st, st', ctx.tenant, missing) ==> Scope(st', ctx) == Scope(st, ctx) + missing)
  {
    var snapshot := CommitOf(commits, ctx.tenant, cid).value.snapshot;
    var present := Ids(ListOf(st, ctx, LIMIT));
    var (missing, st') := (MissingNow(st, commits, ctx, cid), RolledBack(st, commits, ctx, cid).0);
    RestoreMeaning(st, ctx, snapshot, present, "");
    MissingIsSound(ctx, snapshot, present);
    if NoneKnown(st, ctx, missing) {
      RestoreAppends(st, ctx, snapshot, present);
    }
    if Extended(st, st', ctx.tenant, missing) {
      AppendedAreNew(st, st', ctx, missing);
      ScopeAppends(st, st', ctx, missing);
    }
  }

  ghost predicate NoneKnown(st: Store, ctx: Ctx, missing: seq<Memory>) {
    forall m :: m in missing ==> m.id !in Keys(RowsOf(st, ctx.tenant))
  }

  lemma AppendedAreNew(st: Store, st': Store, ctx: Ctx, missing: seq<Memory>)
    requires StoreOk(st') && Extended(st, st', ctx.tenant, missing)
    ensures NoneKnown(st, ctx, missing)
  {
    var (rows, rows') := (RowsOf(st, ctx.tenant), RowsOf(st', ctx.tenant));
    StoreRowsOk(st', ctx.tenant);
    forall m | m in missing ensures m.id !in Keys(rows) {
      var k :| 0 <= k < |missing| && missing[k] == m;
      AppendedKeyAt(rows, missing, k);
    }
  }

  lemma AppendedKeyAt(rows: Rows, ms: seq<Memory>, k: nat)
    requires k < |ms| && Distinct(Keys(rows + AsRows(ms)))
    ensures ms[k].id !in Keys(rows)
  {
    var keys := Keys(rows + AsRows(ms));
    assert keys[|rows| + k] == ms[k].id;
    forall i | 0 <= i < |rows| ensures Keys(rows)[i] != ms[k].id {
      assert keys[i] == Keys(rows)[i];
    }
  }
}
