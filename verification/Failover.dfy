/** Dispatch along the chosen backend and its fallback chain (Pipeline._invoke_routed), and what
    it guarantees over whole runs of requests.

    The clock and the adapters are the environment: an `Attempt` holds the clock reading at the
    breaker check, the reading when the adapter returns or raises, and which of the two it does. */
module Failover {
  import opened Prelude
  import opened Breaker

  datatype Response = Response(text: string, model: string, finishReason: Option<string>)

  datatype Outcome = Reply(response: Response) | Raise

  datatype Attempt = Attempt(askedAt: real, endedAt: real, outcome: Outcome)

  datatype Entry = Entry(modelId: string, breaker: Snapshot)

  datatype Call = Call(name: string, askedAt: real, endedAt: real, ok: bool)

  datatype Served = Served(response: Response, name: string, modelId: string)

  datatype Dispatch = Dispatch(registry: map<string, Entry>, calls: seq<Call>, served: Option<Served>)

  function Set(registry: map<string, Entry>, name: string, b: Snapshot): map<string, Entry>
    requires name in registry
  {
    registry[name := registry[name].(breaker := b)]
  }

  /** Whether a backend's breaker allows a call, when it is asked at its own reading of the clock. */
  function AllowedAt(registry: map<string, Entry>, clock: string -> real): string -> bool {
    (n: string) => n in registry && registry[n].breaker.Allows(clock(n))
  }

  /** The breaker after an attempt that was made. */
  function Recorded(b: Snapshot, a: Attempt): Snapshot {
    if a.outcome.Reply? then b.Succeeded() else b.Failed(a.endedAt)
  }

  /** One request's walk, as a function of the registry and of the environment. */
  function Walk(registry: map<string, Entry>, names: seq<string>, script: seq<Attempt>): Dispatch
    requires |names| == |script|
  {
    if names == [] then Dispatch(registry, [], None)
    else
      var (n, a) := (names[0], script[0]);
      if n !in registry || !registry[n].breaker.Allows(a.askedAt) then Walk(registry, names[1..], script[1..])
      else
        var b := registry[n].breaker;
        match a.outcome
        case Reply(r) =>
          Dispatch(Set(registry, n, b.Succeeded()), [Call(n, a.askedAt, a.endedAt, true)],
                   Some(Served(r, n, registry[n].modelId)))
        case Raise =>
          var rest := Walk(Set(registry, n, b.Failed(a.endedAt)), names[1..], script[1..]);
          rest.(calls := [Call(n, a.askedAt, a.endedAt, false)] + rest.calls)
  }

  lemma Regroup(before: seq<Call>, c: Call, rest: seq<Call>)
    ensures before + ([c] + rest) == before + [c] + rest
  {
  }

  /** The call is what the script has at one place of the chain. */
  ghost predicate Scripted(names: seq<string>, script: seq<Attempt>, c: Call)
    requires |names| == |script|
  {
    exists i :: 0 <= i < |names| && c.name == names[i] && c.askedAt == script[i].askedAt
      && c.endedAt == script[i].endedAt && c.ok == script[i].outcome.Reply?
  }

  /** Every call of a dispatch happened as the script says, at its place in the chain. */
  lemma {:induction false} CallsAreScripted(registry: map<string, Entry>, names: seq<string>, script: seq<Attempt>,
                                            c: Call)
    requires |names| == |script| && c in Walk(registry, names, script).calls
    ensures Scripted(names, script, c)
    decreases |names|
  {
    if names != [] {
      var (n, a) := (names[0], script[0]);
      if n !in registry || !registry[n].breaker.Allows(a.askedAt) {
        CallsAreScripted(registry, names[1..], script[1..], c);
        ScriptedTail(names, script, c);
      } else if a.outcome.Raise? && c != Call(n, a.askedAt, a.endedAt, false) {
        CallsAreScripted(Set(registry, n, registry[n].breaker.Failed(a.endedAt)), names[1..], script[1..], c);
        ScriptedTail(names, script, c);
      }
    }
  }

  lemma ScriptedTail(names: seq<string>, script: seq<Attempt>, c: Call)
    requires |names| == |script| && names != [] && Scripted(names[1..], script[1..], c)
    ensures Scripted(names, script, c)
  {
    var i :| 0 <= i < |names| - 1 && c.name == names[1..][i] && c.askedAt == script[1..][i].askedAt
      && c.endedAt == script[1..][i].endedAt && c.ok == script[1..][i].outcome.Reply?;
    assert c.name == names[i + 1] && c.askedAt == script[i + 1].askedAt;
  }

  // ---------------------------------------------------------------- the code

  datatype RegistryEntry = RegistryEntry(modelId: string, breaker: CircuitBreaker)

  class BackendRegistry {
    var byName: map<string, RegistryEntry>

    /** Every backend has a breaker of its own, as `register` makes them by default. */
    ghost predicate Valid() reads this {
      forall m, n :: m in byName && n in byName && m != n ==> byName[m].breaker != byName[n].breaker
    }

    /** No other backend than this one has the breaker. */
    ghost predicate FreeFor(name: string, b: CircuitBreaker) reads this {
      forall n :: n in byName && n != name ==> byName[n].breaker != b
    }

    ghost function Breakers(): set<CircuitBreaker> reads this { set n | n in byName :: byName[n].breaker }

    ghost function Value(): map<string, Entry> reads this, Breakers() {
      map n | n in byName :: Entry(byName[n].modelId, byName[n].breaker.Value())
    }

    constructor ()
      ensures Valid() && Value() == map[]
    {
      byName := map[];
    }

    /** A breaker of the caller's choice, or a fresh one. The backends keep breakers of their own exactly when
        the given one is not another backend's. */
    method Register(name: string, modelId: string, given: Option<CircuitBreaker>, threshold: int, cooldown: real)
      requires Valid()
      modifies this
      ensures Valid() <==> (given.None? || old(FreeFor(name, given.value)))
      ensures var b := if given.Some? then given.value.Value() else Fresh(threshold, cooldown);
        Value() == old(Value())[name := Entry(modelId, b)]
    {
      var b;
      if given.Some? {
        b := given.value;
      } else {
        b := new CircuitBreaker(threshold, cooldown);
      }
      ghost var free := FreeFor(name, b);
      assert free <==> given.None? || old(FreeFor(name, given.value));
      byName := byName[name := RegistryEntry(modelId, b)];
      if !free {
        ghost var n :| n in old(byName) && n != name && old(byName)[n].breaker == b;
        assert byName[n].breaker == byName[name].breaker;
      }
    }

    /** The backends whose breakers allow a call, each asked at its own reading of the clock. */
    method AskBreakers(names: seq<string>, clock: string -> real) returns (up: set<string>)
      ensures unchanged(this) && up == set n | n in names && AllowedAt(Value(), clock)(n)
    {
      up := {};
      for i := 0 to |names|
        invariant up == set n | n in names[..i] && AllowedAt(Value(), clock)(n)
      {
        var n := names[i];
        TakeSnoc(names, i);
        if n in byName {
          var ok := byName[n].breaker.Allows(clock(n));
          if ok {
            up := up + {n};
          }
        }
      }
      assert names[..|names|] == names;
    }

    /** One turn of the walk: ask the breaker, and if it allows, call and record the outcome. */
    method Try(n: string, a: Attempt) returns (called: bool)
      requires Valid() && n in byName
      modifies byName[n].breaker
      ensures Valid() && unchanged(this) && called == old(Value())[n].breaker.Allows(a.askedAt)
      ensures Value() == if !called then old(Value()) else Set(old(Value()), n, Recorded(old(Value())[n].breaker, a))
    {
      var b := byName[n].breaker;
      called := b.Allows(a.askedAt);
      if called {
        if a.outcome.Reply? {
          b.RecordSuccess();
        } else {
          b.RecordFailure(a.endedAt);
        }
        assert Value() == Set(old(Value()), n, Recorded(old(Value())[n].breaker, a));
      }
    }

    method InvokeRouted(names: seq<string>, script: seq<Attempt>)
      returns (served: Option<Served>, calls: seq<Call>)
      requires Valid() && |names| == |script|
      modifies Breakers()
      ensures Valid() && unchanged(this)
      ensures Dispatch(Value(), calls, served) == Walk(old(Value()), names, script)
    {
      calls := [];
      var i := 0;
      assert names[0..] == names && script[0..] == script;
      while i < |names|
        invariant 0 <= i <= |names| && unchanged(this)
        invariant var rest := Walk(Value(), names[i..], script[i..]);
                  rest.(calls := calls + rest.calls) == Walk(old(Value()), names, script)
      {
        var (n, a) := (names[i], script[i]);
        assert names[i..][1..] == names[i + 1..] && script[i..][1..] == script[i + 1..];
        if n in byName {
          var called := Try(n, a);
          if called {
            Regroup(calls, Call(n, a.askedAt, a.endedAt, a.outcome.Reply?),
                    Walk(Value(), names[i + 1..], script[i + 1..]).calls);
            calls := calls + [Call(n, a.askedAt, a.endedAt, a.outcome.Reply?)];
            if a.outcome.Reply? {
              return Some(Served(a.outcome.response, n, byName[n].modelId)), calls;
            }
          }
        }
        i := i + 1;
      }
      served := None;
    }
  }

  // ---------------------------------------------------------------- first success, with a frame

  ghost predicate Tried(registry: map<string, Entry>, names: seq<string>, script: seq<Attempt>, i: int)
    requires |names| == |script| && 0 <= i < |names|
  {
    names[i] in registry && registry[names[i]].breaker.Allows(script[i].askedAt)
  }

  ghost predicate Wins(registry: map<string, Entry>, names: seq<string>, script: seq<Attempt>, i: int)
    requires |names| == |script| && 0 <= i < |names|
  {
    Tried(registry, names, script, i) && script[i].outcome.Reply?
  }

  /** `w` is the first winner, or |names| when nobody wins. */
  ghost predicate FirstWinner(registry: map<string, Entry>, names: seq<string>, script: seq<Attempt>, w: nat)
    requires |names| == |script|
  {
    && w <= |names|
    && (w < |names| ==> Wins(registry, names, script, w))
    && (forall i :: 0 <= i < w ==> !Wins(registry, names, script, i))
  }

  /** The whole effect of one dispatch, read off the registry as it was before: the first allowed
      backend that answers is served, those allowed before it each take exactly one failure at the
      time their call ended, the winner is reset, no other breaker moves, and the request is
      refused (`None`) exactly when nobody wins. */
  lemma {:induction false} WalkIsFirstSuccess(registry: map<string, Entry>, names: seq<string>,
                                              script: seq<Attempt>, w: nat)
    requires |names| == |script| && Distinct(names) && FirstWinner(registry, names, script, w)
    ensures var d := Walk(registry, names, script);
      && (d.served.None? <==> w == |names|)
      && (w < |names| ==> d.served == Some(Served(script[w].outcome.response, names[w], registry[names[w]].modelId)))
      && d.registry.Keys == registry.Keys
      && (forall i :: 0 <= i < |names| && names[i] in registry ==>
            d.registry[names[i]] == registry[names[i]].(breaker :=
              if i == w then registry[names[i]].breaker.Succeeded()
              else if i < w && Tried(registry, names, script, i)
              then registry[names[i]].breaker.Failed(script[i].endedAt)
              else registry[names[i]].breaker))
      && (forall n :: n in registry && n !in names ==> d.registry[n] == registry[n])
  {
    if names == [] {
    } else {
      var (n, a) := (names[0], script[0]);
      assert names == [n] + names[1..];
      if !Tried(registry, names, script, 0) {
        WalkRest(registry, registry, names, script, w);
        WalkIsFirstSuccess(registry, names[1..], script[1..], w - 1);
      } else if a.outcome.Reply? {
        assert Wins(registry, names, script, 0);
        assert w == 0;
      } else {
        var next := Set(registry, n, registry[n].breaker.Failed(a.endedAt));
        WalkRest(registry, next, names, script, w);
        WalkIsFirstSuccess(next, names[1..], script[1..], w - 1);
      }
    }
  }

  lemma WalkRest(registry: map<string, Entry>, next: map<string, Entry>, names: seq<string>,
                 script: seq<Attempt>, w: nat)
    requires |names| == |script| && Distinct(names) && FirstWinner(registry, names, script, w) && w > 0
    requires next.Keys == registry.Keys
    requires forall n :: n in registry && n != names[0] ==> next[n] == registry[n]
    ensures FirstWinner(next, names[1..], script[1..], w - 1)
    ensures forall i :: 0 <= i < |names| - 1 ==>
      Tried(next, names[1..], script[1..], i) == Tried(registry, names, script, i + 1)
  {
    forall i | 0 <= i < |names| - 1
      ensures Tried(next, names[1..], script[1..], i) == Tried(registry, names, script, i + 1)
    {
      assert names[1..][i] == names[i + 1] != names[0];
    }
    forall i | 0 <= i < w - 1 ensures !Wins(next, names[1..], script[1..], i) {
      assert !Wins(registry, names, script, i + 1);
    }
    if w < |names| {
      assert Wins(registry, names, script, w) && names[1..][w - 1] == names[w];
    }
  }

  ghost predicate OnceEach(calls: seq<Call>, names: seq<string>) {
    && (forall k :: 0 <= k < |calls| ==> calls[k].name in names)
    && (forall k, l :: 0 <= k < l < |calls| ==> calls[k].name != calls[l].name)
  }

  /** Each backend is called at most once, and only backends of the walk are called. */
  lemma {:induction false} CalledAtMostOnce(registry: map<string, Entry>, names: seq<string>, script: seq<Attempt>)
    requires |names| == |script| && Distinct(names)
    ensures OnceEach(Walk(registry, names, script).calls, names)
    decreases |names|
  {
    if names == [] {
    } else {
      var (n, a) := (names[0], script[0]);
      assert forall x :: x in names[1..] ==> x in names && x != n;
      if n !in registry || !registry[n].breaker.Allows(a.askedAt) {
        CalledAtMostOnce(registry, names[1..], script[1..]);
      } else if a.outcome.Reply? {
      } else {
        CalledAtMostOnce(Set(registry, n, registry[n].breaker.Failed(a.endedAt)), names[1..], script[1..]);
      }
    }
  }

  /** A dispatch calls nobody exactly when no backend of the chain is allowed at its turn; it is then
      refused and moves no breaker. */
  lemma {:induction false} IdleWalk(registry: map<string, Entry>, names: seq<string>, script: seq<Attempt>)
    requires |names| == |script|
    ensures var d := Walk(registry, names, script);
      && (d.calls == [] <==> forall i :: 0 <= i < |names| ==> !Tried(registry, names, script, i))
      && (d.calls == [] ==> d.served.None? && d.registry == registry)
    decreases |names|
  {
    if names != [] && !Tried(registry, names, script, 0) {
      IdleWalk(registry, names[1..], script[1..]);
      forall i | 0 < i < |names|
        ensures Tried(registry, names, script, i) == Tried(registry, names[1..], script[1..], i - 1)
      {
      }
      forall i | 0 <= i < |names| - 1
        ensures Tried(registry, names[1..], script[1..], i) == Tried(registry, names, script, i + 1)
      {
      }
    }
  }

  /** A walk changes no backend's model and registers nobody. */
  lemma {:induction false} WalkKeepsModels(registry: map<string, Entry>, names: seq<string>, script: seq<Attempt>)
    requires |names| == |script|
    ensures var d := Walk(registry, names, script);
      && d.registry.Keys == registry.Keys
      && (forall n :: n in registry ==> d.registry[n].modelId == registry[n].modelId)
      && (d.served.Some? ==> d.served.value.name in names && d.served.value.name in registry)
      && (d.served.Some? ==> d.served.value.modelId == registry[d.served.value.name].modelId)
    decreases |names|
  {
    if names != [] {
      var (n, a) := (names[0], script[0]);
      if !Tried(registry, names, script, 0) {
        WalkKeepsModels(registry, names[1..], script[1..]);
      } else if a.outcome.Raise? {
        WalkKeepsModels(Set(registry, n, registry[n].breaker.Failed(a.endedAt)), names[1..], script[1..]);
      }
    }
  }

  // ---------------------------------------------------------------- whole runs

  datatype Request = Request(names: seq<string>, script: seq<Attempt>)

  type Requests = r: seq<Request> | forall i :: 0 <= i < |r| ==> |r[i].names| == |r[i].script| witness []

  function Run(registry: map<string, Entry>, reqs: Requests): (map<string, Entry>, seq<Call>)
    decreases |reqs|
  {
    if reqs == [] then (registry, [])
    else
      var d := Walk(registry, reqs[0].names, reqs[0].script);
      var (r, calls) := Run(d.registry, reqs[1..]);
      (r, d.calls + calls)
  }

  /** The clock never goes back within a request that starts at `t` ... */
  ghost predicate Clocked(t: real, script: seq<Attempt>) {
    && (forall i :: 0 <= i < |script| ==> t <= script[i].askedAt <= script[i].endedAt)
    && (forall i, j :: 0 <= i < j < |script| ==> script[i].endedAt <= script[j].askedAt)
  }

  function ClockAfter(t: real, script: seq<Attempt>): real {
    if script == [] then t else script[|script| - 1].endedAt
  }

  /** ... nor from one request to the next, which starts when the previous one has ended. */
  ghost predicate Sequential(t: real, reqs: Requests)
    decreases |reqs|
  {
    reqs == [] || (Clocked(t, reqs[0].script) && Sequential(ClockAfter(t, reqs[0].script), reqs[1..]))
  }

  /** The calls one backend received. */
  function CallsTo(name: string, calls: seq<Call>): seq<Call> { Filter(calls, (c: Call) => c.name == name) }

  function AfterCall(b: Snapshot, c: Call): Snapshot { if c.ok then b.Succeeded() else b.Failed(c.endedAt) }

  function AfterCalls(b: Snapshot, calls: seq<Call>): Snapshot
    decreases |calls|
  {
    if calls == [] then b else AfterCalls(AfterCall(b, calls[0]), calls[1..])
  }

  /** Each call passed the breaker check that its predecessors left behind. */
  predicate Admitted(b: Snapshot, calls: seq<Call>)
    decreases |calls|
  {
    calls == [] || (b.Allows(calls[0].askedAt) && Admitted(AfterCall(b, calls[0]), calls[1..]))
  }

  /** Calls follow one another, all of them from `lo` on. */
  ghost predicate InOrder(lo: real, calls: seq<Call>) {
    && (forall k :: 0 <= k < |calls| ==> lo <= calls[k].askedAt <= calls[k].endedAt)
    && (forall k, l :: 0 <= k < l < |calls| ==> calls[k].endedAt <= calls[l].askedAt)
  }

  ghost predicate EndedBy(hi: real, calls: seq<Call>) { forall k :: 0 <= k < |calls| ==> calls[k].endedAt <= hi }

  lemma {:induction false} AfterCallsConcat(b: Snapshot, c: seq<Call>, d: seq<Call>)
    ensures AfterCalls(b, c + d) == AfterCalls(AfterCalls(b, c), d)
    ensures Admitted(b, c + d) <==> Admitted(b, c) && Admitted(AfterCalls(b, c), d)
    decreases |c|
  {
    if c == [] {
      assert c + d == d;
    } else {
      assert (c + d)[1..] == c[1..] + d;
      AfterCallsConcat(AfterCall(b, c[0]), c[1..], d);
    }
  }

  /** Between `lo` and `hi` these calls took the breaker from `b` to `b'`. */
  ghost predicate Tracks(b: Snapshot, b': Snapshot, calls: seq<Call>, lo: real, hi: real) {
    && b' == AfterCalls(b, calls) && Admitted(b, calls)
    && InOrder(lo, calls) && EndedBy(hi, calls) && lo <= hi
  }

  lemma TracksConcat(b: Snapshot, b': Snapshot, b'': Snapshot, c: seq<Call>, d: seq<Call>, lo: real, mid: real,
                     hi: real)
    requires Tracks(b, b', c, lo, mid) && Tracks(b', b'', d, mid, hi)
    ensures Tracks(b, b'', c + d, lo, hi)
  {
    AfterCallsConcat(b, c, d);
  }

  lemma TracksCall(b: Snapshot, c: Call, lo: real)
    requires b.Allows(c.askedAt) && lo <= c.askedAt <= c.endedAt
    ensures Tracks(b, AfterCall(b, c), [c], lo, c.endedAt)
  {
    assert AfterCalls(b, [c]) == AfterCalls(AfterCall(b, c), [c][1..]);
  }

  lemma CallsToCons(name: string, call: Call, rest: seq<Call>)
    ensures CallsTo(name, [call] + rest) ==
      if call.name == name then [call] + CallsTo(name, rest) else CallsTo(name, rest)
  {
    assert ([call] + rest)[1..] == rest;
  }

  /** One call, to this backend or to another one, in front of what it does later. */
  lemma TracksCons(name: string, b: Snapshot, b': Snapshot, b'': Snapshot, call: Call, rest: seq<Call>, lo: real,
                   hi: real)
    requires Tracks(b', b'', CallsTo(name, rest), call.endedAt, hi) && lo <= call.askedAt <= call.endedAt
    requires if call.name == name then b.Allows(call.askedAt) && b' == AfterCall(b, call) else b' == b
    ensures Tracks(b, b'', CallsTo(name, [call] + rest), lo, hi)
  {
    CallsToCons(name, call, rest);
    if call.name == name {
      TracksCall(b, call, lo);
      TracksConcat(b, b', b'', [call], CallsTo(name, rest), lo, call.endedAt, hi);
    }
  }

  lemma ClockedTail(t: real, script: seq<Attempt>)
    requires Clocked(t, script) && script != []
    ensures Clocked(script[0].endedAt, script[1..]) && t <= script[0].askedAt <= script[0].endedAt
    ensures ClockAfter(t, script) == ClockAfter(script[0].endedAt, script[1..])
    ensures script[0].endedAt <= ClockAfter(t, script)
  {
  }

  lemma TracksNothing(name: string, b: Snapshot, lo: real, hi: real)
    requires lo <= hi
    ensures Tracks(b, b, CallsTo(name, []), lo, hi)
  {
  }

  /** What one request does to one backend's breaker is what its own calls do, each admitted. */
  lemma {:induction false} WalkAdmits(registry: map<string, Entry>, names: seq<string>, script: seq<Attempt>,
                                      name: string, t: real)
    requires |names| == |script| && name in registry && Clocked(t, script)
    ensures var d := Walk(registry, names, script);
      && name in d.registry
      && Tracks(registry[name].breaker, d.registry[name].breaker, CallsTo(name, d.calls), t, ClockAfter(t, script))
    decreases |names|
  {
    if names == [] {
      TracksNothing(name, registry[name].breaker, t, t);
    } else {
      var (n, a) := (names[0], script[0]);
      var (b, hi) := (registry[name].breaker, ClockAfter(t, script));
      ClockedTail(t, script);
      if n !in registry || !registry[n].breaker.Allows(a.askedAt) {
        WalkAdmits(registry, names[1..], script[1..], name, a.endedAt);
        TracksSooner(b, Walk(registry, names[1..], script[1..]).registry[name].breaker,
                     CallsTo(name, Walk(registry, names[1..], script[1..]).calls), t, a.endedAt, hi);
      } else {
        var call := Call(n, a.askedAt, a.endedAt, a.outcome.Reply?);
        var next := Set(registry, n, AfterCall(registry[n].breaker, call));
        if a.outcome.Reply? {
          TracksNothing(name, next[name].breaker, a.endedAt, hi);
          TracksCons(name, b, next[name].breaker, next[name].breaker, call, [], t, hi);
          assert [call] + [] == [call];
        } else {
          WalkAdmits(next, names[1..], script[1..], name, a.endedAt);
          var rest := Walk(next, names[1..], script[1..]);
          TracksCons(name, b, next[name].breaker, rest.registry[name].breaker, call, rest.calls, t, hi);
        }
      }
    }
  }

  lemma TracksSooner(b: Snapshot, b': Snapshot, calls: seq<Call>, lo: real, mid: real, hi: real)
    requires lo <= mid && Tracks(b, b', calls, mid, hi)
    ensures Tracks(b, b', calls, lo, hi)
  {
  }

  function ClockAfterRun(t: real, reqs: Requests): real
    decreases |reqs|
  {
    if reqs == [] then t else ClockAfterRun(ClockAfter(t, reqs[0].script), reqs[1..])
  }

  lemma {:induction false} RunAdmits(registry: map<string, Entry>, reqs: Requests, name: string, t: real)
    requires name in registry && Sequential(t, reqs)
    ensures var (r, calls) := Run(registry, reqs);
      && name in r
      && Tracks(registry[name].breaker, r[name].breaker, CallsTo(name, calls), t, ClockAfterRun(t, reqs))
    decreases |reqs|
  {
    if reqs == [] {
    } else {
      var d := Walk(registry, reqs[0].names, reqs[0].script);
      var mid := ClockAfter(t, reqs[0].script);
      WalkAdmits(registry, reqs[0].names, reqs[0].script, name, t);
      RunAdmits(d.registry, reqs[1..], name, mid);
      var (r, later) := Run(d.registry, reqs[1..]);
      FilterConcat(d.calls, later, (c: Call) => c.name == name);
      TracksConcat(registry[name].breaker, d.registry[name].breaker, r[name].breaker,
                   CallsTo(name, d.calls), CallsTo(name, later), t, mid, ClockAfterRun(t, reqs));
    }
  }

  // ---------------------------------------------------------------- the outage bound

  ghost predicate AllFail(calls: seq<Call>) { forall k :: 0 <= k < |calls| ==> !calls[k].ok }

  /** n cooldowns in a row. */
  function Cooldowns(n: nat, c: real): real { if n == 0 then 0.0 else Cooldowns(n - 1, c) + c }

  lemma {:induction false} CooldownsProduct(n: nat, c: real)
    ensures Cooldowns(n, c) == n as real * c
  {
    if n > 0 {
      CooldownsProduct(n - 1, c);
      assert n as real * c == (n - 1) as real * c + c;
    }
  }

  /** After these failing calls the count is this much higher, and at the threshold the breaker opened
      when the last of them ended. */
  ghost predicate Worn(b: Snapshot, calls: seq<Call>, after: Snapshot) {
    && after.failures == b.failures + |calls|
    && after.threshold == b.threshold && after.cooldown == b.cooldown
    && (calls != [] && after.failures >= b.threshold ==> after.openedAt == Some(calls[|calls| - 1].endedAt))
  }

  /** While every call fails, the failure count grows by one a call, and once it has reached the
      threshold each further call starts a full cooldown after the one before it ended. */
  lemma {:induction false} FailingStretch(b: Snapshot, calls: seq<Call>, t: real)
    requires Admitted(b, calls) && InOrder(t, calls) && AllFail(calls)
    requires b.threshold >= 1 && b.cooldown > 0.0 && b.failures >= 0
    ensures Worn(b, calls, AfterCalls(b, calls))
    ensures |calls| >= b.threshold ==>
      calls[|calls| - 1].askedAt >= calls[0].askedAt + Cooldowns(|calls| - b.threshold, b.cooldown)
    decreases |calls|
  {
    if calls != [] {
      var m := |calls| - 1;
      var (head, last) := (calls[..m], calls[m]);
      LastCall(b, calls);
      FailingStretch(b, head, t);
      if m >= b.threshold {
        assert head[m - 1] == calls[m - 1] && head[0] == calls[0];
        assert last.askedAt >= head[m - 1].endedAt + b.cooldown;
      }
    }
  }

  lemma LastCall(b: Snapshot, calls: seq<Call>)
    requires calls != [] && Admitted(b, calls) && AllFail(calls)
    ensures var (head, last) := (calls[..|calls| - 1], calls[|calls| - 1]);
      && Admitted(b, head) && AllFail(head) && AfterCalls(b, head).Allows(last.askedAt)
      && AfterCalls(b, calls) == AfterCalls(b, head).Failed(last.endedAt)
  {
    var (head, last) := (calls[..|calls| - 1], calls[|calls| - 1]);
    assert calls == head + [last];
    AfterCallsConcat(b, head, [last]);
    assert [last][1..] == [];
  }

  lemma {:induction false} CountStaysNatural(b: Snapshot, calls: seq<Call>)
    requires b.failures >= 0
    ensures AfterCalls(b, calls).failures >= 0
    ensures AfterCalls(b, calls).threshold == b.threshold && AfterCalls(b, calls).cooldown == b.cooldown
    decreases |calls|
  {
    if calls != [] {
      CountStaysNatural(AfterCall(b, calls[0]), calls[1..]);
    }
  }

  lemma FloorBound(n: nat, d: real, c: real)
    requires c > 0.0 && Cooldowns(n, c) <= d
    ensures n <= (d / c).Floor
  {
    CooldownsProduct(n, c);
    var q := d / c;
    assert q * c == d;
    if n as real > q {
      assert n as real * c > q * c;
    }
  }

  lemma StretchBound(b: Snapshot, calls: seq<Call>, t: real, d: real)
    requires Admitted(b, calls) && InOrder(t, calls) && AllFail(calls) && calls != []
    requires b.threshold >= 1 && b.cooldown > 0.0 && b.failures >= 0
    requires calls[|calls| - 1].askedAt - calls[0].askedAt <= d
    ensures |calls| <= b.threshold + (d / b.cooldown).Floor
  {
    FailingStretch(b, calls, t);
    var n := if |calls| >= b.threshold then |calls| - b.threshold else 0;
    FloorBound(n, d, b.cooldown);
  }

  lemma AdmittedSlice(b: Snapshot, calls: seq<Call>, i: nat, j: nat)
    requires Admitted(b, calls) && i <= j <= |calls|
    ensures Admitted(AfterCalls(b, calls[..i]), calls[i..j])
  {
    assert calls == calls[..i] + calls[i..];
    AfterCallsConcat(b, calls[..i], calls[i..]);
    assert calls[i..] == calls[i..j] + calls[j..];
    AfterCallsConcat(AfterCalls(b, calls[..i]), calls[i..j], calls[j..]);
  }

  /** Over every sequential run of requests through any chains, and from any breaker states, a
      backend that fails every one of its calls i..j-1 receives at most threshold + floor(D / cooldown)
      of them within D seconds. */
  lemma OutageBound(registry: map<string, Entry>, reqs: Requests, t: real, name: string, i: nat, j: nat, d: real)
    requires name in registry && Sequential(t, reqs)
    requires var b := registry[name].breaker; b.threshold >= 1 && b.cooldown > 0.0 && b.failures >= 0
    requires var calls := CallsTo(name, Run(registry, reqs).1);
      i < j <= |calls| && AllFail(calls[i..j]) && calls[j - 1].askedAt - calls[i].askedAt <= d
    ensures var b := registry[name].breaker;
      j - i <= b.threshold + (d / b.cooldown).Floor
  {
    var (b, calls) := (registry[name].breaker, CallsTo(name, Run(registry, reqs).1));
    RunAdmits(registry, reqs, name, t);
    AdmittedSlice(b, calls, i, j);
    CountStaysNatural(b, calls[..i]);
    StretchBound(AfterCalls(b, calls[..i]), calls[i..j], t, d);
  }

  /** When the k-th call of the worst run is made: at once until the breaker trips, then one probe
      a cooldown. */
  function ProbeAt(threshold: nat, cooldown: real, k: nat): real {
    if k < threshold then 0.0 else Cooldowns(k - threshold + 1, cooldown)
  }

  function WorstRequest(name: string, threshold: nat, cooldown: real, k: nat): (r: Request)
    ensures |r.names| == |r.script|
  {
    var at := ProbeAt(threshold, cooldown, k);
    Request([name], [Attempt(at, at, Raise)])
  }

  function WorstCall(name: string, threshold: nat, cooldown: real, k: nat): Call {
    var at := ProbeAt(threshold, cooldown, k);
    Call(name, at, at, false)
  }

  /** Requests k, k+1, ..., n-1 of the worst run. */
  function WorstRun(name: string, threshold: nat, cooldown: real, k: nat, n: nat): (r: Requests)
    ensures |r| == if k <= n then n - k else 0
    decreases n - k
  {
    if k >= n then [] else [WorstRequest(name, threshold, cooldown, k)] + WorstRun(name, threshold, cooldown, k + 1, n)
  }

  function WorstState(modelId: string, threshold: nat, cooldown: real, k: nat): Entry {
    Entry(modelId, Snapshot(threshold, cooldown, k,
                            if k >= threshold && k > 0 then Some(ProbeAt(threshold, cooldown, k - 1)) else None))
  }

  lemma WalkOne(e: Entry, name: string, at: real)
    requires e.breaker.Allows(at)
    ensures Walk(map[name := e], [name], [Attempt(at, at, Raise)])
         == Dispatch(map[name := e.(breaker := e.breaker.Failed(at))], [Call(name, at, at, false)], None)
  {
    assert [name][1..] == [] && [Attempt(at, at, Raise)][1..] == [];
    var next := Set(map[name := e], name, e.breaker.Failed(at));
    assert Walk(next, [], []) == Dispatch(next, [], None);
  }

  lemma FloorFits(d: real, c: real)
    requires c > 0.0 && d >= 0.0
    ensures 0 <= (d / c).Floor && Cooldowns((d / c).Floor, c) <= d
  {
    var q := d / c;
    assert q * c == d && q >= 0.0;
    CooldownsProduct(q.Floor, c);
    assert q.Floor as real * c <= q * c;
  }

  lemma WorstStep(modelId: string, threshold: nat, cooldown: real, k: nat)
    requires threshold >= 1 && cooldown > 0.0
    ensures var (e, at) := (WorstState(modelId, threshold, cooldown, k), ProbeAt(threshold, cooldown, k));
      && e.breaker.Allows(at)
      && e.(breaker := e.breaker.Failed(at)) == WorstState(modelId, threshold, cooldown, k + 1)
      && (if k == 0 then 0.0 else ProbeAt(threshold, cooldown, k - 1)) <= at
  {
    assert Cooldowns(0, cooldown) == 0.0;
  }

  /** Calls k, k+1, ..., n-1 of the worst run. */
  function WorstCalls(name: string, threshold: nat, cooldown: real, k: nat, n: nat): (r: seq<Call>)
    requires k <= n
    ensures |r| == n - k && forall i :: 0 <= i < n - k ==> r[i] == WorstCall(name, threshold, cooldown, k + i)
    decreases n - k
  {
    if k == n then [] else [WorstCall(name, threshold, cooldown, k)] + WorstCalls(name, threshold, cooldown, k + 1, n)
  }

  lemma {:induction false} WorstRunCalls(name: string, modelId: string, threshold: nat, cooldown: real, k: nat, n: nat)
    requires threshold >= 1 && cooldown > 0.0 && k <= n
    ensures var reqs := WorstRun(name, threshold, cooldown, k, n);
      && Sequential(if k == 0 then 0.0 else ProbeAt(threshold, cooldown, k - 1), reqs)
      && Run(map[name := WorstState(modelId, threshold, cooldown, k)], reqs).1
        == WorstCalls(name, threshold, cooldown, k, n)
    decreases n - k
  {
    if k < n {
      WorstRunCalls(name, modelId, threshold, cooldown, k + 1, n);
      WorstStep(modelId, threshold, cooldown, k);
      WalkOne(WorstState(modelId, threshold, cooldown, k), name, ProbeAt(threshold, cooldown, k));
      var reqs := WorstRun(name, threshold, cooldown, k, n);
      assert reqs[1..] == WorstRun(name, threshold, cooldown, k + 1, n);
    }
  }

  lemma {:induction false} WorstCallsTo(name: string, threshold: nat, cooldown: real, k: nat, n: nat)
    requires k <= n
    ensures var calls := WorstCalls(name, threshold, cooldown, k, n); CallsTo(name, calls) == calls
    decreases n - k
  {
    if k < n {
      WorstCallsTo(name, threshold, cooldown, k + 1, n);
      CallsToCons(name, WorstCall(name, threshold, cooldown, k), WorstCalls(name, threshold, cooldown, k + 1, n));
    }
  }

  /** The bound is attained for every threshold, cooldown and D: a backend that never answers is
      sent exactly threshold + floor(D / cooldown) calls within D by the run constructed here. */
  lemma OutageBoundIsTight(name: string, modelId: string, threshold: nat, cooldown: real, d: real)
    returns (reqs: Requests)
    requires threshold >= 1 && cooldown > 0.0 && d >= 0.0
    ensures Sequential(0.0, reqs)
    ensures var calls := CallsTo(name, Run(map[name := Entry(modelId, Fresh(threshold, cooldown))], reqs).1);
      && |calls| == threshold + (d / cooldown).Floor
      && AllFail(calls) && calls[|calls| - 1].askedAt - calls[0].askedAt <= d
  {
    FloorFits(d, cooldown);
    var n := threshold + (d / cooldown).Floor;
    WorstRunCalls(name, modelId, threshold, cooldown, 0, n);
    WorstCallsTo(name, threshold, cooldown, 0, n);
    reqs := WorstRun(name, threshold, cooldown, 0, n);
    assert WorstState(modelId, threshold, cooldown, 0) == Entry(modelId, Fresh(threshold, cooldown));
    assert Cooldowns(0, cooldown) == 0.0;
  }
}
