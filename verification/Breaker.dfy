/** The per-backend circuit breaker (router/breaker.py). Clock readings are parameters. */
module Breaker {
  import opened Prelude

  datatype State = Closed | Open | HalfOpen

  /** The value of a breaker at one moment. */
  datatype Snapshot = Snapshot(threshold: int, cooldown: real, failures: int, openedAt: Option<real>) {
    function StateAt(now: real): State {
      if openedAt.None? then Closed
      else if now - openedAt.value >= cooldown then HalfOpen
      else Open
    }

    predicate Allows(now: real) { StateAt(now) != Open }

    function Succeeded(): Snapshot { this.(failures := 0, openedAt := None) }

    function Failed(now: real): Snapshot {
      this.(failures := failures + 1,
            openedAt := if failures + 1 >= threshold then Some(now) else openedAt)
    }
  }

  function Fresh(threshold: int, cooldown: real): Snapshot { Snapshot(threshold, cooldown, 0, None) }

  class CircuitBreaker {
    const threshold: int
    const cooldown: real
    var failures: int
    var openedAt: Option<real>

    ghost function Value(): Snapshot reads this { Snapshot(threshold, cooldown, failures, openedAt) }

    constructor (threshold: int, cooldown: real)
      ensures Value() == Fresh(threshold, cooldown)
    {
      this.threshold, this.cooldown := threshold, cooldown;
      failures, openedAt := 0, None;
    }

    method Allows(now: real) returns (ok: bool)
      ensures ok == Value().Allows(now)
    {
      if openedAt.None? { return true; }
      ok := now - openedAt.value >= cooldown;
    }

    method RecordSuccess()
      modifies this
      ensures Value() == old(Value()).Succeeded()
    {
      failures := 0;
      openedAt := None;
    }

    method RecordFailure(now: real)
      modifies this
      ensures Value() == old(Value()).Failed(now)
    {
      failures := failures + 1;
      if failures >= threshold {
        openedAt := Some(now);
      }
    }
  }

  // ---------------------------------------------------------------- history

  datatype Event = Success | Failure(at: real)

  function Apply(b: Snapshot, e: Event): Snapshot {
    match e case Success => b.Succeeded() case Failure(at) => b.Failed(at)
  }

  function After(threshold: int, cooldown: real, history: seq<Event>): Snapshot {
    if history == [] then Fresh(threshold, cooldown)
    else Apply(After(threshold, cooldown, history[..|history| - 1]), history[|history| - 1])
  }

  /** The number of failures since the last success. */
  function FailureRun(history: seq<Event>): nat {
    if history == [] || history[|history| - 1].Success? then 0
    else 1 + FailureRun(history[..|history| - 1])
  }

  /** Over every history the breaker is closed exactly while the trailing run of failures is
      short of the threshold (a non-positive threshold counts as 1), and otherwise half-open
      exactly from `cooldown` after the last failure on. Nothing else is remembered. */
  lemma {:induction false} StateIsTrailingRun(threshold: int, cooldown: real, history: seq<Event>, now: real)
    ensures var b := After(threshold, cooldown, history);
            var run := FailureRun(history);
            && b.threshold == threshold && b.cooldown == cooldown && b.failures == run
            && (run == 0 || run < threshold <==> b.openedAt.None?)
            && b.StateAt(now) ==
                 if run == 0 || run < threshold then Closed
                 else if now - history[|history| - 1].at >= cooldown then HalfOpen
                 else Open
  {
    if history == [] {
    } else {
      StateIsTrailingRun(threshold, cooldown, history[..|history| - 1], now);
    }
  }
}
