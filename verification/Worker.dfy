/** The in-process job queue (workers/runner.py). Every enqueued job is a ticket of its own; whether
    its n-th attempt succeeds is up to the environment, and jobs enqueue nothing themselves. */
module Worker {
  import opened Prelude

  type Job = nat

  datatype Task = Task(job: Job, attempt: nat)

  datatype Plan = Plan(ok: (Job, nat) -> bool, maxRetries: int) {
    predicate Retries(t: Task) { !ok(t.job, t.attempt) && t.attempt < maxRetries }
  }

  datatype Run = Run(task: Task, ok: bool)

  /** Attempts a task still has, this one included. */
  function Left(p: Plan, t: Task): int { if t.attempt < p.maxRetries then p.maxRetries - t.attempt + 1 else 1 }

  function Work(p: Plan, queue: seq<Task>): int { SumBy(queue, (t: Task) => Left(p, t)) }

  function AfterRun(p: Plan, queue: seq<Task>): seq<Task>
    requires queue != []
  {
    if p.Retries(queue[0]) then queue[1..] + [Task(queue[0].job, queue[0].attempt + 1)] else queue[1..]
  }

  lemma {:induction false} WorkIsPositive(p: Plan, queue: seq<Task>)
    ensures Work(p, queue) >= |queue|
  {
    if queue != [] {
      WorkIsPositive(p, queue[1..]);
    }
  }

  /** Each run uses up one attempt, at least: the measure that makes draining end. */
  lemma WorkDecreases(p: Plan, queue: seq<Task>)
    requires queue != []
    ensures 0 <= Work(p, AfterRun(p, queue)) < Work(p, queue)
  {
    WorkIsPositive(p, AfterRun(p, queue));
    if p.Retries(queue[0]) {
      SumBySnoc(queue[1..], Task(queue[0].job, queue[0].attempt + 1), (t: Task) => Left(p, t));
    }
  }

  /** Everything a drain runs, in order. */
  function Trace(p: Plan, queue: seq<Task>): seq<Run>
    decreases Work(p, queue)
  {
    if queue == [] then []
    else
      WorkDecreases(p, queue);
      [Run(queue[0], p.ok(queue[0].job, queue[0].attempt))] + Trace(p, AfterRun(p, queue))
  }

  /** The attempts of one task by itself: up to the first success or the last retry. */
  function Attempts(p: Plan, t: Task): (r: seq<Run>)
    ensures r != []
    decreases p.maxRetries - t.attempt
  {
    [Run(t, p.ok(t.job, t.attempt))] + if p.Retries(t) then Attempts(p, Task(t.job, t.attempt + 1)) else []
  }

  predicate Succeeds(p: Plan, t: Task) { Attempts(p, t)[|Attempts(p, t)| - 1].ok }

  function CountOk(p: Plan, queue: seq<Task>): int { SumBy(queue, (t: Task) => if Succeeds(p, t) then 1 else 0) }

  class BackgroundRunner {
    const maxRetries: int
    var queue: seq<Task>
    var processed: nat
    var failed: nat
    ghost var enqueued: nat

    /** No job is lost, none counted twice. */
    ghost predicate Valid() reads this { processed + failed + |queue| == enqueued }

    constructor (maxRetries: int)
      ensures Valid() && this.maxRetries == maxRetries && queue == [] && processed == 0 && failed == 0 && enqueued == 0
    {
      this.maxRetries := maxRetries;
      queue, processed, failed, enqueued := [], 0, 0, 0;
    }

    method Enqueue(job: Job)
      requires Valid()
      modifies this
      ensures Valid() && queue == old(queue) + [Task(job, 0)]
      ensures processed == old(processed) && failed == old(failed) && enqueued == old(enqueued) + 1
    {
      queue, enqueued := queue + [Task(job, 0)], enqueued + 1;
    }

    /** Draining ends with an empty queue, having run exactly the trace; a job counts as processed
        when one of its attempts succeeded and as failed otherwise. */
    method Drain(p: Plan) returns (count: int, runs: seq<Run>)
      requires Valid() && p.maxRetries == maxRetries
      modifies this
      ensures Valid() && queue == [] && enqueued == old(enqueued)
      ensures runs == Trace(p, old(queue))
      ensures count == processed - old(processed) == CountOk(p, old(queue))
      ensures failed == old(failed) + |old(queue)| - CountOk(p, old(queue))
    {
      count, runs := 0, [];
      while queue != []
        invariant Valid() && enqueued == old(enqueued)
        invariant runs + Trace(p, queue) == Trace(p, old(queue))
        invariant count == processed - old(processed)
        invariant count + CountOk(p, queue) == CountOk(p, old(queue))
        decreases Work(p, queue)
      {
        WorkDecreases(p, queue);
        CountStep(p, queue);
        TraceStep(p, queue, runs);
        var run := RunNext(p);
        if run.ok {
          count := count + 1;
        }
        runs := runs + [run];
      }
    }

    /** One turn of the loop. */
    method RunNext(p: Plan) returns (run: Run)
      requires Valid() && p.maxRetries == maxRetries && queue != []
      modifies this
      ensures Valid() && enqueued == old(enqueued) && queue == AfterRun(p, old(queue))
      ensures run == Run(old(queue)[0], p.ok(old(queue)[0].job, old(queue)[0].attempt))
      ensures processed == old(processed) + if run.ok then 1 else 0
    {
      var t := queue[0];
      queue := queue[1..];
      run := Run(t, p.ok(t.job, t.attempt));
      if run.ok {
        processed := processed + 1;
      } else if t.attempt < maxRetries {
        queue := queue + [Task(t.job, t.attempt + 1)];
      } else {
        failed := failed + 1;
      }
    }
  }

  lemma TraceStep(p: Plan, queue: seq<Task>, runs: seq<Run>)
    requires queue != []
    ensures var t := queue[0];
      runs + Trace(p, queue) == runs + [Run(t, p.ok(t.job, t.attempt))] + Trace(p, AfterRun(p, queue))
  {
  }

  lemma CountStep(p: Plan, queue: seq<Task>)
    requires queue != []
    ensures CountOk(p, queue) == CountOk(p, AfterRun(p, queue)) + if p.ok(queue[0].job, queue[0].attempt) then 1 else 0
  {
    var t := queue[0];
    if p.Retries(t) {
      var next := Task(t.job, t.attempt + 1);
      SumBySnoc(queue[1..], next, (t: Task) => if Succeeds(p, t) then 1 else 0);
      assert Attempts(p, t) == [Run(t, false)] + Attempts(p, next);
      assert Succeeds(p, t) == Succeeds(p, next);
    }
  }

  // ---------------------------------------------------------------- one job within a drain

  /** A task runs at most max(maxRetries - attempt, 0) + 1 times; every run but the last fails; and
      it stops at a success or when the retries are used up. */
  lemma {:induction false} AttemptsShape(p: Plan, t: Task)
    ensures var r := Attempts(p, t);
      && |r| <= Left(p, t)
      && (forall i :: 0 <= i < |r| ==> r[i] == Run(Task(t.job, t.attempt + i), p.ok(t.job, t.attempt + i)))
      && (forall i :: 0 <= i < |r| - 1 ==> !r[i].ok)
      && (!Succeeds(p, t) ==> |r| == Left(p, t))
    decreases p.maxRetries - t.attempt
  {
    if p.Retries(t) {
      AttemptsShape(p, Task(t.job, t.attempt + 1));
    }
  }

  /** A job fails exactly when every one of its permitted attempts fails. */
  lemma FailsIffAllFail(p: Plan, t: Task)
    ensures !Succeeds(p, t) <==> forall a: nat :: t.attempt <= a < t.attempt + Left(p, t) ==> !p.ok(t.job, a)
  {
    AttemptsShape(p, t);
    var r := Attempts(p, t);
    if !Succeeds(p, t) {
      forall a: nat | t.attempt <= a < t.attempt + Left(p, t) ensures !p.ok(t.job, a) {
        assert r[a - t.attempt] == Run(Task(t.job, a), p.ok(t.job, a));
      }
    } else {
      var a := t.attempt + (|r| - 1);
      assert r[|r| - 1] == Run(Task(t.job, a), p.ok(t.job, a));
    }
  }

  ghost predicate DistinctJobs(queue: seq<Task>) {
    forall i, j :: 0 <= i < j < |queue| ==> queue[i].job != queue[j].job
  }

  function RunsOf(runs: seq<Run>, job: Job): seq<Run> { Filter(runs, (r: Run) => r.task.job == job) }

  /** The queued task of a job. */
  function Queued(queue: seq<Task>, job: Job): Option<Task> {
    if queue == [] then None else if queue[0].job == job then Some(queue[0]) else Queued(queue[1..], job)
  }

  lemma {:induction false} QueuedFinds(queue: seq<Task>, job: Job)
    ensures match Queued(queue, job)
      case Some(t) => t in queue && t.job == job
      case None => forall t :: t in queue ==> t.job != job
  {
    if queue != [] {
      QueuedFinds(queue[1..], job);
    }
  }

  lemma {:induction false} QueuedSnoc(queue: seq<Task>, t: Task, job: Job)
    ensures Queued(queue + [t], job) ==
      if Queued(queue, job).Some? then Queued(queue, job) else if t.job == job then Some(t) else None
  {
    if queue == [] {
      assert queue + [t] == [t];
      assert [t][1..] == [];
    } else {
      assert (queue + [t])[1..] == queue[1..] + [t];
      QueuedSnoc(queue[1..], t, job);
    }
  }

  lemma AfterRunQueued(p: Plan, queue: seq<Task>, job: Job)
    requires queue != [] && DistinctJobs(queue)
    ensures DistinctJobs(AfterRun(p, queue))
    ensures Queued(AfterRun(p, queue), job) ==
      if queue[0].job != job then Queued(queue, job)
      else if p.Retries(queue[0]) then Some(Task(job, queue[0].attempt + 1)) else None
  {
    var t := queue[0];
    QueuedFinds(queue[1..], job);
    if t.job == job {
      assert forall k :: 0 <= k < |queue| - 1 ==> queue[1..][k].job == queue[k + 1].job != t.job;
    }
    QueuedSnoc(queue[1..], Task(t.job, t.attempt + 1), job);
  }

  /** However the queue interleaves them, each job's runs within a drain are its own attempts in order. */
  lemma {:induction false} DrainRunsAttempts(p: Plan, queue: seq<Task>, job: Job)
    requires DistinctJobs(queue)
    ensures RunsOf(Trace(p, queue), job) ==
      match Queued(queue, job) case Some(t) => Attempts(p, t) case None => []
    decreases Work(p, queue)
  {
    if queue != [] {
      WorkDecreases(p, queue);
      var (t, next) := (queue[0], AfterRun(p, queue));
      AfterRunQueued(p, queue, job);
      DrainRunsAttempts(p, next, job);
      var run := Run(t, p.ok(t.job, t.attempt));
      assert ([run] + Trace(p, next))[1..] == Trace(p, next);
    }
  }
}
