/** The work queue and worker threads of `ThreadPool` (include/servd/ThreadPool.hpp).

    Jobs are numbered. A step is one critical section of `mutex_`, one condition-variable operation, or
    one move of a worker inside the closure it runs, so the schedules below are all interleavings of the
    threads that push, the workers and the destructor. Sleeping is Mesa style: a woken worker re-checks
    the predicate, and wake-ups may be spurious. */
module WorkerPool {

  import opened Options

  type Job = nat

  /** Where a worker stands inside a queued closure: calling `f`, done with `f` but not yet holding the
      rendezvous lock, about to post the waiter it found, or about to return to the loop. */
  datatype Closure = Calling | Called | Posting | Returning

  datatype Worker =
    | Checking                      // about to evaluate the wait predicate, holding `mutex_`
    | Asleep                        // blocked in `cv_.wait`
    | Busy(job: Job, at: Closure)
    | Exited

  /** `notifiers` holds the pushes whose `notify_one` is still to come and `notifyAll` the destructor's.
      `pushed`, `taken` and `finished` record the order of pushes, dequeues and completed closures. */
  datatype Pool = Pool(
    queue: seq<Job>,
    workers: seq<Worker>,
    stop: bool,
    notifiers: set<Job>,
    notifyAll: bool,
    pushed: seq<Job>,
    taken: seq<Job>,
    finished: seq<Job>)

  function Init(threads: nat): Pool {
    Pool([], seq(threads, _ => Checking), false, {}, false, [], [], [])
  }

  /** A push comes from outside the pool, or from the callable a worker is running. */
  datatype Step =
    | Push(job: Job, from: Option<nat>)
    | NotifyOne(job: Job, target: Option<nat>)
    | Check(w: nat)
    | SpuriousWake(w: nat)
    | Move(w: nat, to: Closure)
    | Finish(w: nat)
    | Stop
    | NotifyAll

  predicate IsAsleep(p: Pool, w: nat) { w < |p.workers| && p.workers[w] == Asleep }

  predicate Enabled(p: Pool, step: Step) {
    match step
    case Push(j, from) =>
      j !in p.pushed &&
      (match from
       case None => !p.stop
       case Some(w) => w < |p.workers| && p.workers[w].Busy? && p.workers[w].at == Calling)
    case NotifyOne(j, target) =>
      j in p.notifiers &&
      (match target
       case Some(w) => IsAsleep(p, w)
       case None => forall w :: 0 <= w < |p.workers| ==> p.workers[w] != Asleep)
    case Check(w) => w < |p.workers| && p.workers[w] == Checking
    case SpuriousWake(w) => IsAsleep(p, w)
    case Move(w, to) => w < |p.workers| && p.workers[w].Busy?
    case Finish(w) => w < |p.workers| && p.workers[w].Busy? && p.workers[w].at == Returning
    case Stop => !p.stop
    case NotifyAll => p.notifyAll
  }

  function WithWorker(p: Pool, w: nat, worker: Worker): Pool
    requires w < |p.workers|
  {
    p.(workers := p.workers[w := worker])
  }

  function Woken(worker: Worker): Worker { if worker == Asleep then Checking else worker }

  function WakeAll(workers: seq<Worker>): seq<Worker> {
    seq(|workers|, i requires 0 <= i < |workers| => Woken(workers[i]))
  }

  /** One turn of `worker_loop` up to the next blocking point or closure call. */
  function CheckQueue(p: Pool, w: nat): Pool
    requires w < |p.workers|
  {
    if !p.stop && p.queue == [] then WithWorker(p, w, Asleep)
    else if p.queue == [] then WithWorker(p, w, Exited)
    else WithWorker(p, w, Busy(p.queue[0], Calling)).(queue := p.queue[1..], taken := p.taken + [p.queue[0]])
  }

  function Apply(p: Pool, step: Step): Pool
    requires Enabled(p, step)
  {
    match step
    case Push(j, _) => p.(queue := p.queue + [j], pushed := p.pushed + [j], notifiers := p.notifiers + {j})
    case NotifyOne(j, target) =>
      var q := p.(notifiers := p.notifiers - {j});
      (match target
       case Some(w) => WithWorker(q, w, Checking)
       case None => q)
    case Check(w) => CheckQueue(p, w)
    case SpuriousWake(w) => WithWorker(p, w, Checking)
    case Move(w, to) => WithWorker(p, w, Busy(p.workers[w].job, to))
    case Finish(w) => WithWorker(p, w, Checking).(finished := p.finished + [p.workers[w].job])
    case Stop => p.(stop := true, notifyAll := true)
    case NotifyAll => p.(notifyAll := false, workers := WakeAll(p.workers))
  }

  // ---------------------------------------------------------------- schedules

  ghost predicate Legal(threads: nat, steps: seq<Step>)
    decreases |steps|, 0
  {
    steps == [] ||
    (Legal(threads, steps[..|steps| - 1]) && Enabled(After(threads, steps[..|steps| - 1]), steps[|steps| - 1]))
  }

  ghost function After(threads: nat, steps: seq<Step>): Pool
    requires Legal(threads, steps)
    decreases |steps|, 1
  {
    if steps == [] then Init(threads)
    else Apply(After(threads, steps[..|steps| - 1]), steps[|steps| - 1])
  }

  // ---------------------------------------------------------------- invariant

  ghost predicate Runs(workers: seq<Worker>, w: nat, j: Job) {
    w < |workers| && workers[w].Busy? && workers[w].job == j
  }

  ghost predicate Running(workers: seq<Worker>, j: Job) {
    exists w :: Runs(workers, w, j)
  }

  ghost predicate Active(worker: Worker) { worker == Checking || worker.Busy? }

  /** Every pushed job is queued, running or finished, exactly once, and jobs leave in push order. */
  ghost predicate Conserved(p: Pool) {
    && p.taken + p.queue == p.pushed
    && Distinct(p.pushed)
    && Distinct(p.finished)
    && (forall j :: j in p.finished ==> j in p.taken && !Running(p.workers, j))
    && (forall w, j :: Runs(p.workers, w, j) ==> j in p.taken)
    && (forall v, w, j :: Runs(p.workers, v, j) && Runs(p.workers, w, j) ==> v == w)
    && (forall j :: j in p.taken ==> j in p.finished || Running(p.workers, j))
  }

  ghost predicate StopInv(p: Pool) {
    && (p.notifyAll ==> p.stop)
    && (forall w :: 0 <= w < |p.workers| && p.workers[w] == Exited ==> p.stop)
    && (p.queue != [] && |p.workers| > 0 ==> exists w :: 0 <= w < |p.workers| && p.workers[w] != Exited)
    && (p.stop && !p.notifyAll ==> forall w :: 0 <= w < |p.workers| ==> p.workers[w] != Asleep)
  }

  /** No lost wake-up: queued work means a notification is on its way or some worker will look again. */
  ghost predicate WakeInv(p: Pool) {
    p.queue != [] && |p.workers| > 0 ==>
      p.notifiers != {} || exists w :: 0 <= w < |p.workers| && Active(p.workers[w])
  }

  ghost predicate Inv(p: Pool) {
    Conserved(p) && StopInv(p) && WakeInv(p)
  }

  lemma InitInv(threads: nat)
    ensures Inv(Init(threads))
  {
  }

  /** Changing what one worker does, but not which job it runs, moves no job. */
  lemma SameJobsConserve(p: Pool, q: Pool)
    requires Conserved(p) && q == p.(workers := q.workers, notifiers := q.notifiers, notifyAll := q.notifyAll, stop := q.stop)
    requires |q.workers| == |p.workers|
    requires forall w, j :: Runs(q.workers, w, j) <==> Runs(p.workers, w, j)
    ensures Conserved(q)
  {
    assert forall j :: Running(q.workers, j) <==> Running(p.workers, j);
  }

  lemma PushConserves(p: Pool, j: Job, from: Option<nat>)
    requires Conserved(p) && Enabled(p, Push(j, from))
    ensures Conserved(Apply(p, Push(j, from)))
  {
    assert p.taken + (p.queue + [j]) == p.pushed + [j];
  }

  lemma TakeConserves(p: Pool, w: nat)
    requires Conserved(p) && Enabled(p, Check(w)) && p.queue != []
    ensures Conserved(CheckQueue(p, w))
  {
    var q := CheckQueue(p, w);
    var job := p.queue[0];
    QueuedNotTaken(p, job);
    assert q.taken + q.queue == p.pushed;
    assert forall v, j :: Runs(q.workers, v, j) <==> (if v == w then j == job else Runs(p.workers, v, j));
    assert Runs(q.workers, w, job);
    forall j | j in q.taken ensures j in q.finished || Running(q.workers, j) {
      if j != job && !(j in p.finished) {
        assert j in p.taken;
        var v :| Runs(p.workers, v, j);
        assert Runs(q.workers, v, j);
      }
    }
  }

  lemma FinishConserves(p: Pool, w: nat)
    requires Conserved(p) && Enabled(p, Finish(w))
    ensures Conserved(Apply(p, Finish(w)))
  {
    var q := Apply(p, Finish(w));
    var job := p.workers[w].job;
    assert Runs(p.workers, w, job);
    assert forall v, j :: Runs(q.workers, v, j) <==> v != w && Runs(p.workers, v, j);
    forall j | j in q.taken ensures j in q.finished || Running(q.workers, j) {
      if j != job && j !in p.finished {
        var v :| Runs(p.workers, v, j);
        assert Runs(q.workers, v, j);
      }
    }
  }

  lemma StepConserves(p: Pool, step: Step)
    requires Conserved(p) && Enabled(p, step)
    ensures Conserved(Apply(p, step))
  {
    match step
    case Push(j, from) => PushConserves(p, j, from);
    case Check(w) =>
      if p.queue != [] { TakeConserves(p, w); } else { SameJobsConserve(p, Apply(p, step)); }
    case Finish(w) => FinishConserves(p, w);
    case _ => SameJobsConserve(p, Apply(p, step));
  }

  lemma StepKeepsStop(p: Pool, step: Step)
    requires StopInv(p) && Enabled(p, step)
    ensures StopInv(Apply(p, step))
  {
    var q := Apply(p, step);
    if q.queue != [] && |q.workers| > 0 {
      var v := match step
        case Push(_, Some(w)) => w
        case NotifyOne(_, Some(w)) => w
        case Check(w) => w
        case SpuriousWake(w) => w
        case Move(w, _) => w
        case Finish(w) => w
        case Push(_, None) => 0
        case _ => var u :| 0 <= u < |p.workers| && p.workers[u] != Exited; u;
      assert q.workers[v] != Exited;
    }
  }

  lemma StepKeepsWakeups(p: Pool, step: Step)
    requires StopInv(p) && WakeInv(p) && Enabled(p, step)
    ensures WakeInv(Apply(p, step))
  {
    var q := Apply(p, step);
    match step
    case Push(j, _) => assert j in q.notifiers;
    case NotifyOne(j, target) =>
      if |p.workers| > 0 && p.queue != [] {
        var u :| 0 <= u < |p.workers| && p.workers[u] != Exited;
        var w := if target.Some? then target.value else u;
        assert Active(q.workers[w]);
      }
    case Check(w) =>
      if q.queue != [] { assert Active(q.workers[w]); }
    case SpuriousWake(w) => assert Active(q.workers[w]);
    case Move(w, to) => assert Active(q.workers[w]);
    case Finish(w) => assert Active(q.workers[w]);
    case Stop =>
    case NotifyAll =>
      if w :| 0 <= w < |p.workers| && Active(p.workers[w]) { assert Active(q.workers[w]); }
  }

  lemma StepKeepsInv(p: Pool, step: Step)
    requires Inv(p) && Enabled(p, step)
    ensures Inv(Apply(p, step)) && |Apply(p, step).workers| == |p.workers|
  {
    StepConserves(p, step);
    StepKeepsStop(p, step);
    StepKeepsWakeups(p, step);
  }

  lemma {:induction false} EveryScheduleKeepsInv(threads: nat, steps: seq<Step>)
    requires Legal(threads, steps)
    ensures Inv(After(threads, steps)) && |After(threads, steps).workers| == threads
    decreases |steps|
  {
    if steps == [] {
      InitInv(threads);
    } else {
      EveryScheduleKeepsInv(threads, steps[..|steps| - 1]);
      StepKeepsInv(After(threads, steps[..|steps| - 1]), steps[|steps| - 1]);
    }
  }

  // ---------------------------------------------------------------- main results

  /** With at least one worker no schedule reaches a state with queued work, no notification to come and
      every worker asleep; nor one with a worker left asleep after the destructor's broadcast. */
  lemma NeverSleepsOnWork(threads: nat, steps: seq<Step>)
    requires Legal(threads, steps) && threads > 0
    ensures var p := After(threads, steps);
            && (p.queue != [] && p.notifiers == {} ==>
                  exists w :: 0 <= w < |p.workers| && p.workers[w] != Asleep && p.workers[w] != Exited)
            && (p.stop && !p.notifyAll ==> forall w :: 0 <= w < |p.workers| ==> p.workers[w] != Asleep)
  {
    EveryScheduleKeepsInv(threads, steps);
  }

  /** Jobs are dequeued first in, first out; at every moment a pushed job is queued, or being run by
      exactly one worker, or finished exactly once, and these exclude each other. */
  lemma JobsConservedInOrder(threads: nat, steps: seq<Step>, j: Job)
    requires Legal(threads, steps)
    ensures var p := After(threads, steps);
            && p.taken + p.queue == p.pushed
            && Distinct(p.finished)
            && (j in p.pushed <==> j in p.queue || Running(p.workers, j) || j in p.finished)
            && !(j in p.queue && Running(p.workers, j))
            && !(j in p.queue && j in p.finished)
            && !(Running(p.workers, j) && j in p.finished)
            && forall v, w :: Runs(p.workers, v, j) && Runs(p.workers, w, j) ==> v == w
  {
    EveryScheduleKeepsInv(threads, steps);
    var p := After(threads, steps);
    QueuedNotTaken(p, j);
    assert j in p.pushed <==> j in p.taken || j in p.queue;
  }

  lemma QueuedNotTaken(p: Pool, j: Job)
    requires Conserved(p)
    ensures !(j in p.queue && j in p.taken)
  {
    forall i, k | 0 <= i < |p.taken| && 0 <= k < |p.queue| ensures p.taken[i] != p.queue[k] {
      assert p.pushed[i] == p.taken[i] && p.pushed[|p.taken| + k] == p.queue[k];
    }
  }

  /** When the destructor's joins return, every job ever pushed has run exactly once, including those
      pushed by running jobs while the destructor waits and after other workers have left. */
  lemma JoinedPoolRanEveryJobOnce(threads: nat, steps: seq<Step>)
    requires Legal(threads, steps) && threads > 0
    requires forall w :: 0 <= w < |After(threads, steps).workers| ==> After(threads, steps).workers[w] == Exited
    ensures var p := After(threads, steps);
            && p.queue == [] && p.taken == p.pushed
            && Distinct(p.finished) && forall j :: j in p.finished <==> j in p.pushed
  {
    EveryScheduleKeepsInv(threads, steps);
    var p := After(threads, steps);
    assert p.taken + [] == p.taken;
  }

  /** A pool created with no threads never runs anything: the thread count is what progress needs. */
  lemma {:induction false} EmptyPoolRunsNothing(steps: seq<Step>)
    requires Legal(0, steps)
    ensures After(0, steps).finished == [] && After(0, steps).queue == After(0, steps).pushed
    decreases |steps|
  {
    if steps != [] {
      EmptyPoolRunsNothing(steps[..|steps| - 1]);
      EveryScheduleKeepsInv(0, steps[..|steps| - 1]);
    }
  }

  // ---------------------------------------------------------------- the code itself

  /** `ThreadPool` with its threads. Each method is one critical section or notification of the source. */
  class ThreadPool {
    var tasks: seq<Job>
    var workers: seq<Worker>
    var stop: bool
    ghost var notifiers: set<Job>
    ghost var notifyAll: bool
    ghost var pushed: seq<Job>
    ghost var taken: seq<Job>
    ghost var finished: seq<Job>

    ghost function Abs(): Pool
      reads this
    {
      Pool(tasks, workers, stop, notifiers, notifyAll, pushed, taken, finished)
    }

    /** The constructor's loop starts the threads one by one. */
    constructor (threads: nat)
      ensures Abs() == Init(threads)
    {
      tasks, workers, stop := [], [], false;
      notifiers, notifyAll, pushed, taken, finished := {}, false, [], [], [];
      new;
      for i := 0 to threads
        invariant |workers| == i && forall k :: 0 <= k < i ==> workers[k] == Checking
        invariant Abs() == Init(threads).(workers := workers)
      {
        workers := workers + [Checking];
      }
    }

    /** The locked part of `enqueue`. */
    method PushTask(job: Job, ghost from: Option<nat>)
      requires Enabled(Abs(), Push(job, from))
      modifies this
      ensures Abs() == Apply(old(Abs()), Push(job, from))
    {
      tasks := tasks + [job];
      pushed := pushed + [job];
      notifiers := notifiers + {job};
    }

    /** `cv_.notify_one()`: the woken thread, if any sleeps, is the system's choice. */
    method Notify(job: Job, target: Option<nat>)
      requires Enabled(Abs(), NotifyOne(job, target))
      modifies this
      ensures Abs() == Apply(old(Abs()), NotifyOne(job, target))
    {
      notifiers := notifiers - {job};
      if target.Some? {
        workers := workers[target.value := Checking];
      }
    }

    /** The locked part of `worker_loop`: wait, leave, or take the front of the queue. */
    method WaitAndTake(w: nat) returns (task: Option<Job>)
      requires Enabled(Abs(), Check(w))
      modifies this
      ensures Abs() == Apply(old(Abs()), Check(w))
      ensures task == if old(tasks) == [] then None else Some(old(tasks)[0])
    {
      task := None;
      if !stop && |tasks| == 0 {
        workers := workers[w := Asleep];
      } else if stop && |tasks| == 0 {
        workers := workers[w := Exited];
      } else {
        task := Some(tasks[0]);
        taken := taken + [tasks[0]];
        workers := workers[w := Busy(tasks[0], Calling)];
        tasks := tasks[1..];
      }
    }

    /** The destructor's locked part and its broadcast, which wakes the sleepers one by one. */
    method BeginShutdown()
      requires Enabled(Abs(), Stop)
      modifies this
      ensures Abs() == Apply(old(Abs()), Stop)
    {
      stop := true;
      notifyAll := true;
    }

    method Broadcast()
      requires Enabled(Abs(), NotifyAll)
      modifies this
      ensures Abs() == Apply(old(Abs()), NotifyAll)
    {
      ghost var before := workers;
      var i := 0;
      while i < |workers|
        invariant 0 <= i <= |workers| == |before|
        invariant forall k :: 0 <= k < i ==> workers[k] == Woken(before[k])
        invariant forall k :: i <= k < |before| ==> workers[k] == before[k]
        invariant Abs() == old(Abs()).(workers := workers)
      {
        if workers[i] == Asleep {
          workers := workers[i := Checking];
        }
        i := i + 1;
      }
      assert workers == WakeAll(before);
      notifyAll := false;
    }
  }
}
