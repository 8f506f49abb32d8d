/** Progress of the offload protocol: nothing gets stuck and nothing runs forever.

    New calls, new I/O operations, spurious wake-ups, interrupted waits and the destructor are the
    environment's moves; the remaining steps are the system's. Every system step uses up some of a finite
    amount of work, so the system comes to rest whichever order they are taken in. Two kinds of rest are
    studied: quiet, when outstanding I/O completes too, and idle, when it may stay outstanding for ever. */
module OffloadProgress {

  import opened Options
  import WP = WorkerPool
  import PQ = PostQueue
  import opened Offload

  predicate SystemStep(step: Step) {
    !step.Enqueue? && !step.SpuriousWake? && !step.StopPool? &&
    (step.Ring? ==> !step.ps.Submit? && !step.ps.WaitFails?)
  }

  // ---------------------------------------------------------------- the work left

  function AwaiterWork(a: Awaiter): nat {
    match a
    case Notifying => 4
    case CheckingReady => 2
    case Suspending => 1
    case _ => 0
  }

  function WorkerWork(w: WP.Worker): nat {
    match w
    case Checking => 1
    case Busy(_, at) => (match at case Calling => 16 case Called => 13 case Posting => 10 case Returning => 4)
    case _ => 0
  }

  function AwaitersWork(awaiters: seq<Awaiter>): nat {
    if awaiters == [] then 0
    else AwaitersWork(awaiters[..|awaiters| - 1]) + AwaiterWork(awaiters[|awaiters| - 1])
  }

  function WorkersWork(workers: seq<WP.Worker>): nat {
    if workers == [] then 0
    else WorkersWork(workers[..|workers| - 1]) + WorkerWork(workers[|workers| - 1])
  }

  function PoolWork(p: WP.Pool): nat {
    20 * |p.queue| + WorkersWork(p.workers) + (if p.notifyAll then |p.workers| + 1 else 0)
  }

  function PostsWork(p: PQ.Posts): nat {
    5 * |p.pending| + 3 * |p.ring| + |p.entries| +
    (match p.loop case Resuming(_, _) => 2 case Draining => 1 case Blocked => 0)
  }

  function Work<T, E>(s: System<T, E>): nat {
    AwaitersWork(s.awaiters) + PoolWork(s.pool) + PostsWork(s.posts)
  }

  lemma {:induction false} AwaitersWorkUpdate(awaiters: seq<Awaiter>, j: nat, a: Awaiter)
    requires j < |awaiters|
    ensures AwaitersWork(awaiters[j := a]) == AwaitersWork(awaiters) - AwaiterWork(awaiters[j]) + AwaiterWork(a)
  {
    var last := |awaiters| - 1;
    if j == last {
      assert awaiters[j := a][..last] == awaiters[..last];
    } else {
      AwaitersWorkUpdate(awaiters[..last], j, a);
      assert awaiters[j := a][..last] == awaiters[..last][j := a];
    }
  }

  lemma {:induction false} WorkersWorkUpdate(workers: seq<WP.Worker>, w: nat, worker: WP.Worker)
    requires w < |workers|
    ensures WorkersWork(workers[w := worker]) == WorkersWork(workers) - WorkerWork(workers[w]) + WorkerWork(worker)
  {
    var last := |workers| - 1;
    if w == last {
      assert workers[w := worker][..last] == workers[..last];
    } else {
      WorkersWorkUpdate(workers[..last], w, worker);
      assert workers[w := worker][..last] == workers[..last][w := worker];
    }
  }

  lemma {:induction false} WakeAllWork(workers: seq<WP.Worker>)
    ensures WorkersWork(WP.WakeAll(workers)) <= WorkersWork(workers) + |workers|
  {
    if workers != [] {
      var last := |workers| - 1;
      WakeAllWork(workers[..last]);
      assert WP.WakeAll(workers)[..last] == WP.WakeAll(workers[..last]);
    }
  }

  lemma PoolStepWork(p: WP.Pool, step: WP.Step)
    requires WP.Enabled(p, step)
    ensures var q := WP.Apply(p, step);
            match step
            case NotifyOne(_, _) => PoolWork(q) <= PoolWork(p) + 1
            case Check(_) => PoolWork(q) < PoolWork(p)
            case Move(w, to) =>
              PoolWork(q) == PoolWork(p) - WorkerWork(p.workers[w]) + WorkerWork(WP.Busy(p.workers[w].job, to))
            case Finish(_) => PoolWork(q) < PoolWork(p)
            case NotifyAll => PoolWork(q) < PoolWork(p)
            case _ => true
  {
    match step
    case NotifyOne(_, target) => if target.Some? { WorkersWorkUpdate(p.workers, target.value, WP.Checking); }
    case Check(w) =>
      WorkersWorkUpdate(p.workers, w, WP.Apply(p, step).workers[w]);
    case Move(w, to) => WorkersWorkUpdate(p.workers, w, WP.Busy(p.workers[w].job, to));
    case Finish(w) => WorkersWorkUpdate(p.workers, w, WP.Checking);
    case NotifyAll => WakeAllWork(p.workers);
    case _ =>
  }

  lemma PostWork(p: PQ.Posts, h: PQ.Handle)
    ensures PostsWork(PQ.Apply(p, PQ.Post(h))) <= PostsWork(p) + 5
  {
    SubmittedSizes(p, |p.issued|);
  }

  lemma TakeWork(p: PQ.Posts, ops: set<nat>)
    requires PQ.Enabled(p, PQ.Take(ops))
    ensures PostsWork(PQ.Apply(p, PQ.Take(ops))) < PostsWork(p)
  {
    assert p.entries == (p.entries - ops) + ops;
    assert |(p.entries - ops) + ops| == |p.entries - ops| + |ops|;
  }

  lemma DeliverWork(p: PQ.Posts, op: nat)
    requires PQ.Enabled(p, PQ.Deliver(op))
    ensures PostsWork(PQ.Apply(p, PQ.Deliver(op))) < PostsWork(p)
  {
    assert |p.ring - {op}| == |p.ring| - 1;
    PQ.FewerEntries(p, {op});
  }

  lemma RingMoveWork(p: PQ.Posts, ps: PQ.Step)
    requires RingMove(ps) && PQ.Enabled(p, ps) && !ps.Submit? && !ps.WaitFails?
    ensures PostsWork(PQ.Apply(p, ps)) < PostsWork(p)
  {
    match ps
    case DrainOne => SubmittedSizes(p, p.pending[0]);
    case Take(ops) => TakeWork(p, ops);
    case Block =>
    case Retire =>
  }

  lemma SubmittedSizes(p: PQ.Posts, op: nat)
    ensures |p.ring + {op}| <= |p.ring| + 1 && |p.entries + {op}| <= |p.entries| + 1
  {
  }

  lemma AwaiterStepUsesWork<T, E>(f: nat -> Outcome<T, E>, s: System<T, E>, step: Step)
    requires Enabled(s, step) && (step.Notify? || step.AwaitReady? || step.AwaitSuspend?)
    ensures Work(Apply(true, f, s, step)) < Work(s)
  {
    match step
    case Notify(j, target) =>
      PoolStepWork(s.pool, WP.NotifyOne(j, target));
      AwaitersWorkUpdate(s.awaiters, j, CheckingReady);
    case AwaitReady(j) =>
      AwaitersWorkUpdate(s.awaiters, j, Continued);
      AwaitersWorkUpdate(s.awaiters, j, Suspending);
    case AwaitSuspend(j) =>
      AwaitersWorkUpdate(s.awaiters, j, Continued);
      AwaitersWorkUpdate(s.awaiters, j, Suspended);
  }

  lemma CompleteUsesWork<T, E>(f: nat -> Outcome<T, E>, s: System<T, E>, w: nat)
    requires Enabled(s, Complete(w))
    ensures Work(Apply(true, f, s, Complete(w))) < Work(s)
  {
    var to := if s.shared[s.pool.workers[w].job].waiter then WP.Posting else WP.Returning;
    PoolStepWork(s.pool, WP.Move(w, to));
    var t := Apply(true, f, s, Complete(w));
    assert t.pool == WP.Apply(s.pool, WP.Move(w, to)) && t.posts == s.posts && t.awaiters == s.awaiters;
  }

  lemma PostUsesWork<T, E>(f: nat -> Outcome<T, E>, s: System<T, E>, w: nat)
    requires PQ.Inv(s.posts) && Enabled(s, PostWaiter(w))
    ensures Work(Apply(true, f, s, PostWaiter(w))) < Work(s)
  {
    var h := PQ.JobAwaiter(s.pool.workers[w].job);
    var t := Apply(true, f, s, PostWaiter(w));
    assert t.pool == WP.Apply(s.pool, WP.Move(w, WP.Returning)) && t.awaiters == s.awaiters;
    assert PoolWork(t.pool) == PoolWork(s.pool) - 6 by { PoolStepWork(s.pool, WP.Move(w, WP.Returning)); }
    assert PostsWork(t.posts) <= PostsWork(s.posts) + 5 by {
      assert t.posts == PQ.Apply(s.posts, PQ.Post(h));
      PostWork(s.posts, h);
    }
  }

  /** Every system step uses up work. */
  lemma SystemStepUsesWork<T, E>(f: nat -> Outcome<T, E>, s: System<T, E>, step: Step)
    requires Inv(f, s) && Enabled(s, step) && SystemStep(step)
    ensures Work(Apply(true, f, s, step)) < Work(s)
  {
    match step
    case WorkerCheck(w) => PoolStepWork(s.pool, WP.Check(w));
    case LeaveClosure(w) => PoolStepWork(s.pool, WP.Finish(w));
    case NotifyAll => PoolStepWork(s.pool, WP.NotifyAll);
    case Ring(ps) => RingMoveWork(s.posts, ps);
    case Deliver(op) => DeliverUsesWork(f, s, op);
    case Notify(_, _) => AwaiterStepUsesWork(f, s, step);
    case AwaitReady(_) => AwaiterStepUsesWork(f, s, step);
    case AwaitSuspend(_) => AwaiterStepUsesWork(f, s, step);
    case CallF(w) => PoolStepWork(s.pool, WP.Move(w, WP.Called));
    case Complete(w) => CompleteUsesWork(f, s, w);
    case PostWaiter(w) => PostUsesWork(f, s, w);
  }

  lemma DeliverUsesWork<T, E>(f: nat -> Outcome<T, E>, s: System<T, E>, op: nat)
    requires Inv(f, s) && Enabled(s, Deliver(op))
    ensures Work(Apply(true, f, s, Deliver(op))) < Work(s)
  {
    var t := Apply(true, f, s, Deliver(op));
    assert t.pool == s.pool && t.posts == PQ.Apply(s.posts, PQ.Deliver(op));
    DeliverWork(s.posts, op);
    assert AwaitersWork(t.awaiters) <= AwaitersWork(s.awaiters) by {
      if s.posts.issued[op].coroutine.JobAwaiter? {
        AwaitersWorkUpdate(s.awaiters, s.posts.issued[op].coroutine.job, Continued);
      }
    }
  }

  /** Hence the system does come to rest: however its steps are ordered, there are at most `Work` of them. */
  lemma {:induction false} SystemRunsAreBounded<T, E>(
    f: nat -> Outcome<T, E>, threads: nat, capacity: nat, steps: seq<Step>, more: seq<Step>)
    requires Legal(true, f, threads, capacity, steps) && Legal(true, f, threads, capacity, steps + more)
    requires forall i :: 0 <= i < |more| ==> SystemStep(more[i])
    ensures |more| + Work(After(true, f, threads, capacity, steps + more)) <= Work(After(true, f, threads, capacity, steps))
    decreases |more|
  {
    if more == [] {
      assert steps + more == steps;
    } else {
      var last := |more| - 1;
      var before := steps + more[..last];
      assert (steps + more)[..|steps + more| - 1] == before;
      assert (steps + more)[|steps + more| - 1] == more[last];
      SystemRunsAreBounded(f, threads, capacity, steps, more[..last]);
      EveryScheduleKeepsInv(f, threads, capacity, before);
      SystemStepUsesWork(f, After(true, f, threads, capacity, before), more[last]);
    }
  }

  // ---------------------------------------------------------------- nothing gets stuck

  /** A system step that does not wait for I/O: the only completions it needs are those of posts. */
  ghost predicate Internal<T, E>(s: System<T, E>, step: Step) {
    SystemStep(step) && Enabled(s, step) && (step.Deliver? ==> s.posts.issued[step.op].owned)
  }

  ghost predicate CanMove<T, E>(s: System<T, E>) { exists step :: Internal(s, step) }

  /** At rest, with I/O possibly outstanding. */
  ghost predicate Idle<T, E>(s: System<T, E>) { !CanMove(s) }

  /** At rest, with all I/O completed. */
  ghost predicate Quiet<T, E>(s: System<T, E>) { forall step :: SystemStep(step) ==> !Enabled(s, step) }

  lemma NotifierCanMove<T, E>(s: System<T, E>, j: nat)
    requires AwaiterAt(s, j, Notifying) && j in s.pool.notifiers
    ensures CanMove(s)
  {
    if w: nat :| WP.IsAsleep(s.pool, w) {
      assert Internal(s, Notify(j, Some(w)));
    } else {
      assert forall w: nat :: !WP.IsAsleep(s.pool, w);
      forall w | 0 <= w < |s.pool.workers| ensures s.pool.workers[w] != WP.Asleep {
        assert !WP.IsAsleep(s.pool, w);
      }
      assert Internal(s, Notify(j, None));
    }
  }

  lemma AwaiterCanMove<T, E>(f: nat -> Outcome<T, E>, s: System<T, E>, j: nat)
    requires Inv(f, s) && j < |s.awaiters|
    ensures s.awaiters[j] == Suspended || s.awaiters[j] == Continued || CanMove(s)
  {
    match s.awaiters[j]
    case Notifying =>
      assert AwaiterAt(s, j, Notifying);
      NotifierCanMove(s, j);
    case CheckingReady => assert Internal(s, AwaitReady(j));
    case Suspending => assert Internal(s, AwaitSuspend(j));
    case _ =>
  }

  lemma BusyWorkerCanMove<T, E>(f: nat -> Outcome<T, E>, s: System<T, E>, w: nat)
    requires Inv(f, s) && w < |s.pool.workers| && s.pool.workers[w].Busy?
    ensures CanMove(s)
  {
    var j := s.pool.workers[w].job;
    assert WP.Runs(s.pool.workers, w, j);
    assert j in s.pool.taken && j in s.pool.pushed;
    match s.pool.workers[w].at
    case Calling => assert Internal(s, CallF(w));
    case Called => assert Internal(s, Complete(w));
    case Posting => assert Internal(s, PostWaiter(w));
    case Returning => assert Internal(s, LeaveClosure(w));
  }

  lemma WorkerCanMove<T, E>(f: nat -> Outcome<T, E>, s: System<T, E>, w: nat)
    requires Inv(f, s) && w < |s.pool.workers|
    ensures !WP.Active(s.pool.workers[w]) || CanMove(s)
  {
    if s.pool.workers[w].Busy? {
      BusyWorkerCanMove(f, s, w);
    } else if s.pool.workers[w] == WP.Checking {
      assert Internal(s, WorkerCheck(w));
    }
  }

  /** The loop itself never stops before it blocks, with every post in the ring delivered. */
  lemma LoopCanMove<T, E>(f: nat -> Outcome<T, E>, s: System<T, E>)
    requires Inv(f, s)
    ensures CanMove(s) || (s.posts.loop == PQ.Blocked && forall op :: op in s.posts.ring ==> !s.posts.issued[op].owned)
  {
    match s.posts.loop
    case Resuming(_, _) => assert Internal(s, Ring(PQ.Retire));
    case Draining =>
      if s.posts.pending != [] && !PQ.Full(s.posts) {
        assert Internal(s, Ring(PQ.DrainOne));
      } else {
        assert Internal(s, Ring(PQ.Block));
      }
    case Blocked =>
      if op :| op in s.posts.ring && s.posts.issued[op].owned { DeliverPossible(f, s, op); }
  }

  lemma DeliverPossible<T, E>(f: nat -> Outcome<T, E>, s: System<T, E>, op: nat)
    requires Inv(f, s) && s.posts.loop == PQ.Blocked && op in s.posts.ring
    ensures Enabled(s, Deliver(op)) && (s.posts.issued[op].owned ==> CanMove(s)) && !Quiet(s)
  {
    var h := s.posts.issued[op].coroutine;
    assert h.JobAwaiter? ==> Token(s.posts, op, h.job);
    assert Enabled(s, Deliver(op)) && SystemStep(Deliver(op));
    if s.posts.issued[op].owned { assert Internal(s, Deliver(op)); }
  }

  /** Workers and awaiters have nothing left to do, and the loop waits for I/O. */
  ghost predicate Settled<T, E>(s: System<T, E>) {
    && s.pool.queue == []
    && (forall w :: 0 <= w < |s.pool.workers| ==> !s.pool.workers[w].Busy?)
    && (forall j :: 0 <= j < |s.awaiters| ==> s.awaiters[j] == Suspended || s.awaiters[j] == Continued)
    && s.posts.loop == PQ.Blocked && (forall op :: op in s.posts.ring ==> op < |s.posts.issued| && !s.posts.issued[op].owned)
  }

  lemma IdleMeansSettled<T, E>(f: nat -> Outcome<T, E>, s: System<T, E>)
    requires Inv(f, s) && |s.pool.workers| > 0 && Idle(s)
    ensures Settled(s)
  {
    forall j | 0 <= j < |s.awaiters| ensures s.awaiters[j] == Suspended || s.awaiters[j] == Continued {
      AwaiterCanMove(f, s, j);
    }
    forall w | 0 <= w < |s.pool.workers| ensures !WP.Active(s.pool.workers[w]) {
      WorkerCanMove(f, s, w);
    }
    LoopCanMove(f, s);
    assert forall j: nat :: !AwaiterAt(s, j, Notifying);
    assert s.pool.notifiers == {};
  }

  lemma QuietMeansIdle<T, E>(f: nat -> Outcome<T, E>, s: System<T, E>)
    requires Inv(f, s) && Quiet(s)
    ensures Idle(s) && (s.posts.loop == PQ.Blocked ==> s.posts.ring == {})
  {
    assert forall step :: !Internal(s, step);
    if s.posts.loop == PQ.Blocked {
      forall op: nat ensures op !in s.posts.ring {
        if op in s.posts.ring { DeliverPossible(f, s, op); }
      }
    }
  }

  /** No deadlock, no lost wake-up, no lost post: with at least one worker and one ring entry, a reachable
      state in which the system cannot move is drained. */
  lemma QuietMeansDrained<T, E>(f: nat -> Outcome<T, E>, threads: nat, capacity: nat, steps: seq<Step>)
    requires Legal(true, f, threads, capacity, steps) && threads > 0 && capacity > 0
    requires Quiet(After(true, f, threads, capacity, steps))
    ensures Drained(After(true, f, threads, capacity, steps))
  {
    var s := After(true, f, threads, capacity, steps);
    EveryScheduleKeepsInv(f, threads, capacity, steps);
    QuietMeansIdle(f, s);
    IdleMeansSettled(f, s);
    assert !PQ.Lost(s.posts);
  }

  /** Hence each coroutine has continued exactly once when the system comes to rest. */
  lemma RestMeansEveryCallAnswered<T, E>(f: nat -> Outcome<T, E>, threads: nat, capacity: nat, steps: seq<Step>, j: nat)
    requires Legal(true, f, threads, capacity, steps) && threads > 0 && capacity > 0
    requires Quiet(After(true, f, threads, capacity, steps)) && j < |After(true, f, threads, capacity, steps).awaiters|
    ensures var s := After(true, f, threads, capacity, steps);
            && (exists i :: 0 <= i < |s.continued| && s.continued[i] == Continuation(j, Some(f(j)), LoopThread))
            && (forall i, k :: ContinuedAt(s, i, j) && ContinuedAt(s, k, j) ==> i == k)
  {
    QuietMeansDrained(f, threads, capacity, steps);
    DrainedMeansAllContinued(f, threads, capacity, steps, j);
  }

  /** Without workers a call whose coroutine has suspended is never answered, whatever happens: the
      thread count the server passes must be positive. */
  lemma {:induction false} NoWorkersNoAnswers<T, E>(f: nat -> Outcome<T, E>, capacity: nat, steps: seq<Step>)
    requires Legal(true, f, 0, capacity, steps)
    ensures After(true, f, 0, capacity, steps).continued == []
    ensures forall j :: 0 <= j < |After(true, f, 0, capacity, steps).shared| ==> !After(true, f, 0, capacity, steps).shared[j].done
    ensures forall op, j: nat :: !Token(After(true, f, 0, capacity, steps).posts, op, j)
    decreases |steps|
  {
    EveryScheduleKeepsInv(f, 0, capacity, steps);
    if steps != [] {
      var s := After(true, f, 0, capacity, steps[..|steps| - 1]);
      NoWorkersNoAnswers(f, capacity, steps[..|steps| - 1]);
      EveryScheduleKeepsInv(f, 0, capacity, steps[..|steps| - 1]);
      NoWorkersStep(f, s, steps[|steps| - 1]);
    }
  }

  lemma NoWorkersStep<T, E>(f: nat -> Outcome<T, E>, s: System<T, E>, step: Step)
    requires Inv(f, s) && Enabled(s, step) && s.pool.workers == [] && s.continued == []
    requires forall j :: 0 <= j < |s.shared| ==> !s.shared[j].done
    requires forall op, j: nat :: !Token(s.posts, op, j)
    ensures var t := Apply(true, f, s, step);
            && t.continued == []
            && (forall j :: 0 <= j < |t.shared| ==> !t.shared[j].done)
            && (forall op, j: nat :: !Token(t.posts, op, j))
  {
    var t := Apply(true, f, s, step);
    if step.Deliver? {
      var h := s.posts.issued[step.op].coroutine;
      assert h.JobAwaiter? ==> Token(s.posts, step.op, h.job);
    }
    forall op, j: nat ensures !Token(t.posts, op, j) {
      assert !Token(s.posts, op, j);
    }
  }
}
