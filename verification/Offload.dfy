/** `co_await pool.enqueue(f)` end to end: the awaiting coroutine, the worker threads, the per-call
    rendezvous (include/servd/ThreadPool.hpp) and the way back through the event loop
    (src/UringEngine/EngineCore.cpp), composed.

    Job `j` is the `j`-th call of `enqueue`; `f(j)` is what its callable produces, an arbitrary value or
    exception. A step is one critical section, one notification, or one stretch of lock-free code, taken
    by any thread at any time. The state of the worker pool and of the post queue change exactly as in
    the modules WorkerPool and PostQueue. */
module Offload {

  import opened Options
  import WP = WorkerPool
  import PQ = PostQueue

  /** Where the coroutine that awaits a job stands. Everything up to `Suspended` happens on the loop thread. */
  datatype Awaiter =
    | Notifying        // pushed the closure, about to call notify_one
    | CheckingReady    // about to enter await_ready
    | Suspending       // about to enter await_suspend
    | Suspended
    | Continued

  /** The `Shared` block of one call. */
  datatype Shared<+T, +E> = Shared(result: Option<T>, error: Option<E>, waiter: bool, done: bool)

  datatype Thread = LoopThread | WorkerThread(w: nat)

  /** The coroutine of `job` ran past its `co_await` on `thread` and `await_resume` gave it `what`. */
  datatype Continuation<+T, +E> = Continuation(job: nat, what: Option<Outcome<T, E>>, thread: Thread)

  datatype System<T, E> = System(
    pool: WP.Pool,
    posts: PQ.Posts,
    shared: seq<Shared<T, E>>,
    awaiters: seq<Awaiter>,
    continued: seq<Continuation<T, E>>)

  function Init<T, E>(threads: nat, capacity: nat): System<T, E> {
    System(WP.Init(threads), PQ.Init(capacity), [], [], [])
  }

  datatype Step =
    | Enqueue
    | Notify(job: nat, target: Option<nat>)
    | AwaitReady(job: nat)
    | AwaitSuspend(job: nat)
    | WorkerCheck(w: nat)
    | SpuriousWake(w: nat)
    | CallF(w: nat)
    | Complete(w: nat)                  // take the rendezvous lock, record, read the waiter
    | PostWaiter(w: nat)
    | LeaveClosure(w: nat)
    | Deliver(op: nat)
    | Ring(ps: PQ.Step)                 // any other move of the ring, the kernel or the loop
    | StopPool
    | NotifyAll

  predicate AwaiterAt<T, E>(s: System<T, E>, j: nat, a: Awaiter) {
    j < |s.awaiters| && j < |s.shared| && s.awaiters[j] == a
  }

  predicate WorkerAt<T, E>(s: System<T, E>, w: nat, at: WP.Closure) {
    && w < |s.pool.workers| && s.pool.workers[w].Busy? && s.pool.workers[w].at == at
    && s.pool.workers[w].job < |s.shared| && s.pool.workers[w].job < |s.awaiters|
  }

  predicate RingMove(ps: PQ.Step) {
    !ps.Post? && !ps.Deliver? && (ps.Submit? ==> ps.h.Other?)
  }

  predicate Enabled<T, E>(s: System<T, E>, step: Step) {
    match step
    case Enqueue => WP.Enabled(s.pool, WP.Push(|s.awaiters|, None))
    case Notify(j, target) => AwaiterAt(s, j, Notifying) && WP.Enabled(s.pool, WP.NotifyOne(j, target))
    case AwaitReady(j) => AwaiterAt(s, j, CheckingReady)
    case AwaitSuspend(j) => AwaiterAt(s, j, Suspending)
    case WorkerCheck(w) => WP.Enabled(s.pool, WP.Check(w))
    case SpuriousWake(w) => WP.Enabled(s.pool, WP.SpuriousWake(w))
    case CallF(w) => WorkerAt(s, w, WP.Calling)
    case Complete(w) => WorkerAt(s, w, WP.Called)
    case PostWaiter(w) => WorkerAt(s, w, WP.Posting)
    case LeaveClosure(w) => WorkerAt(s, w, WP.Returning)
    case Deliver(op) =>
      && PQ.Enabled(s.posts, PQ.Deliver(op))
      && (s.posts.issued[op].coroutine.JobAwaiter? ==>
            s.posts.issued[op].coroutine.job < |s.shared| && s.posts.issued[op].coroutine.job < |s.awaiters|)
    case Ring(ps) => RingMove(ps) && PQ.Enabled(s.posts, ps)
    case StopPool => WP.Enabled(s.pool, WP.Stop)
    case NotifyAll => WP.Enabled(s.pool, WP.NotifyAll)
  }

  /** `await_resume`: the exception if there is one, else the value; `None` stands for reading an empty
      optional. */
  function AwaitResume<T, E>(sh: Shared<T, E>): Option<Outcome<T, E>> {
    if sh.error.Some? then Some(Threw(sh.error.value))
    else if sh.result.Some? then Some(Returned(sh.result.value))
    else None
  }

  function Continue<T, E>(s: System<T, E>, j: nat, thread: Thread): System<T, E>
    requires j < |s.shared| && j < |s.awaiters|
  {
    s.(awaiters := s.awaiters[j := Continued],
       continued := s.continued + [Continuation(j, AwaitResume(s.shared[j]), thread)])
  }

  function Record<T, E>(sh: Shared<T, E>, outcome: Outcome<T, E>): Shared<T, E> {
    match outcome
    case Returned(v) => sh.(result := Some(v), done := true)
    case Threw(e) => sh.(error := Some(e), done := true)
  }

  /** The effect of a step. `posting` says whether the pool was built with a post callback, as the server
      does; without one the worker resumes the waiter itself. */
  function Apply<T, E>(posting: bool, f: nat -> Outcome<T, E>, s: System<T, E>, step: Step): System<T, E>
    requires Enabled(s, step)
  {
    match step
    case Enqueue =>
      s.(pool := WP.Apply(s.pool, WP.Push(|s.awaiters|, None)),
         shared := s.shared + [Shared(None, None, false, false)],
         awaiters := s.awaiters + [Notifying])
    case Notify(j, target) =>
      s.(pool := WP.Apply(s.pool, WP.NotifyOne(j, target)), awaiters := s.awaiters[j := CheckingReady])
    case AwaitReady(j) =>
      if s.shared[j].done then Continue(s, j, LoopThread) else s.(awaiters := s.awaiters[j := Suspending])
    case AwaitSuspend(j) =>
      var t := s.(shared := s.shared[j := s.shared[j].(waiter := true)]);
      if s.shared[j].done then Continue(t, j, LoopThread) else t.(awaiters := s.awaiters[j := Suspended])
    case WorkerCheck(w) => s.(pool := WP.Apply(s.pool, WP.Check(w)))
    case SpuriousWake(w) => s.(pool := WP.Apply(s.pool, WP.SpuriousWake(w)))
    case CallF(w) => s.(pool := WP.Apply(s.pool, WP.Move(w, WP.Called)))
    case Complete(w) =>
      var j := s.pool.workers[w].job;
      s.(pool := WP.Apply(s.pool, WP.Move(w, if s.shared[j].waiter then WP.Posting else WP.Returning)),
         shared := s.shared[j := Record(s.shared[j], f(j))])
    case PostWaiter(w) =>
      var j := s.pool.workers[w].job;
      var t := s.(pool := WP.Apply(s.pool, WP.Move(w, WP.Returning)));
      if posting then t.(posts := PQ.Apply(s.posts, PQ.Post(PQ.JobAwaiter(j))))
      else Continue(t, j, WorkerThread(w))
    case LeaveClosure(w) => s.(pool := WP.Apply(s.pool, WP.Finish(w)))
    case Deliver(op) =>
      var t := s.(posts := PQ.Apply(s.posts, PQ.Deliver(op)));
      (match s.posts.issued[op].coroutine
       case JobAwaiter(j) => Continue(t, j, LoopThread)
       case Other(_) => t)
    case Ring(ps) => s.(posts := PQ.Apply(s.posts, ps))
    case StopPool => s.(pool := WP.Apply(s.pool, WP.Stop))
    case NotifyAll => s.(pool := WP.Apply(s.pool, WP.NotifyAll))
  }

  // ---------------------------------------------------------------- schedules

  ghost predicate Legal<T, E>(posting: bool, f: nat -> Outcome<T, E>, threads: nat, capacity: nat, steps: seq<Step>)
    decreases |steps|, 0
  {
    steps == [] ||
    (Legal(posting, f, threads, capacity, steps[..|steps| - 1]) &&
     Enabled(After(posting, f, threads, capacity, steps[..|steps| - 1]), steps[|steps| - 1]))
  }

  ghost function After<T, E>(posting: bool, f: nat -> Outcome<T, E>, threads: nat, capacity: nat, steps: seq<Step>): System<T, E>
    requires Legal(posting, f, threads, capacity, steps)
    decreases |steps|, 1
  {
    if steps == [] then Init(threads, capacity)
    else Apply(posting, f, After(posting, f, threads, capacity, steps[..|steps| - 1]), steps[|steps| - 1])
  }

  // ---------------------------------------------------------------- invariant

  /** Worker `w` runs job `j` and has recorded its outcome. */
  ghost predicate Late(pool: WP.Pool, w: nat, j: nat) {
    WP.Runs(pool.workers, w, j) && (pool.workers[w].at == WP.Posting || pool.workers[w].at == WP.Returning)
  }

  ghost predicate Posts(pool: WP.Pool, w: nat, j: nat) {
    WP.Runs(pool.workers, w, j) && pool.workers[w].at == WP.Posting
  }

  /** Operation `op` will resume job `j` and has not been delivered. */
  ghost predicate Token(posts: PQ.Posts, op: nat, j: nat) {
    && op < |posts.issued| && (op in posts.pending || op in posts.ring)
    && posts.issued[op].coroutine == PQ.JobAwaiter(j)
  }

  ghost predicate ContinuedAt<T, E>(s: System<T, E>, i: nat, j: nat) {
    i < |s.continued| && s.continued[i].job == j
  }

  ghost predicate DoneInv<T, E>(f: nat -> Outcome<T, E>, s: System<T, E>, j: nat)
    requires j < |s.shared|
  {
    var sh := s.shared[j];
    && (sh.done <==> j in s.pool.finished || exists w :: Late(s.pool, w, j))
    && sh.result == (if sh.done && f(j).Returned? then Some(f(j).value) else None)
    && sh.error == (if sh.done && f(j).Threw? then Some(f(j).error) else None)
  }

  /** The one right to resume the coroutine of job `j`: with its own thread, with the worker that found
      it waiting, in an undelivered operation, or used up. */
  ghost predicate TurnInv<T, E>(s: System<T, E>, j: nat)
    requires j < |s.shared| && j < |s.awaiters|
  {
    var sh := s.shared[j];
    && (forall op1, op2 :: Token(s.posts, op1, j) && Token(s.posts, op2, j) ==> op1 == op2)
    && (forall i1, i2 :: ContinuedAt(s, i1, j) && ContinuedAt(s, i2, j) ==> i1 == i2)
    && (s.awaiters[j] != Suspended ==> forall w :: !Posts(s.pool, w, j))
    && (s.awaiters[j] != Suspended ==> forall op :: !Token(s.posts, op, j))
    && (s.awaiters[j] != Continued ==> forall i :: !ContinuedAt(s, i, j))
    && (s.awaiters[j] == Continued ==> sh.done && exists i :: ContinuedAt(s, i, j))
    && (s.awaiters[j] == Suspended <==> sh.waiter && s.awaiters[j] != Continued)
    && (s.awaiters[j] == Suspended && !sh.done ==> forall op :: !Token(s.posts, op, j))
    && (forall w, op :: !(Posts(s.pool, w, j) && Token(s.posts, op, j)))
    && (s.awaiters[j] == Suspended && sh.done ==> (exists w :: Posts(s.pool, w, j)) || exists op :: Token(s.posts, op, j))
  }

  ghost predicate BookInv<T, E>(s: System<T, E>) {
    && |s.shared| == |s.awaiters|
    && (forall j: nat :: j in s.pool.pushed <==> j < |s.awaiters|)
    && (forall j: nat :: j in s.pool.notifiers <==> AwaiterAt(s, j, Notifying))
    && (forall op, j: nat :: Token(s.posts, op, j) ==> j < |s.awaiters|)
  }

  ghost predicate GoodContinuation<T, E>(f: nat -> Outcome<T, E>, jobs: nat, c: Continuation<T, E>) {
    c.job < jobs && c.what == Some(f(c.job)) && c.thread == LoopThread
  }

  ghost predicate Inv<T, E>(f: nat -> Outcome<T, E>, s: System<T, E>) {
    && WP.Inv(s.pool) && PQ.Inv(s.posts) && BookInv(s)
    && (forall j :: 0 <= j < |s.shared| ==> DoneInv(f, s, j) && TurnInv(s, j))
    && (forall i :: 0 <= i < |s.continued| ==> GoodContinuation(f, |s.awaiters|, s.continued[i]))
  }

  // What one step leaves alone. A job whose own parts are untouched keeps its invariant.

  /** Workers, operations and continuations of job `j` are as before. */
  ghost predicate SameAround<T, E>(s: System<T, E>, t: System<T, E>, j: nat) {
    && (j in s.pool.finished <==> j in t.pool.finished)
    && (forall w :: Late(s.pool, w, j) <==> Late(t.pool, w, j))
    && (forall w :: Posts(s.pool, w, j) <==> Posts(t.pool, w, j))
    && (forall op :: Token(s.posts, op, j) <==> Token(t.posts, op, j))
    && (forall i :: ContinuedAt(s, i, j) <==> ContinuedAt(t, i, j))
  }

  ghost predicate Untouched<T, E>(s: System<T, E>, t: System<T, E>, j: nat) {
    && j < |s.shared| && j < |s.awaiters| && j < |t.shared| && j < |t.awaiters|
    && s.shared[j] == t.shared[j] && s.awaiters[j] == t.awaiters[j]
    && SameAround(s, t, j)
  }

  lemma UntouchedKeeps<T, E>(f: nat -> Outcome<T, E>, s: System<T, E>, t: System<T, E>, j: nat)
    requires Untouched(s, t, j) && DoneInv(f, s, j) && TurnInv(s, j)
    ensures DoneInv(f, t, j) && TurnInv(t, j)
  {
  }

  lemma AllUntouchedKeeps<T, E>(f: nat -> Outcome<T, E>, s: System<T, E>, t: System<T, E>)
    requires Inv(f, s) && WP.Inv(t.pool) && PQ.Inv(t.posts) && BookInv(t)
    requires t.continued == s.continued && |t.shared| == |s.shared|
    requires forall j :: 0 <= j < |s.shared| ==> Untouched(s, t, j)
    ensures Inv(f, t)
  {
    forall j | 0 <= j < |t.shared| ensures DoneInv(f, t, j) && TurnInv(t, j) {
      UntouchedKeeps(f, s, t, j);
    }
  }

  lemma OthersUntouchedKeeps<T, E>(f: nat -> Outcome<T, E>, s: System<T, E>, t: System<T, E>, j: nat)
    requires Inv(f, s) && WP.Inv(t.pool) && PQ.Inv(t.posts) && BookInv(t)
    requires |t.shared| == |s.shared| && j < |s.shared|
    requires forall k :: 0 <= k < |s.shared| && k != j ==> Untouched(s, t, k)
    requires DoneInv(f, t, j) && TurnInv(t, j)
    requires forall i :: 0 <= i < |t.continued| ==> GoodContinuation(f, |t.awaiters|, t.continued[i])
    ensures Inv(f, t)
  {
    forall k | 0 <= k < |t.shared| ensures DoneInv(f, t, k) && TurnInv(t, k) {
      if k != j { UntouchedKeeps(f, s, t, k); }
    }
  }

  lemma EnqueueKeeps<T, E>(f: nat -> Outcome<T, E>, s: System<T, E>)
    requires Inv(f, s) && Enabled(s, Enqueue)
    ensures Inv(f, Apply(true, f, s, Enqueue))
  {
    var t := Apply(true, f, s, Enqueue);
    var n := |s.awaiters|;
    WP.StepKeepsInv(s.pool, WP.Push(n, None));
    assert n !in s.pool.taken;
    assert forall w :: !WP.Runs(s.pool.workers, w, n);
    forall j | 0 <= j < |t.shared| ensures DoneInv(f, t, j) && TurnInv(t, j) {
      if j < n {
        assert Untouched(s, t, j);
        UntouchedKeeps(f, s, t, j);
      }
    }
    forall i | 0 <= i < |t.continued| ensures GoodContinuation(f, |t.awaiters|, t.continued[i]) {
      assert GoodContinuation(f, |s.awaiters|, s.continued[i]);
    }
  }

  lemma NotifyKeeps<T, E>(f: nat -> Outcome<T, E>, s: System<T, E>, j: nat, target: Option<nat>)
    requires Inv(f, s) && Enabled(s, Notify(j, target))
    ensures Inv(f, Apply(true, f, s, Notify(j, target)))
  {
    var t := Apply(true, f, s, Notify(j, target));
    WP.StepKeepsInv(s.pool, WP.NotifyOne(j, target));
    forall k: nat ensures SameAround(s, t, k) {
      assert forall w :: WP.Runs(s.pool.workers, w, k) <==> WP.Runs(t.pool.workers, w, k);
    }
    AwaiterMoves(f, s, t, j);
    OthersUntouchedKeeps(f, s, t, j);
  }

  /** An awaiter that has not suspended moves on without suspending. */
  lemma AwaiterMoves<T, E>(f: nat -> Outcome<T, E>, s: System<T, E>, t: System<T, E>, j: nat)
    requires j < |s.shared| && j < |s.awaiters| && |t.shared| > j && |t.awaiters| > j
    requires DoneInv(f, s, j) && TurnInv(s, j) && SameAround(s, t, j) && t.shared[j] == s.shared[j]
    requires s.awaiters[j] != Suspended && s.awaiters[j] != Continued
    requires t.awaiters[j] != Suspended && t.awaiters[j] != Continued
    ensures DoneInv(f, t, j) && TurnInv(t, j)
  {
  }

  /** An awaiter suspends, having found the job unfinished. */
  lemma AwaiterSuspends<T, E>(f: nat -> Outcome<T, E>, s: System<T, E>, t: System<T, E>, j: nat)
    requires j < |s.shared| && j < |s.awaiters| && |t.shared| > j && |t.awaiters| > j
    requires DoneInv(f, s, j) && TurnInv(s, j) && SameAround(s, t, j) && !s.shared[j].done
    requires s.awaiters[j] != Suspended && s.awaiters[j] != Continued
    requires t.awaiters[j] == Suspended && t.shared[j] == s.shared[j].(waiter := true)
    ensures DoneInv(f, t, j) && TurnInv(t, j)
  {
  }

  /** The coroutine of `j` continues and nobody holds a right to resume it again. */
  lemma AwaiterContinues<T, E>(f: nat -> Outcome<T, E>, s: System<T, E>, t: System<T, E>, j: nat, thread: Thread)
    requires j < |s.shared| && j < |s.awaiters| && |t.shared| > j && |t.awaiters| > j
    requires DoneInv(f, s, j) && TurnInv(s, j) && s.shared[j].done && s.awaiters[j] != Continued
    requires t.shared[j] == s.shared[j].(waiter := t.shared[j].waiter) && t.awaiters[j] == Continued
    requires t.continued == s.continued + [Continuation(j, AwaitResume(t.shared[j]), thread)]
    requires t.pool == s.pool
    requires forall op :: !Token(t.posts, op, j)
    requires forall w :: !Posts(t.pool, w, j)
    ensures DoneInv(f, t, j) && TurnInv(t, j)
    ensures t.continued[|s.continued|].what == Some(f(j))
  {
    assert forall i :: ContinuedAt(t, i, j) <==> ContinuedAt(s, i, j) || i == |s.continued|;
    assert ContinuedAt(t, |s.continued|, j);
  }

  lemma ContinueKeepsRest<T, E>(f: nat -> Outcome<T, E>, s: System<T, E>, t: System<T, E>, j: nat)
    requires Inv(f, s) && PQ.Inv(t.posts) && BookInv(t) && j < |s.shared|
    requires |t.shared| == |s.shared| && t.pool == s.pool
    requires t.shared == s.shared[j := t.shared[j]] && t.awaiters == s.awaiters[j := t.awaiters[j]]
    requires t.continued == s.continued + [Continuation(j, Some(f(j)), LoopThread)]
    requires forall op, k: nat :: k != j ==> (Token(s.posts, op, k) <==> Token(t.posts, op, k))
    requires DoneInv(f, t, j) && TurnInv(t, j)
    ensures Inv(f, t)
  {
    forall k | 0 <= k < |s.shared| && k != j ensures Untouched(s, t, k) {
      assert forall i :: ContinuedAt(s, i, k) <==> ContinuedAt(t, i, k);
    }
    forall i | 0 <= i < |t.continued| ensures GoodContinuation(f, |t.awaiters|, t.continued[i]) {
      if i < |s.continued| { assert GoodContinuation(f, |s.awaiters|, s.continued[i]); }
    }
    OthersUntouchedKeeps(f, s, t, j);
  }

  lemma AwaitReadyKeeps<T, E>(f: nat -> Outcome<T, E>, s: System<T, E>, j: nat)
    requires Inv(f, s) && Enabled(s, AwaitReady(j))
    ensures Inv(f, Apply(true, f, s, AwaitReady(j)))
  {
    var t := Apply(true, f, s, AwaitReady(j));
    assert DoneInv(f, s, j) && TurnInv(s, j);
    if s.shared[j].done {
      AwaiterContinues(f, s, t, j, LoopThread);
      ContinueKeepsRest(f, s, t, j);
    } else {
      forall k: nat ensures SameAround(s, t, k) {
      }
      AwaiterMoves(f, s, t, j);
      OthersUntouchedKeeps(f, s, t, j);
    }
  }

  lemma AwaitSuspendKeeps<T, E>(f: nat -> Outcome<T, E>, s: System<T, E>, j: nat)
    requires Inv(f, s) && Enabled(s, AwaitSuspend(j))
    ensures Inv(f, Apply(true, f, s, AwaitSuspend(j)))
  {
    var t := Apply(true, f, s, AwaitSuspend(j));
    assert DoneInv(f, s, j) && TurnInv(s, j);
    if s.shared[j].done {
      AwaiterContinues(f, s, t, j, LoopThread);
      ContinueKeepsRest(f, s, t, j);
    } else {
      forall k: nat ensures SameAround(s, t, k) {
      }
      AwaiterSuspends(f, s, t, j);
      OthersUntouchedKeeps(f, s, t, j);
    }
  }

  /** A pool step that neither records an outcome nor finishes a closure touches no job. */
  lemma QuietPoolStep(p: WP.Pool, step: WP.Step)
    requires WP.Enabled(p, step)
    requires step.Check? || step.SpuriousWake? || step.Stop? || step.NotifyAll? ||
             (step.Move? && step.to == WP.Called && p.workers[step.w].at == WP.Calling)
    ensures var q := WP.Apply(p, step);
            && q.finished == p.finished && q.pushed == p.pushed && q.notifiers == p.notifiers
            && forall w, j: nat :: (Late(p, w, j) <==> Late(q, w, j)) && (Posts(p, w, j) <==> Posts(q, w, j))
  {
  }

  lemma PoolStepKeeps<T, E>(f: nat -> Outcome<T, E>, s: System<T, E>, t: System<T, E>, ps: WP.Step)
    requires Inv(f, s) && WP.Enabled(s.pool, ps) && t == s.(pool := WP.Apply(s.pool, ps))
    requires ps.Check? || ps.SpuriousWake? || ps.Stop? || ps.NotifyAll? ||
             (ps.Move? && ps.to == WP.Called && s.pool.workers[ps.w].at == WP.Calling)
    ensures Inv(f, t)
  {
    WP.StepKeepsInv(s.pool, ps);
    QuietPoolStep(s.pool, ps);
    forall j | 0 <= j < |s.shared| ensures Untouched(s, t, j) {
      assert forall i :: ContinuedAt(s, i, j) <==> ContinuedAt(t, i, j);
    }
    AllUntouchedKeeps(f, s, t);
  }

  lemma LeaveClosureKeeps<T, E>(f: nat -> Outcome<T, E>, s: System<T, E>, w: nat)
    requires Inv(f, s) && Enabled(s, LeaveClosure(w))
    ensures Inv(f, Apply(true, f, s, LeaveClosure(w)))
  {
    var t := Apply(true, f, s, LeaveClosure(w));
    var j := s.pool.workers[w].job;
    WP.StepKeepsInv(s.pool, WP.Finish(w));
    assert Late(s.pool, w, j);
    forall k | 0 <= k < |s.shared| && k != j ensures Untouched(s, t, k) { FinishOthers(s.pool, w, k); }
    assert DoneInv(f, s, j) && TurnInv(s, j);
    assert forall v :: Posts(s.pool, v, j) <==> Posts(t.pool, v, j);
    assert j in t.pool.finished;
    assert TurnInv(t, j) by {
      assert forall i :: ContinuedAt(s, i, j) <==> ContinuedAt(t, i, j);
    }
    OthersUntouchedKeeps(f, s, t, j);
  }

  lemma FinishOthers(p: WP.Pool, w: nat, k: nat)
    requires WP.Enabled(p, WP.Finish(w)) && k != p.workers[w].job
    ensures var q := WP.Apply(p, WP.Finish(w));
            && (k in q.finished <==> k in p.finished)
            && forall v :: (Late(p, v, k) <==> Late(q, v, k)) && (Posts(p, v, k) <==> Posts(q, v, k))
  {
  }

  lemma CompleteKeeps<T, E>(f: nat -> Outcome<T, E>, s: System<T, E>, w: nat)
    requires Inv(f, s) && Enabled(s, Complete(w))
    ensures Inv(f, Apply(true, f, s, Complete(w)))
  {
    var t := Apply(true, f, s, Complete(w));
    var j := s.pool.workers[w].job;
    assert DoneInv(f, s, j) && TurnInv(s, j);
    WP.StepKeepsInv(s.pool, WP.Move(w, if s.shared[j].waiter then WP.Posting else WP.Returning));
    forall k | 0 <= k < |s.shared| && k != j ensures Untouched(s, t, k) {
      assert forall v :: WP.Runs(s.pool.workers, v, k) <==> WP.Runs(t.pool.workers, v, k);
    }
    CompleteOwn(f, s, w);
    OthersUntouchedKeeps(f, s, t, j);
  }

  /** Recording an outcome: the job was not done, since its only worker had not recorded it yet, and the
      worker becomes its poster exactly if the coroutine is already suspended. */
  lemma CompleteOwn<T, E>(f: nat -> Outcome<T, E>, s: System<T, E>, w: nat)
    requires Inv(f, s) && Enabled(s, Complete(w))
    ensures var t := Apply(true, f, s, Complete(w));
            var j := s.pool.workers[w].job;
            !s.shared[j].done && DoneInv(f, t, j) && TurnInv(t, j)
  {
    var t := Apply(true, f, s, Complete(w));
    var j := s.pool.workers[w].job;
    assert DoneInv(f, s, j) && TurnInv(s, j);
    assert WP.Runs(s.pool.workers, w, j);
    assert forall v :: WP.Runs(s.pool.workers, v, j) ==> v == w;
    assert j !in s.pool.finished;
    assert !s.shared[j].done;
    assert forall v :: WP.Runs(t.pool.workers, v, j) <==> WP.Runs(s.pool.workers, v, j);
    assert Late(t.pool, w, j);
    assert forall v :: Posts(t.pool, v, j) <==> v == w && s.shared[j].waiter;
    if s.shared[j].waiter { assert Posts(t.pool, w, j); }
    assert forall op :: Token(s.posts, op, j) <==> Token(t.posts, op, j);
    assert forall i :: ContinuedAt(s, i, j) <==> ContinuedAt(t, i, j);
  }

  lemma PostWaiterKeeps<T, E>(f: nat -> Outcome<T, E>, s: System<T, E>, w: nat)
    requires Inv(f, s) && Enabled(s, PostWaiter(w))
    ensures Inv(f, Apply(true, f, s, PostWaiter(w)))
  {
    var t := Apply(true, f, s, PostWaiter(w));
    var j := s.pool.workers[w].job;
    WP.StepKeepsInv(s.pool, WP.Move(w, WP.Returning));
    PQ.StepKeepsInv(s.posts, PQ.Post(PQ.JobAwaiter(j)));
    forall k | 0 <= k < |s.shared| && k != j ensures Untouched(s, t, k) {
      PostWaiterOthers(f, s, w, k);
    }
    PostWaiterBook(f, s, w);
    PostWaiterOwn(f, s, w);
    OthersUntouchedKeeps(f, s, t, j);
  }

  lemma PostWaiterBook<T, E>(f: nat -> Outcome<T, E>, s: System<T, E>, w: nat)
    requires BookInv(s) && PQ.Inv(s.posts) && Enabled(s, PostWaiter(w))
    ensures BookInv(Apply(true, f, s, PostWaiter(w)))
  {
    var t := Apply(true, f, s, PostWaiter(w));
    PostedToken(s.posts, PQ.JobAwaiter(s.pool.workers[w].job));
    assert t.awaiters == s.awaiters && t.shared == s.shared;
    assert t.pool.pushed == s.pool.pushed && t.pool.notifiers == s.pool.notifiers;
    forall op, j: nat | Token(t.posts, op, j) ensures j < |t.awaiters| {
      assert Token(s.posts, op, j) || j == s.pool.workers[w].job;
    }
  }

  lemma PostWaiterOthers<T, E>(f: nat -> Outcome<T, E>, s: System<T, E>, w: nat, k: nat)
    requires Inv(f, s) && Enabled(s, PostWaiter(w)) && k < |s.shared| && k != s.pool.workers[w].job
    ensures Untouched(s, Apply(true, f, s, PostWaiter(w)), k)
  {
    PostedToken(s.posts, PQ.JobAwaiter(s.pool.workers[w].job));
    MoveOthers(s.pool, w, WP.Returning, k);
  }

  lemma MoveOthers(p: WP.Pool, w: nat, to: WP.Closure, k: nat)
    requires WP.Enabled(p, WP.Move(w, to)) && k != p.workers[w].job
    ensures var q := WP.Apply(p, WP.Move(w, to));
            && q.finished == p.finished
            && forall v :: (Late(p, v, k) <==> Late(q, v, k)) && (Posts(p, v, k) <==> Posts(q, v, k))
  {
  }

  lemma PostedToken(p: PQ.Posts, h: PQ.Handle)
    requires PQ.Inv(p)
    ensures forall op, k: nat :: Token(PQ.Apply(p, PQ.Post(h)), op, k) <==>
              Token(p, op, k) || (op == |p.issued| && h == PQ.JobAwaiter(k))
  {
    var q := PQ.Apply(p, PQ.Post(h));
    forall op, k: nat
      ensures Token(q, op, k) <==> Token(p, op, k) || (op == |p.issued| && h == PQ.JobAwaiter(k))
    {
      assert |p.issued| !in p.pending && |p.issued| !in p.ring;
      assert op in q.pending <==> op in p.pending || (PQ.Full(p) && op == |p.issued|);
    }
  }

  lemma PostWaiterOwn<T, E>(f: nat -> Outcome<T, E>, s: System<T, E>, w: nat)
    requires Inv(f, s) && Enabled(s, PostWaiter(w))
    ensures var t := Apply(true, f, s, PostWaiter(w));
            var j := s.pool.workers[w].job;
            DoneInv(f, t, j) && TurnInv(t, j)
  {
    var t := Apply(true, f, s, PostWaiter(w));
    var j := s.pool.workers[w].job;
    assert DoneInv(f, s, j) && TurnInv(s, j);
    assert Posts(s.pool, w, j);
    assert forall v :: WP.Runs(s.pool.workers, v, j) ==> v == w;
    assert forall v :: WP.Runs(t.pool.workers, v, j) <==> WP.Runs(s.pool.workers, v, j);
    PostedToken(s.posts, PQ.JobAwaiter(j));
    PosterHandsOver(f, s, t, w, j, |s.posts.issued|);
  }

  /** The worker's right to resume the coroutine becomes an undelivered operation. */
  lemma PosterHandsOver<T, E>(f: nat -> Outcome<T, E>, s: System<T, E>, t: System<T, E>, w: nat, j: nat, op: nat)
    requires j < |s.shared| && j < |s.awaiters| && t.shared == s.shared && t.awaiters == s.awaiters
    requires DoneInv(f, s, j) && TurnInv(s, j) && t.continued == s.continued && t.pool.finished == s.pool.finished
    requires Posts(s.pool, w, j) && Late(t.pool, w, j)
    requires forall v :: !Posts(t.pool, v, j)
    requires forall o :: Token(t.posts, o, j) <==> Token(s.posts, o, j) || o == op
    ensures DoneInv(f, t, j) && TurnInv(t, j)
  {
    assert s.awaiters[j] == Suspended;
    assert Late(s.pool, w, j);
    assert Token(t.posts, op, j);
    assert forall i :: ContinuedAt(s, i, j) <==> ContinuedAt(t, i, j);
  }

  /** Ring traffic that delivers nothing keeps every undelivered operation undelivered. */
  lemma RingStepKeeps<T, E>(f: nat -> Outcome<T, E>, s: System<T, E>, ps: PQ.Step)
    requires Inv(f, s) && Enabled(s, Ring(ps))
    ensures Inv(f, Apply(true, f, s, Ring(ps)))
  {
    PQ.StepKeepsInv(s.posts, ps);
    RingMoveKeepsTokens(s.posts, ps);
    SameTokensKeep(f, s, PQ.Apply(s.posts, ps));
  }

  lemma SameTokensKeep<T, E>(f: nat -> Outcome<T, E>, s: System<T, E>, posts: PQ.Posts)
    requires Inv(f, s) && PQ.Inv(posts)
    requires forall op, k: nat :: Token(s.posts, op, k) <==> Token(posts, op, k)
    ensures Inv(f, s.(posts := posts))
  {
    AllUntouchedKeeps(f, s, s.(posts := posts));
  }

  lemma RingMoveKeepsTokens(p: PQ.Posts, ps: PQ.Step)
    requires PQ.Inv(p) && RingMove(ps) && PQ.Enabled(p, ps)
    ensures forall op, k: nat :: Token(p, op, k) <==> Token(PQ.Apply(p, ps), op, k)
  {
    var q := PQ.Apply(p, ps);
    forall op, k: nat ensures Token(p, op, k) <==> Token(q, op, k) {
      if ps.DrainOne? { assert op in p.pending <==> op == p.pending[0] || op in q.pending; }
    }
  }

  lemma DeliverKeeps<T, E>(f: nat -> Outcome<T, E>, s: System<T, E>, op: nat)
    requires Inv(f, s) && Enabled(s, Deliver(op))
    ensures Inv(f, Apply(true, f, s, Deliver(op)))
  {
    var posts := PQ.Apply(s.posts, PQ.Deliver(op));
    PQ.StepKeepsInv(s.posts, PQ.Deliver(op));
    DeliveredToken(s.posts, op);
    match s.posts.issued[op].coroutine
    case JobAwaiter(j) => ResumeKeeps(f, s, posts, op, j);
    case Other(_) => SameTokensKeep(f, s, posts);
  }

  lemma ResumeKeeps<T, E>(f: nat -> Outcome<T, E>, s: System<T, E>, posts: PQ.Posts, op: nat, j: nat)
    requires Inv(f, s) && PQ.Inv(posts) && Token(s.posts, op, j)
    requires forall o, k: nat :: Token(posts, o, k) <==> Token(s.posts, o, k) && o != op
    ensures j < |s.shared| && j < |s.awaiters| && Inv(f, Continue(s.(posts := posts), j, LoopThread))
  {
    assert DoneInv(f, s, j) && TurnInv(s, j);
    var t := Continue(s.(posts := posts), j, LoopThread);
    AwaiterContinues(f, s, t, j, LoopThread);
    ContinueKeepsRest(f, s, t, j);
  }

  lemma DeliveredToken(p: PQ.Posts, op: nat)
    requires PQ.Inv(p) && PQ.Enabled(p, PQ.Deliver(op))
    ensures forall o, k: nat :: Token(PQ.Apply(p, PQ.Deliver(op)), o, k) <==> Token(p, o, k) && o != op
  {
  }

  lemma StepKeepsInv<T, E>(f: nat -> Outcome<T, E>, s: System<T, E>, step: Step)
    requires Inv(f, s) && Enabled(s, step)
    ensures Inv(f, Apply(true, f, s, step))
  {
    match step
    case Enqueue => EnqueueKeeps(f, s);
    case Notify(j, target) => NotifyKeeps(f, s, j, target);
    case AwaitReady(j) => AwaitReadyKeeps(f, s, j);
    case AwaitSuspend(j) => AwaitSuspendKeeps(f, s, j);
    case Complete(w) => CompleteKeeps(f, s, w);
    case PostWaiter(w) => PostWaiterKeeps(f, s, w);
    case LeaveClosure(w) => LeaveClosureKeeps(f, s, w);
    case Ring(ps) => RingStepKeeps(f, s, ps);
    case Deliver(op) => DeliverKeeps(f, s, op);
    case WorkerCheck(w) => PoolStepKeeps(f, s, Apply(true, f, s, step), WP.Check(w));
    case SpuriousWake(w) => PoolStepKeeps(f, s, Apply(true, f, s, step), WP.SpuriousWake(w));
    case CallF(w) => PoolStepKeeps(f, s, Apply(true, f, s, step), WP.Move(w, WP.Called));
    case StopPool => PoolStepKeeps(f, s, Apply(true, f, s, step), WP.Stop);
    case NotifyAll => PoolStepKeeps(f, s, Apply(true, f, s, step), WP.NotifyAll);
  }

  lemma {:induction false} EveryScheduleKeepsInv<T, E>(f: nat -> Outcome<T, E>, threads: nat, capacity: nat, steps: seq<Step>)
    requires Legal(true, f, threads, capacity, steps)
    ensures Inv(f, After(true, f, threads, capacity, steps))
    ensures |After(true, f, threads, capacity, steps).pool.workers| == threads
    ensures After(true, f, threads, capacity, steps).posts.capacity == capacity
    decreases |steps|
  {
    if steps == [] {
      WP.InitInv(threads);
    } else {
      var s := After(true, f, threads, capacity, steps[..|steps| - 1]);
      EveryScheduleKeepsInv(f, threads, capacity, steps[..|steps| - 1]);
      StepKeepsInv(f, s, steps[|steps| - 1]);
      StepKeepsSizes(f, s, steps[|steps| - 1]);
    }
  }

  lemma StepKeepsSizes<T, E>(f: nat -> Outcome<T, E>, s: System<T, E>, step: Step)
    requires Enabled(s, step)
    ensures |Apply(true, f, s, step).pool.workers| == |s.pool.workers|
    ensures Apply(true, f, s, step).posts.capacity == s.posts.capacity
  {
  }

  // ---------------------------------------------------------------- safety

  /** Over every interleaving of awaiters, workers and event loop, with the post callback installed: a
      coroutine awaiting `enqueue(f)` continues at most once, on the loop thread, with the value or the
      exception of its own callable. */
  lemma ContinuesAtMostOnceOnLoopThread<T, E>(f: nat -> Outcome<T, E>, threads: nat, capacity: nat, steps: seq<Step>)
    requires Legal(true, f, threads, capacity, steps)
    ensures var s := After(true, f, threads, capacity, steps);
            && (forall i :: 0 <= i < |s.continued| ==>
                  && s.continued[i].job < |s.awaiters|
                  && s.continued[i].thread == LoopThread
                  && s.continued[i].what == Some(f(s.continued[i].job)))
            && (forall i, k :: 0 <= i < k < |s.continued| ==> s.continued[i].job != s.continued[k].job)
  {
    EveryScheduleKeepsInv(f, threads, capacity, steps);
    var s := After(true, f, threads, capacity, steps);
    forall i | 0 <= i < |s.continued|
      ensures GoodContinuation(f, |s.awaiters|, s.continued[i])
    {
    }
    forall i, k | 0 <= i < k < |s.continued| ensures s.continued[i].job != s.continued[k].job {
      var j := s.continued[i].job;
      assert GoodContinuation(f, |s.awaiters|, s.continued[i]);
      assert TurnInv(s, j);
      assert ContinuedAt(s, i, j);
      assert s.continued[k].job == j ==> ContinuedAt(s, k, j);
    }
  }

  /** A coroutine suspends only if it must: whenever `await_ready` or `await_suspend` runs and the job is done,
      the coroutine goes on at once, with the job's outcome; otherwise it does not. */
  lemma DoneMeansNoSuspension<T, E>(f: nat -> Outcome<T, E>, threads: nat, capacity: nat, steps: seq<Step>, j: nat, step: Step)
    requires Legal(true, f, threads, capacity, steps) && (step == AwaitReady(j) || step == AwaitSuspend(j))
    requires Enabled(After(true, f, threads, capacity, steps), step)
    ensures var s := After(true, f, threads, capacity, steps);
            var t := Apply(true, f, s, step);
            if j in s.pool.finished || s.shared[j].done then
              t.awaiters[j] == Continued && t.continued == s.continued + [Continuation(j, Some(f(j)), LoopThread)]
            else
              t.continued == s.continued && t.awaiters[j] == if step == AwaitReady(j) then Suspending else Suspended
  {
    EveryScheduleKeepsInv(f, threads, capacity, steps);
    assert DoneInv(f, After(true, f, threads, capacity, steps), j);
  }

  /** Nothing is left to do for any call: no queued job, no busy worker, no post under way, no
      undelivered operation, and no awaiter between its push and its suspension. */
  ghost predicate Drained<T, E>(s: System<T, E>) {
    && s.pool.queue == []
    && (forall w :: 0 <= w < |s.pool.workers| ==> !s.pool.workers[w].Busy?)
    && s.posts.pending == [] && s.posts.ring == {}
    && (forall j :: 0 <= j < |s.awaiters| ==> s.awaiters[j] == Suspended || s.awaiters[j] == Continued)
  }

  /** Once queue and ring are drained, every coroutine that ever awaited a call has continued exactly
      once, with its own outcome. */
  lemma DrainedMeansAllContinued<T, E>(f: nat -> Outcome<T, E>, threads: nat, capacity: nat, steps: seq<Step>, j: nat)
    requires Legal(true, f, threads, capacity, steps) && Drained(After(true, f, threads, capacity, steps))
    requires j < |After(true, f, threads, capacity, steps).awaiters|
    ensures var s := After(true, f, threads, capacity, steps);
            && s.awaiters[j] == Continued
            && (exists i :: 0 <= i < |s.continued| && s.continued[i] == Continuation(j, Some(f(j)), LoopThread))
            && (forall i, k :: ContinuedAt(s, i, j) && ContinuedAt(s, k, j) ==> i == k)
  {
    EveryScheduleKeepsInv(f, threads, capacity, steps);
    DrainedJobIsDone(f, After(true, f, threads, capacity, steps), j);
    ContinuedExactlyOnce(f, After(true, f, threads, capacity, steps), j);
  }

  lemma ContinuedExactlyOnce<T, E>(f: nat -> Outcome<T, E>, s: System<T, E>, j: nat)
    requires Inv(f, s) && j < |s.awaiters| && s.awaiters[j] == Continued
    ensures exists i :: 0 <= i < |s.continued| && s.continued[i] == Continuation(j, Some(f(j)), LoopThread)
    ensures forall i, k :: ContinuedAt(s, i, j) && ContinuedAt(s, k, j) ==> i == k
  {
    assert TurnInv(s, j);
    var i: nat :| ContinuedAt(s, i, j);
    assert GoodContinuation(f, |s.awaiters|, s.continued[i]);
    assert s.continued[i] == Continuation(j, Some(f(j)), LoopThread);
  }

  lemma DrainedJobIsDone<T, E>(f: nat -> Outcome<T, E>, s: System<T, E>, j: nat)
    requires Inv(f, s) && Drained(s) && j < |s.awaiters|
    ensures s.shared[j].done && s.awaiters[j] == Continued
  {
    assert DoneInv(f, s, j) && TurnInv(s, j);
    assert j in s.pool.pushed && s.pool.taken + [] == s.pool.pushed;
    assert forall w :: !WP.Runs(s.pool.workers, w, j);
    assert j in s.pool.taken;
    assert j in s.pool.finished;
  }

  // ---------------------------------------------------------------- one call

  /** The callback is what keeps coroutines on the loop thread: without it a worker resumes the waiter
      itself, here after suspending first and letting worker 0 run the job. */
  lemma WithoutCallbackAWorkerResumes<T, E>(f: nat -> Outcome<T, E>, threads: nat, capacity: nat)
    returns (steps: seq<Step>)
    requires threads > 0
    ensures Legal(false, f, threads, capacity, steps)
    ensures After(false, f, threads, capacity, steps).continued == [Continuation(0, Some(f(0)), WorkerThread(0))]
  {
    steps := OneJobSuspended(false, f, threads, capacity);
    steps := JobRecorded(false, f, threads, capacity, steps);
    WorkerResumesWaiter(f, After(false, f, threads, capacity, steps));
    LegalSnoc(false, f, threads, capacity, steps, PostWaiter(0));
    steps := steps + [PostWaiter(0)];
  }

  lemma WorkerResumesWaiter<T, E>(f: nat -> Outcome<T, E>, s: System<T, E>)
    requires |s.pool.workers| > 0 && s.pool.workers[0] == WP.Busy(0, WP.Posting)
    requires s.awaiters == [Suspended] && s.continued == []
    requires s.shared == [Record(Shared(None, None, true, false), f(0))]
    ensures Enabled(s, PostWaiter(0))
    ensures Apply(false, f, s, PostWaiter(0)).continued == [Continuation(0, Some(f(0)), WorkerThread(0))]
  {
    assert AwaitResume(s.shared[0]) == Some(f(0));
  }

  /** One call whose coroutine suspended before any worker looked at the queue. */
  ghost function SuspendedCall<T, E>(threads: nat, posts: PQ.Posts): System<T, E> {
    System(WP.Pool([0], seq(threads, _ => WP.Checking), false, {}, false, [0], [], []), posts,
           [Shared(None, None, true, false)], [Suspended], [])
  }

  /** The same call when worker 0 has taken it. */
  ghost function TakenCall<T, E>(threads: nat, posts: PQ.Posts, at: WP.Closure, sh: Shared<T, E>): System<T, E>
    requires threads > 0
  {
    System(WP.Pool([], seq(threads, _ => WP.Checking)[0 := WP.Busy(0, at)], false, {}, false, [0], [0], []), posts,
           [sh], [Suspended], [])
  }

  lemma JobTaken<T, E>(posting: bool, f: nat -> Outcome<T, E>, threads: nat, capacity: nat, before: seq<Step>)
    returns (steps: seq<Step>)
    requires threads > 0 && Legal(posting, f, threads, capacity, before)
    requires var s := After(posting, f, threads, capacity, before); s == SuspendedCall(threads, s.posts)
    ensures Legal(posting, f, threads, capacity, steps)
    ensures After(posting, f, threads, capacity, steps) ==
            TakenCall(threads, After(posting, f, threads, capacity, before).posts, WP.Called, Shared(None, None, true, false))
  {
    LegalSnoc(posting, f, threads, capacity, before, WorkerCheck(0));
    steps := before + [WorkerCheck(0)];
    LegalSnoc(posting, f, threads, capacity, steps, CallF(0));
    steps := steps + [CallF(0)];
  }

  lemma JobRecorded<T, E>(posting: bool, f: nat -> Outcome<T, E>, threads: nat, capacity: nat, before: seq<Step>)
    returns (steps: seq<Step>)
    requires threads > 0 && Legal(posting, f, threads, capacity, before)
    requires var s := After(posting, f, threads, capacity, before); s == SuspendedCall(threads, s.posts)
    ensures Legal(posting, f, threads, capacity, steps)
    ensures After(posting, f, threads, capacity, steps) ==
            TakenCall(threads, After(posting, f, threads, capacity, before).posts, WP.Posting,
                      Record(Shared(None, None, true, false), f(0)))
  {
    steps := JobTaken(posting, f, threads, capacity, before);
    LegalSnoc(posting, f, threads, capacity, steps, Complete(0));
    steps := steps + [Complete(0)];
  }

  lemma OneJobSuspended<T, E>(posting: bool, f: nat -> Outcome<T, E>, threads: nat, capacity: nat)
    returns (steps: seq<Step>)
    ensures Legal(posting, f, threads, capacity, steps)
    ensures After(posting, f, threads, capacity, steps) == SuspendedCall(threads, PQ.Init(capacity))
  {
    steps := OneJobNotified(posting, f, threads, capacity);
    LegalSnoc(posting, f, threads, capacity, steps, AwaitReady(0));
    steps := steps + [AwaitReady(0)];
    LegalSnoc(posting, f, threads, capacity, steps, AwaitSuspend(0));
    steps := steps + [AwaitSuspend(0)];
  }

  lemma OneJobNotified<T, E>(posting: bool, f: nat -> Outcome<T, E>, threads: nat, capacity: nat)
    returns (steps: seq<Step>)
    ensures Legal(posting, f, threads, capacity, steps)
    ensures After(posting, f, threads, capacity, steps) ==
            System(WP.Pool([0], seq(threads, _ => WP.Checking), false, {}, false, [0], [], []), PQ.Init(capacity),
                   [Shared(None, None, false, false)], [CheckingReady], [])
  {
    steps := OneJobPushed(posting, f, threads, capacity);
    LegalSnoc(posting, f, threads, capacity, steps, Notify(0, None));
    steps := steps + [Notify(0, None)];
  }

  lemma OneJobPushed<T, E>(posting: bool, f: nat -> Outcome<T, E>, threads: nat, capacity: nat)
    returns (steps: seq<Step>)
    ensures Legal(posting, f, threads, capacity, steps)
    ensures After(posting, f, threads, capacity, steps) ==
            System(WP.Pool([0], seq(threads, _ => WP.Checking), false, {0}, false, [0], [], []), PQ.Init(capacity),
                   [Shared(None, None, false, false)], [Notifying], [])
  {
    LegalSnoc(posting, f, threads, capacity, [], Enqueue);
    steps := [] + [Enqueue];
  }

  lemma LegalSnoc<T, E>(posting: bool, f: nat -> Outcome<T, E>, threads: nat, capacity: nat, steps: seq<Step>, step: Step)
    requires Legal(posting, f, threads, capacity, steps) && Enabled(After(posting, f, threads, capacity, steps), step)
    ensures Legal(posting, f, threads, capacity, steps + [step])
    ensures After(posting, f, threads, capacity, steps + [step]) ==
            Apply(posting, f, After(posting, f, threads, capacity, steps), step)
  {
    var all := steps + [step];
    var n := |steps|;
    assert |all| == n + 1 && all != [];
    assert all[n] == step;
    assert all[..n] == steps;
  }

  // ---------------------------------------------------------------- the code itself

  /** The `Shared` block of one call; each method is one critical section of its mutex, except
      `Resume`, which the source runs without the lock. */
  class Rendezvous<T, E> {
    var result: Option<T>
    var error: Option<E>
    var waiter: bool
    var done: bool

    ghost function Abs(): Shared<T, E>
      reads this
    {
      Shared(result, error, waiter, done)
    }

    constructor ()
      ensures Abs() == Shared(None, None, false, false)
    {
      result, error, waiter, done := None, None, false, false;
    }

    /** The worker's critical section: record how `f` ended and look for a waiter to post. */
    method CompleteCall(outcome: Outcome<T, E>) returns (post: bool)
      modifies this
      ensures Abs() == Record(old(Abs()), outcome)
      ensures post == old(waiter)
    {
      match outcome {
        case Returned(v) => result := Some(v);
        case Threw(e) => error := Some(e);
      }
      done := true;
      post := waiter;
    }

    /** `await_suspend`: leave the handle, then say whether to stay suspended. */
    method Suspend() returns (suspend: bool)
      modifies this`waiter
      ensures Abs() == old(Abs()).(waiter := true)
      ensures suspend <==> !done
    {
      waiter := true;
      suspend := !done;
    }

    /** `await_resume`. */
    method Resume() returns (what: Option<Outcome<T, E>>)
      ensures what == AwaitResume(Abs())
    {
      if error.Some? { return Some(Threw(error.value)); }
      if result.Some? { return Some(Returned(result.value)); }
      return None;
    }
  }
}
