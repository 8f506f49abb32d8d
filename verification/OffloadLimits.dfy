/** Exactly when offloaded calls are answered at rest.

    The post queue is drained only at the top of a loop turn, so an overflowed post depends on a later
    completion. If all I/O completes, every call is answered exactly if there is a worker and a ring entry.
    If I/O may stay outstanding for ever, as an idle client's receive does, every call is answered exactly
    if no post is left in the queue, and a schedule that leaves one exists for every pool and ring. */
module OffloadLimits {

  import opened Options
  import WP = WorkerPool
  import PQ = PostQueue
  import opened Offload
  import opened OffloadProgress

  ghost predicate AllAnswered<T, E>(s: System<T, E>) {
    forall j :: 0 <= j < |s.awaiters| ==> s.awaiters[j] == Continued
  }

  /** Posts carry awaiters of jobs, everything else in the ring is I/O. */
  ghost predicate OwnedAreJobs(p: PQ.Posts) {
    forall op :: 0 <= op < |p.issued| ==> (p.issued[op].owned <==> p.issued[op].coroutine.JobAwaiter?)
  }

  lemma StepKeepsOwned<T, E>(f: nat -> Outcome<T, E>, s: System<T, E>, step: Step)
    requires OwnedAreJobs(s.posts) && Enabled(s, step)
    ensures OwnedAreJobs(Apply(true, f, s, step).posts)
  {
    match step
    case PostWaiter(w) => RingStepKeepsOwned(s.posts, PQ.Post(PQ.JobAwaiter(s.pool.workers[w].job)));
    case Deliver(op) => RingStepKeepsOwned(s.posts, PQ.Deliver(op));
    case Ring(ps) => RingStepKeepsOwned(s.posts, ps);
    case _ =>
  }

  lemma RingStepKeepsOwned(p: PQ.Posts, ps: PQ.Step)
    requires OwnedAreJobs(p) && PQ.Enabled(p, ps)
    requires (ps.Post? ==> ps.h.JobAwaiter?) && (ps.Submit? ==> ps.h.Other?)
    ensures OwnedAreJobs(PQ.Apply(p, ps))
  {
  }

  lemma {:induction false} EveryScheduleKeepsOwned<T, E>(f: nat -> Outcome<T, E>, threads: nat, capacity: nat, steps: seq<Step>)
    requires Legal(true, f, threads, capacity, steps)
    ensures OwnedAreJobs(After(true, f, threads, capacity, steps).posts)
    decreases |steps|
  {
    if steps != [] {
      EveryScheduleKeepsOwned(f, threads, capacity, steps[..|steps| - 1]);
      StepKeepsOwned(f, After(true, f, threads, capacity, steps[..|steps| - 1]), steps[|steps| - 1]);
    }
  }

  // ---------------------------------------------------------------- with I/O outstanding

  lemma SettledJobAnswered<T, E>(f: nat -> Outcome<T, E>, s: System<T, E>, j: nat)
    requires Inv(f, s) && OwnedAreJobs(s.posts) && Settled(s) && s.posts.pending == [] && j < |s.awaiters|
    ensures s.awaiters[j] == Continued
  {
    assert DoneInv(f, s, j) && TurnInv(s, j);
    assert j in s.pool.pushed && s.pool.taken + [] == s.pool.pushed;
    assert forall w :: !WP.Runs(s.pool.workers, w, j);
    assert forall op :: !Token(s.posts, op, j);
  }

  /** Whatever I/O is still outstanding: once the system is idle every call has been answered if and only if
      the overflow queue is empty. */
  lemma IdleAnsweredExactlyIfNonePending<T, E>(f: nat -> Outcome<T, E>, threads: nat, capacity: nat, steps: seq<Step>)
    requires Legal(true, f, threads, capacity, steps) && threads > 0 && Idle(After(true, f, threads, capacity, steps))
    ensures var s := After(true, f, threads, capacity, steps);
            AllAnswered(s) <==> s.posts.pending == []
  {
    var s := After(true, f, threads, capacity, steps);
    EveryScheduleKeepsInv(f, threads, capacity, steps);
    EveryScheduleKeepsOwned(f, threads, capacity, steps);
    IdleMeansSettled(f, s);
    if s.posts.pending == [] {
      forall j | 0 <= j < |s.awaiters| ensures s.awaiters[j] == Continued { SettledJobAnswered(f, s, j); }
    } else {
      var j := PendingMeansWaiting(f, s);
    }
  }

  lemma PendingMeansWaiting<T, E>(f: nat -> Outcome<T, E>, s: System<T, E>) returns (j: nat)
    requires Inv(f, s) && OwnedAreJobs(s.posts) && s.posts.pending != []
    ensures j < |s.awaiters| && s.awaiters[j] == Suspended && Token(s.posts, s.posts.pending[0], j)
  {
    var op := s.posts.pending[0];
    assert op in s.posts.pending;
    j := s.posts.issued[op].coroutine.job;
    assert Token(s.posts, op, j);
    assert TurnInv(s, j);
  }

  /** Blocked behind I/O: posts are queued and nothing in the ring is one. */
  ghost predicate Stranded<T, E>(s: System<T, E>) {
    && s.posts.loop == PQ.Blocked && s.posts.pending != [] && |s.awaiters| == 1
    && forall op :: op in s.posts.ring ==> op < |s.posts.issued| && !s.posts.issued[op].owned
  }

  lemma StrandedStays<T, E>(f: nat -> Outcome<T, E>, s: System<T, E>, step: Step)
    requires Inv(f, s) && OwnedAreJobs(s.posts) && Stranded(s) && Internal(s, step)
    ensures Stranded(Apply(true, f, s, step))
  {
    var j := PendingMeansWaiting(f, s);
    assert j == 0 && TurnInv(s, 0);
    assert forall w :: !Posts(s.pool, w, 0);
    if step.PostWaiter? { assert Posts(s.pool, step.w, 0); }
  }

  lemma {:induction false} StrandedComesToIdle<T, E>(f: nat -> Outcome<T, E>, threads: nat, capacity: nat, before: seq<Step>)
    returns (steps: seq<Step>)
    requires Legal(true, f, threads, capacity, before) && Stranded(After(true, f, threads, capacity, before))
    ensures Legal(true, f, threads, capacity, steps) && before <= steps
    ensures Idle(After(true, f, threads, capacity, steps)) && Stranded(After(true, f, threads, capacity, steps))
    decreases Work(After(true, f, threads, capacity, before))
  {
    var s := After(true, f, threads, capacity, before);
    if Idle(s) {
      steps := before;
    } else {
      var step :| Internal(s, step);
      EveryScheduleKeepsInv(f, threads, capacity, before);
      EveryScheduleKeepsOwned(f, threads, capacity, before);
      StrandedStays(f, s, step);
      SystemStepUsesWork(f, s, step);
      LegalSnoc(true, f, threads, capacity, before, step);
      steps := StrandedComesToIdle(f, threads, capacity, before + [step]);
    }
  }

  /** A ring full of I/O, none of it taken by the kernel yet. */
  lemma {:induction false} FillRing<T, E>(f: nat -> Outcome<T, E>, threads: nat, capacity: nat, n: nat)
    returns (steps: seq<Step>)
    requires n <= capacity
    ensures Legal(true, f, threads, capacity, steps)
    ensures var s := After(true, f, threads, capacity, steps);
            && s == SuspendedCall(threads, s.posts)
            && s.posts.capacity == capacity && s.posts.loop == PQ.Draining && s.posts.pending == []
            && s.posts.ring == s.posts.entries && |s.posts.entries| == n && |s.posts.issued| == n
            && forall op :: op in s.posts.ring ==> op < n && !s.posts.issued[op].owned
  {
    if n == 0 {
      steps := OneJobSuspended(true, f, threads, capacity);
    } else {
      steps := FillRing(f, threads, capacity, n - 1);
      LegalSnoc(true, f, threads, capacity, steps, Ring(PQ.Submit(PQ.Other(0))));
      steps := steps + [Ring(PQ.Submit(PQ.Other(0)))];
    }
  }

  /** With any number of workers and ring entries a call can stay unanswered as long as outstanding I/O
      does not complete: its post found every entry in use, after the loop had drained the queue. */
  lemma PostCanWaitForIo<T, E>(f: nat -> Outcome<T, E>, threads: nat, capacity: nat) returns (steps: seq<Step>)
    requires threads > 0
    ensures Legal(true, f, threads, capacity, steps)
    ensures Idle(After(true, f, threads, capacity, steps)) && !AllAnswered(After(true, f, threads, capacity, steps))
  {
    steps := FillRing(f, threads, capacity, capacity);
    LegalSnoc(true, f, threads, capacity, steps, Ring(PQ.Block));
    steps := JobRecorded(true, f, threads, capacity, steps + [Ring(PQ.Block)]);
    LegalSnoc(true, f, threads, capacity, steps, PostWaiter(0));
    steps := steps + [PostWaiter(0)];
    steps := StrandedComesToIdle(f, threads, capacity, steps);
    IdleAnsweredExactlyIfNonePending(f, threads, capacity, steps);
  }

  // ---------------------------------------------------------------- with all I/O completed

  lemma {:induction false} ComesToQuiet<T, E>(f: nat -> Outcome<T, E>, threads: nat, capacity: nat, before: seq<Step>)
    returns (steps: seq<Step>)
    requires Legal(true, f, threads, capacity, before)
    ensures Legal(true, f, threads, capacity, steps) && before <= steps && Quiet(After(true, f, threads, capacity, steps))
    decreases Work(After(true, f, threads, capacity, before))
  {
    var s := After(true, f, threads, capacity, before);
    if Quiet(s) {
      steps := before;
    } else {
      var step :| SystemStep(step) && Enabled(s, step);
      EveryScheduleKeepsInv(f, threads, capacity, before);
      SystemStepUsesWork(f, s, step);
      LegalSnoc(true, f, threads, capacity, before, step);
      steps := ComesToQuiet(f, threads, capacity, before + [step]);
    }
  }

  /** Without ring entries nothing is ever delivered, so a suspended coroutine stays suspended. */
  lemma {:induction false} NoEntriesNoDelivery<T, E>(f: nat -> Outcome<T, E>, threads: nat, steps: seq<Step>)
    requires Legal(true, f, threads, 0, steps)
    ensures After(true, f, threads, 0, steps).posts.ring == {} && After(true, f, threads, 0, steps).posts.capacity == 0
    decreases |steps|
  {
    if steps != [] {
      NoEntriesNoDelivery(f, threads, steps[..|steps| - 1]);
      NoEntriesStep(f, After(true, f, threads, 0, steps[..|steps| - 1]), steps[|steps| - 1]);
    }
  }

  lemma NoEntriesStep<T, E>(f: nat -> Outcome<T, E>, s: System<T, E>, step: Step)
    requires s.posts.ring == {} && s.posts.capacity == 0 && Enabled(s, step)
    ensures var t := Apply(true, f, s, step);
            && t.posts.ring == {} && t.posts.capacity == 0
            && forall j :: AwaiterAt(s, j, Suspended) ==> AwaiterAt(t, j, Suspended)
  {
    assert PQ.Full(s.posts);
  }

  lemma {:induction false} NoEntriesNoResumption<T, E>(f: nat -> Outcome<T, E>, threads: nat, steps: seq<Step>, more: seq<Step>, j: nat)
    requires Legal(true, f, threads, 0, steps) && Legal(true, f, threads, 0, steps + more)
    requires AwaiterAt(After(true, f, threads, 0, steps), j, Suspended)
    ensures AwaiterAt(After(true, f, threads, 0, steps + more), j, Suspended)
    decreases |more|
  {
    if more == [] {
      assert steps + more == steps;
    } else {
      var last := |more| - 1;
      var before := steps + more[..last];
      assert (steps + more)[..|steps + more| - 1] == before;
      NoEntriesNoResumption(f, threads, steps, more[..last], j);
      NoEntriesNoDelivery(f, threads, before);
      NoEntriesStep(f, After(true, f, threads, 0, before), more[last]);
    }
  }

  /** If all I/O completes, every call is answered at rest on every schedule if and only if the pool has a
      worker and the ring an entry. The server's ring has 256. */
  lemma AnsweredExactlyWithWorkersAndEntries<T, E>(f: nat -> Outcome<T, E>, threads: nat, capacity: nat)
    ensures (forall steps :: Legal(true, f, threads, capacity, steps) && Quiet(After(true, f, threads, capacity, steps))
               ==> AllAnswered(After(true, f, threads, capacity, steps)))
            <==> threads > 0 && capacity > 0
  {
    if threads > 0 && capacity > 0 {
      forall steps | Legal(true, f, threads, capacity, steps) && Quiet(After(true, f, threads, capacity, steps))
        ensures AllAnswered(After(true, f, threads, capacity, steps))
      {
        QuietMeansDrained(f, threads, capacity, steps);
        forall j | 0 <= j < |After(true, f, threads, capacity, steps).awaiters|
          ensures After(true, f, threads, capacity, steps).awaiters[j] == Continued
        {
          DrainedMeansAllContinued(f, threads, capacity, steps, j);
        }
      }
    } else {
      var steps := UnansweredAtRest(f, threads, capacity);
      assert exists run :: Legal(true, f, threads, capacity, run) && Quiet(After(true, f, threads, capacity, run))
                        && !AllAnswered(After(true, f, threads, capacity, run));
    }
  }

  lemma UnansweredAtRest<T, E>(f: nat -> Outcome<T, E>, threads: nat, capacity: nat) returns (steps: seq<Step>)
    requires threads == 0 || capacity == 0
    ensures Legal(true, f, threads, capacity, steps) && Quiet(After(true, f, threads, capacity, steps))
    ensures !AllAnswered(After(true, f, threads, capacity, steps))
  {
    var call := OneJobSuspended(true, f, threads, capacity);
    steps := ComesToQuiet(f, threads, capacity, call);
    var more := steps[|call|..];
    assert call + more == steps;
    EveryScheduleKeepsInv(f, threads, capacity, steps);
    if capacity == 0 {
      NoEntriesNoResumption(f, threads, call, more, 0);
    } else {
      NoWorkersNoAnswers(f, capacity, steps);
      SystemOnlyGrows(f, threads, capacity, call, more);
      assert TurnInv(After(true, f, threads, capacity, steps), 0);
    }
  }

  lemma {:induction false} SystemOnlyGrows<T, E>(f: nat -> Outcome<T, E>, threads: nat, capacity: nat, steps: seq<Step>, more: seq<Step>)
    requires Legal(true, f, threads, capacity, steps) && Legal(true, f, threads, capacity, steps + more)
    ensures |After(true, f, threads, capacity, steps).awaiters| <= |After(true, f, threads, capacity, steps + more).awaiters|
    decreases |more|
  {
    if more == [] {
      assert steps + more == steps;
    } else {
      var last := |more| - 1;
      assert (steps + more)[..|steps + more| - 1] == steps + more[..last];
      SystemOnlyGrows(f, threads, capacity, steps, more[..last]);
    }
  }
}
