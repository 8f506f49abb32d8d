/** Posting coroutines to the event loop (src/UringEngine/EngineCore.cpp).

    Worker threads hand a coroutine to the loop by submitting a heap-allocated no-op to the ring, or by
    queueing it when the ring has no free submission entry. A turn of the loop drains that queue once, then
    blocks until a completion arrives and resumes the coroutine it names: a post queued while the loop is
    blocked waits for the next completion. Operations that coroutines submit for their own I/O live in the
    coroutine frame instead, and may die the moment the coroutine is resumed.

    The ring has `capacity` submission entries. An entry is in use until the kernel takes the operation over,
    which it may do at any time, or at the latest when the operation completes; the number of operations the
    kernel holds is not limited, and they complete in any order. Access to the ring is atomic. Operations
    are numbered in the order they are created. */
module PostQueue {

  import opened Options

  /** A coroutine handle: one awaiting an offloaded job, or any other. */
  datatype Handle = JobAwaiter(job: nat) | Other(id: nat)

  /** A `UringOperation`; `owned` says it was allocated by `post_coroutine`. */
  datatype Op = Op(coroutine: Handle, owned: bool)

  /** The loop thread is draining the queue at the top of a turn, or blocked in `io_uring_wait_cqe`, or
      inside `coro.resume()` for operation `op`, having copied the operation's `owned` flag before. */
  datatype Loop = Draining | Blocked | Resuming(op: nat, owned: bool)

  /** `issued[i]` is operation `i`; `live` the operations whose memory may be touched; `ring` those submitted
      and not completed, of which `entries` still use a submission entry. `delivered` and `freed` record
      completions handed to the loop and deletes, in order, `drained` the operations that went from the queue
      to the ring; `fault` records an access to, or delete of, a
      dead operation. */
  datatype Posts = Posts(
    capacity: nat,
    issued: seq<Op>,
    live: set<nat>,
    pending: seq<nat>,
    drained: seq<nat>,
    entries: set<nat>,
    ring: set<nat>,
    loop: Loop,
    delivered: seq<nat>,
    freed: seq<nat>,
    fault: bool)

  function Init(capacity: nat): Posts {
    Posts(capacity, [], {}, [], [], {}, {}, Draining, [], [], false)
  }

  datatype Step =
    | Post(h: Handle)                 // post_coroutine, from any thread
    | Submit(h: Handle)               // an I/O operation in a coroutine frame
    | Take(ops: set<nat>)             // the kernel takes submitted operations over
    | DrainOne                        // one turn of drain_pending_posts
    | Block                           // drain_pending_posts returns, the loop waits
    | WaitFails                       // io_uring_wait_cqe is interrupted
    | Deliver(op: nat)                // io_uring_wait_cqe returns, the coroutine is resumed
    | Retire                          // the resumed coroutine is back, delete if owned

  /** `io_uring_get_sqe` returns null. */
  predicate Full(p: Posts) { |p.entries| >= p.capacity }

  predicate Enabled(p: Posts, step: Step) {
    match step
    case Post(_) => true
    case Submit(_) => !Full(p)
    case Take(ops) => ops != {} && ops <= p.entries
    case DrainOne => p.loop == Draining && p.pending != [] && !Full(p)
    case Block => p.loop == Draining && (p.pending == [] || Full(p))
    case WaitFails => p.loop == Blocked
    case Deliver(op) => p.loop == Blocked && op in p.ring && op < |p.issued|
    case Retire => p.loop.Resuming?
  }

  function Issue(p: Posts, op: Op): Posts {
    p.(issued := p.issued + [op], live := p.live + {|p.issued|})
  }

  function SubmitOp(p: Posts, op: nat): Posts {
    p.(ring := p.ring + {op}, entries := p.entries + {op})
  }

  function DeliverOp(p: Posts, op: nat): Posts
    requires op < |p.issued|
  {
    var owned := p.issued[op].owned;
    p.(ring := p.ring - {op},
       entries := p.entries - {op},
       loop := Resuming(op, owned),
       delivered := p.delivered + [op],
       live := if owned then p.live else p.live - {op},
       fault := p.fault || op !in p.live)
  }

  function RetireOp(p: Posts): Posts
    requires p.loop.Resuming?
  {
    var op := p.loop.op;
    if p.loop.owned then
      p.(loop := Draining, live := p.live - {op}, freed := p.freed + [op], fault := p.fault || op !in p.live)
    else
      p.(loop := Draining)
  }

  function Apply(p: Posts, step: Step): Posts
    requires Enabled(p, step)
  {
    match step
    case Post(h) =>
      var q := Issue(p, Op(h, true));
      if Full(p) then q.(pending := p.pending + [|p.issued|]) else SubmitOp(q, |p.issued|)
    case Submit(h) => SubmitOp(Issue(p, Op(h, false)), |p.issued|)
    case Take(ops) => p.(entries := p.entries - ops)
    case DrainOne => SubmitOp(p.(pending := p.pending[1..], drained := p.drained + [p.pending[0]]), p.pending[0])
    case Block => p.(loop := Blocked)
    case WaitFails => p.(loop := Draining)
    case Deliver(op) => DeliverOp(p, op)
    case Retire => RetireOp(p)
  }

  // ---------------------------------------------------------------- schedules

  ghost predicate Legal(capacity: nat, steps: seq<Step>)
    decreases |steps|, 0
  {
    steps == [] ||
    (Legal(capacity, steps[..|steps| - 1]) && Enabled(After(capacity, steps[..|steps| - 1]), steps[|steps| - 1]))
  }

  ghost function After(capacity: nat, steps: seq<Step>): Posts
    requires Legal(capacity, steps)
    decreases |steps|, 1
  {
    if steps == [] then Init(capacity) else Apply(After(capacity, steps[..|steps| - 1]), steps[|steps| - 1])
  }

  lemma LegalSnoc(capacity: nat, steps: seq<Step>, step: Step)
    requires Legal(capacity, steps) && Enabled(After(capacity, steps), step)
    ensures Legal(capacity, steps + [step])
    ensures After(capacity, steps + [step]) == Apply(After(capacity, steps), step)
  {
    var all := steps + [step];
    var n := |steps|;
    assert |all| == n + 1 && all != [];
    assert all[n] == step;
    assert all[..n] == steps;
  }

  // ---------------------------------------------------------------- invariant

  /** Each operation ever created is in exactly one place: pending, ring or delivered. */
  ghost predicate Placed(p: Posts) {
    && Distinct(p.pending) && Distinct(p.delivered)
    && (forall op: nat :: op < |p.issued| <==> op in p.pending || op in p.ring || op in p.delivered)
    && (forall op :: op in p.pending ==> op !in p.ring && op !in p.delivered && op < |p.issued| && p.issued[op].owned)
    && (forall op :: op in p.ring ==> op !in p.delivered)
  }

  ghost predicate IsResuming(p: Posts, op: nat) { p.loop.Resuming? && p.loop.op == op }

  /** Memory: what is pending or in the ring is alive, and so is the owned operation being resumed. */
  ghost predicate MemoryInv(p: Posts) {
    && !p.fault
    && Distinct(p.freed)
    && (p.loop.Resuming? ==> p.loop.op in p.delivered && p.loop.op < |p.issued| && p.loop.owned == p.issued[p.loop.op].owned)
    && (forall op :: op in p.live <==>
          op in p.pending || op in p.ring || (IsResuming(p, op) && p.loop.owned))
    && (forall op :: op in p.freed <==>
          op in p.delivered && op < |p.issued| && p.issued[op].owned && !IsResuming(p, op))
  }

  /** The loop is blocked, no completion will come, and posts are waiting for it. */
  ghost predicate Lost(p: Posts) { p.loop == Blocked && p.ring == {} && p.pending != [] }

  /** Entries are bounded, and posts are never lost: whoever finds the ring full leaves an operation in it. */
  ghost predicate RingInv(p: Posts) {
    && p.entries <= p.ring && |p.entries| <= p.capacity
    && (p.capacity > 0 ==> !Lost(p))
  }

  ghost predicate Inv(p: Posts) { Placed(p) && MemoryInv(p) && RingInv(p) }

  lemma DrainKeepsInv(p: Posts)
    requires Placed(p) && MemoryInv(p) && Enabled(p, DrainOne)
    ensures Placed(Apply(p, DrainOne)) && MemoryInv(Apply(p, DrainOne))
  {
    var q := Apply(p, DrainOne);
    var op := p.pending[0];
    assert forall k :: k in p.pending <==> k == op || k in q.pending;
    assert op !in q.pending;
  }

  lemma DeliverKeepsInv(p: Posts, op: nat)
    requires Placed(p) && MemoryInv(p) && Enabled(p, Deliver(op))
    ensures Placed(DeliverOp(p, op)) && MemoryInv(DeliverOp(p, op))
  {
    var q := DeliverOp(p, op);
    assert forall k :: k in q.delivered <==> k in p.delivered || k == op;
    assert op !in p.delivered && op !in p.freed;
  }

  lemma RetireKeepsInv(p: Posts)
    requires Placed(p) && MemoryInv(p) && p.loop.Resuming?
    ensures Placed(RetireOp(p)) && MemoryInv(RetireOp(p))
  {
    var q := RetireOp(p);
    assert p.loop.op !in p.freed;
    assert p.loop.owned ==> forall k :: k in q.freed <==> k in p.freed || k == p.loop.op;
    assert p.loop.op !in p.pending && p.loop.op !in p.ring;
  }

  /** A new operation in the queue. */
  lemma QueuedKeeps(p: Posts, h: Handle)
    requires Placed(p) && MemoryInv(p)
    ensures var q := Issue(p, Op(h, true)).(pending := p.pending + [|p.issued|]);
            Placed(q) && MemoryInv(q)
  {
    var op := |p.issued|;
    var q := Issue(p, Op(h, true)).(pending := p.pending + [op]);
    assert op !in p.pending && op !in p.ring && op !in p.delivered;
    assert forall k :: k in q.pending <==> k in p.pending || k == op;
  }

  /** A new operation in the ring. */
  lemma SubmittedKeeps(p: Posts, o: Op)
    requires Placed(p) && MemoryInv(p)
    ensures var q := SubmitOp(Issue(p, o), |p.issued|);
            Placed(q) && MemoryInv(q)
  {
    var op := |p.issued|;
    assert op !in p.pending && op !in p.ring && op !in p.delivered;
  }

  lemma SubmitKeepsRing(p: Posts, q: Posts, op: nat)
    requires RingInv(p) && !Full(p) && q.entries == p.entries + {op} && q.ring == p.ring + {op}
    requires q.capacity == p.capacity
    ensures RingInv(q)
  {
    assert op in q.ring;
    assert |p.entries + {op}| <= |p.entries| + 1;
  }

  lemma FewerEntries(p: Posts, ops: set<nat>)
    ensures |p.entries - ops| <= |p.entries|
  {
    assert p.entries == (p.entries - ops) + (p.entries * ops);
    assert |(p.entries - ops) + (p.entries * ops)| == |p.entries - ops| + |p.entries * ops|;
  }

  lemma StepKeepsRing(p: Posts, step: Step)
    requires RingInv(p) && Enabled(p, step)
    ensures RingInv(Apply(p, step))
  {
    match step
    case Post(_) => if !Full(p) { SubmitKeepsRing(p, Apply(p, step), |p.issued|); } else { FullKeepsRing(p, Apply(p, step)); }
    case Submit(_) => SubmitKeepsRing(p, Apply(p, step), |p.issued|);
    case DrainOne => SubmitKeepsRing(p, Apply(p, step), p.pending[0]);
    case Take(ops) => FewerEntries(p, ops);
    case Deliver(op) => FewerEntries(p, {op});
    case Block => if Full(p) { FullKeepsRing(p, Apply(p, step)); }
    case _ =>
  }

  /** A full ring holds something, so nothing is lost behind it. */
  lemma FullKeepsRing(p: Posts, q: Posts)
    requires RingInv(p) && Full(p) && q.entries == p.entries && q.ring == p.ring && q.capacity == p.capacity
    ensures RingInv(q)
  {
    assert p.capacity > 0 ==> p.entries != {};
  }

  lemma StepKeepsInv(p: Posts, step: Step)
    requires Inv(p) && Enabled(p, step)
    ensures Inv(Apply(p, step))
  {
    StepKeepsRing(p, step);
    match step
    case Post(h) => if Full(p) { QueuedKeeps(p, h); } else { SubmittedKeeps(p, Op(h, true)); }
    case Submit(h) => SubmittedKeeps(p, Op(h, false));
    case DrainOne => DrainKeepsInv(p);
    case Deliver(op) => DeliverKeepsInv(p, op);
    case Retire => RetireKeepsInv(p);
    case _ =>
  }

  lemma {:induction false} EveryScheduleKeepsInv(capacity: nat, steps: seq<Step>)
    requires Legal(capacity, steps)
    ensures Inv(After(capacity, steps)) && After(capacity, steps).capacity == capacity
    decreases |steps|
  {
    if steps != [] {
      EveryScheduleKeepsInv(capacity, steps[..|steps| - 1]);
      StepKeepsInv(After(capacity, steps[..|steps| - 1]), steps[|steps| - 1]);
    }
  }

  // ---------------------------------------------------------------- main results

  /** Conservation: on every schedule each operation is pending, in the ring or delivered, never in two
      of these and never twice in one; once both queues are empty every one was delivered exactly once. */
  lemma OperationsConserved(capacity: nat, steps: seq<Step>, op: nat)
    requires Legal(capacity, steps) && op < |After(capacity, steps).issued|
    ensures var p := After(capacity, steps);
            && (op in p.pending || op in p.ring || op in p.delivered)
            && !(op in p.pending && op in p.ring) && !(op in p.pending && op in p.delivered)
            && !(op in p.ring && op in p.delivered)
            && Distinct(p.pending) && Distinct(p.delivered)
            && (p.pending == [] && p.ring == {} ==> op in p.delivered)
  {
    EveryScheduleKeepsInv(capacity, steps);
  }

  /** Memory safety of `run`: it reads and deletes only live operations, deletes each delivered owned one
      exactly once, and never deletes one that lives in a coroutine frame. */
  lemma RunTouchesOnlyLiveOperations(capacity: nat, steps: seq<Step>)
    requires Legal(capacity, steps)
    ensures var p := After(capacity, steps);
            && !p.fault && Distinct(p.freed)
            && (forall op :: op in p.freed ==> op in p.delivered && op < |p.issued| && p.issued[op].owned)
            && (forall op :: op in p.delivered && op < |p.issued| && p.issued[op].owned && !IsResuming(p, op) ==> op in p.freed)
            && (!p.loop.Resuming? && p.pending == [] && p.ring == {} ==> p.live == {})
  {
    EveryScheduleKeepsInv(capacity, steps);
  }

  /** The race between a post that finds the ring full and the loop that has just drained and blocks: no
      schedule leaves a post waiting for a loop that no completion will wake, exactly if the ring has at
      least one entry. */
  lemma PostsNeverLostExactlyWithEntries(capacity: nat)
    ensures (forall steps :: Legal(capacity, steps) ==> !Lost(After(capacity, steps))) <==> capacity > 0
  {
    if capacity > 0 {
      forall steps | Legal(capacity, steps) ensures !Lost(After(capacity, steps)) {
        EveryScheduleKeepsInv(capacity, steps);
      }
    } else {
      var steps := PostBehindTheDrain(capacity);
      assert Legal(capacity, steps) && Lost(After(capacity, steps));
      assert exists run :: Legal(capacity, run) && Lost(After(capacity, run));
    }
  }

  /** A wait that fails, and a resumed coroutine that comes back, lead to the next drain: overflowed posts get
      out as soon as an entry is free, before the loop can block again. */
  lemma NextTurnDrains(capacity: nat, steps: seq<Step>, step: Step)
    requires Legal(capacity, steps) && (step == WaitFails || step == Retire) && Enabled(After(capacity, steps), step)
    ensures var p := After(capacity, steps);
            var q := Apply(p, step);
            && q.pending == p.pending && q.ring == p.ring && q.entries == p.entries
            && (p.pending != [] && |p.entries| < capacity ==> Enabled(q, DrainOne) && !Enabled(q, Block))
  {
    EveryScheduleKeepsInv(capacity, steps);
  }

  lemma PostBehindTheDrain(capacity: nat) returns (steps: seq<Step>)
    requires capacity == 0
    ensures Legal(capacity, steps) && Lost(After(capacity, steps))
  {
    LegalSnoc(capacity, [], Block);
    steps := [] + [Block];
    LegalSnoc(capacity, steps, Post(Other(0)));
    steps := steps + [Post(Other(0))];
  }

  /** The operations whose posts found the ring full, in the order of those posts. */
  ghost function Overflowed(capacity: nat, steps: seq<Step>): seq<nat>
    requires Legal(capacity, steps)
    decreases |steps|
  {
    if steps == [] then []
    else
      var p := After(capacity, steps[..|steps| - 1]);
      Overflowed(capacity, steps[..|steps| - 1]) +
      if steps[|steps| - 1].Post? && |p.entries| >= capacity then [|p.issued|] else []
  }

  ghost predicate Increasing(ops: seq<nat>) {
    forall i, j :: 0 <= i < j < |ops| ==> ops[i] < ops[j]
  }

  /** First in, first out: on every schedule the operations drained so far, followed by those still queued, are
      exactly the overflowed posts in the order they were made; so both are in order of issue. */
  lemma {:induction false} OverflowKeepsOrder(capacity: nat, steps: seq<Step>)
    requires Legal(capacity, steps)
    ensures var p := After(capacity, steps);
            && p.drained + p.pending == Overflowed(capacity, steps)
            && Increasing(Overflowed(capacity, steps)) && Increasing(p.pending) && Increasing(p.drained)
            && forall op :: op in p.drained ==> op in p.ring || op in p.delivered
    decreases |steps|
  {
    if steps != [] {
      var before := steps[..|steps| - 1];
      OverflowKeepsOrder(capacity, before);
      EveryScheduleKeepsInv(capacity, before);
      OverflowStep(After(capacity, before), steps[|steps| - 1], Overflowed(capacity, before));
      DrainedStays(After(capacity, before), steps[|steps| - 1]);
    }
    var p := After(capacity, steps);
    var all := Overflowed(capacity, steps);
    assert p.drained == all[..|p.drained|] && p.pending == all[|p.drained|..];
  }

  lemma OverflowStep(s: Posts, step: Step, all: seq<nat>)
    requires Placed(s) && Enabled(s, step) && s.drained + s.pending == all && Increasing(all)
    requires forall op :: op in s.drained ==> op in s.ring || op in s.delivered
    ensures var t := Apply(s, step);
            var now := all + if step.Post? && |s.entries| >= s.capacity then [|s.issued|] else [];
            t.drained + t.pending == now && Increasing(now)
  {
    forall i | 0 <= i < |all| ensures all[i] < |s.issued| {
      assert all[i] in s.drained || all[i] in s.pending;
    }
    match step
    case Post(_) => Assoc(s.drained, s.pending, [|s.issued|]);
    case DrainOne =>
      Assoc(s.drained, [s.pending[0]], s.pending[1..]);
      assert [s.pending[0]] + s.pending[1..] == s.pending;
    case _ =>
  }

  lemma DrainedStays(s: Posts, step: Step)
    requires Enabled(s, step) && forall op :: op in s.drained ==> op in s.ring || op in s.delivered
    ensures var t := Apply(s, step);
            forall op :: op in t.drained ==> op in t.ring || op in t.delivered
  {
  }

  /** `k` drain turns move exactly the first `k` pending operations to the ring, in order. */
  ghost predicate Drained(p: Posts, q: Posts, k: nat) {
    && k <= |p.pending|
    && q == p.(pending := p.pending[k..], drained := p.drained + p.pending[..k], ring := p.ring + Elements(p.pending[..k]), entries := q.entries)
  }

  ghost function Elements(ops: seq<nat>): set<nat> { set op | op in ops }

  ghost function DrainTurns(steps: seq<Step>): nat {
    if steps == [] then 0
    else DrainTurns(steps[..|steps| - 1]) + if steps[|steps| - 1].DrainOne? then 1 else 0
  }

  /** However the kernel takes entries meanwhile, draining submits a prefix of the queue, in order. */
  lemma {:induction false} DrainIsPrefix(capacity: nat, steps: seq<Step>, more: seq<Step>)
    requires Legal(capacity, steps) && Legal(capacity, steps + more)
    requires forall i :: 0 <= i < |more| ==> more[i].DrainOne? || more[i].Take?
    ensures Drained(After(capacity, steps), After(capacity, steps + more), DrainTurns(more))
    decreases |more|
  {
    var p := After(capacity, steps);
    if more == [] {
      assert steps + more == steps;
      DrainedNone(p);
    } else {
      var last := |more| - 1;
      var before := steps + more[..last];
      var all := steps + more;
      assert all[..|all| - 1] == before && all[|all| - 1] == more[last];
      DrainIsPrefix(capacity, steps, more[..last]);
      DrainedStep(p, After(capacity, before), more[last], DrainTurns(more[..last]));
    }
  }

  lemma DrainedNone(p: Posts)
    ensures Drained(p, p, 0)
  {
    assert p.ring + Elements(p.pending[..0]) == p.ring && p.drained + p.pending[..0] == p.drained;
  }

  lemma DrainedStep(p: Posts, q: Posts, step: Step, k: nat)
    requires Drained(p, q, k) && Enabled(q, step) && (step.DrainOne? || step.Take?)
    ensures Drained(p, Apply(q, step), k + if step.DrainOne? then 1 else 0)
  {
    if step.DrainOne? { DrainedOneMore(p, q, k); }
  }

  lemma DrainedOneMore(p: Posts, q: Posts, k: nat)
    requires Drained(p, q, k) && Enabled(q, DrainOne)
    ensures Drained(p, Apply(q, DrainOne), k + 1)
  {
    assert p.pending[k..][1..] == p.pending[k + 1..];
    ElementsSnoc(p.pending, k);
    assert p.ring + Elements(p.pending[..k + 1]) == q.ring + {p.pending[k]};
    assert p.pending[..k + 1] == p.pending[..k] + [p.pending[k]];
    assert p.drained + p.pending[..k + 1] == q.drained + [p.pending[k]];
  }

  lemma ElementsSnoc(ops: seq<nat>, k: nat)
    requires k < |ops|
    ensures Elements(ops[..k + 1]) == Elements(ops[..k]) + {ops[k]}
  {
    assert ops[..k + 1] == ops[..k] + [ops[k]];
  }

  // ---------------------------------------------------------------- the code itself

  /** The part of `UringEngine` that deals with posts. */
  class Engine {
    const capacity: nat
    var pending: seq<nat>
    var entries: set<nat>
    var ring: set<nat>
    var issued: seq<Op>
    var loop: Loop
    ghost var live: set<nat>
    ghost var drained: seq<nat>
    ghost var delivered: seq<nat>
    ghost var freed: seq<nat>
    ghost var fault: bool

    ghost function Abs(): Posts
      reads this
    {
      Posts(capacity, issued, live, pending, drained, entries, ring, loop, delivered, freed, fault)
    }

    constructor (capacity: nat)
      ensures Abs() == Init(capacity)
    {
      this.capacity := capacity;
      pending, entries, ring, issued, loop := [], {}, {}, [], Draining;
      live, drained, delivered, freed, fault := {}, [], [], [], false;
    }

    /** `post_coroutine`. */
    method PostCoroutine(h: Handle)
      modifies this
      ensures Abs() == Apply(old(Abs()), Post(h))
    {
      var op := |issued|;
      issued := issued + [Op(h, true)];
      live := live + {op};
      if |entries| >= capacity {
        pending := pending + [op];
        return;
      }
      entries := entries + {op};
      ring := ring + {op};
    }

    /** `drain_pending_posts`, where the kernel takes the entries `kernel(i)` over after submission `i`. It
        stops when the queue is empty or the ring full, having submitted a prefix of the queue in order. */
    method DrainPendingPosts(kernel: nat -> set<nat>) returns (moved: nat)
      requires loop == Draining
      modifies this`pending, this`entries, this`ring, this`drained
      ensures Drained(old(Abs()), Abs(), moved)
      ensures entries <= old(entries) + Elements(old(pending)[..moved])
      ensures Enabled(Abs(), Block)
    {
      ghost var p := Abs();
      moved := 0;
      DrainedNone(p);
      while |pending| > 0
        invariant Drained(p, Abs(), moved)
        invariant entries <= p.entries + Elements(p.pending[..moved])
      {
        if |entries| >= capacity { break; }
        DrainedOneMore(p, Abs(), moved);
        ElementsSnoc(p.pending, moved);
        SubmitFront(kernel(moved));
        moved := moved + 1;
      }
    }

    /** One turn of the drain loop; the kernel may take entries at once. */
    method SubmitFront(taken: set<nat>)
      requires pending != []
      modifies this`pending, this`entries, this`ring, this`drained
      ensures pending == old(pending)[1..] && drained == old(drained) + [old(pending)[0]]
      ensures ring == old(ring) + {old(pending)[0]} && entries == old(entries) + {old(pending)[0]} - taken
    {
      entries := entries + {pending[0]} - taken;
      ring := ring + {pending[0]};
      drained := drained + [pending[0]];
      pending := pending[1..];
    }

    /** The first half of a `run` turn: take a completion, copy what is needed, resume the coroutine. */
    method Dispatch(op: nat) returns (h: Handle)
      requires Enabled(Abs(), Deliver(op))
      modifies this
      ensures Abs() == Apply(old(Abs()), Deliver(op))
      ensures h == old(issued)[op].coroutine
    {
      fault := fault || op !in live;
      h := issued[op].coroutine;
      var owned := issued[op].owned;
      ring := ring - {op};
      entries := entries - {op};
      delivered := delivered + [op];
      if !owned { live := live - {op}; }
      loop := Resuming(op, owned);
    }

    /** The second half: delete the operation if the saved flag says it is owned. */
    method Complete()
      requires Enabled(Abs(), Retire)
      modifies this
      ensures Abs() == Apply(old(Abs()), Retire)
    {
      if loop.owned {
        fault := fault || loop.op !in live;
        live := live - {loop.op};
        freed := freed + [loop.op];
      }
      loop := Draining;
    }
  }
}
