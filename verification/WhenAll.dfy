/** The join protocol behind `when_all` (include/servd/Task.hpp).

    One coroutine, the caller, launches a wrapper coroutine for every task and is resumed when the
    countdown `remaining` reaches zero. Wrappers may finish while the launch loop is still running
    (their tasks never suspend, or one task completes another) or at any later time, so the caller
    is resumed either by the launch itself or by the last wrapper. The protocol is single-threaded:
    a step below runs from one suspension point to the next.

    A schedule is a sequence of steps; the lemmas quantify over every legal schedule. What task `i`
    produces is `outcomes[i]`, an arbitrary value or exception. */
module WhenAll {

  import opened Options

  /** Where a wrapper coroutine stands: its initial suspend point, its body, its final suspend point. */
  datatype Wrapper = Created | Running | AtFinalSuspend

  /** Where the caller stands: inside the launch loop, suspended, or past its `co_await`. */
  datatype Caller = Launching(next: nat) | Waiting | Resumed

  /** The shared state of one call. `resumptions` and `finished` record history: how often the caller
      was resumed and in which order wrappers reached their final suspend point. */
  datatype State<T, E> = State(
    remaining: int,
    started: bool,
    error: Option<E>,
    slots: seq<Option<T>>,
    wrappers: seq<Wrapper>,
    caller: Caller,
    resumptions: nat,
    finished: seq<nat>)

  /** What the caller gets when it continues, including the two ways of reading what must not be read. */
  datatype Collected<+T, +E> =
    | Results(values: seq<T>)
    | Rethrown(error: E)
    | ReadsEmptySlot
    | DestroysUnfinishedWrapper

  const INT_MAX: nat := 0x7fff_ffff

  /** `static_cast<int>` of a size. */
  function ToInt32(size: nat): int {
    var low := size % 0x1_0000_0000;
    if low <= INT_MAX then low else low - 0x1_0000_0000
  }

  /** How many wrappers the setup loop `for (int i = 0; i < n; ++i)` creates. */
  function WrapperCount(size: nat): nat {
    if ToInt32(size) > 0 then ToInt32(size) else 0
  }

  function Setup<T, E>(size: nat): State<T, E> {
    State(ToInt32(size), false, None, seq(size, _ => None), seq(WrapperCount(size), _ => Created),
          Launching(0), 0, [])
  }

  datatype Step = StartNext | EndLaunch | Finish(i: nat)

  predicate Enabled<T, E>(s: State<T, E>, step: Step) {
    match step
    case StartNext => s.caller.Launching? && s.caller.next < |s.wrappers|
    case EndLaunch => s.caller.Launching? && s.caller.next == |s.wrappers|
    case Finish(i) => i < |s.wrappers| && i < |s.slots| && s.wrappers[i] == Running
  }

  /** The wrapper's epilogue: fill the slot or keep the exception, then count down and, if the launch
      is over and nothing remains, transfer to the caller. */
  function FinishWrapper<T, E>(s: State<T, E>, i: nat, outcome: Outcome<T, E>): State<T, E>
    requires i < |s.wrappers| && i < |s.slots|
  {
    var recorded :=
      match outcome
      case Returned(v) => s.(slots := s.slots[i := Some(v)])
      case Threw(e) => s.(error := Some(e));
    var counted := recorded.(
      remaining := s.remaining - 1,
      wrappers := s.wrappers[i := AtFinalSuspend],
      finished := s.finished + [i]);
    if counted.remaining == 0 && s.started then
      counted.(caller := Resumed, resumptions := s.resumptions + 1)
    else
      counted
  }

  function Apply<T, E>(outcomes: seq<Outcome<T, E>>, s: State<T, E>, step: Step): State<T, E>
    requires |outcomes| == |s.slots| && Enabled(s, step)
  {
    match step
    case StartNext =>
      s.(wrappers := s.wrappers[s.caller.next := Running], caller := Launching(s.caller.next + 1))
    case EndLaunch =>
      if s.remaining != 0 then s.(started := true, caller := Waiting)
      else s.(started := true, caller := Resumed, resumptions := s.resumptions + 1)
    case Finish(i) => FinishWrapper(s, i, outcomes[i])
  }

  /** `await_resume`: destroy the wrappers, rethrow, or move the values out of the slots. */
  function AwaitResume<T, E>(s: State<T, E>): Collected<T, E> {
    if exists i :: 0 <= i < |s.wrappers| && s.wrappers[i] != AtFinalSuspend then DestroysUnfinishedWrapper
    else if s.error.Some? then Rethrown(s.error.value)
    else if exists i :: 0 <= i < |s.slots| && s.slots[i].None? then ReadsEmptySlot
    else Results(seq(|s.slots|, i requires 0 <= i < |s.slots| => s.slots[i].value))
  }

  // ---------------------------------------------------------------- schedules

  ghost predicate Legal<T, E>(outcomes: seq<Outcome<T, E>>, steps: seq<Step>)
    decreases |steps|, 0
  {
    steps == [] ||
    (var before := steps[..|steps| - 1];
     Legal(outcomes, before) && Enabled(After(outcomes, before), steps[|steps| - 1]))
  }

  ghost function After<T, E>(outcomes: seq<Outcome<T, E>>, steps: seq<Step>): (s: State<T, E>)
    requires Legal(outcomes, steps)
    ensures |s.slots| == |outcomes|
    decreases |steps|, 1
  {
    if steps == [] then Setup(|outcomes|)
    else Apply(outcomes, After(outcomes, steps[..|steps| - 1]), steps[|steps| - 1])
  }

  lemma LegalSnoc<T, E>(outcomes: seq<Outcome<T, E>>, steps: seq<Step>, step: Step)
    requires Legal(outcomes, steps) && Enabled(After(outcomes, steps), step)
    ensures Legal(outcomes, steps + [step])
    ensures After(outcomes, steps + [step]) == Apply(outcomes, After(outcomes, steps), step)
  {
    var all := steps + [step];
    var n := |steps|;
    assert |all| == n + 1 && all != [];
    assert all[n] == step;
    assert all[..n] == steps;
  }

  // ---------------------------------------------------------------- invariant

  ghost function Unfinished(ws: seq<Wrapper>): nat {
    if ws == [] then 0
    else Unfinished(ws[..|ws| - 1]) + (if ws[|ws| - 1] == AtFinalSuspend then 0 else 1)
  }

  lemma {:induction false} UnfinishedUpdate(ws: seq<Wrapper>, i: nat, w: Wrapper)
    requires i < |ws|
    ensures Unfinished(ws[i := w]) ==
            Unfinished(ws) - (if ws[i] == AtFinalSuspend then 0 else 1) + (if w == AtFinalSuspend then 0 else 1)
  {
    var last := |ws| - 1;
    if i == last {
      assert ws[i := w][..last] == ws[..last];
    } else {
      UnfinishedUpdate(ws[..last], i, w);
      assert ws[i := w][..last] == ws[..last][i := w];
    }
  }

  lemma {:induction false} UnfinishedZero(ws: seq<Wrapper>)
    ensures Unfinished(ws) == 0 <==> forall i :: 0 <= i < |ws| ==> ws[i] == AtFinalSuspend
    ensures Unfinished(ws) <= |ws|
  {
    if ws != [] {
      var last := |ws| - 1;
      UnfinishedZero(ws[..last]);
      assert forall i :: 0 <= i < last ==> ws[..last][i] == ws[i];
    }
  }

  lemma {:induction false} UnfinishedCreated(n: nat)
    ensures Unfinished(seq(n, _ => Created)) == n
  {
    if n > 0 {
      assert seq(n, _ => Created)[..n - 1] == seq(n - 1, _ => Created);
      UnfinishedCreated(n - 1);
    }
  }

  /** The exception of the last failure in a completion order. */
  ghost function LastFailure<T, E>(outcomes: seq<Outcome<T, E>>, order: seq<nat>): Option<E> {
    if order == [] then None
    else
      var last := order[|order| - 1];
      if last < |outcomes| && outcomes[last].Threw? then Some(outcomes[last].error)
      else LastFailure(outcomes, order[..|order| - 1])
  }

  ghost predicate LaunchInv<T, E>(s: State<T, E>) {
    match s.caller
    case Launching(next) =>
      && !s.started && next <= |s.wrappers|
      && (forall i :: 0 <= i < |s.wrappers| ==> (s.wrappers[i] == Created <==> next <= i))
    case _ =>
      s.started && forall i :: 0 <= i < |s.wrappers| ==> s.wrappers[i] != Created
  }

  ghost predicate CountInv<T, E>(s: State<T, E>) {
    && |s.wrappers| == WrapperCount(|s.slots|)
    && s.remaining == ToInt32(|s.slots|) - |s.wrappers| + Unfinished(s.wrappers)
    && (s.caller.Waiting? ==> s.remaining != 0)
    && (s.caller.Resumed? ==> s.remaining == 0)
    && s.resumptions == (if s.caller.Resumed? then 1 else 0)
  }

  ghost predicate OrderInv<T, E>(s: State<T, E>) {
    && Distinct(s.finished)
    && (forall k :: 0 <= k < |s.finished| ==> s.finished[k] < |s.wrappers|)
    && (forall i :: 0 <= i < |s.wrappers| ==> (s.wrappers[i] == AtFinalSuspend <==> i in s.finished))
  }

  ghost function ExpectedSlot<T, E>(outcomes: seq<Outcome<T, E>>, ws: seq<Wrapper>, i: nat): Option<T>
    requires i < |outcomes|
  {
    if i < |ws| && ws[i] == AtFinalSuspend && outcomes[i].Returned? then Some(outcomes[i].value) else None
  }

  ghost predicate ResultInv<T, E>(outcomes: seq<Outcome<T, E>>, s: State<T, E>) {
    && |s.wrappers| <= |s.slots| == |outcomes|
    && s.error == LastFailure(outcomes, s.finished)
    && (forall i :: 0 <= i < |s.slots| ==> s.slots[i] == ExpectedSlot(outcomes, s.wrappers, i))
  }

  ghost predicate Inv<T, E>(outcomes: seq<Outcome<T, E>>, s: State<T, E>) {
    OrderInv(s) && ResultInv(outcomes, s) && LaunchInv(s) && CountInv(s)
  }

  lemma SetupInv<T, E>(outcomes: seq<Outcome<T, E>>)
    ensures Inv(outcomes, Setup<T, E>(|outcomes|))
  {
    UnfinishedCreated(WrapperCount(|outcomes|));
  }

  lemma FinishKeepsOrder<T, E>(s: State<T, E>, i: nat, outcome: Outcome<T, E>)
    requires OrderInv(s) && Enabled(s, Finish(i))
    ensures OrderInv(FinishWrapper(s, i, outcome))
  {
    var s' := FinishWrapper(s, i, outcome);
    assert i !in s.finished;
    forall k | 0 <= k < |s.wrappers|
      ensures s'.wrappers[k] == AtFinalSuspend <==> k in s'.finished
    {
      assert k in s'.finished <==> k in s.finished || k == i;
    }
  }

  lemma LastFailureSnoc<T, E>(outcomes: seq<Outcome<T, E>>, order: seq<nat>, i: nat)
    requires i < |outcomes|
    ensures LastFailure(outcomes, order + [i]) ==
            if outcomes[i].Threw? then Some(outcomes[i].error) else LastFailure(outcomes, order)
  {
    assert (order + [i])[..|order + [i]| - 1] == order;
  }

  lemma FinishKeepsResult<T, E>(outcomes: seq<Outcome<T, E>>, s: State<T, E>, i: nat)
    requires ResultInv(outcomes, s) && Enabled(s, Finish(i))
    ensures ResultInv(outcomes, FinishWrapper(s, i, outcomes[i]))
  {
    LastFailureSnoc(outcomes, s.finished, i);
    var s' := FinishWrapper(s, i, outcomes[i]);
    var ws := s.wrappers[i := AtFinalSuspend];
    assert s'.wrappers == ws && |s'.slots| == |s.slots|;
    forall k | 0 <= k < |s'.slots|
      ensures s'.slots[k] == ExpectedSlot(outcomes, ws, k)
    {
      assert k != i ==> s'.slots[k] == s.slots[k] == ExpectedSlot(outcomes, s.wrappers, k);
    }
  }

  lemma FinishKeepsCounts<T, E>(s: State<T, E>, i: nat, outcome: Outcome<T, E>)
    requires LaunchInv(s) && CountInv(s) && Enabled(s, Finish(i))
    ensures LaunchInv(FinishWrapper(s, i, outcome)) && CountInv(FinishWrapper(s, i, outcome))
  {
    UnfinishedUpdate(s.wrappers, i, AtFinalSuspend);
    UnfinishedZero(s.wrappers);
  }

  lemma StartKeepsInv<T, E>(outcomes: seq<Outcome<T, E>>, s: State<T, E>)
    requires Inv(outcomes, s) && Enabled(s, StartNext)
    ensures Inv(outcomes, Apply(outcomes, s, StartNext))
  {
    UnfinishedUpdate(s.wrappers, s.caller.next, Running);
    var s' := Apply(outcomes, s, StartNext);
    assert s.wrappers[s.caller.next] == Created;
    assert OrderInv(s');
    assert ResultInv(outcomes, s');
  }

  lemma FinishKeepsInv<T, E>(outcomes: seq<Outcome<T, E>>, s: State<T, E>, i: nat)
    requires Inv(outcomes, s) && Enabled(s, Finish(i))
    ensures Inv(outcomes, FinishWrapper(s, i, outcomes[i]))
  {
    FinishKeepsCounts(s, i, outcomes[i]);
    FinishKeepsOrder(s, i, outcomes[i]);
    FinishKeepsResult(outcomes, s, i);
  }

  lemma StepKeepsInv<T, E>(outcomes: seq<Outcome<T, E>>, s: State<T, E>, step: Step)
    requires Inv(outcomes, s) && Enabled(s, step)
    ensures Inv(outcomes, Apply(outcomes, s, step))
  {
    match step
    case StartNext => StartKeepsInv(outcomes, s);
    case EndLaunch =>
    case Finish(i) => FinishKeepsInv(outcomes, s, i);
  }

  lemma {:induction false} EveryScheduleKeepsInv<T, E>(outcomes: seq<Outcome<T, E>>, steps: seq<Step>)
    requires Legal(outcomes, steps)
    ensures Inv(outcomes, After(outcomes, steps))
    decreases |steps|
  {
    if steps == [] {
      SetupInv(outcomes);
    } else {
      EveryScheduleKeepsInv(outcomes, steps[..|steps| - 1]);
      StepKeepsInv(outcomes, After(outcomes, steps[..|steps| - 1]), steps[|steps| - 1]);
    }
  }

  // ---------------------------------------------------------------- main results

  ghost predicate Stuck<T, E>(s: State<T, E>) {
    forall step :: !Enabled(s, step)
  }

  /** How many steps a schedule can still take. */
  ghost function StepsLeft<T, E>(s: State<T, E>): nat {
    Unfinished(s.wrappers) +
    (if s.caller.Launching? && s.caller.next <= |s.wrappers| then |s.wrappers| - s.caller.next + 1 else 0)
  }

  /** Safety: on every schedule, for every number of tasks an `int` can hold (zero included), the caller
      is resumed at most once, and never sleeps with the launch over and nothing remaining. */
  lemma CallerResumedAtMostOnce<T, E>(outcomes: seq<Outcome<T, E>>, steps: seq<Step>)
    requires Legal(outcomes, steps) && |outcomes| <= INT_MAX
    ensures var s := After(outcomes, steps);
            && s.resumptions <= 1
            && (s.resumptions == 1 <==> s.caller.Resumed?)
            && (s.started && s.remaining == 0 ==> s.caller.Resumed?)
            && (s.caller.Resumed? ==> forall i :: 0 <= i < |s.wrappers| ==> s.wrappers[i] == AtFinalSuspend)
            && 0 <= s.remaining
  {
    EveryScheduleKeepsInv(outcomes, steps);
    UnfinishedZero(After(outcomes, steps).wrappers);
  }

  /** Progress: every step uses up one of the steps left, so schedules are finite, and a schedule that
      cannot be extended has resumed the caller exactly once. */
  lemma EveryStepMakesProgress<T, E>(outcomes: seq<Outcome<T, E>>, steps: seq<Step>, step: Step)
    requires Legal(outcomes, steps) && Enabled(After(outcomes, steps), step)
    ensures Legal(outcomes, steps + [step])
    ensures StepsLeft(After(outcomes, steps + [step])) < StepsLeft(After(outcomes, steps))
  {
    LegalSnoc(outcomes, steps, step);
    EveryScheduleKeepsInv(outcomes, steps);
    var s := After(outcomes, steps);
    match step
    case StartNext => UnfinishedUpdate(s.wrappers, s.caller.next, Running);
    case EndLaunch =>
    case Finish(i) => UnfinishedUpdate(s.wrappers, i, AtFinalSuspend);
  }

  lemma CompleteScheduleResumesOnce<T, E>(outcomes: seq<Outcome<T, E>>, steps: seq<Step>)
    requires Legal(outcomes, steps) && |outcomes| <= INT_MAX
    requires Stuck(After(outcomes, steps))
    ensures After(outcomes, steps).caller == Resumed && After(outcomes, steps).resumptions == 1
  {
    StuckMeansAllFinished(outcomes, steps);
    UnfinishedZero(After(outcomes, steps).wrappers);
  }

  lemma StuckMeansAllFinished<T, E>(outcomes: seq<Outcome<T, E>>, steps: seq<Step>)
    requires Legal(outcomes, steps) && Stuck(After(outcomes, steps))
    ensures var s := After(outcomes, steps);
            && Inv(outcomes, s) && s.started
            && (forall i :: 0 <= i < |s.wrappers| ==> s.wrappers[i] == AtFinalSuspend)
  {
    EveryScheduleKeepsInv(outcomes, steps);
    var s := After(outcomes, steps);
    assert !Enabled(s, StartNext) && !Enabled(s, EndLaunch);
    forall i | 0 <= i < |s.wrappers|
      ensures s.wrappers[i] == AtFinalSuspend
    {
      assert !Enabled(s, Finish(i));
    }
  }

  /** When the caller continues, every task has finished, each exactly once. */
  lemma EveryTaskFinishedOnce<T, E>(outcomes: seq<Outcome<T, E>>, steps: seq<Step>)
    requires Legal(outcomes, steps) && |outcomes| <= INT_MAX
    requires After(outcomes, steps).caller == Resumed
    ensures Inv(outcomes, After(outcomes, steps)) && |After(outcomes, steps).wrappers| == |outcomes|
    ensures Distinct(After(outcomes, steps).finished)
    ensures forall i: nat :: i in After(outcomes, steps).finished <==> i < |outcomes|
  {
    EveryScheduleKeepsInv(outcomes, steps);
    UnfinishedZero(After(outcomes, steps).wrappers);
  }

  /** With no failure the caller gets the values in task order, whatever the completion order: it never
      reads an empty slot and never destroys a wrapper that is not at its final suspend point. */
  lemma ValuesInTaskOrder<T, E>(outcomes: seq<Outcome<T, E>>, steps: seq<Step>)
    requires Legal(outcomes, steps) && |outcomes| <= INT_MAX
    requires After(outcomes, steps).caller == Resumed
    requires forall i :: 0 <= i < |outcomes| ==> outcomes[i].Returned?
    ensures var r := AwaitResume(After(outcomes, steps));
            && r.Results? && |r.values| == |outcomes|
            && forall i :: 0 <= i < |outcomes| ==> r.values[i] == outcomes[i].value
  {
    EveryTaskFinishedOnce(outcomes, steps);
    LastFailureSome(outcomes, After(outcomes, steps).finished);
    SlotsInOrder(outcomes, After(outcomes, steps));
  }

  lemma SlotsInOrder<T, E>(outcomes: seq<Outcome<T, E>>, s: State<T, E>)
    requires ResultInv(outcomes, s) && |s.wrappers| == |outcomes| && s.error == None
    requires forall i :: 0 <= i < |outcomes| ==> outcomes[i].Returned? && s.wrappers[i] == AtFinalSuspend
    ensures var r := AwaitResume(s);
            && r.Results? && |r.values| == |outcomes|
            && forall i :: 0 <= i < |outcomes| ==> r.values[i] == outcomes[i].value
  {
    assert forall i :: 0 <= i < |s.slots| ==> s.slots[i] == Some(outcomes[i].value);
  }

  /** With at least one failure the caller rethrows the one that completed last. */
  lemma LastFailureRethrown<T, E>(outcomes: seq<Outcome<T, E>>, steps: seq<Step>, failing: nat)
    requires Legal(outcomes, steps) && |outcomes| <= INT_MAX
    requires After(outcomes, steps).caller == Resumed
    requires failing < |outcomes| && outcomes[failing].Threw?
    ensures var s := After(outcomes, steps);
            exists k :: 0 <= k < |s.finished| && s.finished[k] < |outcomes|
              && outcomes[s.finished[k]].Threw?
              && AwaitResume(s) == Rethrown(outcomes[s.finished[k]].error)
              && forall l :: k < l < |s.finished| ==> s.finished[l] < |outcomes| && outcomes[s.finished[l]].Returned?
  {
    EveryTaskFinishedOnce(outcomes, steps);
    var s := After(outcomes, steps);
    assert failing in s.finished;
    LastFailureSome(outcomes, s.finished);
    var k := LastFailureAt(outcomes, s.finished);
  }

  lemma {:induction false} LastFailureAt<T, E>(outcomes: seq<Outcome<T, E>>, order: seq<nat>) returns (k: nat)
    requires LastFailure(outcomes, order).Some?
    requires forall i :: 0 <= i < |order| ==> order[i] < |outcomes|
    ensures k < |order| && outcomes[order[k]].Threw?
    ensures LastFailure(outcomes, order) == Some(outcomes[order[k]].error)
    ensures forall l :: k < l < |order| ==> outcomes[order[l]].Returned?
    decreases |order|
  {
    var last := |order| - 1;
    if outcomes[order[last]].Threw? {
      k := last;
    } else {
      k := LastFailureAt(outcomes, order[..last]);
    }
  }

  lemma {:induction false} LastFailureSome<T, E>(outcomes: seq<Outcome<T, E>>, order: seq<nat>)
    ensures LastFailure(outcomes, order).Some? <==> exists i :: i in order && i < |outcomes| && outcomes[i].Threw?
  {
    if order != [] {
      var last := |order| - 1;
      LastFailureSome(outcomes, order[..last]);
      assert forall i :: i in order <==> i in order[..last] || i == order[last];
    }
  }

  // ---------------------------------------------------------------- how many tasks are too many

  /** A finished schedule did its job: the caller continued exactly once, with results or an exception. */
  ghost predicate Joined<T, E>(s: State<T, E>) {
    && s.caller == Resumed && s.resumptions == 1
    && (AwaitResume(s).Results? || AwaitResume(s).Rethrown?)
  }

  /** Every legal schedule can be extended until nothing is left to do. */
  lemma {:induction false} ScheduleCanBeCompleted<T, E>(outcomes: seq<Outcome<T, E>>, steps: seq<Step>)
    returns (complete: seq<Step>)
    requires Legal(outcomes, steps)
    ensures Legal(outcomes, complete) && steps <= complete && Stuck(After(outcomes, complete))
    decreases StepsLeft(After(outcomes, steps))
  {
    if Stuck(After(outcomes, steps)) {
      complete := steps;
    } else {
      var step :| Enabled(After(outcomes, steps), step);
      EveryStepMakesProgress(outcomes, steps, step);
      complete := ScheduleCanBeCompleted(outcomes, steps + [step]);
    }
  }

  lemma OversizedState<T, E>(outcomes: seq<Outcome<T, E>>, s: State<T, E>)
    requires |outcomes| > INT_MAX && forall i :: 0 <= i < |outcomes| ==> outcomes[i].Returned?
    requires Inv(outcomes, s) && s.started
    requires forall i :: 0 <= i < |s.wrappers| ==> s.wrappers[i] == AtFinalSuspend
    ensures ToInt32(|outcomes|) < 0 ==> s.caller == Waiting
    ensures ToInt32(|outcomes|) >= 0 ==> AwaitResume(s) == ReadsEmptySlot
  {
    UnfinishedZero(s.wrappers);
    LastFailureSome(outcomes, s.finished);
    if ToInt32(|outcomes|) >= 0 {
      assert |s.wrappers| < |s.slots| && s.slots[|s.wrappers|] == None;
    }
  }

  /** `remaining` and the setup loop use `int`: past its range the join either never resumes its caller
      (the cast is negative) or resumes it with slots nobody filled. */
  lemma OversizedJoinFails<T, E>(outcomes: seq<Outcome<T, E>>, steps: seq<Step>)
    requires |outcomes| > INT_MAX && forall i :: 0 <= i < |outcomes| ==> outcomes[i].Returned?
    requires Legal(outcomes, steps) && Stuck(After(outcomes, steps))
    ensures !Joined(After(outcomes, steps))
    ensures ToInt32(|outcomes|) < 0 ==> After(outcomes, steps).caller == Waiting
    ensures ToInt32(|outcomes|) >= 0 ==> AwaitResume(After(outcomes, steps)) == ReadsEmptySlot
  {
    StuckMeansAllFinished(outcomes, steps);
    OversizedState(outcomes, After(outcomes, steps));
  }

  /** The exact condition: `when_all` joins correctly on every schedule and for all outcomes of `size`
      tasks if and only if `size` fits an `int`. */
  lemma JoinsExactlyUpToIntMax<T(!new), E(!new)>(size: nat, sample: T)
    ensures (forall outcomes: seq<Outcome<T, E>>, steps ::
               |outcomes| == size && Legal(outcomes, steps) && Stuck(After(outcomes, steps))
               ==> Joined(After(outcomes, steps)))
            <==> size <= INT_MAX
  {
    if size <= INT_MAX {
      forall outcomes: seq<Outcome<T, E>>, steps |
        |outcomes| == size && Legal(outcomes, steps) && Stuck(After(outcomes, steps))
        ensures Joined(After(outcomes, steps))
      {
        CompleteScheduleResumesOnce(outcomes, steps);
        if i :| 0 <= i < size && outcomes[i].Threw? {
          LastFailureRethrown(outcomes, steps, i);
        } else {
          ValuesInTaskOrder(outcomes, steps);
        }
      }
    } else {
      var outcomes: seq<Outcome<T, E>> := seq(size, _ => Returned(sample));
      var steps := ScheduleCanBeCompleted(outcomes, []);
      OversizedJoinFails(outcomes, steps);
    }
  }

  // ---------------------------------------------------------------- the code itself

  /** The steps one launch performs when, while wrapper `i` is being resumed, the wrappers listed in
      `during[i]` run to completion. */
  ghost function LaunchSteps(during: seq<seq<nat>>): seq<Step> {
    if during == [] then []
    else
      var last := |during| - 1;
      LaunchSteps(during[..last]) + [StartNext] + FinishSteps(during[last])
  }

  ghost function FinishSteps(done: seq<nat>): seq<Step> {
    seq(|done|, k requires 0 <= k < |done| => Finish(done[k]))
  }

  /** `VectorState` with the wrapper handles and the suspended caller. Each method is one of the source's
      member functions; `Abs` is the state the lemmas above speak about. */
  class Join<T, E> {
    var remaining: int
    var started: bool
    var error: Option<E>
    var slots: seq<Option<T>>
    var wrappers: seq<Wrapper>
    var caller: Caller
    ghost var resumptions: nat
    ghost var finished: seq<nat>

    ghost function Abs(): State<T, E>
      reads this
    {
      State(remaining, started, error, slots, wrappers, caller, resumptions, finished)
    }

    /** The setup in `when_all`: one slot per task, one wrapper per turn of the `int` loop. */
    constructor (size: nat)
      ensures Abs() == Setup(size)
    {
      remaining := ToInt32(size);
      started := false;
      error := None;
      slots := seq(size, _ => None);
      caller := Launching(0);
      resumptions := 0;
      finished := [];
      wrappers := [];
      new;
      var i := 0;
      while i < ToInt32(size)
        invariant 0 <= i <= WrapperCount(size) && |wrappers| == i
        invariant forall k :: 0 <= k < i ==> wrappers[k] == Created
        invariant Abs() == Setup<T, E>(size).(wrappers := wrappers)
      {
        wrappers := wrappers + [Created];
        i := i + 1;
      }
    }

    /** The end of a wrapper body and its `FinalAwaiter::await_suspend`; `transfer` says whether control
        goes to the caller. */
    method FinishOne(i: nat, outcome: Outcome<T, E>) returns (transfer: bool)
      requires Enabled(Abs(), Finish(i))
      modifies this
      ensures Abs() == FinishWrapper(old(Abs()), i, outcome)
      ensures transfer <==> Abs().resumptions > old(Abs().resumptions)
    {
      match outcome {
        case Returned(v) => slots := slots[i := Some(v)];
        case Threw(e) => error := Some(e);
      }
      wrappers := wrappers[i := AtFinalSuspend];
      finished := finished + [i];
      remaining := remaining - 1;
      transfer := false;
      if remaining == 0 {
        if started {
          transfer := true;
          caller := Resumed;
          resumptions := resumptions + 1;
        }
      }
    }

    /** `await_suspend`: resume every wrapper, then decide whether the caller stays suspended. The result
        is the state after the corresponding steps, hence one the lemmas about schedules cover. */
    method AwaitSuspend(outcomes: seq<Outcome<T, E>>, during: seq<seq<nat>>) returns (suspended: bool)
      requires Abs() == Setup(|outcomes|) && |during| == |wrappers|
      requires Legal(outcomes, LaunchSteps(during))
      modifies this
      ensures Legal(outcomes, LaunchSteps(during) + [EndLaunch])
      ensures Abs() == After(outcomes, LaunchSteps(during) + [EndLaunch])
      ensures suspended <==> Abs().caller == Waiting
      ensures !suspended <==> Abs().caller == Resumed
    {
      ResumeWrappers(outcomes, during);
      LegalSnoc(outcomes, LaunchSteps(during), EndLaunch);
      started := true;
      if remaining != 0 {
        suspended := true;
        caller := Waiting;
      } else {
        suspended := false;
        caller := Resumed;
        resumptions := resumptions + 1;
      }
    }

    /** The launch loop. */
    method ResumeWrappers(outcomes: seq<Outcome<T, E>>, during: seq<seq<nat>>)
      requires Abs() == Setup(|outcomes|) && |during| == |wrappers|
      requires Legal(outcomes, LaunchSteps(during))
      modifies this
      ensures Abs() == After(outcomes, LaunchSteps(during))
      ensures caller == Launching(|wrappers|) && !started
    {
      var i := 0;
      assert during[..|during|] == during;
      while i < |during|
        invariant 0 <= i <= |during| == |wrappers|
        invariant Legal(outcomes, LaunchSteps(during[..i]))
        invariant Abs() == After(outcomes, LaunchSteps(during[..i]))
        invariant caller == Launching(i) && !started
      {
        ResumeWrapper(outcomes, during, i);
        i := i + 1;
      }
    }

    /** `h.resume()` of one wrapper, and what completes before it returns. */
    method ResumeWrapper(outcomes: seq<Outcome<T, E>>, during: seq<seq<nat>>, i: nat)
      requires i < |during| && Legal(outcomes, LaunchSteps(during)) && Legal(outcomes, LaunchSteps(during[..i]))
      requires Abs() == After(outcomes, LaunchSteps(during[..i])) && caller == Launching(i) && !started
      modifies this
      ensures Legal(outcomes, LaunchSteps(during[..i + 1]))
      ensures Abs() == After(outcomes, LaunchSteps(during[..i + 1]))
      ensures caller == Launching(i + 1) && !started && |wrappers| == old(|wrappers|)
    {
      LaunchTurn(outcomes, during, i);
      wrappers := wrappers[i := Running];
      caller := Launching(i + 1);
      FinishAll(outcomes, LaunchSteps(during[..i]) + [StartNext], during[i]);
    }

    /** The wrappers that complete while one of them is being resumed. */
    method FinishAll(outcomes: seq<Outcome<T, E>>, ghost before: seq<Step>, done: seq<nat>)
      requires Legal(outcomes, before + FinishSteps(done)) && Legal(outcomes, before)
      requires Abs() == After(outcomes, before) && caller.Launching? && !started
      modifies this
      ensures Abs() == After(outcomes, before + FinishSteps(done))
      ensures |wrappers| == old(|wrappers|) && caller == old(caller) && !started
    {
      var k := 0;
      FinishBounds(before, done);
      while k < |done|
        invariant 0 <= k <= |done|
        invariant Legal(outcomes, before + FinishSteps(done[..k]))
        invariant Abs() == After(outcomes, before + FinishSteps(done[..k]))
      {
        FinishTurn(outcomes, before, done, k);
        var transfer := FinishOne(done[k], outcomes[done[k]]);
        k := k + 1;
      }
      FinishesKeepLaunch(outcomes, before, done, |done|);
    }

    /** `await_resume`: destroy each wrapper, then rethrow or move the values out. */
    method Collect() returns (r: Collected<T, E>)
      ensures r == AwaitResume(Abs())
    {
      var i := 0;
      while i < |wrappers|
        invariant 0 <= i <= |wrappers|
        invariant forall k :: 0 <= k < i ==> wrappers[k] == AtFinalSuspend
      {
        if wrappers[i] != AtFinalSuspend { return DestroysUnfinishedWrapper; }
        i := i + 1;
      }
      if error.Some? { return Rethrown(error.value); }
      var results := [];
      i := 0;
      while i < |slots|
        invariant 0 <= i <= |slots| && |results| == i
        invariant forall k :: 0 <= k < i ==> slots[k] == Some(results[k])
      {
        if slots[i].None? { return ReadsEmptySlot; }
        results := results + [slots[i].value];
        i := i + 1;
      }
      return Results(results);
    }
  }

  lemma {:induction false} LegalPrefix<T, E>(outcomes: seq<Outcome<T, E>>, steps: seq<Step>, k: nat)
    requires Legal(outcomes, steps) && k <= |steps|
    ensures Legal(outcomes, steps[..k])
    ensures k < |steps| ==> Enabled(After(outcomes, steps[..k]), steps[k])
    decreases |steps|
  {
    if k == |steps| {
      assert steps[..k] == steps;
    } else {
      var before := steps[..|steps| - 1];
      LegalPrefix(outcomes, before, k);
      assert before[..k] == steps[..k];
    }
  }

  lemma {:induction false} LaunchPrefixLegal<T, E>(outcomes: seq<Outcome<T, E>>, during: seq<seq<nat>>, i: nat)
    requires i <= |during| && Legal(outcomes, LaunchSteps(during))
    ensures Legal(outcomes, LaunchSteps(during[..i]))
    decreases |during|
  {
    if i == |during| {
      assert during[..i] == during;
    } else {
      var last := |during| - 1;
      var before := LaunchSteps(during[..last]);
      LegalPrefix(outcomes, LaunchSteps(during), |before|);
      assert LaunchSteps(during)[..|before|] == before;
      LaunchPrefixLegal(outcomes, during[..last], i);
      assert during[..last][..i] == during[..i];
    }
  }

  /** One turn of the launch loop, as steps. */
  lemma LaunchTurn<T, E>(outcomes: seq<Outcome<T, E>>, during: seq<seq<nat>>, i: nat)
    requires i < |during| && Legal(outcomes, LaunchSteps(during))
    ensures var before := LaunchSteps(during[..i]);
            && LaunchSteps(during[..i + 1]) == before + [StartNext] + FinishSteps(during[i])
            && Legal(outcomes, before) && Legal(outcomes, before + [StartNext])
            && Legal(outcomes, before + [StartNext] + FinishSteps(during[i]))
            && Enabled(After(outcomes, before), StartNext)
            && After(outcomes, before + [StartNext]) == Apply(outcomes, After(outcomes, before), StartNext)
  {
    var before := LaunchSteps(during[..i]);
    var turn := before + [StartNext] + FinishSteps(during[i]);
    assert during[..i + 1][..i] == during[..i];
    LaunchPrefixLegal(outcomes, during, i);
    LaunchPrefixLegal(outcomes, during, i + 1);
    LegalPrefix(outcomes, turn, |before|);
    assert turn[..|before|] == before && turn[|before|] == StartNext;
    LegalSnoc(outcomes, before, StartNext);
  }

  /** One completion during a launch turn, as a step. */
  lemma FinishTurn<T, E>(outcomes: seq<Outcome<T, E>>, before: seq<Step>, done: seq<nat>, k: nat)
    requires k < |done| && Legal(outcomes, before + FinishSteps(done))
    ensures var sofar := before + FinishSteps(done[..k]);
            var next := before + FinishSteps(done[..k + 1]);
            && Legal(outcomes, sofar) && Legal(outcomes, next)
            && Enabled(After(outcomes, sofar), Finish(done[k]))
            && After(outcomes, next) == FinishWrapper(After(outcomes, sofar), done[k], outcomes[done[k]])
  {
    var sofar := before + FinishSteps(done[..k]);
    var all := before + FinishSteps(done);
    assert all[..|sofar|] == sofar && all[|sofar|] == Finish(done[k]);
    LegalPrefix(outcomes, all, |sofar|);
    LegalSnoc(outcomes, sofar, Finish(done[k]));
    assert sofar + [Finish(done[k])] == before + FinishSteps(done[..k + 1]);
  }

  lemma FinishBounds(before: seq<Step>, done: seq<nat>)
    ensures before + FinishSteps(done[..0]) == before
    ensures before + FinishSteps(done[..|done|]) == before + FinishSteps(done)
  {
    assert done[..|done|] == done;
  }

  /** While the launch is under way, completions leave the caller where it is. */
  lemma {:induction false} FinishesKeepLaunch<T, E>(
    outcomes: seq<Outcome<T, E>>, before: seq<Step>, done: seq<nat>, k: nat)
    requires Legal(outcomes, before) && Legal(outcomes, before + FinishSteps(done)) && k <= |done|
    requires !After(outcomes, before).started
    ensures Legal(outcomes, before + FinishSteps(done[..k]))
    ensures var s := After(outcomes, before);
            var t := After(outcomes, before + FinishSteps(done[..k]));
            t.caller == s.caller && !t.started && |t.wrappers| == |s.wrappers|
  {
    if k == 0 {
      FinishBounds(before, done);
    } else {
      FinishesKeepLaunch(outcomes, before, done, k - 1);
      FinishTurn(outcomes, before, done, k - 1);
    }
  }
}
