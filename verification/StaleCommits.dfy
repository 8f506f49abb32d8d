/** Saving a stale copy is exactly what breaks serialisation.

    Requests that each make the session's user name one byte longer leave a count of the saved requests in
    the store, so a stale save, which drops an earlier one, stays visible for ever. */
module StaleCommits {

  import opened Bytes
  import opened BinaryFraming
  import opened Commands
  import opened Requests

  ghost predicate Counts(q: Request) {
    forall session: Session :: |q.run(session).session.user| == |session.user| + 1
  }

  /** Served requests can count: a handler appends a byte to the name. */
  lemma ServedRequestsCanCount(id: uint64, tag: byte)
    ensures var append := Endpoint((ctx: Context) => Answered(0, [], ctx.session.(user := ctx.session.user + [tag]), []), false, ANY);
            var q := Served(EchoEnv(1).(router := map[9 := append]), Frame(Header(9, 0, 0, id), []), TCP);
            q.session == id && Counts(q) && KeepsId(q)
  {
  }

  /** Every request of the run counts. */
  ghost predicate AllCount(steps: seq<Step>) {
    forall i :: 0 <= i < |steps| && steps[i].Begin? ==> Counts(steps[i].request)
  }

  /** How many requests on `id` were saved. */
  ghost function Commits(history: seq<Entry>, id: uint64): nat {
    if history == [] then 0
    else Commits(history[..|history| - 1], id) + if CommitOn(history[|history| - 1], id) then 1 else 0
  }

  lemma CommitsSnoc(history: seq<Entry>, e: Entry, id: uint64)
    ensures Commits(history + [e], id) == Commits(history, id) + if CommitOn(e, id) then 1 else 0
  {
    assert (history + [e])[..|history + [e]| - 1] == history;
  }

  lemma {:induction false} CommitsAfter(history: seq<Entry>, at: nat, id: uint64)
    requires at <= |history|
    ensures Commits(history[..at], id) <= Commits(history, id)
    ensures Commits(history[..at], id) < Commits(history, id) <==>
            exists i :: at <= i < |history| && CommitOn(history[i], id)
  {
    if at == |history| {
      assert history[..at] == history;
    } else {
      var last := |history| - 1;
      CommitsAfter(history[..last], at, id);
      assert history[..last][..at] == history[..at];
      if CommitOn(history[last], id) {
        assert at <= last < |history|;
      } else if i :| at <= i < |history| && CommitOn(history[i], id) {
        assert CommitOn(history[..last][i], id);
      }
    }
  }

  // ---------------------------------------------------------------- the serial execution counts

  ghost predicate CountingHistory(history: seq<Entry>) {
    forall i :: 0 <= i < |history| && history[i].Committed? ==> Counts(history[i].request) && KeepsId(history[i].request)
  }

  lemma {:induction false} SerialCounts(history: seq<Entry>)
    requires CountingHistory(history)
    ensures forall id :: id in Serial(history) ==>
              Serial(history)[id].id == id && |Serial(history)[id].user| == Commits(history, id)
    ensures forall id: uint64 :: id !in Serial(history) ==> Commits(history, id) == 0
  {
    if history != [] {
      var last := |history| - 1;
      SerialCounts(history[..last]);
      SerialStepCounts(Serial(history[..last]), history[..last], history[last]);
    }
  }

  lemma SerialStepCounts(store: Store, history: seq<Entry>, e: Entry)
    requires e.Committed? ==> Counts(e.request) && KeepsId(e.request)
    requires forall id :: id in store ==> store[id].id == id && |store[id].user| == Commits(history, id)
    requires forall id: uint64 :: id !in store ==> Commits(history, id) == 0
    ensures var t := SerialStep(store, e);
            && (forall id :: id in t ==>
                  t[id].id == id && |t[id].user| == Commits(history, id) + if CommitOn(e, id) then 1 else 0)
            && (forall id: uint64 :: id !in t ==> Commits(history, id) == 0 && !CommitOn(e, id))
  {
  }

  // ---------------------------------------------------------------- the store counts too little

  ghost predicate FlightBounded(s: State, f: Flight) {
    && Counts(f.request) && f.at <= |s.history|
    && |f.copy.user| <= Commits(s.history[..f.at], f.request.session)
  }

  /** No copy or entry has counted more than was saved. */
  ghost predicate Bounded(s: State) {
    && CountingHistory(s.history)
    && (forall id :: id in s.store ==> |s.store[id].user| <= Commits(s.history, id))
    && (forall r :: r in s.flights ==> FlightBounded(s, s.flights[r]))
  }

  ghost predicate Short(s: State, id: uint64) {
    id in s.store && |s.store[id].user| < Commits(s.history, id)
  }

  lemma StepKeepsFlightBounded(s: State, step: Step, r: nat)
    requires Bounded(s) && Enabled(s, step) && (step.Begin? ==> Counts(step.request)) && r in Apply(s, step).flights
    ensures FlightBounded(Apply(s, step), Apply(s, step).flights[r])
  {
    var t := Apply(s, step);
    var at := t.flights[r].at;
    if r in s.flights { assert FlightBounded(s, s.flights[r]); }
    assert t.history[..at] == s.history[..at];
    if step.Begin? && step.r == r { assert s.history[..at] == s.history; }
  }

  lemma StepKeepsStoreBounded(s: State, step: Step, id: uint64)
    requires Keyed(s) && Bounded(s) && Enabled(s, step) && id in Apply(s, step).store
    ensures |Apply(s, step).store[id].user| <= Commits(Apply(s, step).history, id)
  {
    var t := Apply(s, step);
    if step.Commit? {
      CommitCounts(s, step.r);
      CommitsSnoc(s.history, Committed(s.flights[step.r].request), id);
    } else if |t.history| > |s.history| {
      CommitsSnoc(s.history, t.history[|s.history|], id);
    }
  }

  lemma StepKeepsBounded(s: State, step: Step)
    requires Keyed(s) && Bounded(s) && Enabled(s, step) && (step.Begin? ==> Counts(step.request))
    ensures Bounded(Apply(s, step))
  {
    var t := Apply(s, step);
    forall r | r in t.flights ensures FlightBounded(t, t.flights[r]) { StepKeepsFlightBounded(s, step, r); }
    forall id | id in t.store ensures |t.store[id].user| <= Commits(t.history, id) {
      StepKeepsStoreBounded(s, step, id);
    }
    if step.Commit? { assert FlightBounded(s, s.flights[step.r]); }
  }

  /** A saved request counts one more than its copy; it falls short if the copy is stale. */
  lemma CommitCounts(s: State, r: nat)
    requires Keyed(s) && Bounded(s) && Enabled(s, Commit(r))
    ensures var t := Apply(s, Commit(r));
            var f := s.flights[r];
            var id := f.request.session;
            && t.store == s.store[id := t.store[id]] && |t.store[id].user| == |f.copy.user| + 1
            && Commits(t.history, id) == Commits(s.history, id) + 1
            && |t.store[id].user| <= Commits(t.history, id)
            && (Stale(s, r) ==> Short(t, id))
  {
    var f := s.flights[r];
    var id := f.request.session;
    assert FlightBounded(s, f) && EffectOf(f).session.id == id;
    CommitsSnoc(s.history, Committed(f.request), id);
    CommitsAfter(s.history, f.at, id);
  }

  lemma ShortStays(s: State, step: Step, id: uint64)
    requires Keyed(s) && Fresh(s) && Bounded(s) && Enabled(s, step) && Short(s, id)
    ensures Short(Apply(s, step), id)
  {
    match step
    case Commit(r) => CommitKeepsShort(s, r, id);
    case Touch(other) => CommitsSnoc(s.history, Touched(other), id);
    case Begin(_, q) => CommitsSnoc(s.history, Touched(q.session), id);
    case _ =>
  }

  lemma CommitKeepsShort(s: State, r: nat, id: uint64)
    requires Keyed(s) && Fresh(s) && Bounded(s) && Enabled(s, Commit(r)) && Short(s, id)
    ensures Short(Apply(s, Commit(r)), id)
  {
    var f := s.flights[r];
    CommitCounts(s, r);
    if f.request.session == id {
      assert FreshAt(s, r);
    } else {
      CommitsSnoc(s.history, Committed(f.request), id);
    }
  }

  lemma {:induction false} EveryScheduleBounded(steps: seq<Step>)
    requires Legal(steps) && AllCount(steps)
    ensures Bounded(After(steps))
    decreases |steps|
  {
    if steps != [] {
      EveryScheduleBounded(steps[..|steps| - 1]);
      EveryScheduleKeyed(steps[..|steps| - 1]);
      StepKeepsBounded(After(steps[..|steps| - 1]), steps[|steps| - 1]);
    }
  }

  lemma {:induction false} StaleCommitShows(steps: seq<Step>) returns (id: uint64)
    requires Legal(steps) && AllCount(steps) && !NoStaleCommit(steps)
    ensures Short(After(steps), id)
    decreases |steps|
  {
    var before := steps[..|steps| - 1];
    var step := steps[|steps| - 1];
    var s := After(before);
    EveryScheduleBounded(before);
    EveryScheduleKeyed(before);
    EveryScheduleFresh(before);
    if NoStaleCommit(before) {
      CommitCounts(s, step.r);
      id := s.flights[step.r].request.session;
    } else {
      id := StaleCommitShows(before);
      ShortStays(s, step, id);
    }
  }

  /** The exact condition: on a run of requests that count, the store equals the serial execution of the
      saved requests if and only if no stale copy was ever saved. */
  lemma SerialExactlyIfNoStaleCommit(steps: seq<Step>)
    requires Legal(steps) && AllCount(steps)
    ensures After(steps).store == Serial(After(steps).history) <==> NoStaleCommit(steps)
  {
    if NoStaleCommit(steps) {
      FreshCommitsSerialise(steps);
    } else {
      var id := StaleCommitShows(steps);
      EveryScheduleBounded(steps);
      SerialCounts(After(steps).history);
    }
  }
}
