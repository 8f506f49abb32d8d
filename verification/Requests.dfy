/** Requests as transactions on the session store (src/UringEngine/ClientHandlers.cpp,
    include/servd/store/InMemorySessionStore.hpp).

    Every request, from a stream or a datagram, copies its session out of the store, works on the copy and
    saves it at the end, or dies with an exception. Requests suspend in between, so their steps interleave
    freely; requests on one session overlap when two connections, or a connection and a datagram, use the
    same id. */
module Requests {

  import opened Options
  import opened Bytes
  import opened BinaryFraming
  import opened Commands

  type Store = map<uint64, Session>

  /** A request: the session it names and what processing does to a copy of that session. */
  datatype Request = Request(session: uint64, run: Session -> Effect)

  /** The request made of a frame that arrived on a transport; its handlers' behaviour and its random
      numbers are part of `env`. */
  function Served(env: Env, frame: Frame, transport: Transport): Request {
    Request(frame.header.session, session => ProcessCommand(env, frame, session, transport))
  }

  /** A request holds its copy; it is in its handler, or past it. */
  datatype Phase = Loaded | InHandler | Processed

  /** `at` is the length of the history when the copy was made. */
  datatype Flight = Flight(request: Request, copy: Session, phase: Phase, at: nat)

  /** Handler calls, in the order they start and return. */
  datatype Event =
    | Started(session: uint64, ctx: Context)
    | Finished(session: uint64, before: Session, after: Session)

  /** Store operations, in order: an entry made to exist, a request saved. */
  datatype Entry = Touched(session: uint64) | Committed(request: Request)

  datatype State = State(store: Store, flights: map<nat, Flight>, log: seq<Event>, history: seq<Entry>)

  function Init(): State { State(map[], map[], [], []) }

  datatype Step =
    | Touch(session: uint64)               // get_or_create alone, as broadcast_if does
    | Begin(r: nat, request: Request)
    | Enter(r: nat)
    | Return(r: nat)
    | Commit(r: nat)
    | Abort(r: nat)

  /** Handlers and authenticators change a session through its setters, none of which changes the id. */
  ghost predicate KeepsId(q: Request) {
    forall session: Session :: q.run(session).session.id == session.id
  }

  function EffectOf(f: Flight): Effect { f.request.run(f.copy) }

  ghost predicate Enabled(s: State, step: Step) {
    match step
    case Touch(_) => true
    case Begin(r, q) => r !in s.flights && KeepsId(q)
    case Enter(r) => r in s.flights && s.flights[r].phase == Loaded
    case Return(r) => r in s.flights && s.flights[r].phase == InHandler && EffectOf(s.flights[r]).completed
    case Commit(r) => r in s.flights && s.flights[r].phase == Processed && EffectOf(s.flights[r]).completed
    case Abort(r) => r in s.flights
  }

  /** `get_or_create`: insert a fresh session if the id is unknown. */
  function GetOrCreate(store: Store, id: uint64): Store {
    if id in store then store else store[id := NewSession(id)]
  }

  /** `save`: insert or overwrite under the session's own id. */
  function Save(store: Store, session: Session): Store {
    store[session.id := session]
  }

  ghost function Apply(s: State, step: Step): State
    requires Enabled(s, step)
  {
    match step
    case Touch(id) => s.(store := GetOrCreate(s.store, id), history := s.history + [Touched(id)])
    case Begin(r, q) =>
      var store := GetOrCreate(s.store, q.session);
      s.(store := store, flights := s.flights[r := Flight(q, store[q.session], Loaded, |s.history|)],
         history := s.history + [Touched(q.session)])
    case Enter(r) =>
      var f := s.flights[r];
      (match EffectOf(f).call
       case Some(ctx) =>
         s.(flights := s.flights[r := f.(phase := InHandler)], log := s.log + [Started(f.request.session, ctx)])
       case None => s.(flights := s.flights[r := f.(phase := Processed)]))
    case Return(r) =>
      var f := s.flights[r];
      s.(flights := s.flights[r := f.(phase := Processed)],
         log := s.log + [Finished(f.request.session, f.copy, EffectOf(f).session)])
    case Commit(r) =>
      var f := s.flights[r];
      s.(store := Save(s.store, EffectOf(f).session), flights := s.flights - {r}, history := s.history + [Committed(f.request)])
    case Abort(r) => s.(flights := s.flights - {r})
  }

  // ---------------------------------------------------------------- schedules

  ghost predicate Legal(steps: seq<Step>)
    decreases |steps|, 0
  {
    steps == [] || (Legal(steps[..|steps| - 1]) && Enabled(After(steps[..|steps| - 1]), steps[|steps| - 1]))
  }

  ghost function After(steps: seq<Step>): State
    requires Legal(steps)
    decreases |steps|, 1
  {
    if steps == [] then Init() else Apply(After(steps[..|steps| - 1]), steps[|steps| - 1])
  }

  lemma LegalSnoc(steps: seq<Step>, step: Step)
    requires Legal(steps) && Enabled(After(steps), step)
    ensures Legal(steps + [step]) && After(steps + [step]) == Apply(After(steps), step)
  {
    var all := steps + [step];
    var n := |steps|;
    assert |all| == n + 1 && all != [];
    assert all[n] == step;
    assert all[..n] == steps;
  }

  // ---------------------------------------------------------------- isolation

  /** Entries are filed under their own id, and so are the copies in flight. */
  ghost predicate Keyed(s: State) {
    && (forall id :: id in s.store ==> s.store[id].id == id)
    && (forall r :: r in s.flights ==>
          && KeepsId(s.flights[r].request)
          && s.flights[r].request.session in s.store
          && s.flights[r].copy.id == s.flights[r].request.session)
  }

  lemma StepKeepsKeyed(s: State, step: Step)
    requires Keyed(s) && Enabled(s, step)
    ensures Keyed(Apply(s, step))
  {
    if step.Commit? {
      var f := s.flights[step.r];
      assert EffectOf(f).session.id == f.copy.id;
    }
  }

  lemma {:induction false} EveryScheduleKeyed(steps: seq<Step>)
    requires Legal(steps)
    ensures Keyed(After(steps))
    decreases |steps|
  {
    if steps != [] {
      EveryScheduleKeyed(steps[..|steps| - 1]);
      StepKeepsKeyed(After(steps[..|steps| - 1]), steps[|steps| - 1]);
    }
  }

  /** The session a step is about. */
  ghost function Concerns(s: State, step: Step): uint64
    requires Enabled(s, step)
  {
    match step
    case Touch(id) => id
    case Begin(_, q) => q.session
    case _ => s.flights[step.r].request.session
  }

  /** On every schedule, overlapping or not: a step changes no entry but that of its own session, only a
      commit changes an entry that exists, and an aborted request leaves the store as it is. */
  lemma RequestsAreIsolated(steps: seq<Step>, step: Step)
    requires Legal(steps) && Enabled(After(steps), step)
    ensures var s := After(steps);
            var t := Apply(s, step);
            && (forall id :: id != Concerns(s, step) ==> (id in t.store <==> id in s.store))
            && (forall id :: id in s.store ==> id in t.store)
            && (forall id :: id in s.store && id != Concerns(s, step) ==> t.store[id] == s.store[id])
            && (!step.Commit? ==> forall id :: id in s.store ==> t.store[id] == s.store[id])
            && (step.Abort? ==> t.store == s.store)
  {
    EveryScheduleKeyed(steps);
    if step.Commit? {
      var f := After(steps).flights[step.r];
      assert EffectOf(f).session.id == f.request.session;
    }
  }

  // ---------------------------------------------------------------- serialisation

  /** Executing store operations one at a time, each request from load to save without interruption. */
  ghost function Serial(history: seq<Entry>): Store {
    if history == [] then map[]
    else SerialStep(Serial(history[..|history| - 1]), history[|history| - 1])
  }

  ghost function SerialStep(store: Store, e: Entry): Store {
    match e
    case Touched(id) => GetOrCreate(store, id)
    case Committed(q) =>
      var loaded := GetOrCreate(store, q.session);
      Save(loaded, q.run(loaded[q.session]).session)
  }

  ghost predicate CommitOn(e: Entry, id: uint64) { e.Committed? && e.request.session == id }

  /** Another request on the session was saved since flight `r` made its copy. */
  ghost predicate Stale(s: State, r: nat)
    requires r in s.flights
  {
    exists i :: s.flights[r].at <= i < |s.history| && CommitOn(s.history[i], s.flights[r].request.session)
  }

  /** No request is saved whose copy has become stale. */
  ghost predicate NoStaleCommit(steps: seq<Step>)
    requires Legal(steps)
    decreases |steps|
  {
    steps == [] ||
    (var step := steps[|steps| - 1];
     NoStaleCommit(steps[..|steps| - 1]) && (step.Commit? ==> !Stale(After(steps[..|steps| - 1]), step.r)))
  }

  /** A copy in flight equals the stored entry unless it is stale. */
  ghost predicate FreshAt(s: State, r: nat)
    requires r in s.flights
  {
    var f := s.flights[r];
    && f.at <= |s.history| && f.request.session in s.store
    && (!Stale(s, r) ==> s.store[f.request.session] == f.copy)
  }

  ghost predicate Fresh(s: State) { forall r :: r in s.flights ==> FreshAt(s, r) }

  lemma StepKeepsFreshAt(s: State, step: Step, r: nat)
    requires Keyed(s) && Enabled(s, step) && r in s.flights && FreshAt(s, r) && r in Apply(s, step).flights
    ensures FreshAt(Apply(s, step), r)
  {
    var t := Apply(s, step);
    var id := s.flights[r].request.session;
    assert Stale(t, r) <== Stale(s, r) by {
      if i :| s.flights[r].at <= i < |s.history| && CommitOn(s.history[i], id) { assert CommitOn(t.history[i], id); }
    }
    if step.Commit? {
      var f := s.flights[step.r];
      assert EffectOf(f).session.id == f.request.session;
      if f.request.session == id { assert CommitOn(t.history[|s.history|], id); }
    }
  }

  lemma StepKeepsFresh(s: State, step: Step)
    requires Keyed(s) && Fresh(s) && Enabled(s, step)
    ensures Fresh(Apply(s, step))
  {
    forall r | r in Apply(s, step).flights ensures FreshAt(Apply(s, step), r) {
      if r in s.flights { StepKeepsFreshAt(s, step, r); }
    }
  }

  lemma {:induction false} EveryScheduleFresh(steps: seq<Step>)
    requires Legal(steps)
    ensures Fresh(After(steps))
    decreases |steps|
  {
    if steps != [] {
      EveryScheduleFresh(steps[..|steps| - 1]);
      EveryScheduleKeyed(steps[..|steps| - 1]);
      StepKeepsFresh(After(steps[..|steps| - 1]), steps[|steps| - 1]);
    }
  }

  /** If no stale copy is saved, then whatever the interleaving, the store is what the same requests leave
      when executed one after the other in commit order. Requests on one session may overlap, as long as
      none commits between another's load and that other's commit. */
  lemma {:induction false} FreshCommitsSerialise(steps: seq<Step>)
    requires Legal(steps) && NoStaleCommit(steps)
    ensures After(steps).store == Serial(After(steps).history)
    decreases |steps|
  {
    if steps != [] {
      var before := steps[..|steps| - 1];
      FreshCommitsSerialise(before);
      EveryScheduleFresh(before);
      StepSerialises(After(before), steps[|steps| - 1]);
    }
  }

  ghost predicate NoOverlap(s: State) {
    forall r, q :: r in s.flights && q in s.flights && s.flights[r].request.session == s.flights[q].request.session ==> r == q
  }

  /** No two requests on one session are ever in flight together. */
  ghost predicate NeverOverlaps(steps: seq<Step>)
    requires Legal(steps)
    decreases |steps|
  {
    NoOverlap(After(steps)) && (steps != [] ==> NeverOverlaps(steps[..|steps| - 1]))
  }

  lemma StepKeepsUnstale(s: State, step: Step, r: nat)
    requires NoOverlap(s) && Enabled(s, step) && r in Apply(s, step).flights
    requires r in s.flights ==> !Stale(s, r)
    ensures !Stale(Apply(s, step), r)
  {
    var t := Apply(s, step);
    var f := t.flights[r];
    forall i | f.at <= i < |t.history| ensures !CommitOn(t.history[i], f.request.session) {
      if i < |s.history| { assert t.history[i] == s.history[i]; }
    }
  }

  /** Requests on one session that never overlap are a special case. */
  lemma {:induction false} NonOverlappingRequestsSerialise(steps: seq<Step>)
    requires Legal(steps) && NeverOverlaps(steps)
    ensures NoStaleCommit(steps)
    ensures forall r :: r in After(steps).flights ==> !Stale(After(steps), r)
    ensures After(steps).store == Serial(After(steps).history)
    decreases |steps|
  {
    if steps != [] {
      var before := steps[..|steps| - 1];
      NonOverlappingRequestsSerialise(before);
      forall r | r in After(steps).flights ensures !Stale(After(steps), r) {
        StepKeepsUnstale(After(before), steps[|steps| - 1], r);
      }
    }
    FreshCommitsSerialise(steps);
  }

  lemma SerialSnoc(history: seq<Entry>, e: Entry)
    ensures Serial(history + [e]) == SerialStep(Serial(history), e)
  {
    assert (history + [e])[..|history + [e]| - 1] == history;
  }

  lemma StepSerialises(s: State, step: Step)
    requires Fresh(s) && Enabled(s, step) && s.store == Serial(s.history)
    requires step.Commit? ==> !Stale(s, step.r)
    ensures Apply(s, step).store == Serial(Apply(s, step).history)
  {
    match step
    case Touch(id) => SerialSnoc(s.history, Touched(id));
    case Begin(_, q) => SerialSnoc(s.history, Touched(q.session));
    case Commit(r) =>
      var f := s.flights[r];
      assert FreshAt(s, r);
      SerialSnoc(s.history, Committed(f.request));
      assert GetOrCreate(s.store, f.request.session) == s.store;
    case Enter(_) =>
    case Return(_) =>
    case Abort(_) =>
  }

  /** A stale commit is what breaks it: a key exchange is lost when a request that loaded the session before it
      commits after it. */
  lemma OverlapLosesAnUpdate() returns (steps: seq<Step>)
    ensures Legal(steps)
    ensures var s := After(steps);
            && 7 in s.store && s.store[7].key == None
            && 7 in Serial(s.history) && Serial(s.history)[7].key.Some?
  {
    var env := EchoEnv(1);
    var exchange := Served(env, Frame(Header(CMD_KEY_EXCHANGE, 0, 32, 7), seq(32, _ => 0)), TCP);
    var unknown := Served(env, Frame(Header(9, 0, 0, 7), []), TCP);
    forall session: Session
      ensures exchange.run(session).session.id == session.id && exchange.run(session).completed
      ensures exchange.run(session).session.key.Some? && exchange.run(session).call == None
      ensures unknown.run(session) == Nothing(session)
    {
    }
    steps := OverlappingCommits(exchange, unknown);
    SerialOfFour(exchange, unknown);
  }

  /** `p` and `q` load session 7, then `p` commits, then `q`. */
  lemma OverlappingCommits(p: Request, q: Request) returns (steps: seq<Step>)
    requires p.session == q.session == 7 && KeepsId(p) && KeepsId(q)
    requires p.run(NewSession(7)).completed && p.run(NewSession(7)).call == None
    requires q.run(NewSession(7)).completed && q.run(NewSession(7)).call == None
    ensures Legal(steps)
    ensures After(steps).store == map[7 := q.run(NewSession(7)).session]
    ensures After(steps).history == [Touched(7), Touched(7), Committed(p), Committed(q)]
  {
    steps := TwoLoaded(p, q);
    LegalSnoc(steps, Enter(1));
    steps := steps + [Enter(1)];
    LegalSnoc(steps, Commit(1));
    steps := steps + [Commit(1)];
    LegalSnoc(steps, Enter(2));
    steps := steps + [Enter(2)];
    LegalSnoc(steps, Commit(2));
    steps := steps + [Commit(2)];
  }

  lemma TwoLoaded(p: Request, q: Request) returns (steps: seq<Step>)
    requires p.session == q.session == 7 && KeepsId(p) && KeepsId(q)
    ensures Legal(steps)
    ensures After(steps) == State(map[7 := NewSession(7)],
                                  map[1 := Flight(p, NewSession(7), Loaded, 0), 2 := Flight(q, NewSession(7), Loaded, 1)],
                                  [], [Touched(7), Touched(7)])
  {
    LegalSnoc([], Begin(1, p));
    steps := [] + [Begin(1, p)];
    LegalSnoc(steps, Begin(2, q));
    steps := steps + [Begin(2, q)];
  }

  lemma SerialOfFour(p: Request, q: Request)
    requires p.session == q.session == 7 && KeepsId(p) && KeepsId(q)
    ensures var first := p.run(NewSession(7)).session;
            Serial([Touched(7), Touched(7), Committed(p), Committed(q)]) == map[7 := q.run(first).session]
  {
    var h := [Touched(7), Touched(7), Committed(p), Committed(q)];
    assert h[..3][..2] == [Touched(7), Touched(7)] && h[..3][2] == Committed(p);
    assert h[..3][..2][..1] == [Touched(7)] && h[..3][..2][..1][..0] == [];
    assert Serial([Touched(7)]) == map[7 := NewSession(7)];
    assert Serial(h[..3][..2]) == map[7 := NewSession(7)];
    assert Serial(h[..3]) == map[7 := p.run(NewSession(7)).session];
  }

  // ---------------------------------------------------------------- the code itself

  /** `InMemorySessionStore`. */
  class InMemorySessionStore {
    var store: Store

    constructor ()
      ensures store == map[]
    {
      store := map[];
    }

    /** Copy the session out, creating it first if the id is unknown. */
    method Load(id: uint64) returns (session: Session)
      modifies this
      ensures store == GetOrCreate(old(store), id)
      ensures session == store[id]
    {
      if id in store { return store[id]; }
      session := NewSession(id);
      store := store[id := session];
    }

    method SaveSession(session: Session)
      modifies this
      ensures store == Save(old(store), session)
    {
      store := store[session.id := session];
    }
  }
}
