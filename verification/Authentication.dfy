/** Who may run what: the gate in front of every handler, over whole runs of interleaved requests
    (src/UringEngine/CommandRoute.cpp, src/UringEngine/EncryptedHandler.cpp,
    include/servd/auth/DefaultAuthenticator.hpp). */
module Authentication {

  import opened Options
  import opened Bytes
  import opened BinaryFraming
  import opened Commands
  import opened Routing
  import opened Requests

  /** The part of an endpoint that decides who gets in. */
  datatype Guard = Guard(requiresAuth: bool, allowed: Transport)

  /** Fixed routes: every request sees the same guards, whatever its handlers do this time, and the
      default authenticator. */
  ghost predicate GuardedEnv(routes: map<uint16, Guard>, env: Env) {
    && (forall c :: c in env.router ==>
          c in routes && routes[c] == Guard(env.router[c].requiresAuth, env.router[c].allowed))
    && (forall ctx :: env.auth(ctx) == DefaultAuthenticator(ctx))
  }

  /** A handler runs only past its guard, on the session as loaded; and without a handler call the
      authentication flag does not change. */
  ghost predicate GateHolds(routes: map<uint16, Guard>, e: Effect, copy: Session) {
    match e.call
    case Some(ctx) =>
      && ctx.session == copy
      && ctx.header.command in routes
      && (routes[ctx.header.command].requiresAuth ==> copy.authenticated)
      && (routes[ctx.header.command].allowed == ANY || routes[ctx.header.command].allowed == ctx.transport)
    case None => e.session.authenticated == copy.authenticated
  }

  ghost predicate Guarded(routes: map<uint16, Guard>, q: Request) {
    forall copy: Session :: GateHolds(routes, q.run(copy), copy)
  }

  ghost predicate AllGuarded(routes: map<uint16, Guard>, steps: seq<Step>) {
    forall i :: 0 <= i < |steps| && steps[i].Begin? ==> Guarded(routes, steps[i].request)
  }

  lemma PlainPathIsGuarded(routes: map<uint16, Guard>, env: Env, frame: Frame, transport: Transport, copy: Session)
    requires GuardedEnv(routes, env)
    ensures var e := HandleNormalCommand(env, frame, copy, transport);
            GateHolds(routes, e, copy) && (e.call.Some? ==> e.call.value.transport == transport)
  {
  }

  lemma TunnelIsGuarded(routes: map<uint16, Guard>, env: Env, key: Key, m: Message, transport: Transport, copy: Session)
    requires GuardedEnv(routes, env)
    ensures var e := RouteAndSend(env, key, m, copy, transport);
            GateHolds(routes, e, copy) && (e.call.Some? ==> e.call.value.transport == transport)
  {
  }

  /** The plain path and the encrypted path both keep the gate. */
  lemma BothPathsAreGuarded(routes: map<uint16, Guard>, env: Env, frame: Frame, transport: Transport, copy: Session)
    requires GuardedEnv(routes, env)
    ensures var e := ProcessCommand(env, frame, copy, transport);
            GateHolds(routes, e, copy) && (e.call.Some? ==> e.call.value.transport == transport)
  {
    if frame.header.command == CMD_ENCRYPTED_MESSAGE {
      if copy.key.Some? && OpenEnvelope(env.aead, copy.key.value, frame.payload).Some? {
        var m := OpenEnvelope(env.aead, copy.key.value, frame.payload).value;
        TunnelIsGuarded(routes, env, copy.key.value, m, transport, copy);
      }
    } else if frame.header.command != CMD_KEY_EXCHANGE {
      PlainPathIsGuarded(routes, env, frame, transport, copy);
    }
  }

  /** The command and payload a frame asks for: its own, or those inside the envelope if it opens. */
  ghost function Asked(env: Env, frame: Frame, copy: Session): Option<Message> {
    if frame.header.command == 0x00F0 then None
    else if frame.header.command == 0x00F1 then
      match Plaintext(env.aead, copy, frame.payload)
      case None => None
      case Some(plain) => Some(Message(FirstTwo(plain), plain[2..]))
    else Some(Message(frame.header.command, frame.payload))
  }

  /** It asks for a routed command, as an authenticated session where that is required, on a transport the
      route allows. */
  ghost predicate Entitles(env: Env, frame: Frame, transport: Transport, copy: Session) {
    var m := Asked(env, frame, copy);
    && m.Some? && m.value.command in env.router
    && var ep := env.router[m.value.command];
       (ep.requiresAuth ==> copy.authenticated) && (ep.allowed == ANY || ep.allowed == transport)
  }

  /** With the default authenticator, on the plain and on the encrypted path: the handler is called if and
      only if the frame and the loaded session entitle it to run, and then with exactly what was asked;
      otherwise, unless the frame is a key exchange, the request has no effect. */
  lemma HandlerRunsExactlyWhenEntitled(
    routes: map<uint16, Guard>, env: Env, frame: Frame, transport: Transport, copy: Session)
    requires GuardedEnv(routes, env)
    ensures var e := ProcessCommand(env, frame, copy, transport);
            && (e.call.Some? <==> Entitles(env, frame, transport, copy))
            && (e.call.Some? ==>
                  && e.call.value.header.command == Asked(env, frame, copy).value.command
                  && e.call.value.payload == Asked(env, frame, copy).value.payload
                  && e.call.value.session == copy && e.call.value.transport == transport)
            && (e.call.None? && frame.header.command != 0x00F0 ==> NoEffect(e, copy))
  {
    if frame.header.command == 0x00F0 {
      KeyExchangeExactly(env, frame, copy, transport);
    } else if frame.header.command == 0x00F1 {
      TunnelExactly(env, frame.header, frame.payload, copy, transport);
      assert frame == Frame(frame.header, frame.payload);
    } else {
      PlainExactly(env, frame, copy, transport);
    }
  }

  /** Over any run: when a request goes ahead with the copy it loaded, it starts its handler if and only if
      that copy entitles it to. */
  lemma StartsExactlyWhenEntitled(
    routes: map<uint16, Guard>, steps: seq<Step>, r: nat, env: Env, frame: Frame, transport: Transport)
    requires Legal(steps) && Enabled(After(steps), Enter(r)) && GuardedEnv(routes, env)
    requires After(steps).flights[r].request == Served(env, frame, transport)
    ensures var s := After(steps);
            var t := Apply(s, Enter(r));
            if Entitles(env, frame, transport, s.flights[r].copy) then
              && |t.log| == |s.log| + 1 && t.log[..|s.log|] == s.log && t.log[|s.log|].Started?
              && t.log[|s.log|].session == frame.header.session && t.log[|s.log|].ctx.session == s.flights[r].copy
              && t.log[|s.log|].ctx.payload == Asked(env, frame, s.flights[r].copy).value.payload
              && t.log[|s.log|].ctx.header.command == Asked(env, frame, s.flights[r].copy).value.command
            else t.log == s.log
  {
    HandlerRunsExactlyWhenEntitled(routes, env, frame, transport, After(steps).flights[r].copy);
  }

  lemma ServedIsGuarded(routes: map<uint16, Guard>, env: Env, frame: Frame, transport: Transport)
    requires GuardedEnv(routes, env)
    ensures Guarded(routes, Served(env, frame, transport))
  {
    var q := Served(env, frame, transport);
    forall copy: Session ensures GateHolds(routes, q.run(copy), copy) {
      BothPathsAreGuarded(routes, env, frame, transport, copy);
    }
  }

  /** Call number `j` of the log is a handler call on `id` that turned authentication on. */
  ghost predicate LogsIn(log: seq<Event>, j: nat, id: uint64) {
    && j < |log| && log[j].Finished? && log[j].session == id
    && !log[j].before.authenticated && log[j].after.authenticated
  }

  ghost predicate LoggedInBefore(log: seq<Event>, i: nat, id: uint64) {
    exists j: nat :: j < i && LogsIn(log, j, id)
  }

  /** Event `i` is allowed to be there: a started handler was entitled to run. */
  ghost predicate Entitled(routes: map<uint16, Guard>, log: seq<Event>, i: nat)
    requires i < |log|
  {
    log[i].Started? ==>
      var ctx := log[i].ctx;
      && ctx.header.command in routes
      && (routes[ctx.header.command].requiresAuth ==> LoggedInBefore(log, i, log[i].session))
      && (routes[ctx.header.command].allowed == ANY || routes[ctx.header.command].allowed == ctx.transport)
  }

  /** Whoever is marked authenticated, in the store or in flight, was logged in. */
  ghost predicate FlightInv(routes: map<uint16, Guard>, s: State, r: nat)
    requires r in s.flights
  {
    var f := s.flights[r];
    && Guarded(routes, f.request)
    && (f.copy.authenticated ==> LoggedInBefore(s.log, |s.log|, f.request.session))
    && (f.phase == Processed && EffectOf(f).session.authenticated ==> LoggedInBefore(s.log, |s.log|, f.request.session))
  }

  ghost predicate AuthInv(routes: map<uint16, Guard>, s: State) {
    && (forall id :: id in s.store && s.store[id].authenticated ==> LoggedInBefore(s.log, |s.log|, id))
    && (forall r :: r in s.flights ==> FlightInv(routes, s, r))
    && (forall i :: 0 <= i < |s.log| ==> Entitled(routes, s.log, i))
  }

  lemma LogGrows(log: seq<Event>, e: Event, i: nat, id: uint64)
    requires LoggedInBefore(log, i, id) && i <= |log|
    ensures LoggedInBefore(log + [e], i, id) && LoggedInBefore(log + [e], |log| + 1, id)
  {
    var j: nat :| j < i && LogsIn(log, j, id);
    assert LogsIn(log + [e], j, id);
  }

  lemma EntitledGrows(routes: map<uint16, Guard>, log: seq<Event>, e: Event)
    requires forall i :: 0 <= i < |log| ==> Entitled(routes, log, i)
    ensures forall i :: 0 <= i < |log| ==> Entitled(routes, log + [e], i)
  {
    forall i | 0 <= i < |log| ensures Entitled(routes, log + [e], i) {
      assert Entitled(routes, log, i);
      if log[i].Started? && LoggedInBefore(log, i, log[i].session) {
        LogGrows(log, e, i, log[i].session);
      }
    }
  }

  lemma LoggingKeeps(routes: map<uint16, Guard>, s: State, t: State, r: nat, e: Event)
    requires AuthInv(routes, s) && r in s.flights && r in t.flights
    requires t.store == s.store && t.log == s.log + [e] && t.flights == s.flights[r := t.flights[r]]
    requires FlightInv(routes, t, r) && Entitled(routes, t.log, |s.log|)
    ensures AuthInv(routes, t)
  {
    EntitledGrows(routes, s.log, e);
    forall id | id in t.store && t.store[id].authenticated ensures LoggedInBefore(t.log, |t.log|, id) {
      LogGrows(s.log, e, |s.log|, id);
    }
    forall q | q in t.flights ensures FlightInv(routes, t, q) {
      if q != r {
        assert FlightInv(routes, s, q);
        if LoggedInBefore(s.log, |s.log|, s.flights[q].request.session) {
          LogGrows(s.log, e, |s.log|, s.flights[q].request.session);
        }
      }
    }
  }

  lemma EnterKeepsAuth(routes: map<uint16, Guard>, s: State, r: nat)
    requires AuthInv(routes, s) && Enabled(s, Enter(r))
    ensures AuthInv(routes, Apply(s, Enter(r)))
  {
    var f := s.flights[r];
    var t := Apply(s, Enter(r));
    assert FlightInv(routes, s, r);
    assert GateHolds(routes, f.request.run(f.copy), f.copy);
    match EffectOf(f).call
    case Some(ctx) =>
      var e := Started(f.request.session, ctx);
      if f.copy.authenticated { LogGrows(s.log, e, |s.log|, f.request.session); }
      LoggingKeeps(routes, s, t, r, e);
    case None =>
      forall q | q in t.flights ensures FlightInv(routes, t, q) {
        assert FlightInv(routes, s, q);
      }
  }

  lemma ReturnKeepsAuth(routes: map<uint16, Guard>, s: State, r: nat)
    requires AuthInv(routes, s) && Enabled(s, Return(r))
    ensures AuthInv(routes, Apply(s, Return(r)))
  {
    var f := s.flights[r];
    var t := Apply(s, Return(r));
    var e := Finished(f.request.session, f.copy, EffectOf(f).session);
    assert FlightInv(routes, s, r);
    if f.copy.authenticated {
      LogGrows(s.log, e, |s.log|, f.request.session);
    } else if EffectOf(f).session.authenticated {
      assert LogsIn(t.log, |s.log|, f.request.session);
    }
    LoggingKeeps(routes, s, t, r, e);
  }

  lemma StoreStepKeepsAuth(routes: map<uint16, Guard>, s: State, step: Step)
    requires Keyed(s) && AuthInv(routes, s) && Enabled(s, step) && !step.Enter? && !step.Return?
    requires step.Begin? ==> Guarded(routes, step.request)
    ensures AuthInv(routes, Apply(s, step))
  {
    var t := Apply(s, step);
    if step.Commit? {
      var f := s.flights[step.r];
      assert FlightInv(routes, s, step.r);
      assert EffectOf(f).session.id == f.request.session;
    }
    forall q | q in t.flights ensures FlightInv(routes, t, q) {
      if q in s.flights { assert FlightInv(routes, s, q); }
    }
  }

  lemma {:induction false} EveryScheduleKeepsAuth(routes: map<uint16, Guard>, steps: seq<Step>)
    requires Legal(steps) && AllGuarded(routes, steps)
    ensures AuthInv(routes, After(steps))
    decreases |steps|
  {
    if steps != [] {
      var before := steps[..|steps| - 1];
      var step := steps[|steps| - 1];
      EveryScheduleKeepsAuth(routes, before);
      EveryScheduleKeyed(before);
      match step
      case Enter(r) => EnterKeepsAuth(routes, After(before), r);
      case Return(r) => ReturnKeepsAuth(routes, After(before), r);
      case _ => StoreStepKeepsAuth(routes, After(before), step);
    }
  }

  /** Every request of the run is a frame served with these routes and the default authenticator. */
  ghost predicate ServesOnly(routes: map<uint16, Guard>, steps: seq<Step>) {
    forall i :: 0 <= i < |steps| && steps[i].Begin? ==>
      exists env, frame, transport :: GuardedEnv(routes, env) && steps[i].request == Served(env, frame, transport)
  }

  lemma ServedRunsAreGuarded(routes: map<uint16, Guard>, steps: seq<Step>)
    requires ServesOnly(routes, steps)
    ensures AllGuarded(routes, steps)
  {
    forall i | 0 <= i < |steps| && steps[i].Begin? ensures Guarded(routes, steps[i].request) {
      var env, frame, transport :| GuardedEnv(routes, env) && steps[i].request == Served(env, frame, transport);
      ServedIsGuarded(routes, env, frame, transport);
    }
  }

  /** Over any interleaved run, overlapping or not, on the plain and on the encrypted path: whenever a
      handler that requires authentication starts for a session, an earlier handler call on that session
      turned authentication on; and every handler starts only on a transport it allows. */
  lemma HandlersRunOnlyWhenEntitled(routes: map<uint16, Guard>, steps: seq<Step>, i: nat)
    requires Legal(steps) && ServesOnly(routes, steps)
    requires i < |After(steps).log| && After(steps).log[i].Started?
    ensures var log := After(steps).log;
            var ctx := log[i].ctx;
            && ctx.header.command in routes
            && (routes[ctx.header.command].requiresAuth ==>
                  exists j :: 0 <= j < i && log[j].Finished? && log[j].session == log[i].session
                    && !log[j].before.authenticated && log[j].after.authenticated)
            && (routes[ctx.header.command].allowed == ANY || routes[ctx.header.command].allowed == ctx.transport)
  {
    ServedRunsAreGuarded(routes, steps);
    EveryScheduleKeepsAuth(routes, steps);
    var log := After(steps).log;
    assert Entitled(routes, log, i);
    if routes[log[i].ctx.header.command].requiresAuth {
      var j: nat :| j < i && LogsIn(log, j, log[i].session);
    }
  }
}
