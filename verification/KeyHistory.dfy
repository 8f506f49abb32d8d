/** The life of a session key: from the key exchange that sets it to the messages it opens
    (src/UringEngine/CommandRoute.cpp, src/UringEngine/EncryptedHandler.cpp). */
module KeyHistory {

  import opened Options
  import opened Bytes
  import opened BinaryFraming
  import opened Commands
  import opened Routing
  import opened Requests

  /** Processing this request never changes the key of its session. */
  ghost predicate LeavesKeyAlone(q: Request) {
    forall session: Session :: q.run(session).session.key == session.key
  }

  /** Handlers and authenticator leave the key alone. */
  ghost predicate KeepsKeys(env: Env) {
    && (forall ctx :: env.auth(ctx).Verdict? ==> env.auth(ctx).session.key == ctx.session.key)
    && (forall c, ctx :: c in env.router && env.router[c].handler(ctx).Answered? ==>
          env.router[c].handler(ctx).session.key == ctx.session.key)
  }

  /** Then every request but a key exchange, plain or encrypted, leaves the key alone: in particular the
      tunnel cannot be used to exchange keys. */
  lemma OnlyKeyExchangeSetsKeys(env: Env, frame: Frame, transport: Transport)
    requires KeepsKeys(env) && frame.header.command != CMD_KEY_EXCHANGE
    ensures LeavesKeyAlone(Served(env, frame, transport))
  {
    var q := Served(env, frame, transport);
    forall session: Session ensures q.run(session).session.key == session.key {
      ProcessingKeepsKey(env, frame, session, transport);
    }
  }

  lemma ProcessingKeepsKey(env: Env, frame: Frame, session: Session, transport: Transport)
    requires KeepsKeys(env) && frame.header.command != CMD_KEY_EXCHANGE
    ensures ProcessCommand(env, frame, session, transport).session.key == session.key
  {
    if frame.header.command == CMD_ENCRYPTED_MESSAGE && session.key.Some? {
      var m := OpenEnvelope(env.aead, session.key.value, frame.payload);
      if m.Some? { TunnelKeepsKey(env, session.key.value, m.value, session, transport); }
    }
  }

  lemma TunnelKeepsKey(env: Env, key: Key, m: Message, session: Session, transport: Transport)
    requires KeepsKeys(env)
    ensures RouteAndSend(env, key, m, session, transport).session.key == session.key
  {
  }

  /** The key of session `id` is `key`, in the store and in every copy in flight, and nobody in flight
      will change it. */
  ghost predicate KeyIs(s: State, id: uint64, key: Key) {
    && id in s.store && s.store[id].key == Some(key)
    && forall r :: r in s.flights && s.flights[r].request.session == id ==>
         s.flights[r].copy.key == Some(key) && LeavesKeyAlone(s.flights[r].request)
  }

  /** Every request on `id` that begins in these steps leaves the key alone. */
  ghost predicate NoExchange(id: uint64, steps: seq<Step>) {
    forall i :: 0 <= i < |steps| && steps[i].Begin? && steps[i].request.session == id ==> LeavesKeyAlone(steps[i].request)
  }

  lemma StepKeepsKey(s: State, step: Step, id: uint64, key: Key)
    requires Keyed(s) && KeyIs(s, id, key) && Enabled(s, step)
    requires step.Begin? && step.request.session == id ==> LeavesKeyAlone(step.request)
    ensures KeyIs(Apply(s, step), id, key)
  {
    if step.Commit? {
      var f := s.flights[step.r];
      assert EffectOf(f).session.id == f.request.session;
      if f.request.session == id { assert EffectOf(f).session.key == f.copy.key; }
    }
  }

  lemma {:induction false} KeyPersists(steps: seq<Step>, more: seq<Step>, id: uint64, key: Key)
    requires Legal(steps) && Legal(steps + more) && KeyIs(After(steps), id, key) && NoExchange(id, more)
    ensures KeyIs(After(steps + more), id, key)
    decreases |more|
  {
    if more == [] {
      assert steps + more == steps;
    } else {
      var last := |more| - 1;
      var before := steps + more[..last];
      assert (steps + more)[..|steps + more| - 1] == before && (steps + more)[|steps + more| - 1] == more[last];
      KeyPersists(steps, more[..last], id, key);
      EveryScheduleKeyed(before);
      StepKeepsKey(After(before), more[last], id, key);
    }
  }

  /** A key exchange as it arrives: the payload is the public key of `client`. */
  datatype Exchange = Exchange(env: Env, header: Header, transport: Transport, client: Key) {
    function Frame(): BinaryFraming.Frame { BinaryFraming.Frame(header, env.agreement.public(client)) }
  }

  /** Flight `r` is this exchange, about to be saved, its reply starts what the client received, and no other
      request on its session is in flight. */
  ghost predicate ExchangeReady(s: State, r: nat, x: Exchange, received: seq<byte>) {
    && Enabled(s, Commit(r))
    && x.header.command == CMD_KEY_EXCHANGE && SoundAgreement(x.env.agreement)
    && s.flights[r].request == Served(x.env, x.Frame(), x.transport)
    && EffectOf(s.flights[r]).reply.Some?
    && (exists next :: received == EncodeFrame(EffectOf(s.flights[r]).reply.value) + next)
    && forall q :: q in s.flights && s.flights[q].request.session == s.flights[r].request.session ==> q == r
  }

  /** The key the client derives from what it received. */
  ghost function DerivedKey(x: Exchange, received: seq<byte>): Option<Key> {
    ClientKey(x.env.agreement, x.client, received)
  }

  lemma CommittedExchangeSetsKey(s: State, r: nat, x: Exchange, received: seq<byte>)
    requires Keyed(s) && ExchangeReady(s, r, x, received)
    ensures DerivedKey(x, received).Some?
    ensures KeyIs(Apply(s, Commit(r)), x.header.session, DerivedKey(x, received).value)
  {
    var f := s.flights[r];
    assert EffectOf(f) == ProcessCommand(x.env, x.Frame(), f.copy, x.transport);
    var next :| received == EncodeFrame(EffectOf(f).reply.value) + next;
    KeyExchangeAgrees(x.env, x.client, x.header, f.copy, x.transport, next);
    assert EffectOf(f).session.id == x.header.session;
  }

  /** After a saved key exchange that no request on its session overlaps, and until the next one, the
      stored key equals the key the client derived, whatever else runs in between; and any request on
      the session then opens every envelope the client seals, to exactly the command and payload sent. */
  lemma ClientMessagesOpen(steps: seq<Step>, r: nat, x: Exchange, received: seq<byte>, more: seq<Step>, aead: Aead)
    requires Legal(steps) && ExchangeReady(After(steps), r, x, received)
    requires Legal(steps + [Commit(r)]) && Legal(steps + [Commit(r)] + more)
    requires NoExchange(x.header.session, more) && SoundAead(aead)
    ensures var id := x.header.session;
            var t := After(steps + [Commit(r)] + more);
            var key := DerivedKey(x, received);
            && key.Some? && id in t.store && t.store[id].key == key
            && (forall q :: q in t.flights && t.flights[q].request.session == id ==> t.flights[q].copy.key == key)
            && (forall iv: Nonce, m ::
                  OpenEnvelope(aead, t.store[id].key.value, SealEnvelope(aead, key.value, iv, m)) == Some(m))
  {
    EveryScheduleKeyed(steps);
    CommittedExchangeSetsKey(After(steps), r, x, received);
    LegalSnoc(steps, Commit(r));
    var key := DerivedKey(x, received).value;
    KeyPersists(steps + [Commit(r)], more, x.header.session, key);
    forall iv: Nonce, m ensures OpenEnvelope(aead, key, SealEnvelope(aead, key, iv, m)) == Some(m) {
      EnvelopeRoundTrip(aead, key, iv, m);
    }
  }
}
