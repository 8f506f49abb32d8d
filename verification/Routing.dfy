/** What one request does, told from what arrives (src/UringEngine/CommandRoute.cpp,
    src/UringEngine/EncryptedHandler.cpp).

    The statements name wire bytes, routes and handlers only: which frames have no effect at all, when exactly
    the handler is called and with what, and what the answer looks like on the wire. */
module Routing {

  import opened Options
  import opened Bytes
  import opened BinaryFraming
  import opened Commands

  ghost predicate NoEffect(e: Effect, session: Session) {
    e.completed && e.session == session && e.events == [] && e.reply == None && e.call == None
  }

  // ---------------------------------------------------------------- the gate

  ghost predicate Refused(env: Env, ctx: Context)
    requires ctx.header.command in env.router
  {
    env.router[ctx.header.command].requiresAuth && env.auth(ctx).AuthFailed?
  }

  /** The authenticator has the word only where authentication is required; the transport must be allowed. */
  ghost predicate Admits(env: Env, ctx: Context)
    requires ctx.header.command in env.router
  {
    var ep := env.router[ctx.header.command];
    && (ep.requiresAuth ==> env.auth(ctx).Verdict? && env.auth(ctx).ok)
    && (ep.allowed == ANY || ep.allowed == ctx.transport)
  }

  /** The session as the authenticator, if asked, left it. */
  ghost function Entering(env: Env, ctx: Context): Session
    requires ctx.header.command in env.router
  {
    if env.router[ctx.header.command].requiresAuth && env.auth(ctx).Verdict? then env.auth(ctx).session else ctx.session
  }

  /** The handler is called exactly if the command is routed and its gate admits the request, with this
      context; its session and events are kept, and it is answered exactly if it returns. */
  ghost predicate RoutedExactly(env: Env, ctx: Context, e: Effect) {
    if ctx.header.command !in env.router then NoEffect(e, ctx.session)
    else if Refused(env, ctx) then
      !e.completed && e.call == None && e.reply == None && e.events == [] && e.session == ctx.session
    else if !Admits(env, ctx) then NoEffect(e, Entering(env, ctx))
    else
      var call := ctx.(session := Entering(env, ctx));
      && e.call == Some(call)
      && match env.router[ctx.header.command].handler(call)
         case Failed(events) => !e.completed && e.reply == None && e.events == events
         case Answered(_, _, session, events) => e.completed && e.reply.Some? && e.events == events && e.session == session
  }

  /** What the handler of an answered request returned. */
  ghost function Answer(env: Env, e: Effect): HandlerResult
    requires e.call.Some? && e.call.value.header.command in env.router
  {
    env.router[e.call.value.header.command].handler(e.call.value)
  }

  /** The plain path, for every command but the two reserved ids: the reply carries the command, the handler's
      flags and payload and the resulting session's id, and is read back whole below 4 GiB. */
  lemma PlainExactly(env: Env, frame: Frame, session: Session, transport: Transport)
    requires frame.header.command != 0x00F0 && frame.header.command != 0x00F1
    ensures var e := ProcessCommand(env, frame, session, transport);
            && RoutedExactly(env, Context(frame.header, frame.payload, session, transport), e)
            && (e.reply.Some? ==>
                  && e.call.Some? && e.call.value.header.command in env.router && Answer(env, e).Answered?
                  && var a := Answer(env, e);
                     && e.reply.value.header.command == frame.header.command
                     && e.reply.value.header.flags == a.flags && e.reply.value.header.session == a.session.id
                     && e.reply.value.payload == a.payload
                     && (|a.payload| < 0x1_0000_0000 ==>
                           DecodeFrame(EncodeFrame(e.reply.value)) == Got(e.reply.value, [])))
  {
    var e := ProcessCommand(env, frame, session, transport);
    if e.reply.Some? {
      var h := e.reply.value.header;
      PayloadSurvivesExactlyBelow4GiB(h.command, h.flags, h.session, e.reply.value.payload);
    }
  }

  // ---------------------------------------------------------------- the tunnel

  /** The encrypted path, for every payload: an envelope that does not open has no effect at all, whatever the
      bytes inside; any other routes exactly the command and payload the cipher gave back, and the answer is
      sealed under the same key and the nonce drawn for it. */
  lemma TunnelExactly(env: Env, outer: Header, payload: seq<byte>, session: Session, transport: Transport)
    requires outer.command == 0x00F1
    ensures var e := ProcessCommand(env, Frame(outer, payload), session, transport);
            match Plaintext(env.aead, session, payload)
            case None => NoEffect(e, session)
            case Some(plain) =>
              var command := FirstTwo(plain);
              var header := Header(command, 0, (|plain| - 2) % 0x1_0000_0000, session.id);
              && RoutedExactly(env, Context(header, plain[2..], session, transport), e)
              && (e.reply.Some? ==>
                    && e.call.Some? && e.call.value.header.command in env.router && Answer(env, e).Answered?
                    && TunnelReply(env, session.key.value, command, Answer(env, e), e.reply.value))
  {
    if session.key.Some? {
      OpensExactly(env.aead, session, payload);
      if Plaintext(env.aead, session, payload).Some? {
        var plain := Plaintext(env.aead, session, payload).value;
        RouteAndSendExactly(env, session.key.value, Message(FirstTwo(plain), plain[2..]), session, transport);
      }
    }
  }

  ghost predicate TunnelReply(env: Env, key: Key, command: uint16, a: HandlerResult, reply: Frame)
    requires a.Answered?
  {
    && reply.header.command == 0x00F1 && reply.header.flags == a.flags && reply.header.session == a.session.id
    && (|reply.payload| < 0x1_0000_0000 ==> DecodeFrame(EncodeFrame(reply)) == Got(reply, []))
    && (SoundAead(env.aead) ==> Sealed(env.aead, key, env.iv, command, a.payload, reply.payload))
  }

  lemma RouteAndSendExactly(env: Env, key: Key, m: Message, session: Session, transport: Transport)
    ensures var e := RouteAndSend(env, key, m, session, transport);
            && RoutedExactly(env, Context(Header(m.command, 0, |m.payload| % 0x1_0000_0000, session.id), m.payload, session, transport), e)
            && (e.reply.Some? ==>
                  && e.call.Some? && e.call.value.header.command in env.router && Answer(env, e).Answered?
                  && TunnelReply(env, key, m.command, Answer(env, e), e.reply.value))
  {
    var e := RouteAndSend(env, key, m, session, transport);
    if e.reply.Some? {
      var h := e.reply.value.header;
      PayloadSurvivesExactlyBelow4GiB(h.command, h.flags, h.session, e.reply.value.payload);
      if SoundAead(env.aead) { SealedLayout(env.aead, key, env.iv, Message(m.command, Answer(env, e).payload)); }
    }
  }

  // ---------------------------------------------------------------- the key exchange

  /** A key exchange, for every payload and whatever the key agreement: a payload that is not 32 bytes has no
      effect; a public key the agreement refuses ends the request; any other sets the shared secret and
      replies with the server's public key in a frame that is read back whole. */
  lemma KeyExchangeExactly(env: Env, frame: Frame, session: Session, transport: Transport)
    requires frame.header.command == 0x00F0
    ensures var e := ProcessCommand(env, frame, session, transport);
            if |frame.payload| != 32 then NoEffect(e, session)
            else
              && e.call == None && e.events == []
              && match env.agreement.shared(env.private, frame.payload)
                 case None => !e.completed && e.reply == None && e.session == session
                 case Some(secret) =>
                   var reply := Frame(Header(0x00F0, 0, 32, session.id), env.agreement.public(env.private));
                   && e.completed && e.session == session.(key := Some(secret)) && e.reply == Some(reply)
                   && DecodeFrame(EncodeFrame(reply)) == Got(reply, [])
  {
    var reply := Frame(Header(0x00F0, 0, 32, session.id), env.agreement.public(env.private));
    PayloadSurvivesExactlyBelow4GiB(0x00F0, 0, session.id, reply.payload);
  }

  /** The key a client with this private key derives from the bytes it receives. */
  ghost function ClientKey(agreement: KeyAgreement, client: Key, received: seq<byte>): Option<Key> {
    match DecodeFrame(received)
    case Raised => None
    case Got(f, _) =>
      if f.header.command == 0x00F0 && f.header.length == 32 && |f.payload| == 32
      then agreement.shared(client, f.payload) else None
  }

  /** A client that keeps its private key derives, from the frame it reads off the wire, the very key the
      server stored; whatever is sent next is read from its first byte. */
  lemma KeyExchangeAgrees(env: Env, client: Key, header: Header, session: Session, transport: Transport, next: seq<byte>)
    requires SoundAgreement(env.agreement) && header.command == 0x00F0
    ensures var e := ProcessCommand(env, Frame(header, env.agreement.public(client)), session, transport);
            && e.completed && e.reply.Some? && e.call == None
            && e.session.key.Some? && e.session == session.(key := e.session.key)
            && ClientKey(env.agreement, client, EncodeFrame(e.reply.value) + next) == e.session.key
            && DecodeFrame(EncodeFrame(e.reply.value) + next) == Got(e.reply.value, next)
  {
    var e := ProcessCommand(env, Frame(header, env.agreement.public(client)), session, transport);
    assert Agree(env.agreement, env.private, client);
    KeyExchangeExactly(env, Frame(header, env.agreement.public(client)), session, transport);
    FrameThenRest(e.reply.value, next);
  }
}
