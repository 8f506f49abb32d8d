/** Routing one request: the plain path, the encrypted path and the key exchange
    (src/UringEngine/CommandRoute.cpp, src/UringEngine/EncryptedHandler.cpp).

    Handlers, the authenticator, AES-GCM and X25519 are parameters: arbitrary functions, of which the
    lemmas assume only the contracts below. Random numbers are parameters too. */
module Commands {

  import opened Options
  import opened Bytes
  import opened BinaryFraming

  // ---------------------------------------------------------------- sessions, handlers, routes

  datatype Transport = ANY | TCP | UDP | UNIX

  type Key = k: seq<byte> | |k| == 32 witness seq(32, _ => 0)

  datatype Session = Session(id: uint64, authenticated: bool, user: seq<byte>, key: Option<Key>)

  function NewSession(id: uint64): Session { Session(id, false, [], None) }

  /** What a handler or authenticator sees. */
  datatype Context = Context(header: Header, payload: seq<byte>, session: Session, transport: Transport)

  /** How a handler ends: with a response and the session as it left it, or with an exception; either way
      it may have pushed events on the connection. */
  datatype HandlerResult =
    | Answered(flags: uint16, payload: seq<byte>, session: Session, events: seq<Frame>)
    | Failed(events: seq<Frame>)

  datatype Verdict = Verdict(ok: bool, session: Session) | AuthFailed

  type Authenticator = Context -> Verdict

  datatype Endpoint = Endpoint(handler: Context -> HandlerResult, requiresAuth: bool, allowed: Transport)

  /** Commands without a valid handler are not in the map. */
  type Router = map<uint16, Endpoint>

  function DefaultAuthenticator(ctx: Context): Verdict { Verdict(ctx.session.authenticated, ctx.session) }

  // ---------------------------------------------------------------- cryptography

  const NONCE_SIZE: nat := 12
  const TAG_SIZE: nat := 16

  type Nonce = n: seq<byte> | |n| == 12 witness seq(12, _ => 0)

  /** AES-256-GCM with empty associated data: `seal` yields ciphertext followed by tag. */
  datatype Aead = Aead(seal: (Key, Nonce, seq<byte>) -> seq<byte>, open: (Key, Nonce, seq<byte>) -> Option<seq<byte>>)

  /** Section 5.2 of RFC 5116: the ciphertext is 16 bytes longer than the plaintext, and opening what was
      sealed under the same key and nonce gives the plaintext back. */
  ghost predicate SoundAead(a: Aead) {
    && (forall k: Key, n: Nonce, p :: |a.seal(k, n, p)| == |p| + TAG_SIZE)
    && (forall k: Key, n: Nonce, p :: a.open(k, n, a.seal(k, n, p)) == Some(p))
  }

  /** X25519: a shared secret may be refused for a bad public key. */
  datatype KeyAgreement = KeyAgreement(public: Key -> Key, shared: (Key, Key) -> Option<Key>)

  /** Section 6.1 of RFC 7748: both sides derive the same secret. */
  ghost predicate SoundAgreement(x: KeyAgreement) { forall a: Key, b: Key :: Agree(x, a, b) }

  ghost predicate Agree(x: KeyAgreement, a: Key, b: Key) {
    x.shared(a, x.public(b)) == x.shared(b, x.public(a)) && x.shared(a, x.public(b)).Some?
  }

  // ---------------------------------------------------------------- processing a request

  const CMD_KEY_EXCHANGE: uint16 := 0x00F0
  const CMD_ENCRYPTED_MESSAGE: uint16 := 0x00F1

  /** Everything a request needs from outside; `iv` and `private` are the random numbers it will draw. */
  datatype Env = Env(router: Router, auth: Authenticator, aead: Aead, agreement: KeyAgreement, iv: Nonce, private: Key)

  /** What processing a request does: `completed` unless an exception escaped; the session copy as it ends;
      pushed events and the reply, if one is sent; the context of the handler call, if one is made. */
  datatype Effect = Effect(
    completed: bool,
    session: Session,
    events: seq<Frame>,
    reply: Option<Frame>,
    call: Option<Context>)

  function Nothing(session: Session): Effect { Effect(true, session, [], None, None) }

  function HandleKeyExchange(env: Env, frame: Frame, session: Session): Effect {
    if |frame.payload| != 32 then Nothing(session)
    else
      match env.agreement.shared(env.private, frame.payload)
      case None => Effect(false, session, [], None, None)
      case Some(secret) =>
        var reply := Frame(Header(CMD_KEY_EXCHANGE, 0, 32, session.id), env.agreement.public(env.private));
        Effect(true, session.(key := Some(secret)), [], Some(reply), None)
  }

  function HandleNormalCommand(env: Env, frame: Frame, session: Session, transport: Transport): Effect {
    var command := frame.header.command;
    if command !in env.router then Nothing(session)
    else
      var endpoint := env.router[command];
      var ctx := Context(frame.header, frame.payload, session, transport);
      var verdict := if endpoint.requiresAuth then env.auth(ctx) else Verdict(true, session);
      if verdict.AuthFailed? then Effect(false, session, [], None, None)
      else if !(verdict.ok && (endpoint.allowed == ANY || endpoint.allowed == transport)) then Nothing(verdict.session)
      else
        var call := ctx.(session := verdict.session);
        match endpoint.handler(call)
        case Failed(events) => Effect(false, verdict.session, events, None, Some(call))
        case Answered(flags, payload, session', events) =>
          var reply := Frame(Header(command, flags, ToUint32(|payload|), session'.id), payload);
          Effect(true, session', events, Some(reply), Some(call))
  }

  datatype Message = Message(command: uint16, payload: seq<byte>)

  /** The wire order is nonce, tag, ciphertext; the cipher works on ciphertext followed by tag. */
  function CipherInput(envelope: seq<byte>): seq<byte>
    requires |envelope| >= NONCE_SIZE + TAG_SIZE
  {
    envelope[NONCE_SIZE + TAG_SIZE..] + envelope[NONCE_SIZE..NONCE_SIZE + TAG_SIZE]
  }

  function Envelope(iv: Nonce, sealed: seq<byte>): seq<byte>
    requires |sealed| >= TAG_SIZE
  {
    iv + sealed[|sealed| - TAG_SIZE..] + sealed[..|sealed| - TAG_SIZE]
  }

  function SplitPlaintext(plain: seq<byte>): Option<Message> {
    if |plain| < 2 then None
    else
      LittleEndianEncodes(plain[..2]);
      PowersOf256();
      Some(Message(FromLittleEndian(plain[..2]), plain[2..]))
  }

  function JoinPlaintext(m: Message): seq<byte> {
    LittleEndian(m.command, 2) + m.payload
  }

  /** `do_decrypt`, given the key; the client opens responses the same way. */
  function OpenEnvelope(a: Aead, key: Key, envelope: seq<byte>): Option<Message> {
    if |envelope| < NONCE_SIZE + TAG_SIZE then None
    else
      match a.open(key, envelope[..NONCE_SIZE], CipherInput(envelope))
      case None => None
      case Some(plain) => SplitPlaintext(plain)
  }

  /** How both sides build an envelope. */
  function SealEnvelope(a: Aead, key: Key, iv: Nonce, m: Message): seq<byte> {
    var sealed := a.seal(key, iv, JoinPlaintext(m));
    if |sealed| >= TAG_SIZE then Envelope(iv, sealed) else []
  }

  function HandleEncryptedMessage(env: Env, frame: Frame, session: Session, transport: Transport): Effect {
    if session.key.None? then Nothing(session)
    else
      match OpenEnvelope(env.aead, session.key.value, frame.payload)
      case None => Nothing(session)
      case Some(m) => RouteAndSend(env, session.key.value, m, session, transport)
  }

  /** `do_route_and_send`: the second copy of the routing code, sealing the answer with the cipher that
      opened the request. */
  function RouteAndSend(env: Env, key: Key, m: Message, session: Session, transport: Transport): Effect {
    if m.command !in env.router then Nothing(session)
    else
      var ep := env.router[m.command];
      var ctx := Context(Header(m.command, 0, ToUint32(|m.payload|), session.id), m.payload, session, transport);
      var verdict := if ep.requiresAuth then env.auth(ctx) else Verdict(true, session);
      if verdict.AuthFailed? then Effect(false, session, [], None, None)
      else if !(verdict.ok && (ep.allowed == ANY || ep.allowed == transport)) then Nothing(verdict.session)
      else
        var call := ctx.(session := verdict.session);
        match ep.handler(call)
        case Failed(events) => Effect(false, verdict.session, events, None, Some(call))
        case Answered(flags, payload, session', events) =>
          var out := SealEnvelope(env.aead, key, env.iv, Message(m.command, payload));
          var reply := Frame(Header(CMD_ENCRYPTED_MESSAGE, flags, ToUint32(|out|), session'.id), out);
          Effect(true, session', events, Some(reply), Some(call))
  }

  function ProcessCommand(env: Env, frame: Frame, session: Session, transport: Transport): Effect {
    if frame.header.command == CMD_KEY_EXCHANGE then HandleKeyExchange(env, frame, session)
    else if frame.header.command == CMD_ENCRYPTED_MESSAGE then HandleEncryptedMessage(env, frame, session, transport)
    else HandleNormalCommand(env, frame, session, transport)
  }

  // ---------------------------------------------------------------- envelopes

  /** Reordering the tag is undone exactly. */
  lemma EnvelopeReorders(iv: Nonce, sealed: seq<byte>, envelope: seq<byte>)
    requires |sealed| >= TAG_SIZE && |envelope| >= NONCE_SIZE + TAG_SIZE
    ensures |Envelope(iv, sealed)| == NONCE_SIZE + |sealed|
    ensures Envelope(iv, sealed)[..NONCE_SIZE] == iv && CipherInput(Envelope(iv, sealed)) == sealed
    ensures Envelope(envelope[..NONCE_SIZE], CipherInput(envelope)) == envelope
  {
    var e := Envelope(iv, sealed);
    assert e[NONCE_SIZE..NONCE_SIZE + TAG_SIZE] == sealed[|sealed| - TAG_SIZE..];
    assert e[NONCE_SIZE + TAG_SIZE..] == sealed[..|sealed| - TAG_SIZE];
  }

  lemma PlaintextRoundTrip(m: Message)
    ensures SplitPlaintext(JoinPlaintext(m)) == Some(m)
  {
    PowersOf256();
    LittleEndianDecodes(m.command, 2);
    assert JoinPlaintext(m)[..2] == LittleEndian(m.command, 2);
    assert JoinPlaintext(m)[2..] == m.payload;
  }

  /** Every message opens to the command and payload that were sealed, under the same key. */
  lemma EnvelopeRoundTrip(a: Aead, key: Key, iv: Nonce, m: Message)
    requires SoundAead(a)
    ensures OpenEnvelope(a, key, SealEnvelope(a, key, iv, m)) == Some(m)
  {
    var sealed := a.seal(key, iv, JoinPlaintext(m));
    assert a.open(key, iv, sealed) == Some(JoinPlaintext(m));
    EnvelopeReorders(iv, sealed, Envelope(iv, sealed));
    PlaintextRoundTrip(m);
  }

  // ---------------------------------------------------------------- envelopes, byte by byte

  /** The plaintext of an envelope, if the session has a key, nonce and tag are there, the cipher accepts
      ciphertext and tag under that nonce, and a command fits. */
  ghost function Plaintext(aead: Aead, session: Session, payload: seq<byte>): Option<seq<byte>> {
    if session.key.None? || |payload| < 28 then None
    else
      match aead.open(session.key.value, payload[..12], payload[28..] + payload[12..28])
      case None => None
      case Some(plain) => if |plain| < 2 then None else Some(plain)
  }

  /** `payload` is nonce, tag and ciphertext of `command` and `answer` sealed under that very nonce. */
  ghost predicate Sealed(aead: Aead, key: Key, nonce: Nonce, command: uint16, answer: seq<byte>, payload: seq<byte>) {
    && |payload| >= 28 && payload[..12] == nonce
    && payload[28..] + payload[12..28] == aead.seal(key, nonce, [command % 256, command / 256] + answer)
  }

  /** The number in the first two bytes, low byte first. */
  ghost function FirstTwo(plain: seq<byte>): uint16
    requires |plain| >= 2
  {
    var low: int, high: int := plain[0], plain[1];
    low + 256 * high
  }

  lemma PlaintextSplits(plain: seq<byte>)
    requires |plain| >= 2
    ensures SplitPlaintext(plain) == Some(Message(FirstTwo(plain), plain[2..]))
  {
    var two := plain[..2];
    assert two[1..] == [plain[1]] && two[1..][1..] == [];
    assert FromLittleEndian(two[1..]) == plain[1];
  }

  lemma OpensExactly(aead: Aead, session: Session, payload: seq<byte>)
    requires session.key.Some?
    ensures var m := OpenEnvelope(aead, session.key.value, payload);
            match Plaintext(aead, session, payload)
            case None => m == None
            case Some(plain) => m == Some(Message(FirstTwo(plain), plain[2..]))
  {
    if Plaintext(aead, session, payload).Some? { PlaintextSplits(Plaintext(aead, session, payload).value); }
  }

  lemma SealedLayout(aead: Aead, key: Key, nonce: Nonce, m: Message)
    requires |aead.seal(key, nonce, JoinPlaintext(m))| >= 16
    ensures Sealed(aead, key, nonce, m.command, m.payload, SealEnvelope(aead, key, nonce, m))
  {
    TwoBytes(m.command);
    EnvelopeReorders(nonce, aead.seal(key, nonce, JoinPlaintext(m)), SealEnvelope(aead, key, nonce, m));
  }

  lemma TwoBytes(n: uint16)
    ensures LittleEndian(n, 2) == [n % 256, n / 256]
  {
    assert LittleEndian(n / 256, 1) == [n / 256 % 256] + LittleEndian(n / 256 / 256, 0);
  }

  // ---------------------------------------------------------------- the tunnel

  /** Processing `message` inside an envelope under `key` does what processing it as a plain frame does:
      same verdict and handler context, same session, same pushed events, same completion; and a reply
      exactly when the plain path replies, with its flags and session, opening under `key` to the plain
      reply's command and payload. */
  ghost predicate SimulatesPlain(env: Env, key: Key, iv: Nonce, m: Message, session: Session, transport: Transport, outer: Header)
    requires |m.payload| < 0x1_0000_0000
  {
    var plain := ProcessCommand(env, FrameFor(m.command, 0, session.id, m.payload), session, transport);
    var tunnel := ProcessCommand(env, Frame(outer, SealEnvelope(env.aead, key, iv, m)), session, transport);
    && tunnel.call == plain.call && tunnel.session == plain.session
    && tunnel.events == plain.events && tunnel.completed == plain.completed
    && match plain.reply
       case None => tunnel.reply == None
       case Some(p) =>
         && tunnel.reply.Some?
         && tunnel.reply.value.header.command == CMD_ENCRYPTED_MESSAGE
         && tunnel.reply.value.header.flags == p.header.flags
         && tunnel.reply.value.header.session == p.header.session
         && OpenEnvelope(env.aead, key, tunnel.reply.value.payload) == Some(Message(p.header.command, p.payload))
  }

  predicate Reserved(command: uint16) { command == CMD_KEY_EXCHANGE || command == CMD_ENCRYPTED_MESSAGE }

  /** The two copies of the routing code agree, up to sealing the reply. */
  lemma RoutingAgrees(env: Env, key: Key, m: Message, session: Session, transport: Transport)
    requires |m.payload| < 0x1_0000_0000
    ensures var plain := HandleNormalCommand(env, FrameFor(m.command, 0, session.id, m.payload), session, transport);
            var tunnel := RouteAndSend(env, key, m, session, transport);
            && tunnel.call == plain.call && tunnel.session == plain.session
            && tunnel.events == plain.events && tunnel.completed == plain.completed
            && tunnel.reply.Some? == plain.reply.Some?
            && (plain.reply.Some? ==>
                  && plain.reply.value.header.command == m.command
                  && tunnel.reply.value.header.command == CMD_ENCRYPTED_MESSAGE
                  && tunnel.reply.value.header.flags == plain.reply.value.header.flags
                  && tunnel.reply.value.header.session == plain.reply.value.header.session
                  && tunnel.reply.value.payload ==
                     SealEnvelope(env.aead, key, env.iv, Message(m.command, plain.reply.value.payload)))
  {
  }

  /** The encrypted path simulates the plain path for every command outside the two reserved ids, for all
      handlers, authenticators, transports and sessions that hold the key. */
  lemma TunnelSimulatesPlain(env: Env, key: Key, iv: Nonce, m: Message, session: Session, transport: Transport, outer: Header)
    requires SoundAead(env.aead) && session.key == Some(key)
    requires outer.command == CMD_ENCRYPTED_MESSAGE && !Reserved(m.command) && |m.payload| < 0x1_0000_0000
    ensures SimulatesPlain(env, key, iv, m, session, transport, outer)
  {
    EnvelopeRoundTrip(env.aead, key, iv, m);
    RoutingAgrees(env, key, m, session, transport);
    var plain := HandleNormalCommand(env, FrameFor(m.command, 0, session.id, m.payload), session, transport);
    if plain.reply.Some? {
      EnvelopeRoundTrip(env.aead, key, env.iv, Message(m.command, plain.reply.value.payload));
    }
  }

  // ---------------------------------------------------------------- the reserved ids

  /** A toy cipher and a toy key agreement that meet the contracts: they are not contradictory. */
  function ToySeal(k: Key, n: Nonce, p: seq<byte>): seq<byte> { p + seq(TAG_SIZE, _ => 0) }

  function ToyOpen(k: Key, n: Nonce, c: seq<byte>): Option<seq<byte>> {
    if |c| < TAG_SIZE then None else Some(c[..|c| - TAG_SIZE])
  }

  function ToyAead(): Aead { Aead(ToySeal, ToyOpen) }

  function ToyPublic(k: Key): Key { k }

  function AddBytes(x: int, y: int): byte { (x + y) % 256 }

  function ToyShared(a: Key, b: Key): Option<Key> {
    Some(seq(32, i requires 0 <= i < 32 => AddBytes(a[i], b[i])))
  }

  function ToyAgreement(): KeyAgreement { KeyAgreement(ToyPublic, ToyShared) }

  lemma ContractsSatisfiable()
    ensures SoundAead(ToyAead()) && SoundAgreement(ToyAgreement())
  {
    forall k: Key, n: Nonce, p: seq<byte> ensures ToyOpen(k, n, ToySeal(k, n, p)) == Some(p) {
      assert (p + seq(TAG_SIZE, _ => 0))[..|p|] == p;
    }
    forall a: Key, b: Key ensures Agree(ToyAgreement(), a, b) {
      assert ToyShared(a, b).value == ToyShared(b, a).value;
    }
  }

  function EchoHandler(ctx: Context): HandlerResult { Answered(0, ctx.payload, ctx.session, []) }

  /** Routes with an echo handler on `command`, toy cryptography, all random numbers zero. */
  function EchoEnv(command: uint16): Env {
    Env(map[command := Endpoint(EchoHandler, false, ANY)], DefaultAuthenticator, ToyAead(), ToyAgreement(),
        seq(NONCE_SIZE, _ => 0), seq(32, _ => 0))
  }

  /** Inside the tunnel the reserved ids are ordinary routes, on the wire they are not: there, and only
      there, the two paths can differ. */
  lemma SimulationExactlyOutsideReservedIds(command: uint16)
    ensures (forall env: Env, key: Key, iv: Nonce, payload, session: Session, transport ::
               SoundAead(env.aead) && session.key == Some(key) && |payload| < 0x1_0000_0000 ==>
                 SimulatesPlain(env, key, iv, Message(command, payload), session, transport, Header(CMD_ENCRYPTED_MESSAGE, 0, 0, 0)))
            <==> !Reserved(command)
  {
    if !Reserved(command) {
      forall env: Env, key: Key, iv: Nonce, payload, session: Session, transport |
        SoundAead(env.aead) && session.key == Some(key) && |payload| < 0x1_0000_0000
        ensures SimulatesPlain(env, key, iv, Message(command, payload), session, transport, Header(CMD_ENCRYPTED_MESSAGE, 0, 0, 0))
      {
        TunnelSimulatesPlain(env, key, iv, Message(command, payload), session, transport, Header(CMD_ENCRYPTED_MESSAGE, 0, 0, 0));
      }
    } else {
      ReservedIdEchoes(command);
    }
  }

  /** An empty message for a reserved id: ignored on the wire, answered inside the tunnel. */
  lemma ReservedIdEchoes(command: uint16)
    requires Reserved(command)
    ensures var env := EchoEnv(command);
            var session := NewSession(1).(key := Some(env.private));
            && SoundAead(env.aead)
            && !SimulatesPlain(env, env.private, env.iv, Message(command, []), session, TCP, Header(CMD_ENCRYPTED_MESSAGE, 0, 0, 0))
  {
    ContractsSatisfiable();
    var env := EchoEnv(command);
    var m := Message(command, []);
    EnvelopeRoundTrip(env.aead, env.private, env.iv, m);
  }

  // ---------------------------------------------------------------- the code itself

  /** `do_decrypt`: the buffers are filled by `memcpy`. */
  method Decrypt(a: Aead, session: Session, payload: seq<byte>) returns (r: Option<Message>)
    ensures match Plaintext(a, session, payload)
            case None => r == None
            case Some(plain) => r == Some(Message(FirstTwo(plain), plain[2..]))
    ensures r == if session.key.None? then None else OpenEnvelope(a, session.key.value, payload)
  {
    if session.key.Some? { OpensExactly(a, session, payload); }
    if session.key.None? || |payload| < NONCE_SIZE + TAG_SIZE { return None; }
    var iv := payload[..NONCE_SIZE];
    var tag := payload[NONCE_SIZE..NONCE_SIZE + TAG_SIZE];
    var ct := payload[NONCE_SIZE + TAG_SIZE..];
    var aei := new byte[|ct| + TAG_SIZE];
    CopyInto(aei, 0, ct);
    assert aei[..|ct|] == ct;
    CopyInto(aei, |ct|, tag);
    assert aei[..] == ct + tag;
    var plain := a.open(session.key.value, iv, aei[..]);
    if plain.None? { return None; }
    return SplitPlaintext(plain.value);
  }

  /** The end of `do_route_and_send`: join command and response, seal, and lay out the envelope. */
  method SealResponse(a: Aead, key: Key, iv: Nonce, command: uint16, response: seq<byte>) returns (out: array<byte>)
    requires |a.seal(key, iv, JoinPlaintext(Message(command, response)))| >= TAG_SIZE
    ensures out[..] == SealEnvelope(a, key, iv, Message(command, response))
    ensures Sealed(a, key, iv, command, response, out[..])
  {
    SealedLayout(a, key, iv, Message(command, response));
    var inner := new byte[2 + |response|];
    CopyInto(inner, 0, LittleEndian(command, 2));
    assert inner[..2] == LittleEndian(command, 2);
    if |response| > 0 { CopyInto(inner, 2, response); }
    assert inner[..] == JoinPlaintext(Message(command, response));
    var enc := a.seal(key, iv, inner[..]);
    var cl := |enc| - TAG_SIZE;
    out := new byte[NONCE_SIZE + TAG_SIZE + cl];
    CopyInto(out, 0, iv);
    assert out[..NONCE_SIZE] == iv;
    CopyInto(out, NONCE_SIZE, enc[cl..]);
    assert out[..NONCE_SIZE + TAG_SIZE] == iv + enc[cl..];
    CopyInto(out, NONCE_SIZE + TAG_SIZE, enc[..cl]);
    assert out[..] == iv + enc[cl..] + enc[..cl];
  }
}
