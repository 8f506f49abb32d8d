/** Binary frames over a byte stream (include/servd/Protocol.hpp, src/UringEngine/FrameIO.cpp,
    src/UringEngine/IoUring.cpp, src/UringEngine/ConnectionImpl.cpp) and over datagrams
    (src/UringEngine/ClientHandlers.cpp). The host is little-endian, so the packed header has the byte
    order the README promises. */
module BinaryFraming {

  import opened Options
  import opened Bytes

  datatype Header = Header(command: uint16, flags: uint16, length: uint32, session: uint64)

  datatype Frame = Frame(header: Header, payload: seq<byte>)

  const HEADER_SIZE: nat := 16

  /** The bytes of the packed `FrameHeader`. */
  function EncodeHeader(h: Header): (bs: seq<byte>)
    ensures |bs| == HEADER_SIZE
  {
    LittleEndian(h.command, 2) + LittleEndian(h.flags, 2) + LittleEndian(h.length, 4) + LittleEndian(h.session, 8)
  }

  function DecodeHeader(bs: seq<byte>): Header
    requires |bs| == HEADER_SIZE
  {
    LittleEndianEncodes(bs[0..2]);
    LittleEndianEncodes(bs[2..4]);
    LittleEndianEncodes(bs[4..8]);
    LittleEndianEncodes(bs[8..16]);
    PowersOf256();
    Header(FromLittleEndian(bs[0..2]), FromLittleEndian(bs[2..4]), FromLittleEndian(bs[4..8]), FromLittleEndian(bs[8..16]))
  }

  lemma PowersOf256()
    ensures Pow256(2) == 0x1_0000 && Pow256(4) == 0x1_0000_0000 && Pow256(8) == 0x1_0000_0000_0000_0000
  {
    assert Pow256(4) == 256 * (256 * Pow256(2));
    assert Pow256(6) == 256 * (256 * Pow256(4));
  }

  /** Header and bytes correspond one to one. */
  lemma HeaderRoundTrip(h: Header, bs: seq<byte>)
    requires |bs| == HEADER_SIZE
    ensures DecodeHeader(EncodeHeader(h)) == h
    ensures EncodeHeader(DecodeHeader(bs)) == bs
  {
    PowersOf256();
    var a, b, c, d :=
      LittleEndian(h.command, 2), LittleEndian(h.flags, 2), LittleEndian(h.length, 4), LittleEndian(h.session, 8);
    var e := EncodeHeader(h);
    assert e == a + b + c + d;
    assert e[0..2] == a && e[2..4] == b && e[4..8] == c && e[8..16] == d;
    LittleEndianDecodes(h.command, 2);
    LittleEndianDecodes(h.flags, 2);
    LittleEndianDecodes(h.length, 4);
    LittleEndianDecodes(h.session, 8);
    LittleEndianEncodes(bs[0..2]);
    LittleEndianEncodes(bs[2..4]);
    LittleEndianEncodes(bs[4..8]);
    LittleEndianEncodes(bs[8..16]);
    assert bs == bs[0..2] + bs[2..4] + bs[4..8] + bs[8..16];
  }

  /** The header on the wire, byte by byte: command, flags, payload length, session, low bytes first. */
  lemma HeaderLayout(h: Header)
    ensures var bs := EncodeHeader(h);
            && |bs| == 16
            && h.command == Number16(bs[0], bs[1]) && h.flags == Number16(bs[2], bs[3])
            && h.length == Number32(bs[4], bs[5], bs[6], bs[7])
            && h.session == Number32(bs[8], bs[9], bs[10], bs[11]) + 0x1_0000_0000 * Number32(bs[12], bs[13], bs[14], bs[15])
  {
    var bs := EncodeHeader(h);
    HeaderRoundTrip(h, bs);
    BytesOf(bs[0..2]);
    BytesOf(bs[2..4]);
    BytesOf(bs[4..8]);
    BytesOf(bs[8..16]);
  }

  ghost function Number16(low: int, high: int): int { low + 0x100 * high }

  ghost function Number32(a: int, b: int, c: int, d: int): int { a + 0x100 * b + 0x1_0000 * c + 0x100_0000 * d }

  lemma BytesOf(bs: seq<byte>)
    ensures |bs| == 2 ==> FromLittleEndian(bs) == Number16(bs[0], bs[1])
    ensures |bs| == 4 ==> FromLittleEndian(bs) == Number32(bs[0], bs[1], bs[2], bs[3])
    ensures |bs| == 8 ==>
              FromLittleEndian(bs) == Number32(bs[0], bs[1], bs[2], bs[3]) + 0x1_0000_0000 * Number32(bs[4], bs[5], bs[6], bs[7])
  {
    if |bs| == 2 {
      assert FromLittleEndian(bs[2..]) == 0;
      assert bs[1..][1..] == bs[2..];
    } else if |bs| == 4 || |bs| == 8 {
      FourBytes(bs);
      if |bs| == 8 { FourBytes(bs[4..]); }
    }
  }

  lemma FourBytes(bs: seq<byte>)
    requires |bs| >= 4
    ensures FromLittleEndian(bs) == Number32(bs[0], bs[1], bs[2], bs[3]) + 0x1_0000_0000 * FromLittleEndian(bs[4..])
  {
    assert bs[1..][1..] == bs[2..] && bs[2..][1..] == bs[3..] && bs[3..][1..] == bs[4..];
  }

  // ---------------------------------------------------------------- frames and streams of frames

  /** What `send_frame` puts on the wire. */
  function EncodeFrame(f: Frame): seq<byte> {
    EncodeHeader(f.header) + f.payload
  }

  /** The frame the server builds for a payload: the length is cast to 32 bits. */
  function FrameFor(command: uint16, flags: uint16, session: uint64, payload: seq<byte>): Frame {
    Frame(Header(command, flags, ToUint32(|payload|), session), payload)
  }

  predicate Consistent(f: Frame) { f.header.length == |f.payload| }

  datatype Read = Got(frame: Frame, rest: seq<byte>) | Raised

  /** Reading one frame from the bytes that will ever arrive. */
  function DecodeFrame(bs: seq<byte>): (r: Read)
    ensures r.Got? ==> |r.rest| + HEADER_SIZE <= |bs|
  {
    if |bs| < HEADER_SIZE then Raised
    else
      var h := DecodeHeader(bs[..HEADER_SIZE]);
      if |bs| - HEADER_SIZE < h.length then Raised
      else Got(Frame(h, bs[HEADER_SIZE..HEADER_SIZE + h.length]), bs[HEADER_SIZE + h.length..])
  }

  /** Reading frames until a read raises. */
  function DecodeAll(bs: seq<byte>): seq<Frame>
    decreases |bs|
  {
    match DecodeFrame(bs)
    case Raised => []
    case Got(f, rest) => [f] + DecodeAll(rest)
  }

  function EncodeAll(fs: seq<Frame>): seq<byte> {
    if fs == [] then [] else EncodeFrame(fs[0]) + EncodeAll(fs[1..])
  }

  /** A frame sent whole is read back whole, whatever follows it. */
  lemma FrameThenRest(f: Frame, rest: seq<byte>)
    requires Consistent(f)
    ensures DecodeFrame(EncodeFrame(f) + rest) == Got(f, rest)
  {
    var bs := EncodeFrame(f) + rest;
    HeaderRoundTrip(f.header, bs[..HEADER_SIZE]);
    assert bs[..HEADER_SIZE] == EncodeHeader(f.header);
    assert bs[HEADER_SIZE..HEADER_SIZE + |f.payload|] == f.payload;
    assert bs[HEADER_SIZE + |f.payload|..] == rest;
  }

  /** What is read is what was on the wire: decoding is the inverse of encoding from this side too. */
  lemma ReadIsFaithful(bs: seq<byte>)
    ensures match DecodeFrame(bs)
            case Got(f, rest) => Consistent(f) && bs == EncodeFrame(f) + rest
            case Raised => forall f, rest :: Consistent(f) ==> bs != EncodeFrame(f) + rest
  {
    match DecodeFrame(bs)
    case Got(f, rest) =>
      HeaderRoundTrip(f.header, bs[..HEADER_SIZE]);
      assert bs == bs[..HEADER_SIZE] + f.payload + rest;
    case Raised =>
      forall f, rest | Consistent(f) ensures bs != EncodeFrame(f) + rest {
        FrameThenRest(f, rest);
      }
  }

  lemma DecodeOne(f: Frame, rest: seq<byte>)
    requires Consistent(f)
    ensures DecodeAll(EncodeFrame(f) + rest) == [f] + DecodeAll(rest)
  {
    FrameThenRest(f, rest);
  }

  /** Any list of frames comes back exactly, and reading goes on with what follows. */
  lemma {:induction false} FramesRoundTrip(fs: seq<Frame>, rest: seq<byte>)
    requires forall i :: 0 <= i < |fs| ==> Consistent(fs[i])
    ensures DecodeAll(EncodeAll(fs) + rest) == fs + DecodeAll(rest)
  {
    if fs == [] {
      assert EncodeAll(fs) + rest == rest;
    } else {
      FramesRoundTrip(fs[1..], rest);
      DecodeOne(fs[0], EncodeAll(fs[1..]) + rest);
      Assoc(EncodeFrame(fs[0]), EncodeAll(fs[1..]), rest);
      Assoc([fs[0]], fs[1..], DecodeAll(rest));
      assert fs == [fs[0]] + fs[1..];
    }
  }

  /** `whole` frames of `fs` lie before `cut`, and no more. */
  ghost predicate WholeBefore(fs: seq<Frame>, cut: nat, whole: nat) {
    && whole <= |fs| && |EncodeAll(fs[..whole])| <= cut
    && (whole < |fs| ==> cut < |EncodeAll(fs[..whole + 1])|)
  }

  /** A stream cut at any point yields exactly the frames that lie wholly before the cut, then raises:
      never a partial frame. */
  lemma {:induction false} TruncatedStream(fs: seq<Frame>, cut: nat) returns (whole: nat)
    requires forall i :: 0 <= i < |fs| ==> Consistent(fs[i])
    requires cut <= |EncodeAll(fs)|
    ensures WholeBefore(fs, cut, whole)
    ensures DecodeAll(EncodeAll(fs)[..cut]) == fs[..whole]
  {
    if fs == [] {
      whole := 0;
    } else if cut < |EncodeFrame(fs[0])| {
      whole := 0;
      CutFrameRaises(fs[0], EncodeAll(fs)[..cut]);
      EncodeAllPrefix(fs, 0);
    } else {
      var w := TruncatedStream(fs[1..], cut - |EncodeFrame(fs[0])|);
      whole := w + 1;
      OneMoreWhole(fs, cut, w);
      OneMoreDecoded(fs, cut, w);
    }
  }

  lemma CutAfter(a: seq<byte>, b: seq<byte>, cut: nat)
    requires |a| <= cut <= |a| + |b|
    ensures (a + b)[..cut] == a + b[..cut - |a|]
  {
  }

  lemma TakeOneMore(fs: seq<Frame>, w: nat)
    requires w < |fs|
    ensures fs[..w + 1] == [fs[0]] + fs[1..][..w] && fs[..w + 1][1..] == fs[1..][..w]
  {
  }

  lemma OneMoreDecoded(fs: seq<Frame>, cut: nat, w: nat)
    requires fs != [] && Consistent(fs[0]) && |EncodeFrame(fs[0])| <= cut <= |EncodeAll(fs)| && w < |fs|
    requires DecodeAll(EncodeAll(fs[1..])[..cut - |EncodeFrame(fs[0])|]) == fs[1..][..w]
    ensures DecodeAll(EncodeAll(fs)[..cut]) == fs[..w + 1]
  {
    var first := EncodeFrame(fs[0]);
    var tail := EncodeAll(fs[1..]);
    CutAfter(first, tail, cut);
    DecodeOne(fs[0], tail[..cut - |first|]);
    TakeOneMore(fs, w);
  }

  lemma OneMoreWhole(fs: seq<Frame>, cut: nat, w: nat)
    requires fs != [] && |EncodeFrame(fs[0])| <= cut
    requires WholeBefore(fs[1..], cut - |EncodeFrame(fs[0])|, w)
    ensures WholeBefore(fs, cut, w + 1)
  {
    EncodeAllPrefix(fs, w);
    if w + 1 < |fs| { EncodeAllPrefix(fs, w + 1); }
  }

  lemma EncodeAllPrefix(fs: seq<Frame>, n: nat)
    requires n < |fs|
    ensures EncodeAll(fs[..n + 1]) == EncodeFrame(fs[0]) + EncodeAll(fs[1..][..n])
  {
    TakeOneMore(fs, n);
  }

  lemma CutFrameRaises(f: Frame, bs: seq<byte>)
    requires Consistent(f) && |bs| < |EncodeFrame(f)| && bs == EncodeFrame(f)[..|bs|]
    ensures DecodeFrame(bs) == Raised
  {
    if |bs| >= HEADER_SIZE {
      HeaderRoundTrip(f.header, bs[..HEADER_SIZE]);
      assert bs[..HEADER_SIZE] == EncodeHeader(f.header);
    }
  }

  /** The length field has 32 bits: a payload survives the wire if and only if its size does. */
  lemma PayloadSurvivesExactlyBelow4GiB(command: uint16, flags: uint16, session: uint64, payload: seq<byte>)
    ensures DecodeFrame(EncodeFrame(FrameFor(command, flags, session, payload))) ==
              Got(FrameFor(command, flags, session, payload), [])
            <==> |payload| < 0x1_0000_0000
  {
    var f := FrameFor(command, flags, session, payload);
    if |payload| < 0x1_0000_0000 {
      FrameThenRest(f, []);
      assert EncodeFrame(f) + [] == EncodeFrame(f);
    } else {
      ReadIsFaithful(EncodeFrame(f));
    }
  }

  // ---------------------------------------------------------------- reading from a socket

  ghost function Flatten(pieces: seq<seq<byte>>): seq<byte> {
    if pieces == [] then [] else pieces[0] + Flatten(pieces[1..])
  }

  /** A connected socket: the pieces, none empty, in which the remaining bytes will arrive before the
      peer closes or the receive fails. */
  class Socket {
    var pieces: seq<seq<byte>>

    ghost predicate Valid()
      reads this
    {
      forall i :: 0 <= i < |pieces| ==> pieces[i] != []
    }

    ghost function Stream(): seq<byte>
      reads this
    {
      Flatten(pieces)
    }

    constructor (pieces: seq<seq<byte>>)
      requires forall i :: 0 <= i < |pieces| ==> pieces[i] != []
      ensures Valid() && Stream() == Flatten(pieces)
    {
      this.pieces := pieces;
    }

    /** `async_read`: at most `room` bytes of what has arrived; nothing means the stream is over. */
    method Recv(room: nat) returns (got: seq<byte>)
      requires Valid() && room > 0
      modifies this
      ensures Valid() && |got| <= room
      ensures got + Stream() == old(Stream())
      ensures got == [] <==> old(Stream()) == []
    {
      if |pieces| == 0 { return []; }
      var piece := pieces[0];
      if |piece| <= room {
        got := piece;
        pieces := pieces[1..];
      } else {
        got := piece[..room];
        pieces := [piece[room..]] + pieces[1..];
        assert pieces[1..] == old(pieces)[1..];
        assert got + piece[room..] == piece;
      }
    }
  }

  /** `async_read_exact`: fill the buffer, or raise (`ok == false`) when the stream ends first. */
  method ReadExact(socket: Socket, buffer: array<byte>) returns (ok: bool)
    requires socket.Valid()
    modifies socket, buffer
    ensures socket.Valid()
    ensures ok <==> buffer.Length <= |old(socket.Stream())|
    ensures ok ==> buffer[..] + socket.Stream() == old(socket.Stream())
    ensures !ok ==> socket.Stream() == []
  {
    var total := 0;
    while total < buffer.Length
      invariant 0 <= total <= buffer.Length && socket.Valid()
      invariant buffer[..total] + socket.Stream() == old(socket.Stream())
    {
      var got := socket.Recv(buffer.Length - total);
      if |got| == 0 { return false; }
      ghost var before := buffer[..total];
      CopyInto(buffer, total, got);
      assert buffer[..total] == before;
      total := total + |got|;
      assert buffer[..total] == before + got;
    }
    assert buffer[..total] == buffer[..];
    return true;
  }

  /** `read_frame`. */
  method ReadFrame(socket: Socket) returns (r: Option<Frame>)
    requires socket.Valid()
    modifies socket
    ensures socket.Valid()
    ensures match DecodeFrame(old(socket.Stream()))
            case Got(f, rest) => r == Some(f) && socket.Stream() == rest
            case Raised => r == None
  {
    ghost var stream := socket.Stream();
    var headerBytes := new byte[HEADER_SIZE];
    var ok := ReadExact(socket, headerBytes);
    if !ok { return None; }
    assert stream[..HEADER_SIZE] == headerBytes[..];
    var header := DecodeHeader(headerBytes[..]);
    var payload := new byte[header.length];
    ghost var body := socket.Stream();
    assert body == stream[HEADER_SIZE..];
    if header.length > 0 {
      ok := ReadExact(socket, payload);
      if !ok { return None; }
    }
    assert payload[..] + socket.Stream() == body;
    assert payload[..] == body[..header.length] == stream[HEADER_SIZE..HEADER_SIZE + header.length];
    assert socket.Stream() == body[header.length..] == stream[HEADER_SIZE + header.length..];
    return Some(Frame(header, payload[..]));
  }

  /** The reading side of the client loop: frame after frame until a read raises. Together with
      `FramesRoundTrip` and `TruncatedStream` this gives the frames for every way the bytes arrive. */
  method ReadFrames(socket: Socket) returns (fs: seq<Frame>)
    requires socket.Valid()
    modifies socket
    ensures fs == DecodeAll(old(socket.Stream()))
  {
    fs := [];
    while true
      invariant socket.Valid()
      invariant fs + DecodeAll(socket.Stream()) == DecodeAll(old(socket.Stream()))
      decreases |socket.Stream()|
    {
      ghost var stream := socket.Stream();
      var r := ReadFrame(socket);
      if r.None? { return; }
      assert DecodeAll(stream) == [r.value] + DecodeAll(socket.Stream());
      fs := fs + [r.value];
    }
  }

  /** `UringTcpConnection::send_frame`: one buffer, header then payload. */
  method BuildFrame(header: Header, payload: seq<byte>) returns (buffer: array<byte>)
    ensures fresh(buffer)
    ensures buffer[..] == EncodeFrame(Frame(header, payload))
  {
    buffer := new byte[HEADER_SIZE + |payload|];
    CopyInto(buffer, 0, EncodeHeader(header));
    if |payload| > 0 {
      CopyInto(buffer, HEADER_SIZE, payload);
    }
  }

  // ---------------------------------------------------------------- datagrams

  /** `start_udp_loop`: too short a datagram is dropped; a length that promises more than arrived is
      reduced to what arrived. */
  function ParseDatagram(d: seq<byte>): Option<Frame> {
    if |d| < HEADER_SIZE then None
    else
      var h := DecodeHeader(d[..HEADER_SIZE]);
      var arrived := ToUint32(|d| - HEADER_SIZE);
      var length := if h.length < arrived then h.length else arrived;
      Some(Frame(h.(length := length), d[HEADER_SIZE..HEADER_SIZE + length]))
  }

  /** Exactly the datagrams shorter than a header are dropped. Any other gives a consistent frame of the bytes that
      arrived: its header but for the length, and as much payload as was both promised and sent. */
  lemma DatagramIsFaithful(d: seq<byte>)
    requires |d| <= 65536
    ensures match ParseDatagram(d)
            case None => |d| < 16
            case Some(f) =>
              && |d| >= 16 && Consistent(f)
              && var h := DecodeHeader(d[..16]);
                 && f.header == h.(length := |f.payload|)
                 && |f.payload| == (if h.length < |d| - 16 then h.length else |d| - 16)
                 && f.payload == d[16..16 + |f.payload|]
  {
  }

  /** Every accepted datagram gives a consistent frame made of bytes that arrived; a whole frame is
      recovered exactly, with or without trailing bytes; and a cut one becomes a shorter frame. */
  lemma DatagramParsed(f: Frame, rest: seq<byte>, cut: nat)
    requires Consistent(f) && |EncodeFrame(f) + rest| <= 65536 && HEADER_SIZE <= cut <= |EncodeFrame(f)|
    ensures ParseDatagram(EncodeFrame(f) + rest) == Some(f)
    ensures var payload := f.payload[..cut - HEADER_SIZE];
            ParseDatagram(EncodeFrame(f)[..cut]) == Some(Frame(f.header.(length := |payload|), payload))
  {
    var d := EncodeFrame(f) + rest;
    HeaderRoundTrip(f.header, d[..HEADER_SIZE]);
    assert d[..HEADER_SIZE] == EncodeHeader(f.header) == EncodeFrame(f)[..cut][..HEADER_SIZE];
    assert d[HEADER_SIZE..HEADER_SIZE + |f.payload|] == f.payload;
    var e := EncodeFrame(f)[..cut];
    assert e[HEADER_SIZE..cut] == f.payload[..cut - HEADER_SIZE];
    assert DecodeHeader(e[..HEADER_SIZE]) == f.header;
  }
}
