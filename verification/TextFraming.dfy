/** The text protocol: two-line requests and responses (src/UringEngine/FrameIO.cpp,
    src/UringEngine/ConnectionImpl.cpp). Characters are bytes; numbers are read with the rules of
    std::from_chars and of stream extraction in the classic locale. */
module TextFraming {

  import opened Options
  import opened Bytes
  import opened BinaryFraming

  type Text = seq<byte>

  const NEWLINE: byte := 10
  const SPACE: byte := 32
  const PLUS: byte := 43
  const MINUS: byte := 45
  const ZERO: byte := 48

  predicate IsSpace(c: byte) { c == SPACE || 9 <= c <= 13 }

  predicate IsDigit(c: byte) { ZERO <= c < ZERO + 10 }

  // ---------------------------------------------------------------- decimal numbers

  /** Printing an unsigned integer with `<<`. */
  function Decimal(n: nat): (t: Text)
    ensures t != []
  {
    if n < 10 then [ZERO + n] else Decimal(n / 10) + [ZERO + n % 10]
  }

  function Value(digits: Text): nat
    requires forall i :: 0 <= i < |digits| ==> IsDigit(digits[i])
  {
    if digits == [] then 0
    else
      assert IsDigit(digits[|digits| - 1]);
      10 * Value(digits[..|digits| - 1]) + (digits[|digits| - 1] - ZERO)
  }

  function DigitCount(t: Text): (n: nat)
    ensures n <= |t| && forall i :: 0 <= i < n ==> IsDigit(t[i])
    ensures n < |t| ==> !IsDigit(t[n])
  {
    if t == [] || !IsDigit(t[0]) then 0
    else
      assert forall i :: 0 <= i < |t| - 1 ==> t[1..][i] == t[i + 1];
      1 + DigitCount(t[1..])
  }

  /** The digits a number extraction consumes, and their value. */
  function LeadingNumber(t: Text): Option<nat> {
    if DigitCount(t) == 0 then None else Some(Value(t[..DigitCount(t)]))
  }

  /** `std::from_chars` into a `uint16_t`: a prefix of digits that fits, else an error. */
  function FromChars16(t: Text): Option<uint16> {
    match LeadingNumber(t)
    case Some(v) => if v < 0x1_0000 then Some(v) else None
    case None => None
  }

  function SkipSpaces(t: Text): (r: Text)
    ensures |r| <= |t|
  {
    if t != [] && IsSpace(t[0]) then SkipSpaces(t[1..]) else t
  }

  const UINT64_MAX: uint64 := 0xffff_ffff_ffff_ffff

  /** `iss >> sid` for a `uint64_t` that starts at 0: nothing to read leaves 0, too large a number gives
      the maximum, and a minus sign negates modulo 2^64. */
  function ExtractUint64(t: Text): uint64 {
    var u := SkipSpaces(t);
    var signed := u != [] && (u[0] == PLUS || u[0] == MINUS);
    match LeadingNumber(if signed then u[1..] else u)
    case None => 0
    case Some(v) =>
      if v > UINT64_MAX then UINT64_MAX
      else if signed && u[0] == MINUS && v > 0 then 0x1_0000_0000_0000_0000 - v
      else v
  }

  lemma {:induction false} DecimalIsDigits(n: nat)
    ensures forall i :: 0 <= i < |Decimal(n)| ==> IsDigit(Decimal(n)[i])
    ensures Value(Decimal(n)) == n
  {
    if n >= 10 {
      DecimalIsDigits(n / 10);
      assert Decimal(n)[..|Decimal(n)| - 1] == Decimal(n / 10);
    } else {
      assert Decimal(n)[..0] == [];
    }
  }

  lemma {:induction false} DigitCountOf(digits: Text, tail: Text)
    requires forall i :: 0 <= i < |digits| ==> IsDigit(digits[i])
    requires tail == [] || !IsDigit(tail[0])
    ensures DigitCount(digits + tail) == |digits|
  {
    if digits == [] {
      assert digits + tail == tail;
    } else {
      DigitCountOf(digits[1..], tail);
      assert (digits + tail)[1..] == digits[1..] + tail;
    }
  }

  lemma DecimalReadsBack(n: nat, tail: Text)
    requires tail == [] || !IsDigit(tail[0])
    ensures LeadingNumber(Decimal(n) + tail) == Some(n)
  {
    DecimalIsDigits(n);
    DigitCountOf(Decimal(n), tail);
    assert (Decimal(n) + tail)[..|Decimal(n)|] == Decimal(n);
  }

  lemma ExtractDecimal(n: uint64)
    ensures ExtractUint64([SPACE] + Decimal(n)) == n
  {
    DecimalIsDigits(n);
    assert ([SPACE] + Decimal(n))[1..] == Decimal(n);
    assert IsDigit(Decimal(n)[0]);
    assert SkipSpaces([SPACE] + Decimal(n)) == Decimal(n);
    DecimalReadsBack(n, []);
    assert Decimal(n) + [] == Decimal(n);
  }

  // ---------------------------------------------------------------- lines and tokens

  datatype Line = Line(text: Text, rest: Text) | Ended

  /** Reading up to the next newline of the bytes that will ever arrive. */
  function NextLine(bs: Text): (r: Line)
    ensures r.Line? ==> |r.rest| < |bs|
  {
    if bs == [] then Ended
    else if bs[0] == NEWLINE then Line([], bs[1..])
    else
      match NextLine(bs[1..])
      case Ended => Ended
      case Line(text, rest) => Line([bs[0]] + text, rest)
  }

  lemma {:induction false} NextLineOf(text: Text, rest: Text)
    requires NEWLINE !in text
    ensures NextLine(text + [NEWLINE] + rest) == Line(text, rest)
  {
    var bs := text + [NEWLINE] + rest;
    if text == [] {
      assert bs[1..] == rest;
    } else {
      NextLineOf(text[1..], rest);
      assert bs[1..] == text[1..] + [NEWLINE] + rest;
      assert [text[0]] + text[1..] == text;
    }
  }

  /** A line ends at the first newline, which is consumed; without one there is no line. */
  lemma {:induction false} LineExactly(bs: Text)
    ensures match NextLine(bs)
            case Ended => 10 !in bs
            case Line(text, rest) => 10 !in text && bs == text + [10] + rest
  {
    if bs != [] && bs[0] != NEWLINE {
      LineExactly(bs[1..]);
      match NextLine(bs[1..])
      case Ended =>
        assert bs == [bs[0]] + bs[1..];
      case Line(text, rest) =>
        assert bs == [bs[0]] + (text + [10] + rest) == [bs[0]] + text + [10] + rest;
    } else if bs != [] {
      assert bs == [] + [10] + bs[1..];
    }
  }

  /** `iss >> token`: skip white space, then take everything up to the next. */
  function Token(t: Text): Text {
    TokenOf(SkipSpaces(t))
  }

  function TokenOf(t: Text): (r: Text)
    ensures |r| <= |t| && r == t[..|r|] && forall i :: 0 <= i < |r| ==> !IsSpace(r[i])
    ensures |r| < |t| ==> IsSpace(t[|r|])
  {
    if t == [] || IsSpace(t[0]) then []
    else
      var r := TokenOf(t[1..]);
      assert [t[0]] + r == t[..|r| + 1];
      [t[0]] + r
  }

  /** What the stream still holds after the token. */
  function AfterToken(t: Text): Text {
    var u := SkipSpaces(t);
    u[|TokenOf(u)|..]
  }

  predicate NoSpaces(t: Text) { forall i :: 0 <= i < |t| ==> !IsSpace(t[i]) }

  lemma {:induction false} TokenOfWord(word: Text, tail: Text)
    requires NoSpaces(word) && (tail == [] || IsSpace(tail[0]))
    ensures TokenOf(word + tail) == word
  {
    if word == [] {
      assert word + tail == tail;
    } else {
      TokenOfWord(word[1..], tail);
      assert (word + tail)[1..] == word[1..] + tail;
      assert [word[0]] + word[1..] == word;
    }
  }

  // ---------------------------------------------------------------- requests

  type Names = map<Text, uint16>

  /** `parse_text_header`: the command by number or, failing that, by registered name; then the session. */
  function ParseHeader(line: Text, names: Names): Option<(uint16, uint64)> {
    var token := Token(line);
    var session := ExtractUint64(AfterToken(line));
    match FromChars16(token)
    case Some(command) => Some((command, session))
    case None => if token in names then Some((names[token], session)) else None
  }

  const EMPTY_FRAME: Frame := Frame(Header(0, 0, 0, 0), [])

  /** `read_text_frame`: an invalid header yields the all-zero frame without reading a second line. */
  function ReadTextFrame(bs: Text, names: Names): (r: Read)
    ensures r.Got? ==> |r.rest| < |bs|
  {
    match NextLine(bs)
    case Ended => Raised
    case Line(headerLine, rest) =>
      match ParseHeader(headerLine, names)
      case None => Got(EMPTY_FRAME, rest)
      case Some((command, session)) =>
        match NextLine(rest)
        case Ended => Raised
        case Line(text, rest') =>
          var length := ToUint32(|text|);
          Got(Frame(Header(command, 0, length, session), text[..length]), rest')
  }

  /** A request as a client types it: `word` is the command's number or name. */
  function Request(word: Text, session: uint64, payload: Text): Text {
    (word + [SPACE] + Decimal(session)) + [NEWLINE] + (payload + [NEWLINE])
  }

  lemma HeaderLineParts(word: Text, session: uint64)
    requires word != [] && NoSpaces(word)
    ensures var line := word + [SPACE] + Decimal(session);
            Token(line) == word && AfterToken(line) == [SPACE] + Decimal(session) && NEWLINE !in line
  {
    var tail := [SPACE] + Decimal(session);
    var line := word + [SPACE] + Decimal(session);
    assert line == word + tail;
    DecimalIsDigits(session);
    assert SkipSpaces(line) == line;
    TokenOfWord(word, tail);
    forall i | 0 <= i < |line| ensures line[i] != NEWLINE {
      if i < |word| { assert !IsSpace(word[i]); }
    }
  }

  /** The first word of a request names `command`, by number or by registered name. */
  predicate Names16(word: Text, command: uint16, names: Names) {
    && word != [] && NoSpaces(word)
    && (FromChars16(word) == Some(command) ||
        (FromChars16(word) == None && word in names && names[word] == command))
  }

  lemma HeaderParses(word: Text, command: uint16, session: uint64, names: Names)
    requires Names16(word, command, names)
    ensures var line := word + [SPACE] + Decimal(session);
            NEWLINE !in line && ParseHeader(line, names) == Some((command, session))
  {
    HeaderLineParts(word, session);
    ExtractDecimal(session);
  }

  lemma TwoLines(line: Text, payload: Text, rest: Text)
    requires NEWLINE !in line && NEWLINE !in payload
    ensures var first := NextLine((line + [NEWLINE] + (payload + [NEWLINE])) + rest);
            first.Line? && first.text == line && NextLine(first.rest) == Line(payload, rest)
  {
    Assoc(line + [NEWLINE], payload + [NEWLINE], rest);
    NextLineOf(line, payload + [NEWLINE] + rest);
    NextLineOf(payload, rest);
  }

  lemma ReadFromLines(bs: Text, line: Text, afterLine: Text, command: uint16, session: uint64, payload: Text, rest: Text,
                      names: Names)
    requires NextLine(bs) == Line(line, afterLine) && ParseHeader(line, names) == Some((command, session))
    requires NextLine(afterLine) == Line(payload, rest) && |payload| < 0x1_0000_0000
    ensures ReadTextFrame(bs, names) == Got(FrameFor(command, 0, session, payload), rest)
  {
    assert payload[..|payload|] == payload;
  }

  /** What the server reads from a request line whose first word resolves to `command`. */
  lemma RequestReadsBack(word: Text, command: uint16, session: uint64, payload: Text, rest: Text, names: Names)
    requires Names16(word, command, names)
    requires NEWLINE !in payload && |payload| < 0x1_0000_0000
    ensures ReadTextFrame(Request(word, session, payload) + rest, names) ==
            Got(FrameFor(command, 0, session, payload), rest)
  {
    var line := word + [SPACE] + Decimal(session);
    HeaderParses(word, command, session, names);
    TwoLines(line, payload, rest);
    var bs := Request(word, session, payload) + rest;
    ReadFromLines(bs, line, NextLine(bs).rest, command, session, payload, rest, names);
  }

  /** Text round trip by number: for every command, session and newline-free payload below 2^32 bytes,
      and any registered names. */
  lemma NumberedRequestRoundTrip(command: uint16, session: uint64, payload: Text, rest: Text, names: Names)
    requires NEWLINE !in payload && |payload| < 0x1_0000_0000
    ensures ReadTextFrame(Request(Decimal(command), session, payload) + rest, names) ==
            Got(FrameFor(command, 0, session, payload), rest)
  {
    DecimalIsDigits(command);
    DecimalReadsBack(command, []);
    assert Decimal(command) + [] == Decimal(command);
    RequestReadsBack(Decimal(command), command, session, payload, rest, names);
  }

  /** Both conditions on the payload are needed: no other payload comes back. */
  lemma PayloadSurvivesExactlyWithoutNewline(command: uint16, session: uint64, payload: Text, rest: Text, names: Names)
    ensures ReadTextFrame(Request(Decimal(command), session, payload) + rest, names) ==
              Got(FrameFor(command, 0, session, payload), rest)
            <==> NEWLINE !in payload && |payload| < 0x1_0000_0000
  {
    if NEWLINE !in payload && |payload| < 0x1_0000_0000 {
      NumberedRequestRoundTrip(command, session, payload, rest, names);
    } else {
      var r := ReadTextFrame(Request(Decimal(command), session, payload) + rest, names);
      if r.Got? && r.frame.payload == payload {
        TextPayloadHasNoNewline(Request(Decimal(command), session, payload) + rest, names);
      }
    }
  }

  lemma TextPayloadHasNoNewline(bs: Text, names: Names)
    ensures var r := ReadTextFrame(bs, names);
            r.Got? ==> NEWLINE !in r.frame.payload && |r.frame.payload| < 0x1_0000_0000 && Consistent(r.frame)
  {
    if NextLine(bs).Line? {
      LineExactly(NextLine(bs).rest);
    }
  }

  // ---------------------------------------------------------------- headers, character by character

  /** A word that `from_chars` does not read as a 16-bit number: no digit first, or too large a number. */
  ghost predicate NotANumber(word: Text) {
    || word == [] || !IsDigit(word[0])
    || exists digits: Text, tail: Text :: word == digits + tail && Number(digits, tail) && Value(digits) >= 0x1_0000
  }

  /** `digits` is all there is of a number before `tail`. */
  ghost predicate Number(digits: Text, tail: Text) {
    && digits != [] && (forall i :: 0 <= i < |digits| ==> IsDigit(digits[i]))
    && (tail == [] || !IsDigit(tail[0]))
  }

  /** The line begins with this word, after which comes white space or nothing; a blank line has no word. */
  ghost predicate FirstWord(word: Text, tail: Text) {
    && NoSpaces(word) && (tail == [] || IsSpace(tail[0]))
    && (word == [] ==> Blank(tail))
  }

  lemma {:induction false} BlankHasNoWord(t: Text)
    requires Blank(t)
    ensures SkipSpaces(t) == []
  {
    if t != [] { BlankHasNoWord(t[1..]); }
  }

  lemma FirstWordIsToken(word: Text, tail: Text)
    requires FirstWord(word, tail)
    ensures Token(word + tail) == word
    ensures word != [] ==> AfterToken(word + tail) == tail
  {
    if word == [] {
      assert word + tail == tail;
      BlankHasNoWord(tail);
    } else {
      assert SkipSpaces(word + tail) == word + tail;
      TokenOfWord(word, tail);
    }
  }

  lemma NumberIsLeading(digits: Text, tail: Text)
    requires Number(digits, tail)
    ensures LeadingNumber(digits + tail) == Some(Value(digits))
  {
    DigitCountOf(digits, tail);
    assert (digits + tail)[..|digits|] == digits;
  }

  /** The command of a header line: leading digits that fit 16 bits are it, whatever stands behind them and
      whatever names are registered; any other word is looked up. */
  lemma CommandWordExactly(word: Text, tail: Text, names: Names, digits: Text, more: Text)
    requires FirstWord(word, tail)
    ensures word == digits + more && Number(digits, more) && Value(digits) < 0x1_0000 ==>
              ParseHeader(word + tail, names).Some? && ParseHeader(word + tail, names).value.0 == Value(digits)
    ensures NotANumber(word) ==>
              && (ParseHeader(word + tail, names).Some? <==> word in names)
              && (word in names ==> ParseHeader(word + tail, names).value.0 == names[word])
  {
    FirstWordIsToken(word, tail);
    if Number(digits, more) { NumberIsLeading(digits, more); }
    if NotANumber(word) && word != [] && IsDigit(word[0]) {
      var ds: Text, rest: Text :| word == ds + rest && Number(ds, rest) && Value(ds) >= 0x1_0000;
      NumberIsLeading(ds, rest);
    }
  }

  /** A first line whose word is neither a 16-bit number nor a registered name gives the all-zero frame, and
      exactly that line is consumed: the payload line that should follow is read as the next header. */
  lemma InvalidHeaderGivesZeroFrame(word: Text, tail: Text, rest: Text, names: Names)
    requires FirstWord(word, tail) && NEWLINE !in tail && word !in names && NotANumber(word)
    ensures ReadTextFrame(word + tail + [NEWLINE] + rest, names) == Got(Frame(Header(0, 0, 0, 0), []), rest)
  {
    assert NEWLINE !in word + tail by { assert forall i :: 0 <= i < |word| ==> !IsSpace(word[i]); }
    NextLineOf(word + tail, rest);
    CommandWordExactly(word, tail, names, [], []);
  }

  /** What a field of white space, an optional sign, digits and something else reads as: too large a number
      is the largest, and a minus negates modulo 2^64. */
  ghost function FieldValue(sign: Text, v: nat): uint64 {
    if v >= 0x1_0000_0000_0000_0000 then 0xffff_ffff_ffff_ffff
    else if sign == [45] && v > 0 then 0x1_0000_0000_0000_0000 - v
    else v
  }

  ghost predicate Blank(t: Text) { forall i :: 0 <= i < |t| ==> IsSpace(t[i]) }

  lemma FieldReads(spaces: Text, sign: Text, digits: Text, more: Text)
    requires Blank(spaces) && (sign == [] || sign == [43] || sign == [45]) && Number(digits, more)
    ensures ExtractUint64(spaces + (sign + (digits + more))) == FieldValue(sign, Value(digits))
  {
    var field := sign + (digits + more);
    NumberIsLeading(digits, more);
    assert field[|sign|..] == digits + more;
    assert IsDigit((digits + more)[0]);
    assert sign != [] ==> field[0] == sign[0];
    assert sign == [] ==> field == digits + more;
    SpacesSkipped(spaces, field);
  }

  /** The session in a header line is what follows the command, read to the first character that is no digit;
      where nothing stands it is 0. */
  lemma SessionFieldExactly(command: uint16, spaces: Text, sign: Text, digits: Text, more: Text, names: Names)
    requires spaces != [] && Blank(spaces) && (sign == [] || sign == [43] || sign == [45]) && Number(digits, more)
    ensures ParseHeader(Decimal(command) + (spaces + (sign + (digits + more))), names) ==
            Some((command, FieldValue(sign, Value(digits))))
    ensures ParseHeader(Decimal(command) + spaces, names) == Some((command, 0))
  {
    DecimalIsDigits(command);
    DecimalReadsBack(command, []);
    assert Decimal(command) + [] == Decimal(command);
    var field := spaces + (sign + (digits + more));
    assert field[0] == spaces[0];
    FirstWordIsToken(Decimal(command), field);
    FirstWordIsToken(Decimal(command), spaces);
    BlankHasNoWord(spaces);
    FieldReads(spaces, sign, digits, more);
  }

  /** Any of the six white-space characters separates the command from the session. */
  lemma AnyWhiteSpaceSeparates(command: uint16, session: uint64, c: byte, names: Names)
    requires c == 32 || 9 <= c <= 13
    ensures ParseHeader(Decimal(command) + ([c] + Decimal(session)), names) == Some((command, session))
  {
    DecimalIsDigits(session);
    assert Decimal(session) == [] + (Decimal(session) + []);
    SessionFieldExactly(command, [c], [], Decimal(session), [], names);
  }

  lemma {:induction false} SpacesSkipped(spaces: Text, t: Text)
    requires Blank(spaces) && t != [] && !IsSpace(t[0])
    ensures SkipSpaces(spaces + t) == t
  {
    if spaces == [] {
      assert spaces + t == t;
    } else {
      SpacesSkipped(spaces[1..], t);
      assert (spaces + t)[1..] == spaces[1..] + t;
    }
  }

  /** `n` without its last `k` decimal digits. */
  ghost function WithoutDigits(n: nat, k: nat): nat {
    if k == 0 then n else WithoutDigits(n / 10, k - 1)
  }

  /** Numbers are printed in base ten, most significant digit first, without leading zeros. */
  lemma {:induction false} DecimalPositional(n: nat, k: nat)
    requires k < |Decimal(n)|
    ensures Decimal(n)[|Decimal(n)| - 1 - k] == 48 + WithoutDigits(n, k) % 10
    ensures Decimal(n)[0] == 48 ==> n == 0 && Decimal(n) == [48]
  {
    if n >= 10 {
      DecimalPositional(n / 10, if k == 0 then 0 else k - 1);
      assert Decimal(n)[0] == Decimal(n / 10)[0];
    }
  }

  // ---------------------------------------------------------------- command names

  /** Names a request can use: not empty, no white space, and not read as a 16-bit number. */
  predicate Usable(name: Text) {
    name != [] && NoSpaces(name) && FromChars16(name) == None
  }

  /** A non-empty name without white space that does not start with a digit is usable. */
  lemma PlainNamesAreUsable(name: Text)
    requires name != [] && NoSpaces(name) && !IsDigit(name[0])
    ensures Usable(name)
  {
  }

  predicate Resolves(name: Text, names: Names, session: uint64) {
    name in names ==> ParseHeader(name + [SPACE] + Decimal(session), names) == Some((names[name], session))
  }

  /** A name resolves to its id in every table that registers it, for every session, exactly if usable:
      an empty name, one with white space or one like `2fa` never can be relied on. */
  lemma NameResolvesExactlyWhenUsable(name: Text)
    ensures (forall names: Names, session: uint64 :: Resolves(name, names, session)) <==> Usable(name)
  {
    if Usable(name) {
      forall names: Names, session: uint64 ensures Resolves(name, names, session) {
        HeaderLineParts(name, session);
        ExtractDecimal(session);
      }
    } else {
      var line := name + [SPACE] + Decimal(0);
      var id: uint16 := if FromChars16(Token(line)) == Some(1) then 2 else 1;
      var names: Names := map[name := id];
      TokenIsWord(line);
      if name == [] {
        EmptyNameLine();
      } else if NoSpaces(name) {
        HeaderLineParts(name, 0);
      }
      assert !Resolves(name, names, 0);
    }
  }

  lemma TokenIsWord(t: Text)
    ensures NoSpaces(Token(t))
  {
  }

  lemma EmptyNameLine()
    ensures FromChars16(Token([] + [SPACE] + Decimal(0))) == Some(0)
  {
    var line: Text := [] + [SPACE] + Decimal(0);
    assert line == [SPACE, ZERO];
    assert line[1..] == [ZERO];
    assert SkipSpaces(line) == [ZERO];
    TokenOfWord([ZERO], []);
    assert [ZERO] + [] == [ZERO];
    DecimalReadsBack(0, []);
    assert Decimal(0) + [] == [ZERO];
  }

  // ---------------------------------------------------------------- sequences of requests

  datatype Call = Call(word: Text, command: uint16, session: uint64, payload: Text)

  predicate WellFormed(c: Call, names: Names) {
    && Names16(c.word, c.command, names)
    && NEWLINE !in c.payload && |c.payload| < 0x1_0000_0000
  }

  function RequestAll(calls: seq<Call>): Text {
    if calls == [] then []
    else Request(calls[0].word, calls[0].session, calls[0].payload) + RequestAll(calls[1..])
  }

  function FramesOf(calls: seq<Call>): seq<Frame> {
    seq(|calls|, i requires 0 <= i < |calls| =>
      FrameFor(calls[i].command, 0, calls[i].session, calls[i].payload))
  }

  function ReadTextAll(bs: Text, names: Names): seq<Frame>
    decreases |bs|
  {
    match ReadTextFrame(bs, names)
    case Raised => []
    case Got(f, rest) => [f] + ReadTextAll(rest, names)
  }

  /** Any list of text requests decodes to exactly its frames, in order. */
  lemma {:induction false} RequestsRoundTrip(calls: seq<Call>, rest: Text, names: Names)
    requires forall i :: 0 <= i < |calls| ==> WellFormed(calls[i], names)
    ensures ReadTextAll(RequestAll(calls) + rest, names) == FramesOf(calls) + ReadTextAll(rest, names)
  {
    if calls == [] {
      assert RequestAll(calls) + rest == rest;
    } else {
      var c := calls[0];
      var first := Request(c.word, c.session, c.payload);
      RequestsRoundTrip(calls[1..], rest, names);
      RequestReadsBack(c.word, c.command, c.session, c.payload, RequestAll(calls[1..]) + rest, names);
      Assoc(first, RequestAll(calls[1..]), rest);
      var f := FrameFor(c.command, 0, c.session, c.payload);
      Assoc([f], FramesOf(calls[1..]), ReadTextAll(rest, names));
      assert FramesOf(calls) == [f] + FramesOf(calls[1..]);
    }
  }

  // ---------------------------------------------------------------- responses

  /** What `TextTcpConnection::send_frame` prints. */
  function Response(h: Header, payload: Text): Text {
    (Decimal(h.command) + [SPACE] + (Decimal(h.flags) + [SPACE] + Decimal(h.session))) + [NEWLINE] +
    (payload + [NEWLINE])
  }

  lemma WordThenRest(n: nat, tail: Text)
    ensures TokenOf(Decimal(n) + [SPACE] + tail) == Decimal(n)
    ensures (Decimal(n) + [SPACE] + tail)[|Decimal(n)| + 1..] == tail
  {
    DecimalIsDigits(n);
    assert Decimal(n) + [SPACE] + tail == Decimal(n) + ([SPACE] + tail);
    TokenOfWord(Decimal(n), [SPACE] + tail);
  }

  lemma DecimalInjective(m: nat, n: nat)
    requires Decimal(m) == Decimal(n)
    ensures m == n
  {
    DecimalIsDigits(m);
    DecimalIsDigits(n);
  }

  lemma ResponseLine(h: Header, payload: Text, rest: Text)
    ensures NextLine(Response(h, payload) + rest) ==
            Line(Decimal(h.command) + [SPACE] + (Decimal(h.flags) + [SPACE] + Decimal(h.session)), payload + [NEWLINE] + rest)
  {
    var line := Decimal(h.command) + [SPACE] + (Decimal(h.flags) + [SPACE] + Decimal(h.session));
    DecimalIsDigits(h.command);
    DecimalIsDigits(h.flags);
    DecimalIsDigits(h.session);
    Assoc(line + [NEWLINE], payload + [NEWLINE], rest);
    NextLineOf(line, payload + [NEWLINE] + rest);
  }

  /** The third character of a response is a digit or a space. */
  lemma ResponseStartsPrintable(h: Header, payload: Text, rest: Text)
    ensures var out := Response(h, payload) + rest;
            |out| > 2 && (IsDigit(out[2]) || out[2] == SPACE)
  {
    var line := Decimal(h.command) + [SPACE] + (Decimal(h.flags) + [SPACE] + Decimal(h.session));
    DecimalIsDigits(h.command);
    DecimalIsDigits(h.flags);
    DecimalIsDigits(h.session);
    assert |line| > 2 && (IsDigit(line[2]) || line[2] == SPACE);
    assert (Response(h, payload) + rest)[2] == line[2];
  }

  /** Responses with newline-free payloads are unambiguous: a stream that starts with one starts with no
      other, and what follows it is determined. */
  lemma ResponsesUnambiguous(h1: Header, p1: Text, r1: Text, h2: Header, p2: Text, r2: Text)
    requires NEWLINE !in p1 && NEWLINE !in p2
    requires Response(h1, p1) + r1 == Response(h2, p2) + r2
    ensures h1.command == h2.command && h1.flags == h2.flags && h1.session == h2.session
    ensures p1 == p2 && r1 == r2
  {
    ResponseLine(h1, p1, r1);
    ResponseLine(h2, p2, r2);
    NextLineOf(p1, r1);
    NextLineOf(p2, r2);
    WordThenRest(h1.command, Decimal(h1.flags) + [SPACE] + Decimal(h1.session));
    WordThenRest(h2.command, Decimal(h2.flags) + [SPACE] + Decimal(h2.session));
    DecimalInjective(h1.command, h2.command);
    WordThenRest(h1.flags, Decimal(h1.session));
    WordThenRest(h2.flags, Decimal(h2.session));
    DecimalInjective(h1.flags, h2.flags);
    DecimalInjective(h1.session, h2.session);
  }

  // ---------------------------------------------------------------- the code itself

  /** `read_text_line`: byte by byte until a newline; `None` is the exception of a closed stream. */
  method ReadLine(socket: Socket) returns (line: Option<Text>)
    requires socket.Valid()
    modifies socket
    ensures socket.Valid()
    ensures match NextLine(old(socket.Stream()))
            case Line(text, rest) => line == Some(text) && socket.Stream() == rest
            case Ended => line == None
  {
    var text := [];
    var c := new byte[1];
    while true
      invariant socket.Valid() && fresh(c)
      invariant match NextLine(old(socket.Stream()))
                case Line(t, rest) =>
                  && NextLine(socket.Stream()).Line?
                  && t == text + NextLine(socket.Stream()).text && rest == NextLine(socket.Stream()).rest
                case Ended => NextLine(socket.Stream()) == Ended
      decreases |socket.Stream()|
    {
      ghost var stream := socket.Stream();
      var ok := ReadExact(socket, c);
      if !ok { return None; }
      assert stream == [c[0]] + socket.Stream();
      assert stream[1..] == socket.Stream();
      if c[0] == NEWLINE {
        assert text + [] == text;
        return Some(text);
      }
      text := text + [c[0]];
    }
  }

  /** `read_text_frame`. */
  method ReceiveTextFrame(socket: Socket, names: Names) returns (r: Option<Frame>)
    requires socket.Valid()
    modifies socket
    ensures socket.Valid()
    ensures match ReadTextFrame(old(socket.Stream()), names)
            case Got(f, rest) => r == Some(f) && socket.Stream() == rest
            case Raised => r == None
  {
    var headerLine := ReadLine(socket);
    if headerLine.None? { return None; }
    var header := ParseHeader(headerLine.value, names);
    if header.None? { return Some(EMPTY_FRAME); }
    var payloadLine := ReadLine(socket);
    if payloadLine.None? { return None; }
    var length := ToUint32(|payloadLine.value|);
    return Some(Frame(Header(header.value.0, 0, length, header.value.1), payloadLine.value[..length]));
  }

  /** `TextTcpConnection::send_frame`: the string stream is filled piece by piece. */
  method BuildResponse(h: Header, payload: Text) returns (out: Text)
    ensures out == Response(h, payload)
  {
    out := Decimal(h.command);
    out := out + [SPACE];
    out := out + Decimal(h.flags) + [SPACE];
    out := out + Decimal(h.session) + [NEWLINE];
    ghost var line := Decimal(h.command) + [SPACE] + (Decimal(h.flags) + [SPACE] + Decimal(h.session));
    assert out == line + [NEWLINE];
    if |payload| > 0 {
      out := out + payload;
    }
    out := out + [NEWLINE];
    assert out == line + [NEWLINE] + (payload + [NEWLINE]);
  }
}
