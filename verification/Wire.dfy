/**
 Framing: the encoders of src/server/message_builder.c and send_login, the listener loop of
 the client and the decoding half of login_handler.
 */
module Wire {
  import opened Commons
  import opened Protocol
  import opened Blackboards

  // ---------- encoding ----------

  /** htons() on a C int: the value is cut to 16 bits, high byte first. */
  function BigEndian(n: nat): seq<Byte> {
    [n / 0x100 % 0x100, n % 0x100]
  }

  function Framed(kind: Byte, body: seq<Byte>): seq<Byte> {
    [kind] + BigEndian(|body|) + body
  }

  function Kind(m: ServerMessage): Byte {
    match m
    case Status(_, _, _, _, _, _) => M_STATUS
    case Board(_) => M_BOARD
    case Query(_, _) => M_QUERY
    case Error(_, _) => M_ERROR
  }

  function Body(m: ServerMessage): seq<Byte> {
    match m
    case Status(role, cid, write, dcount, tcount, scount) =>
      [role] + BigEndian(cid) + [write, dcount, tcount] + BigEndian(scount)
    case Board(content) => content
    case Query(asker, name) => BigEndian(asker) + name
    case Error(ecode, detail) => [ecode] + detail
  }

  function Encode(m: ServerMessage): seq<Byte> {
    Framed(Kind(m), Body(m))
  }

  function EncodeAll(ms: seq<ServerMessage>): seq<Byte> {
    if ms == [] then [] else Encode(ms[0]) + EncodeAll(ms[1..])
  }

  method PutHeader(a: array<Byte>, kind: Byte, length: nat)
    requires a.Length >= 3
    modifies a
    ensures a[..] == [kind] + BigEndian(length) + old(a[3..])
  {
    a[0] := kind;
    a[1] := length / 0x100 % 0x100;
    a[2] := length % 0x100;
  }

  method BuildStatus(role: Byte, cid: Word, perm: Byte, dcount: Byte, tcount: Byte, scount: Word)
    returns (status: array<Byte>)
    ensures fresh(status) && status[..] == Encode(Status(role, cid, perm, dcount, tcount, scount))
  {
    status := new Byte[11];
    PutHeader(status, M_STATUS, 8);
    status[3] := role;
    status[4], status[5] := cid / 0x100, cid % 0x100;
    status[6] := perm;
    status[7] := dcount;
    status[9], status[10] := scount / 0x100, scount % 0x100;
    status[8] := tcount;
  }

  /** The buffer is larger than the message; callers send 3 + length bytes. */
  method BuildBoard(content: array<Byte>, length: nat) returns (board: array<Byte>)
    requires length <= content.Length
    ensures fresh(board) && board.Length == 11 + length
    ensures board[..3 + length] == Encode(Board(content[..length]))
  {
    board := new Byte[11 + length];
    PutHeader(board, M_BOARD, length);
    MemCpy(board, 3, content[..length]);
  }

  lemma QueryBytes(cid: Word, name: seq<Byte>, head: seq<Byte>)
    requires head == [M_QUERY] + BigEndian(2 + |name|) + BigEndian(cid)
    ensures head + name == Encode(Query(cid, name))
  {
  }

  method BuildQuery(cid: Word, name: seq<Byte>) returns (query: array<Byte>)
    ensures fresh(query) && query[..] == Encode(Query(cid, name))
  {
    query := new Byte[5 + |name|];
    PutHeader(query, M_QUERY, 2 + |name|);
    query[3], query[4] := cid / 0x100, cid % 0x100;
    ghost var head := query[..5];
    assert head == [M_QUERY] + BigEndian(2 + |name|) + BigEndian(cid);
    MemCpy(query, 5, name);
    assert query[..] == head + name;
    QueryBytes(cid, name, head);
  }

  lemma ErrorBytes(ecode: Byte, detail: seq<Byte>, head: seq<Byte>)
    requires head == [M_ERROR] + BigEndian(1 + |detail|) + [ecode]
    ensures head + detail == Encode(Error(ecode, detail))
  {
  }

  method BuildError(ecode: Byte, detail: seq<Byte>) returns (error: array<Byte>)
    ensures fresh(error) && error[..] == Encode(Error(ecode, detail))
  {
    error := new Byte[4 + |detail|];
    PutHeader(error, M_ERROR, 1 + |detail|);
    error[3] := ecode;
    ghost var head := error[..4];
    assert head == [M_ERROR] + BigEndian(1 + |detail|) + [ecode];
    MemCpy(error, 4, detail);
    assert error[..] == head + detail;
    ErrorBytes(ecode, detail, head);
  }

  /** A 16-bit number by its two bytes. */
  function Short(high: int, low: int): int { 0x100 * high + low }

  /** The type of a message and the fields of its payload, each at its place. */
  predicate LaidOut(m: ServerMessage, kind: Byte, p: seq<Byte>) {
    match m
    case Status(role, cid, write, dcount, tcount, scount) =>
      && kind == 1 && |p| == 8 && p[0] == role && Short(p[1], p[2]) == cid
      && p[3] == write && p[4] == dcount && p[5] == tcount && Short(p[6], p[7]) == scount
    case Board(content) => kind == 2 && p == content
    case Query(asker, name) => kind == 6 && |p| >= 2 && Short(p[0], p[1]) == asker && p[2..] == name
    case Error(ecode, detail) => kind == 255 && |p| >= 1 && p[0] == ecode && p[1..] == detail
  }

  lemma StatusLayout(m: ServerMessage, p: seq<Byte>)
    requires m.Status? && p == Body(m)
    ensures LaidOut(m, 1, p)
  {
  }

  lemma BodyLayout(m: ServerMessage, kind: Byte, p: seq<Byte>)
    requires kind == Kind(m) && p == Body(m)
    ensures LaidOut(m, kind, p)
  {
    match m {
      case Status(_, _, _, _, _, _) => StatusLayout(m, p);
      case Board(_) =>
      case Query(_, name) => assert p[2..] == name;
      case Error(_, detail) => assert p[1..] == detail;
    }
  }

  lemma FrameLayout(kind: Byte, body: seq<Byte>)
    ensures
      var b := Framed(kind, body);
      |b| == 3 + |body| && b[0] == kind && Short(b[1], b[2]) == |body| % 0x1_0000 && b[3..] == body
  {
  }

  /** Type, length and fields stand where the message format puts them, 16-bit numbers with their high
      byte first. */
  lemma Layout(m: ServerMessage)
    ensures
      var b := Encode(m);
      && |b| >= 3 && Short(b[1], b[2]) == (|b| - 3) % 0x1_0000
      && LaidOut(m, b[0], b[3..])
  {
    FrameLayout(Kind(m), Body(m));
    BodyLayout(m, Kind(m), Body(m));
  }

  // ---------- decoding ----------

  /** recv() of `want` bytes into a zeroed buffer of at least `room` bytes: what the stream
      still holds, then zeros. */
  function Received(s: seq<Byte>, want: nat, room: nat): (r: seq<Byte>)
    ensures |r| >= room
  {
    var got := if want < |s| then s[..want] else s;
    got + Zeros(if room < |got| then 0 else room - |got|)
  }

  function Rest(s: seq<Byte>, want: nat): seq<Byte> {
    if want < |s| then s[want..] else []
  }

  function Word16(high: Byte, low: Byte): Word { high * 0x100 + low }

  /** %i of sprintf(). */
  function Decimal(n: nat): seq<Byte> {
    (if n < 10 then [] else Decimal(n / 10)) + [48 + n % 10]
  }

  /** What sprintf() makes of a query and of an error. */
  function Question(asker: Word, name: seq<Byte>): seq<Byte> {
    Bytes("Wollen Sie dem Benutzer '") + name + Bytes("' (ID:") + Decimal(asker)
    + Bytes(") wirklich Schreibrechte geben?")
  }

  function Complaint(ecode: Byte, detail: seq<Byte>): seq<Byte> {
    Bytes("Fehler ") + Decimal(ecode) + Bytes(": ") + detail
  }

  /** The text that is shown fits the listener's static buffer with its zero byte. */
  predicate Displayable(m: ServerMessage) {
    match m
    case Query(asker, name) => |Question(asker, name)| < 1024
    case Error(ecode, detail) => |Complaint(ecode, detail)| < 256
    case _ => true
  }

  function Digits(n: nat): nat { |Decimal(n)| }

  lemma DisplayLengths(m: ServerMessage)
    ensures m.Query? ==> (Displayable(m) <==> 62 + |m.name| + Digits(m.asker) < 1024)
    ensures m.Error? ==> (Displayable(m) <==> 9 + Digits(m.ecode) + |m.detail| < 256)
  {
  }

  /** What the listener makes of a payload. After `Overrun` it has written behind a buffer. */
  datatype Reading = Understood(message: ServerMessage) | UnknownType | Overrun

  function Shown(m: ServerMessage): Reading {
    if Displayable(m) then Understood(m) else Overrun
  }

  function ReadPayload(kind: Byte, length: Word, s: seq<Byte>): Reading {
    if kind == M_STATUS then
      var b := Received(s, length, 8);
      if |b| > 8 then Overrun
      else Understood(Status(b[0], Word16(b[1], b[2]), b[3], b[4], b[5], Word16(b[6], b[7])))
    else if kind == M_ERROR then
      var b := Received(s, length, length + 2);
      Shown(Error(b[0], CString(b[1..])))
    else if kind == M_BOARD then
      Understood(Board(CString(Received(s, length, length + 1))))
    else if kind == M_QUERY then
      var b := Received(s, length, length + 3);
      Shown(Query(Word16(b[0], b[1]), CString(b[2..])))
    else
      UnknownType
  }

  /** recv() into the header, which keeps what it held behind the bytes of a broken connection. */
  function Overlaid(header: seq<Byte>, s: seq<Byte>): (r: seq<Byte>)
    requires |header| == 3
    ensures |r| == 3
  {
    if |s| < 3 then s + header[|s|..] else s[..3]
  }

  /** All messages of a stream, from the first header to the end of the connection. An unknown
      type is reported and its payload left in the stream; an overrun ends what can be said. */
  function DecodeFrom(header: seq<Byte>, s: seq<Byte>): seq<ServerMessage>
    requires |header| == 3
    decreases |s|
  {
    if s == [] then []
    else
      var h := Overlaid(header, s);
      var length, payload := Word16(h[1], h[2]), Rest(s, 3);
      match ReadPayload(h[0], length, payload)
      case Understood(m) => [m] + DecodeFrom(h, Rest(payload, length))
      case UnknownType => DecodeFrom(h, payload)
      case Overrun => []
  }

  function Decode(s: seq<Byte>): seq<ServerMessage> { DecodeFrom([0, 0, 0], s) }

  /** The switch of listener_handler, entered after the header was taken off the stream. */
  method ReceivePayload(kind: Byte, length: Word, stream: seq<Byte>) returns (reading: Reading, rest: seq<Byte>)
    ensures reading == ReadPayload(kind, length, stream)
    ensures rest == if reading.UnknownType? then stream else Rest(stream, length)
  {
    reading, rest := UnknownType, stream;
    var room: int := length;
    if kind == M_STATUS {
      var b := Received(stream, length, 8);
      rest := Rest(stream, length);
      if |b| > 8 {
        return Overrun, rest;
      }
      reading := Understood(Status(b[0], Word16(b[1], b[2]), b[3], b[4], b[5], Word16(b[6], b[7])));
    } else if kind == M_ERROR {
      var b := Received(stream, length, room + 2);
      rest := Rest(stream, length);
      var size := |Complaint(b[0], CString(b[1..]))| + 1;
      reading := if size <= 256 then Understood(Error(b[0], CString(b[1..]))) else Overrun;
    } else if kind == M_BOARD {
      var b := Received(stream, length, room + 1);
      if length != 0 {
        rest := Rest(stream, length);
      }
      reading := Understood(Board(CString(b)));
    } else if kind == M_QUERY {
      var b := Received(stream, length, room + 3);
      rest := Rest(stream, length);
      var cid := Word16(b[0], b[1]);
      var size := |Question(cid, CString(b[2..]))| + 1;
      reading := if size <= 1024 then Understood(Query(cid, CString(b[2..]))) else Overrun;
    }
  }

  lemma DecodeTurn(header: seq<Byte>, s: seq<Byte>, h: seq<Byte>, reading: Reading, next: seq<Byte>)
    requires |header| == 3 && s != [] && h == Overlaid(header, s)
    requires reading == ReadPayload(h[0], Word16(h[1], h[2]), Rest(s, 3))
    requires next == if reading.UnknownType? then Rest(s, 3) else Rest(Rest(s, 3), Word16(h[1], h[2]))
    ensures |next| < |s|
    ensures DecodeFrom(header, s) ==
      match reading
      case Understood(m) => [m] + DecodeFrom(h, next)
      case UnknownType => DecodeFrom(h, next)
      case Overrun => []
  {
  }

  /** listener_handler: `stream` is everything the server sends on the connection. Where it
      overruns a buffer nothing more is said. */
  method ListenerHandler(stream: seq<Byte>) returns (received: seq<ServerMessage>)
    ensures received == Decode(stream)
  {
    received := [];
    var rest, header := stream, [0, 0, 0];
    while rest != []
      invariant |header| == 3 && received + DecodeFrom(header, rest) == Decode(stream)
      decreases |rest|
    {
      ghost var before := header;
      header := Overlaid(header, rest);
      var reading, next := ReceivePayload(header[0], Word16(header[1], header[2]), Rest(rest, 3));
      DecodeTurn(before, rest, header, reading, next);
      if reading.Overrun? {
        return;
      }
      if reading.Understood? {
        received := received + [reading.message];
      }
      rest := next;
    }
  }

  /** The message that an empty payload is read as. */
  function Empty(kind: Byte): Reading {
    if kind == M_STATUS then Understood(Status(0, 0, 0, 0, 0, 0))
    else if kind == M_BOARD then Understood(Board([]))
    else if kind == M_QUERY then Understood(Query(0, []))
    else if kind == M_ERROR then Understood(Error(0, []))
    else UnknownType
  }

  lemma ZerosAreEmpty(want: nat, room: nat, k: nat)
    requires k <= room
    ensures Received([], want, room) == Zeros(room) && CString(Zeros(room)[k..]) == []
  {
  }

  lemma NoError(length: Word)
    ensures ReadPayload(M_ERROR, length, []) == Understood(Error(0, []))
  {
    ZerosAreEmpty(length, length + 2, 1);
    DisplayLengths(Error(0, []));
  }

  lemma NoQuery(length: Word)
    ensures ReadPayload(M_QUERY, length, []) == Understood(Query(0, []))
  {
    ZerosAreEmpty(length, length + 3, 2);
    DisplayLengths(Query(0, []));
  }

  lemma NothingReceived(kind: Byte, length: Word)
    ensures ReadPayload(kind, length, []) == Empty(kind)
  {
    if kind == M_ERROR {
      NoError(length);
    } else if kind == M_QUERY {
      NoQuery(length);
    } else if kind == M_STATUS {
      ZerosAreEmpty(length, 8, 0);
    } else {
      ZerosAreEmpty(length, length + 1, 0);
    }
  }

  /** A connection that breaks inside a header makes the listener report one empty message of the
      type it has read, whatever it had received before. */
  lemma BrokenOff(header: seq<Byte>, cut: seq<Byte>)
    requires |header| == 3 && 0 < |cut| < 3
    ensures DecodeFrom(header, cut) == if Empty(cut[0]).Understood? then [Empty(cut[0]).message] else []
  {
    var h := Overlaid(header, cut);
    NothingReceived(h[0], Word16(h[1], h[2]));
    DecodeTurn(header, cut, h, Empty(h[0]), []);
  }

  // ---------- round trip ----------

  /** The free text of a message, and how many bytes of its payload come before it. */
  function Text(m: ServerMessage): seq<Byte> {
    match m
    case Status(_, _, _, _, _, _) => []
    case Board(content) => content
    case Query(_, name) => name
    case Error(_, detail) => detail
  }

  function Fixed(m: ServerMessage): nat {
    match m case Status(_, _, _, _, _, _) => 8 case Board(_) => 0 case Query(_, _) => 2 case Error(_, _) => 1
  }

  /** The text is a C string, the payload length fits the header, and the listener can show it. */
  predicate Sendable(m: ServerMessage) {
    0 !in Text(m) && Fixed(m) + |Text(m)| <= 0xFFFF && Displayable(m)
  }

  lemma HeaderLength(n: nat)
    ensures Word16(BigEndian(n)[0], BigEndian(n)[1]) == n % 0x1_0000
  {
  }

  /** A text that fills its payload is read back from behind the fixed fields. */
  lemma TextAt(s: seq<Byte>, f: nat, text: seq<Byte>)
    requires f + |text| <= |s| && s[f..f + |text|] == text && 0 !in text
    ensures var b := Received(s, f + |text|, f + |text| + 1 + f);
      b[..f] == s[..f] && CString(b[f..]) == text
  {
    var b := Received(s, f + |text|, f + |text| + 1 + f);
    assert b[f..][..|text|] == text;
    CStringIs(b[f..], |text|);
  }

  lemma StatusUnderstood(m: ServerMessage, s: seq<Byte>)
    requires m.Status? && Body(m) <= s
    ensures ReadPayload(M_STATUS, 8, s) == Understood(m)
  {
    HeaderLength(m.cid);
    HeaderLength(m.scount);
    assert s[..8] == Body(m);
  }

  lemma QueryFields(asker: Word, name: seq<Byte>, b: seq<Byte>)
    requires |b| >= 2 && b[..2] == BigEndian(asker) && CString(b[2..]) == name
    ensures Query(Word16(b[0], b[1]), CString(b[2..])) == Query(asker, name)
  {
    HeaderLength(asker);
    assert b[0] == b[..2][0] && b[1] == b[..2][1];
  }

  lemma QueryBody(s: seq<Byte>, head: seq<Byte>, name: seq<Byte>)
    requires |head| == 2 && head + name <= s
    ensures s[..2] == head && s[2..2 + |name|] == name
  {
    assert s[..2 + |name|] == head + name;
    assert s[2..2 + |name|] == s[..2 + |name|][2..];
  }

  lemma QueryUnderstood(m: ServerMessage, s: seq<Byte>)
    requires m.Query? && Sendable(m) && Body(m) <= s
    ensures ReadPayload(M_QUERY, 2 + |m.name|, s) == Understood(m)
  {
    QueryBody(s, BigEndian(m.asker), m.name);
    TextAt(s, 2, m.name);
    QueryFields(m.asker, m.name, Received(s, 2 + |m.name|, 2 + |m.name| + 3));
  }

  lemma BoardUnderstood(m: ServerMessage, s: seq<Byte>)
    requires m.Board? && Sendable(m) && Body(m) <= s
    ensures ReadPayload(M_BOARD, |m.content|, s) == Understood(m)
  {
    var b := Received(s, |m.content|, |m.content| + 1);
    TextAt(s, 0, m.content);
    assert b[0..] == b;
  }

  lemma ErrorUnderstood(m: ServerMessage, s: seq<Byte>)
    requires m.Error? && Sendable(m) && Body(m) <= s
    ensures ReadPayload(M_ERROR, 1 + |m.detail|, s) == Understood(m)
  {
    var body := Body(m);
    assert s[1..1 + |m.detail|] == body[1..] == m.detail;
    TextAt(s, 1, m.detail);
    assert s[..1] == body[..1];
  }

  /** A payload is read as the fields and the text of its message. */
  lemma BodyUnderstood(m: ServerMessage, s: seq<Byte>)
    requires Sendable(m) && Body(m) <= s
    ensures |Body(m)| <= 0xFFFF && ReadPayload(Kind(m), |Body(m)|, s) == Understood(m)
  {
    match m {
      case Status(_, _, _, _, _, _) => StatusUnderstood(m, s);
      case Query(_, _) => QueryUnderstood(m, s);
      case Board(_) => BoardUnderstood(m, s);
      case Error(_, _) => ErrorUnderstood(m, s);
    }
  }

  lemma BodyLength(m: ServerMessage)
    ensures |Body(m)| == Fixed(m) + |Text(m)|
  {
  }

  /** A frame starts with its type and its length, cut to 16 bits. */
  lemma FrameHeader(s: seq<Byte>, kind: Byte, body: seq<Byte>, rest: seq<Byte>)
    requires s == Framed(kind, body) + rest
    ensures |s| >= 3 && s[0] == kind && Word16(s[1], s[2]) == |body| % 0x1_0000 && s[3..] == body + rest
  {
    HeaderLength(|body|);
  }

  lemma RestBehind(body: seq<Byte>, rest: seq<Byte>)
    ensures Rest(body + rest, |body|) == rest
  {
  }

  /** A complete header is read whole. */
  lemma FullHeader(header: seq<Byte>, s: seq<Byte>)
    requires |header| == 3 && |s| >= 3
    ensures Overlaid(header, s) == s[..3] && Rest(s, 3) == s[3..]
  {
  }

  /** One turn on a complete header. */
  lemma FrameTurn(header: seq<Byte>, s: seq<Byte>, kind: Byte, length: Word, payload: seq<Byte>, reading: Reading)
    requires |header| == 3 && |s| >= 3 && s[0] == kind && Word16(s[1], s[2]) == length && s[3..] == payload
    requires reading == ReadPayload(kind, length, payload)
    ensures reading.Understood? ==>
      DecodeFrom(header, s) == [reading.message] + DecodeFrom(s[..3], Rest(payload, length))
    ensures reading.Overrun? ==> DecodeFrom(header, s) == []
  {
    FullHeader(header, s);
    DecodeTurn(header, s, s[..3], reading, if reading.UnknownType? then payload else Rest(payload, length));
  }

  /** A complete frame, whatever the header held before. */
  lemma DecodeFrame(header: seq<Byte>, s: seq<Byte>, kind: Byte, length: Word, body: seq<Byte>, rest: seq<Byte>,
                    payload: seq<Byte>, reading: Reading)
    requires |header| == 3 && s == Framed(kind, body) + rest && payload == body + rest
    requires length == |body| % 0x1_0000 && reading == ReadPayload(kind, length, payload)
    ensures |s| >= 3
    ensures reading.Understood? ==>
      DecodeFrom(header, s) == [reading.message] + DecodeFrom(s[..3], Rest(payload, length))
    ensures reading.Overrun? ==> DecodeFrom(header, s) == []
  {
    FrameHeader(s, kind, body, rest);
    FrameTurn(header, s, kind, length, payload, reading);
  }

  lemma Reframe(s: seq<Byte>, kind: Byte, length: Word, body: seq<Byte>, rest: seq<Byte>, payload: seq<Byte>)
    requires s == Framed(kind, body) + rest && payload == body + rest && length == |body|
    ensures |s| >= 3 && s[..3] == Framed(kind, body)[..3] && Rest(payload, length) == rest
  {
    RestBehind(body, rest);
  }

  lemma DecodeUnderstood(header: seq<Byte>, s: seq<Byte>, kind: Byte, length: Word, body: seq<Byte>, rest: seq<Byte>,
                         payload: seq<Byte>, m: ServerMessage, reading: Reading)
    requires |header| == 3 && s == Framed(kind, body) + rest && payload == body + rest
    requires length == |body| && reading == Understood(m) && reading == ReadPayload(kind, length, payload)
    ensures DecodeFrom(header, s) == [m] + DecodeFrom(Framed(kind, body)[..3], rest)
  {
    Reframe(s, kind, length, body, rest, payload);
    DecodeFrame(header, s, kind, length, body, rest, payload, reading);
  }

  /** The listener's reading of an encoded message, whatever follows it. */
  lemma DecodeOne(header: seq<Byte>, m: ServerMessage, rest: seq<Byte>)
    requires |header| == 3 && Sendable(m)
    ensures DecodeFrom(header, Encode(m) + rest) == [m] + DecodeFrom(Encode(m)[..3], rest)
  {
    var kind, body := Kind(m), Body(m);
    BodyUnderstood(m, body + rest);
    DecodeUnderstood(header, Encode(m) + rest, kind, |body|, body, rest, body + rest, m, Understood(m));
  }

  /** An understood text is a C string no longer than the announced length allows, and shown. */
  lemma TextFits(kind: Byte, length: Word, s: seq<Byte>)
    requires ReadPayload(kind, length, s).Understood?
    ensures
      var m := ReadPayload(kind, length, s).message;
      0 !in Text(m) && |Text(m)| <= (if length < Fixed(m) then 0 else length - Fixed(m)) && Displayable(m)
  {
    var m := ReadPayload(kind, length, s).message;
    if !m.Status? {
      var f := Fixed(m);
      var b := Received(s, length, length + 1 + f);
      var end := if length < f then f else length as int;
      assert b[f..][end - f] == 0;
    }
  }

  /** The payload of a message that is not sendable is never read as that message. */
  lemma GarbledPayload(m: ServerMessage, kind: Byte, length: Word, payload: seq<Byte>)
    requires !Sendable(m) && kind == Kind(m) && length == (Fixed(m) + |Text(m)|) % 0x1_0000
    ensures
      var reading := ReadPayload(kind, length, payload);
      !reading.UnknownType? && (reading.Understood? ==> reading.message != m)
  {
    var reading := ReadPayload(kind, length, payload);
    if reading.Understood? && reading.message == m {
      TextFits(kind, length, payload);
    }
  }

  /** A message that is not sendable does not arrive, whatever follows it. */
  lemma Garbled(header: seq<Byte>, m: ServerMessage, rest: seq<Byte>)
    requires |header| == 3 && !Sendable(m)
    ensures var ms := DecodeFrom(header, Encode(m) + rest); ms == [] || ms[0] != m
  {
    BodyLength(m);
    var kind, body := Kind(m), Body(m);
    var payload := body + rest;
    var length: Word := |body| % 0x1_0000;
    GarbledPayload(m, kind, length, payload);
    DecodeFrame(header, Encode(m) + rest, kind, length, body, rest, payload, ReadPayload(kind, length, payload));
  }

  predicate AllSendable(ms: seq<ServerMessage>) {
    forall m <- ms :: Sendable(m)
  }

  lemma FirstSendable(ms: seq<ServerMessage>, got: seq<ServerMessage>, all: seq<ServerMessage>)
    requires ms != [] && Sendable(ms[0]) && (got == ms[1..] <==> AllSendable(ms[1..])) && all == [ms[0]] + got
    ensures all == ms <==> AllSendable(ms)
  {
    assert ms == [ms[0]] + ms[1..];
    assert all[1..] == got;
    assert forall m :: m in ms <==> m == ms[0] || m in ms[1..];
  }

  lemma FirstGarbled(ms: seq<ServerMessage>, got: seq<ServerMessage>)
    requires ms != [] && !Sendable(ms[0]) && (got == [] || got[0] != ms[0])
    ensures got != ms && !AllSendable(ms)
  {
  }

  /** What is decoded of all messages starts with the first one if that is sendable. */
  lemma DecodeHead(header: seq<Byte>, ms: seq<ServerMessage>, got: seq<ServerMessage>)
    requires |header| == 3 && ms != [] && got == DecodeFrom(header, EncodeAll(ms))
    ensures Sendable(ms[0]) ==>
      |Encode(ms[0])| >= 3 && got == [ms[0]] + DecodeFrom(Encode(ms[0])[..3], EncodeAll(ms[1..]))
    ensures !Sendable(ms[0]) ==> got == [] || got[0] != ms[0]
  {
    if Sendable(ms[0]) {
      DecodeOne(header, ms[0], EncodeAll(ms[1..]));
    } else {
      Garbled(header, ms[0], EncodeAll(ms[1..]));
    }
  }

  lemma {:induction false} RoundTripFrom(header: seq<Byte>, ms: seq<ServerMessage>)
    requires |header| == 3
    ensures DecodeFrom(header, EncodeAll(ms)) == ms <==> AllSendable(ms)
    decreases |ms|
  {
    if ms != [] {
      var got := DecodeFrom(header, EncodeAll(ms));
      DecodeHead(header, ms, got);
      if Sendable(ms[0]) {
        var h := Encode(ms[0])[..3];
        RoundTripFrom(h, ms[1..]);
        FirstSendable(ms, DecodeFrom(h, EncodeAll(ms[1..])), got);
      } else {
        FirstGarbled(ms, got);
      }
    }
  }

  /** A sequence of messages arrives as it was sent exactly if all of them are sendable. */
  lemma RoundTripIff(ms: seq<ServerMessage>)
    ensures Decode(EncodeAll(ms)) == ms <==> AllSendable(ms)
  {
    RoundTripFrom([0, 0, 0], ms);
  }

  lemma OneMessage(m: ServerMessage)
    ensures Decode(Encode(m)) == [m] <==> Sendable(m)
  {
    RoundTripIff([m]);
    assert [m][1..] == [] && EncodeAll([m]) == Encode(m);
    assert [m][0] == m;
  }

  // ---------- login ----------

  /** send_login: the name is a C string and goes out without its zero byte. */
  function EncodeLogin(role: Byte, name: seq<Byte>): seq<Byte> {
    Framed(M_LOGIN, [role] + name)
  }

  method SendLogin(role: Byte, name: seq<Byte>) returns (msg: array<Byte>)
    ensures fresh(msg) && msg[..] == EncodeLogin(role, name)
  {
    msg := new Byte[4 + |name|];
    msg[3] := role;
    MemCpy(msg, 4, name);
    PutHeader(msg, M_LOGIN, 1 + |name|);
  }

  /** What login_handler takes from a stream, or the result it gives up with. */
  datatype Login = Accepted(role: Byte, name: seq<Byte>) | Refused(ret: int)

  /** recv() of `want` bytes into a fresh malloc() buffer that holds `junk`. */
  function Filled(s: seq<Byte>, want: nat, junk: nat -> Byte): (r: seq<Byte>)
    ensures |r| == want
  {
    seq(want, i requires 0 <= i < want => if i < |s| then s[i] else junk(i))
  }

  /** The type is tested before the result of recv(); a body may be cut off. */
  function ParseLogin(s: seq<Byte>, junk: nat -> Byte, more: nat -> Byte): Login {
    var header := Filled(s, 3, junk);
    var length := Word16(header[1], header[2]);
    if header[0] != M_LOGIN then Refused(1)
    else if s == [] || length < 2 || |s| <= 3 then Refused(-1)
    else
      var body := Filled(s[3..], length, more);
      Accepted(body[0], CString(body[1..]))
  }

  /** The receiving half of login_handler. `junk` and `more` are what malloc() left in its buffers. */
  method ReceiveLogin(stream: seq<Byte>, junk: nat -> Byte, more: nat -> Byte) returns (login: Login)
    ensures login == ParseLogin(stream, junk, more)
  {
    var header := Filled(stream, 3, junk);
    if header[0] != M_LOGIN {
      return Refused(1);
    }
    if stream == [] {
      return Refused(-1);
    }
    var length: int := Word16(header[1], header[2]);
    if length < 2 {
      return Refused(-1);
    }
    if |stream| <= 3 {
      return Refused(-1);
    }
    var body := Filled(stream[3..], length, more);
    var cdata := new Byte[length + 1];
    MemSet(cdata, 0);
    MemCpy(cdata, 0, body);
    assert cdata[0] == body[0] && cdata[1..][..length - 1] == body[1..];
    CStringPadded(body[1..], cdata[1..]);
    return Accepted(cdata[0], CString(cdata[1..]));
  }

  lemma LoginLayout(role: Byte, name: seq<Byte>)
    ensures
      var b := EncodeLogin(role, name);
      && |b| == 4 + |name| && b[0] == 0 && Short(b[1], b[2]) == (1 + |name|) % 0x1_0000
      && b[3] == role && b[4..] == name
  {
  }

  /** A cut text and what stood behind it in the buffer. */
  lemma CStringCut(a: seq<Byte>, buffer: seq<Byte>)
    requires a <= buffer
    ensures 0 in a ==> CString(buffer) == CString(a)
    ensures 0 !in a ==> a <= CString(buffer)
  {
    var n := |CString(a)|;
    if 0 in a {
      CStringEnds(a);
      assert buffer[..n] == CString(a);
      CStringIs(buffer, n);
    }
  }

  /** The name in a received body: all that was announced, or, of a message cut off, what came up to
      its first zero byte. */
  predicate NameFrom(s: seq<Byte>, length: nat, name: seq<Byte>)
    requires |s| > 3 && length >= 1
  {
    if |s| >= 3 + length then name == CString(s[4..3 + length])
    else if 0 in s[4..] then name == CString(s[4..])
    else s[4..] <= name
  }

  lemma NameReceived(s: seq<Byte>, length: nat, body: seq<Byte>, more: nat -> Byte)
    requires |s| > 3 && length >= 1 && body == Filled(s[3..], length, more)
    ensures body[0] == s[3] && NameFrom(s, length, CString(body[1..]))
  {
    if |s| >= 3 + length {
      assert body[1..] == s[4..3 + length];
    } else {
      assert s[4..] <= body[1..];
      CStringCut(s[4..], body[1..]);
    }
  }

  /** Which logins the server refuses and how, and what it takes from the others. */
  lemma RefusedIff(s: seq<Byte>, junk: nat -> Byte, more: nat -> Byte)
    requires |s| >= 3
    ensures
      var login, length := ParseLogin(s, junk, more), Short(s[1], s[2]);
      && (login == Refused(1) <==> s[0] != 0)
      && (login == Refused(-1) <==> s[0] == 0 && (length < 2 || |s| == 3))
      && (login.Refused? ==> login.ret in {1, -1})
      && (login.Accepted? ==> |s| > 3 && 2 <= length && login.role == s[3] && NameFrom(s, length, login.name))
  {
    assert Filled(s, 3, junk) == s[..3];
    var length := Short(s[1], s[2]);
    if s[0] == 0 && 2 <= length && |s| > 3 {
      NameReceived(s, length, Filled(s[3..], length, more), more);
    }
  }

  /** Zeros behind a text do not change the C string. */
  lemma CStringPadded(text: seq<Byte>, buffer: seq<Byte>)
    requires |text| < |buffer| && buffer[..|text|] == text && buffer[|text|] == 0
    ensures CString(buffer) == CString(text)
  {
    var n := |CString(text)|;
    assert buffer[..n] == CString(text);
    CStringIs(buffer, n);
  }

  lemma LoginFields(role: Byte, name: seq<Byte>, s: seq<Byte>)
    requires s == EncodeLogin(role, name)
    ensures |s| == 4 + |name| && s[0] == M_LOGIN && s[3] == role && s[4..] == name
    ensures Word16(s[1], s[2]) == (1 + |name|) % 0x1_0000
  {
    HeaderLength(1 + |name|);
  }

  /** The server's reading of a login message whose fields are known. */
  lemma ParseFields(s: seq<Byte>, role: Byte, name: seq<Byte>, length: Word, junk: nat -> Byte, more: nat -> Byte)
    requires |s| == 4 + |name| && s[0] == M_LOGIN && s[3] == role && s[4..] == name
    requires length == Word16(s[1], s[2]) <= 1 + |name|
    ensures ParseLogin(s, junk, more) ==
      if length < 2 then Refused(-1) else Accepted(role, CString(name[..length - 1]))
  {
    assert Filled(s, 3, junk) == s[..3];
    if length >= 2 {
      assert s[3..] == [role] + name;
      assert Filled(s[3..], length, more)[1..] == name[..length - 1];
    }
  }

  lemma ParsedAsSent(s: seq<Byte>, role: Byte, name: seq<Byte>, junk: nat -> Byte, more: nat -> Byte)
    requires |s| == 4 + |name| && s[0] == M_LOGIN && s[3] == role && s[4..] == name && 0 !in name
    requires Word16(s[1], s[2]) == (1 + |name|) % 0x1_0000
    ensures ParseLogin(s, junk, more) == Accepted(role, name) <==> 0 < |name| <= 0xFFFE
  {
    var length: Word := (1 + |name|) % 0x1_0000;
    ParseFields(s, role, name, length, junk, more);
    CStringWhole(name);
    if length == 1 + |name| {
      assert name[..length - 1] == name;
    } else {
      assert length <= |name|;
    }
  }

  /** A login is understood exactly if the name is not empty and fits the header. */
  lemma LoginIff(role: Byte, name: seq<Byte>, junk: nat -> Byte, more: nat -> Byte)
    requires 0 !in name
    ensures ParseLogin(EncodeLogin(role, name), junk, more) == Accepted(role, name) <==> 0 < |name| <= 0xFFFE
  {
    var s := EncodeLogin(role, name);
    LoginFields(role, name, s);
    ParsedAsSent(s, role, name, junk, more);
  }

  /** A query for write permission reaches the docent exactly if the name of its sender, whatever
      it could log in with, fits the question the docent is shown. */
  lemma LoginNameInQuery(s: seq<Byte>, junk: nat -> Byte, more: nat -> Byte, cid: Word)
    requires ParseLogin(s, junk, more).Accepted?
    ensures
      var name := ParseLogin(s, junk, more).name;
      && |name| <= 0xFFFE && 0 !in name
      && (Decode(Encode(Query(cid, name))) == [Query(cid, name)] <==> 62 + |name| + Digits(cid) < 1024)
  {
    var query := Query(cid, ParseLogin(s, junk, more).name);
    DisplayLengths(query);
    OneMessage(query);
  }
}
