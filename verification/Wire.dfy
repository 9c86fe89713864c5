/** The bridge's wire formats: the 21-byte message header that C++ writes and Dart reads, its 25-byte
    extension, the packed request id, and the availability and state events. */
module Wire {
  import opened Bits
  import opened Bytes
  import opened Options

  datatype Header = Header(serviceId: u16, instanceId: u16, methodId: u16, messageType: u8,
                           returnCode: u8, requestId: u64, payloadLen: u32)

  const DISC_MESSAGE: u8 := 0x01
  const DISC_AVAILABILITY: u8 := 0x02
  const DISC_STATE: u8 := 0x03
  const DISC_SUBSCRIBE_ACK: u8 := 0x04
  const DISC_ERROR: u8 := 0x05
  const DISC_SENTINEL: u8 := 0xFF

  // ---- encoding, in C++ ----

  /** The 21 bytes of a header. */
  function HeaderBytes(h: Header): (b: Buffer)
    ensures |b| == 21
  {
    [DISC_MESSAGE] + LE(h.serviceId, 2) + LE(h.instanceId, 2) + LE(h.methodId, 2)
    + [h.messageType] + [h.returnCode] + LE(h.requestId, 8) + LE(h.payloadLen, 4)
  }

  /** Where each field of a header lies, byte by byte. */
  lemma {:induction false} HeaderLayout(h: Header)
    ensures var b := HeaderBytes(h);
      && b[0] == 0x01
      && h.serviceId == HalfWord(b[1], b[2])
      && h.instanceId == HalfWord(b[3], b[4])
      && h.methodId == HalfWord(b[5], b[6])
      && h.messageType == b[7]
      && h.returnCode == b[8]
      && h.requestId == Word(b[9], b[10], b[11], b[12]) + 0x1_0000_0000 * Word(b[13], b[14], b[15], b[16])
      && h.payloadLen == Word(b[17], b[18], b[19], b[20])
  {
    hide LE, Word, HalfWord, HeaderBytes;
    var b := HeaderBytes(h);
    HeaderFields(h, []);
    assert b + [] == b;
    HalfWordBack(b, 1, h.serviceId);
    HalfWordBack(b, 3, h.instanceId);
    HalfWordBack(b, 5, h.methodId);
    DoubleWordBack(b, 9, h.requestId);
    WordBack(b, 17, h.payloadLen);
  }

  lemma {:induction false} HeaderFields(h: Header, more: Buffer)
    ensures var b := HeaderBytes(h) + more;
      && b[0] == 0x01 && b[1..3] == LE(h.serviceId, 2) && b[3..5] == LE(h.instanceId, 2)
      && b[5..7] == LE(h.methodId, 2) && b[7] == h.messageType && b[8] == h.returnCode
      && b[9..17] == LE(h.requestId, 8) && b[17..21] == LE(h.payloadLen, 4)
  {
    hide LE;
  }

  /** Bytes as a number, lowest first. */
  function HalfWord(b0: nat, b1: nat): nat {
    b0 + 0x100 * b1
  }

  function Word(b0: nat, b1: nat, b2: nat, b3: nat): nat {
    b0 + 0x100 * b1 + 0x1_0000 * b2 + 0x100_0000 * b3
  }

  lemma {:induction false} HalfWordBack(b: Buffer, o: nat, v: u16)
    requires o + 2 <= |b| && b[o..o + 2] == LE(v, 2)
    ensures HalfWord(b[o], b[o + 1]) == v
  {
    assert b[o] == b[o..o + 2][0] && b[o + 1] == b[o..o + 2][1];
    assert LE(v, 2)[1] == LE(v / 256, 1)[0];
  }

  lemma {:induction false} WordBack(b: Buffer, o: nat, v: u32)
    requires o + 4 <= |b| && b[o..o + 4] == LE(v, 4)
    ensures Word(b[o], b[o + 1], b[o + 2], b[o + 3]) == v
  {
    hide LE;
    FirstWord(b[o..o + 4], v, 4);
  }

  lemma {:induction false} DoubleWordBack(b: Buffer, o: nat, v: u64)
    requires o + 8 <= |b| && b[o..o + 8] == LE(v, 8)
    ensures Word(b[o], b[o + 1], b[o + 2], b[o + 3]) +
            0x1_0000_0000 * Word(b[o + 4], b[o + 5], b[o + 6], b[o + 7]) == v
  {
    hide LE, Word;
    FirstWord(b[o..o + 8], v, 8);
    assert b[o + 4..o + 8] == b[o..o + 8][4..];
    WordBack(b, o + 4, v / 0x1_0000_0000);
  }

  lemma {:induction false} FirstWord(c: Buffer, v: nat, n: nat)
    requires n >= 4 && c == LE(v, n)
    ensures c[4..] == LE(v / 0x1_0000_0000, n - 4)
    ensures Word(c[0], c[1], c[2], c[3]) + 0x1_0000_0000 * (v / 0x1_0000_0000) == v
  {
    hide LE;
    var v1 := v / 256;
    var v2 := v1 / 256;
    var v3 := v2 / 256;
    LEStep(v, n);
    LEStep(v1, n - 1);
    LEStep(v2, n - 2);
    LEStep(v3, n - 3);
    assert c[1..][1..][1..][1..] == c[4..] && v3 / 256 == v / 0x1_0000_0000;
  }

  lemma {:induction false} LEStep(v: nat, n: nat)
    requires n > 0
    ensures LE(v, n)[0] == v % 256 && LE(v, n)[1..] == LE(v / 256, n - 1)
  {}

  lemma {:induction false} LEBytes(v: nat)
    ensures LE(v, 2) == [And(v, 0xFF), And(Shr(v, 8), 0xFF)]
    ensures LE(v, 4) == [And(v, 0xFF), And(Shr(v, 8), 0xFF), And(Shr(v, 16), 0xFF), And(Shr(v, 24), 0xFF)]
  {
    hide And, Shr;
    assert Shr(v, 0) == v by { ShrZero(v); }
    LEIndex(v, 2, 0);
    LEIndex(v, 2, 1);
    LEIndex(v, 4, 0);
    LEIndex(v, 4, 1);
    LEIndex(v, 4, 2);
    LEIndex(v, 4, 3);
  }

  lemma {:induction false} ShrZero(v: nat)
    ensures Shr(v, 0) == v
  {}

  /** encode_header: bytes pushed one at a time, low byte first; the 64-bit field in a loop. */
  method EncodeHeader(h: Header) returns (buf: Buffer)
    ensures buf == HeaderBytes(h)
  {
    hide And, Shr, LE;
    buf := [DISC_MESSAGE];
    buf := PushU16(buf, h.serviceId);
    buf := PushU16(buf, h.instanceId);
    buf := PushU16(buf, h.methodId);
    buf := buf + [h.messageType];
    buf := buf + [h.returnCode];
    buf := PushU64(buf, h.requestId);
    buf := PushU32(buf, h.payloadLen);
  }

  method PushU16(buf: Buffer, v: u16) returns (r: Buffer)
    ensures r == buf + LE(v, 2)
  {
    AndIsByte(v);
    AndIsByte(Shr(v, 8));
    LEBytes(v);
    r := buf + [And(v, 0xFF)];
    r := r + [And(Shr(v, 8), 0xFF)];
  }

  method PushU32(buf: Buffer, v: u32) returns (r: Buffer)
    ensures r == buf + LE(v, 4)
  {
    LEBytes(v);
    AndIsByte(v);
    AndIsByte(Shr(v, 8));
    AndIsByte(Shr(v, 16));
    AndIsByte(Shr(v, 24));
    r := buf + [And(v, 0xFF)];
    r := r + [And(Shr(v, 8), 0xFF)];
    r := r + [And(Shr(v, 16), 0xFF)];
    r := r + [And(Shr(v, 24), 0xFF)];
  }

  method PushU64(buf: Buffer, v: u64) returns (r: Buffer)
    ensures r == buf + LE(v, 8)
  {
    hide And, Shr, LE;
    r := buf;
    for i := 0 to 8
      invariant r == buf + LE(v, 8)[..i]
    {
      LEIndex(v, 8, i);
      AndIsByte(Shr(v, i * 8));
      r := r + [And(Shr(v, i * 8), 0xFF)];
    }
  }

  lemma {:induction false} AndIsByte(v: nat)
    ensures And(v, 0xFF) < 0x100
  {}

  /** encode_capnp_header: the header followed by the schema id. */
  method EncodeCapnpHeader(h: Header, schemaId: u32) returns (buf: Buffer)
    ensures buf == HeaderBytes(h) + LE(schemaId, 4) && |buf| == 25
    ensures Word(buf[21], buf[22], buf[23], buf[24]) == schemaId
  {
    hide LE;
    buf := EncodeHeader(h);
    buf := PushU32(buf, schemaId);
    WordBack(buf, 21, schemaId);
  }

  // ---- decoding, in Dart ----

  /** A decoded header. A Dart int has 64 bits, so a request id of 2^63 or more reads as negative. */
  datatype WireHeader = WireHeader(serviceId: nat, instanceId: nat, methodId: nat, messageType: nat,
                                   returnCode: nat, requestId: int, payloadLen: nat)

  function AsDartInt(v: nat): (i: int)
    requires v < 0x1_0000_0000_0000_0000
    ensures DART_MIN <= i <= DART_MAX && (i == v || i == v - 0x1_0000_0000_0000_0000)
  {
    if v < 0x8000_0000_0000_0000 then v else v - 0x1_0000_0000_0000_0000
  }

  /** WireCodec.decodeHeader: None where a ByteData getter throws RangeError. */
  function DecodeHeader(data: Buffer): Option<WireHeader> {
    if |data| < 21 then None
    else
      Pow256Values();
      Some(WireHeader(ReadLE(data, 1, 2), ReadLE(data, 3, 2), ReadLE(data, 5, 2), data[7], data[8],
                      AsDartInt(ReadLE(data, 9, 8)), ReadLE(data, 17, 4)))
  }

  lemma {:induction false} FieldBack(data: Buffer, o: nat, n: nat, v: nat)
    requires o + n <= |data| && data[o..o + n] == LE(v, n) && v < Pow256(n)
    ensures ReadLE(data, o, n) == v
  {
    FromLEOfLE(v, n);
    DivModUnique(v, Pow256(n), 0, v);
  }

  /** Every header survives the wire, also at the front of the 25-byte form; the request id as long as it is
      below 2^63. */
  lemma {:induction false} HeaderRoundTrip(h: Header, more: Buffer)
    ensures DecodeHeader(HeaderBytes(h) + more) ==
      Some(WireHeader(h.serviceId, h.instanceId, h.methodId, h.messageType, h.returnCode,
                      AsDartInt(h.requestId), h.payloadLen))
    ensures AsDartInt(h.requestId) == h.requestId <==> h.requestId < 0x8000_0000_0000_0000
  {
    hide LE, Pow256, HeaderBytes;
    var b := HeaderBytes(h) + more;
    Pow256Values();
    HeaderFields(h, more);
    FieldBack(b, 1, 2, h.serviceId);
    FieldBack(b, 3, 2, h.instanceId);
    FieldBack(b, 5, 2, h.methodId);
    FieldBack(b, 9, 8, h.requestId);
    FieldBack(b, 17, 4, h.payloadLen);
  }

  /** And nothing else decodes to it: a buffer with the message discriminator starts with the encoding of
      the header it decodes to. */
  lemma {:induction false} DecodeIsInjective(data: Buffer, h: Header)
    requires |data| >= 21 && data[0] == DISC_MESSAGE
    requires DecodeHeader(data) == DecodeHeader(HeaderBytes(h))
    ensures data[..21] == HeaderBytes(h)
  {
    hide LE, FromLE;
    var b := HeaderBytes(h);
    SameField(data, b, 1, 2);
    SameField(data, b, 3, 2);
    SameField(data, b, 5, 2);
    Pow256Values();
    SameField(data, b, 9, 8);
    SameField(data, b, 17, 4);
    forall i | 0 <= i < 21 ensures data[i] == b[i] {
      if 1 <= i < 3 { assert data[1..3][i - 1] == b[1..3][i - 1]; }
      else if 3 <= i < 5 { assert data[3..5][i - 3] == b[3..5][i - 3]; }
      else if 5 <= i < 7 { assert data[5..7][i - 5] == b[5..7][i - 5]; }
      else if 9 <= i < 17 { assert data[9..17][i - 9] == b[9..17][i - 9]; }
      else if 17 <= i { assert data[17..21][i - 17] == b[17..21][i - 17]; }
    }
  }

  lemma {:induction false} SameField(a: Buffer, b: Buffer, o: nat, n: nat)
    requires o + n <= |a| && o + n <= |b|
    ensures ReadLE(a, o, n) == ReadLE(b, o, n) ==> a[o..o + n] == b[o..o + n]
  {
    LEOfFromLE(a[o..o + n]);
    LEOfFromLE(b[o..o + n]);
  }

  // ---- the request id ----

  /** (client_id << 16) | session_id */
  function PackRequestId(client: u16, session: u16): (id: u64)
    ensures id == client * 0x1_0000 + session < 0x1_0000_0000
  {
    Pow2Small();
    OrDisjoint(client, session, 16);
    Or(Shl(client, 16), session)
  }

  /** (request_id >> shift) & 0xFFFF */
  function Field16(id: nat, shift: nat): nat {
    And(Shr(id, shift), 0xFFFF)
  }

  lemma {:induction false} Field16Is(id: nat, shift: nat)
    ensures Field16(id, shift) == id / Pow2(shift) % 0x1_0000
  {
    Pow2Small();
    ShrIsDiv(id, shift);
    AndMask(Shr(id, shift), 16);
  }

  /** vsomeip_send_response recovers client and session from every request id; the service and instance it
      also reads there are always 0, because they were never packed. */
  lemma {:induction false} RequestIdRoundTrip(client: u16, session: u16)
    ensures Field16(PackRequestId(client, session), 16) == client
    ensures Field16(PackRequestId(client, session), 0) == session
    ensures Field16(PackRequestId(client, session), 48) == 0
    ensures Field16(PackRequestId(client, session), 32) == 0
  {
    hide And, Shr, Or, Shl, PackRequestId, Field16;
    var id := PackRequestId(client, session);
    Pow2Small();
    Field16Is(id, 16);
    Field16Is(id, 0);
    Field16Is(id, 32);
    Field16Is(id, 48);
    Pow2Add(16, 32);
    assert Pow2(0) == 1;
    DivModUnique(id, 0x1_0000, client, session);
    DivModUnique(id, Pow2(32), 0, id);
    DivModUnique(id, Pow2(48), 0, id);
  }

  // ---- events ----

  datatype Availability = Availability(serviceId: nat, instanceId: nat, available: bool)
  datatype StateEvent = StateEvent(registered: bool, appName: Buffer)

  /** post_to_dart of the VsomeipAvailability struct: its bytes, with one byte of padding. */
  function AvailabilityBytes(svc: u16, inst: u16, available: bool, padding: u8): Buffer {
    [DISC_AVAILABILITY] + LE(svc, 2) + LE(inst, 2) + [if available then 1 else 0] + [padding]
  }

  function DecodeAvailability(data: Buffer): Option<Availability> {
    if |data| < 6 then None
    else Some(Availability(ReadLE(data, 1, 2), ReadLE(data, 3, 2), data[5] != 0))
  }

  /** post_to_dart of the state event: registered flag, then the application's name. */
  function StateBytes(registered: bool, appName: Buffer): Buffer {
    [DISC_STATE] + [if registered then 1 else 0] + appName
  }

  /** None where indexing or String.fromCharCodes throws RangeError. */
  function DecodeState(data: Buffer): Option<StateEvent> {
    if |data| < 2 then None else Some(StateEvent(data[1] != 0, data[2..]))
  }

  /** The bytes of both events. */
  lemma {:induction false} EventLayout(svc: u16, inst: u16, flag: bool, padding: u8, appName: Buffer)
    ensures var b := AvailabilityBytes(svc, inst, flag, padding);
      && |b| == 7 && b[0] == 0x02 && svc == HalfWord(b[1], b[2]) && inst == HalfWord(b[3], b[4])
      && b[5] == (if flag then 1 else 0) && b[6] == padding
    ensures StateBytes(flag, appName) == [0x03, if flag then 1 else 0] + appName
  {
    hide LE;
    var b := AvailabilityBytes(svc, inst, flag, padding);
    assert b[1..3] == LE(svc, 2) && b[3..5] == LE(inst, 2);
    HalfWordBack(b, 1, svc);
    HalfWordBack(b, 3, inst);
  }

  lemma {:induction false} EventRoundTrips(svc: u16, inst: u16, flag: bool, padding: u8, appName: Buffer)
    ensures DecodeAvailability(AvailabilityBytes(svc, inst, flag, padding)) ==
            Some(Availability(svc, inst, flag))
    ensures DecodeState(StateBytes(flag, appName)) == Some(StateEvent(flag, appName))
  {
    hide LE, Pow256;
    var b := AvailabilityBytes(svc, inst, flag, padding);
    Pow256Values();
    assert b[1..3] == LE(svc, 2) && b[3..5] == LE(inst, 2);
    FieldBack(b, 1, 2, svc);
    FieldBack(b, 3, 2, inst);
    assert StateBytes(flag, appName)[2..] == appName;
  }

  // ---- message types ----

  datatype MessageType =
    | Request | RequestNoReturn | Notification | RequestAck | RequestNoReturnAck | NotificationAck
    | Response | Error | Unknown

  /** The enum's value field. */
  function Code(t: MessageType): u8 {
    match t
    case Request => 0x00
    case RequestNoReturn => 0x01
    case Notification => 0x02
    case RequestAck => 0x40
    case RequestNoReturnAck => 0x41
    case NotificationAck => 0x42
    case Response => 0x80
    case Error => 0x81
    case Unknown => 0xFF
  }

  const MESSAGE_TYPES: seq<MessageType> := [Request, RequestNoReturn, Notification, RequestAck,
                                            RequestNoReturnAck, NotificationAck, Response, Error, Unknown]

  /** The first listed type with this code, else Unknown. */
  function FirstWithCode(types: seq<MessageType>, b: nat): MessageType {
    if types == [] then Unknown
    else if Code(types[0]) == b then types[0]
    else FirstWithCode(types[1..], b)
  }

  /** SomeIpMessageType.fromByte */
  function FromByte(b: nat): MessageType {
    FirstWithCode(MESSAGE_TYPES, b)
  }

  /** Every type's code is read back as that type, and a byte that is no type's code as Unknown. */
  lemma {:induction false} MessageTypeRoundTrip(t: MessageType, b: nat)
    ensures FromByte(Code(t)) == t
    ensures FromByte(b) == Unknown || Code(FromByte(b)) == b
    ensures FromByte(b) == Unknown <==> b !in {0x00, 0x01, 0x02, 0x40, 0x41, 0x42, 0x80, 0x81}
  {
    hide Code, FirstWithCode;
    var r := FromByte(b);
    CodeInList(MESSAGE_TYPES, b);
    CodeInList(MESSAGE_TYPES, Code(t));
    Listed(t);
    CodeIsKey(FromByte(Code(t)), t);
    CodeOf(r);
    if b in {0x00, 0x01, 0x02, 0x40, 0x41, 0x42, 0x80, 0x81} {
      var u := TypeWithCode(b);
      Listed(u);
      CodeIsKey(r, u);
    }
  }

  /** What each byte means. */
  lemma {:induction false} MessageTypeTable(b: nat)
    ensures FromByte(0x00) == Request && FromByte(0x01) == RequestNoReturn && FromByte(0x02) == Notification
    ensures FromByte(0x40) == RequestAck && FromByte(0x41) == RequestNoReturnAck
    ensures FromByte(0x42) == NotificationAck
    ensures FromByte(0x80) == Response && FromByte(0x81) == Error
    ensures b !in {0x00, 0x01, 0x02, 0x40, 0x41, 0x42, 0x80, 0x81} ==> FromByte(b) == Unknown
  {
    hide FirstWithCode, FromByte;
    MessageTypeRoundTrip(Request, b);
    MessageTypeRoundTrip(RequestNoReturn, b);
    MessageTypeRoundTrip(Notification, b);
    MessageTypeRoundTrip(RequestAck, b);
    MessageTypeRoundTrip(RequestNoReturnAck, b);
    MessageTypeRoundTrip(NotificationAck, b);
    MessageTypeRoundTrip(Response, b);
    MessageTypeRoundTrip(Error, b);
  }

  lemma {:induction false} Listed(t: MessageType)
    ensures t in MESSAGE_TYPES
  {
    assert MESSAGE_TYPES[0] == Request && MESSAGE_TYPES[1] == RequestNoReturn && MESSAGE_TYPES[2] == Notification;
    assert MESSAGE_TYPES[3] == RequestAck && MESSAGE_TYPES[4] == RequestNoReturnAck;
    assert MESSAGE_TYPES[5] == NotificationAck && MESSAGE_TYPES[6] == Response;
    assert MESSAGE_TYPES[7] == Error && MESSAGE_TYPES[8] == Unknown;
  }

  lemma {:induction false} CodeIsKey(t: MessageType, u: MessageType)
    ensures Code(t) == Code(u) <==> t == u
  {}

  lemma {:induction false} CodeOf(t: MessageType)
    ensures t != Unknown <==> Code(t) in {0x00, 0x01, 0x02, 0x40, 0x41, 0x42, 0x80, 0x81}
  {}

  lemma {:induction false} TypeWithCode(b: nat) returns (t: MessageType)
    requires b in {0x00, 0x01, 0x02, 0x40, 0x41, 0x42, 0x80, 0x81}
    ensures Code(t) == b && t != Unknown
  {
    t := if b == 0x00 then Request else if b == 0x01 then RequestNoReturn else if b == 0x02 then Notification
         else if b == 0x40 then RequestAck else if b == 0x41 then RequestNoReturnAck
         else if b == 0x42 then NotificationAck else if b == 0x80 then Response else Error;
  }

  lemma {:induction false} CodeInList(types: seq<MessageType>, b: nat)
    ensures var t := FirstWithCode(types, b);
      if exists u :: u in types && Code(u) == b then t in types && Code(t) == b else t == Unknown
  {
    if types != [] {
      CodeInList(types[1..], b);
      assert forall u :: u in types <==> u == types[0] || u in types[1..];
    }
  }
}
