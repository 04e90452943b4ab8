/**
 The encoded data message of src/data_message.c and src/protocol.c. A point is represented by
 its encoding, of which an arbitrary predicate says whether it decodes; the authenticator is an
 arbitrary function of the MAC key and the body.
 */
module DataMessageCodec {
  import opened Prelude
  import opened Bytes

  const VERSION_4 := 4
  const DATA_MSG_TYPE := 3
  const ED448_POINT_BYTES := 57
  const DATA_MSG_NONCE_BYTES := 24
  const DATA_MSG_MAC_BYTES := 64
  const HEADER_BYTES := 81

  type Curve = seq<Byte> -> bool
  type Authenticator = (seq<Byte>, seq<Byte>) -> seq<Byte>

  /** The part of fixed size. */
  datatype Header = Header(version: nat, kind: nat, sender: nat, receiver: nat, flags: nat,
                           previousChainN: nat, ratchetId: nat, messageId: nat, ecdh: seq<Byte>)

  datatype Message = Message(header: Header, dh: Option<nat>, nonce: seq<Byte>, encMsg: seq<Byte>, mac: seq<Byte>)

  predicate HeaderFits(h: Header) {
    && h.version < 0x1_0000 && h.kind < 0x100 && h.sender < 0x1_0000_0000 && h.receiver < 0x1_0000_0000
    && h.flags < 0x100 && h.previousChainN < 0x1_0000_0000 && h.ratchetId < 0x1_0000_0000
    && h.messageId < 0x1_0000_0000 && |h.ecdh| == ED448_POINT_BYTES
  }

  function WriteHeader(h: Header): (s: seq<Byte>)
    ensures |h.ecdh| == ED448_POINT_BYTES ==> |s| == HEADER_BYTES
  {
    Uint(h.version, 2) + Uint(h.kind, 1) + Uint(h.sender, 4) + Uint(h.receiver, 4) + Uint(h.flags, 1)
    + Uint(h.previousChainN, 4) + Uint(h.ratchetId, 4) + Uint(h.messageId, 4) + h.ecdh
  }

  function ReadHeader(s: seq<Byte>): Header
    requires |s| == HEADER_BYTES
  {
    Header(Value(s[0..2]), Value(s[2..3]), Value(s[3..7]), Value(s[7..11]), Value(s[11..12]),
           Value(s[12..16]), Value(s[16..20]), Value(s[20..24]), s[24..])
  }

  lemma HeaderSlices(h: Header)
    requires HeaderFits(h)
    ensures var s := WriteHeader(h);
            && s[0..2] == Uint(h.version, 2) && s[2..3] == Uint(h.kind, 1) && s[3..7] == Uint(h.sender, 4)
            && s[7..11] == Uint(h.receiver, 4) && s[11..12] == Uint(h.flags, 1)
            && s[12..16] == Uint(h.previousChainN, 4) && s[16..20] == Uint(h.ratchetId, 4)
            && s[20..24] == Uint(h.messageId, 4) && s[24..] == h.ecdh
  {
  }

  lemma HeaderRead(h: Header)
    requires HeaderFits(h)
    ensures ReadHeader(WriteHeader(h)) == h
  {
    Bounds();
    HeaderSlices(h);
    ValueOfUint(h.version, 2);
    ValueOfUint(h.kind, 1);
    ValueOfUint(h.sender, 4);
    ValueOfUint(h.receiver, 4);
    ValueOfUint(h.flags, 1);
    ValueOfUint(h.previousChainN, 4);
    ValueOfUint(h.ratchetId, 4);
    ValueOfUint(h.messageId, 4);
  }

  lemma HeaderWritten(s: seq<Byte>)
    requires |s| == HEADER_BYTES
    ensures WriteHeader(ReadHeader(s)) == s
  {
    UintOfValue(s[0..2]);
    UintOfValue(s[2..3]);
    UintOfValue(s[3..7]);
    UintOfValue(s[7..11]);
    UintOfValue(s[11..12]);
    UintOfValue(s[12..16]);
    UintOfValue(s[16..20]);
    UintOfValue(s[20..24]);
    assert s == s[0..2] + s[2..3] + s[3..7] + s[7..11] + s[11..12] + s[12..16] + s[16..20] + s[20..24] + s[24..];
  }

  // ------------------------------------------------------------------ writing

  /** otrng_data_message_body_serialize. */
  function Body(m: Message): Option<seq<Byte>> {
    match DhMpi(m.dh)
    case None => None
    case Some(dh) =>
      Some(WriteHeader(m.header.(version := VERSION_4, kind := DATA_MSG_TYPE)) + dh + m.nonce + Data(m.encMsg))
  }

  /** serialize_and_encode_data_message before base64: body, authenticator, revealed MAC keys. */
  function Wire(m: Message, auth: Authenticator, macKey: seq<Byte>, revealed: seq<Byte>): Option<seq<Byte>> {
    match Body(m)
    case None => None
    case Some(body) => Some(body + auth(macKey, body) + revealed)
  }

  // ------------------------------------------------------------------ reading

  /** What follows the header: the 3072-bit key, the nonce, the cipher text, the authenticator. */
  datatype Tail = Tail(dh: Option<nat>, nonce: seq<Byte>, encMsg: seq<Byte>, mac: seq<Byte>, dhBytes: nat, used: nat)

  function ReadTail(buffer: seq<Byte>): (t: Option<Tail>)
    ensures t.Some? ==> 4 <= t.value.dhBytes <= t.value.used <= |buffer|
  {
    match ReadDhMpi(buffer)
    case None => None
    case Some(dh) =>
      var b1 := buffer[dh.used..];
      if |b1| < DATA_MSG_NONCE_BYTES then None
      else
        var b2 := b1[DATA_MSG_NONCE_BYTES..];
        match ReadData(b2)
        case None => None
        case Some(enc) =>
          var b3 := b2[enc.used..];
          if |b3| < DATA_MSG_MAC_BYTES then None
          else Some(Tail(dh.value, b1[..DATA_MSG_NONCE_BYTES], enc.value, b3[..DATA_MSG_MAC_BYTES],
                         dh.used, dh.used + DATA_MSG_NONCE_BYTES + enc.used))
  }

  /** otrng_data_message_deserialize; what follows the authenticator is not looked at. */
  function Deserialize(buffer: seq<Byte>, curve: Curve): Option<Message> {
    if |buffer| < HEADER_BYTES then None
    else
      var h := ReadHeader(buffer[..HEADER_BYTES]);
      if h.version != VERSION_4 || h.kind != DATA_MSG_TYPE || !curve(h.ecdh) then None
      else
        match ReadTail(buffer[HEADER_BYTES..])
        case None => None
        case Some(t) => Some(Message(h, t.dh, t.nonce, t.encMsg, t.mac))
  }

  // -------------------------------------------------------------- round trips

  /** A message as the sending side makes it. */
  predicate Sendable(m: Message, curve: Curve) {
    && HeaderFits(m.header) && m.header.version == VERSION_4 && m.header.kind == DATA_MSG_TYPE
    && curve(m.header.ecdh) && DhMpi(m.dh).Some? && |m.nonce| == DATA_MSG_NONCE_BYTES && |m.encMsg| < 0x1_0000_0000
  }

  /** There is something to send: any point that decodes, any ids, an empty text. */
  lemma SomethingToSend(point: seq<Byte>, id: nat, curve: Curve)
    requires |point| == ED448_POINT_BYTES && curve(point) && id < 0x1_0000_0000
    ensures Sendable(Message(Header(4, 3, id, id, 0, id, id, id, point), None, seq(24, _ => 0), [], []), curve)
  {
  }

  lemma TailRead(m: Message, mac: seq<Byte>, rest: seq<Byte>)
    requires DhMpi(m.dh).Some? && |m.nonce| == DATA_MSG_NONCE_BYTES && |m.encMsg| < 0x1_0000_0000
    requires |mac| == DATA_MSG_MAC_BYTES
    ensures var dh := DhMpi(m.dh).value;
            ReadTail(dh + (m.nonce + (Data(m.encMsg) + (mac + rest))))
            == Some(Tail(if m.dh == Some(0) then None else m.dh, m.nonce, m.encMsg, mac, |dh|,
                         |dh| + DATA_MSG_NONCE_BYTES + 4 + |m.encMsg|))
  {
    var dh := DhMpi(m.dh).value;
    var t3 := mac + rest;
    var t2 := Data(m.encMsg) + t3;
    var t1 := m.nonce + t2;
    ReadWrittenDhMpi(m.dh, t1);
    ReadWrittenData(m.encMsg, t3);
    assert (dh + t1)[|dh|..] == t1;
    assert t1[..DATA_MSG_NONCE_BYTES] == m.nonce && t1[DATA_MSG_NONCE_BYTES..] == t2;
    assert t2[4 + |m.encMsg|..] == t3 && t3[..DATA_MSG_MAC_BYTES] == mac;
  }

  /** The message as it is on the wire when parsed: the authenticator filled in, and a zero
      3072-bit key gone missing. */
  function OnWire(m: Message, mac: seq<Byte>): Message {
    m.(mac := mac, dh := if m.dh == Some(0) then None else m.dh)
  }

  lemma WireRead(m: Message, mac: seq<Byte>, rest: seq<Byte>, curve: Curve)
    requires Sendable(m, curve) && |mac| == DATA_MSG_MAC_BYTES
    ensures Body(m).Some?
    ensures Deserialize(Body(m).value + mac + rest, curve) == Some(OnWire(m, mac))
  {
    var tail := DhMpi(m.dh).value + (m.nonce + (Data(m.encMsg) + (mac + rest)));
    BodyThenTail(m, mac, rest, curve);
    HeaderRead(m.header);
    TailRead(m, mac, rest);
    HeaderThenTail(WriteHeader(m.header), tail, curve);
  }

  lemma BodyThenTail(m: Message, mac: seq<Byte>, rest: seq<Byte>, curve: Curve)
    requires Sendable(m, curve)
    ensures Body(m).Some?
    ensures Body(m).value + mac + rest
            == WriteHeader(m.header) + (DhMpi(m.dh).value + (m.nonce + (Data(m.encMsg) + (mac + rest))))
  {
    assert m.header.(version := VERSION_4, kind := DATA_MSG_TYPE) == m.header;
  }

  lemma HeaderThenTail(header: seq<Byte>, tail: seq<Byte>, curve: Curve)
    requires |header| == HEADER_BYTES
    requires var h := ReadHeader(header); h.version == VERSION_4 && h.kind == DATA_MSG_TYPE && curve(h.ecdh)
    ensures Deserialize(header + tail, curve)
            == match ReadTail(tail)
               case None => None
               case Some(t) => Some(Message(ReadHeader(header), t.dh, t.nonce, t.encMsg, t.mac))
  {
    assert (header + tail)[..HEADER_BYTES] == header && (header + tail)[HEADER_BYTES..] == tail;
  }

  /** otrng_valid_data_message: the body is serialized again, not taken from the buffer. */
  predicate ValidDataMessage(m: Message, auth: Authenticator, macKey: seq<Byte>, curve: Curve, dhValid: nat -> bool) {
    && Body(m).Some? && auth(macKey, Body(m).value) == m.mac
    && curve(m.header.ecdh) && (m.dh.Some? ==> dhValid(m.dh.value))
  }

  /** End to end: what the sender puts on the wire, whatever MAC keys are revealed with it,
      parses back; serializing the parsed message again gives exactly the authenticated bytes;
      so under the sender's MAC key it is valid when its 3072-bit key is. */
  lemma DataMessageRoundTrip(m: Message, auth: Authenticator, macKey: seq<Byte>, revealed: seq<Byte>,
                             curve: Curve, dhValid: nat -> bool)
    requires Sendable(m, curve) && forall b :: |auth(macKey, b)| == DATA_MSG_MAC_BYTES
    ensures Wire(m, auth, macKey, revealed).Some?
    ensures var parsed := Deserialize(Wire(m, auth, macKey, revealed).value, curve);
            && parsed == Some(OnWire(m, auth(macKey, Body(m).value)))
            && Body(parsed.value) == Body(m)
            && (ValidDataMessage(parsed.value, auth, macKey, curve, dhValid)
                <==> m.dh.None? || m.dh.value == 0 || dhValid(m.dh.value))
  {
    var mac := auth(macKey, Body(m).value);
    WireRead(m, mac, revealed, curve);
    assert DhMpi(Some(0)) == DhMpi(None);
  }

  /** The revealed MAC keys are on the wire, right behind the authenticator. */
  lemma RevealedOnWire(m: Message, auth: Authenticator, macKey: seq<Byte>, revealed: seq<Byte>)
    requires Body(m).Some? && |auth(macKey, Body(m).value)| == DATA_MSG_MAC_BYTES
    ensures Wire(m, auth, macKey, revealed).Some?
    ensures Wire(m, auth, macKey, revealed).value[|Body(m).value| + 64..] == revealed
  {
  }

  /** A buffer parses only with the version and the type of a data message and a point that decodes. */
  lemma ParsedIsChecked(buffer: seq<Byte>, curve: Curve)
    requires Deserialize(buffer, curve).Some?
    ensures var m := Deserialize(buffer, curve).value;
            && m.header.version == 4 && m.header.kind == 3 && curve(m.header.ecdh) && |m.header.ecdh| == ED448_POINT_BYTES
            && |m.nonce| == DATA_MSG_NONCE_BYTES && |m.mac| == DATA_MSG_MAC_BYTES
  {
  }

  /** A message is not valid without a point that decodes, whoever made it. */
  lemma ValidOnCurve(m: Message, auth: Authenticator, macKey: seq<Byte>, curve: Curve, dhValid: nat -> bool)
    requires !curve(m.header.ecdh) || Body(m).None?
    ensures !ValidDataMessage(m, auth, macKey, curve, dhValid)
  {
  }

  /** What validity shows: when the sender's body is the only one with its authenticator, whatever buffer carries that
      authenticator and parses to a valid message is the sender's message; and its 3072-bit key is valid. */
  lemma OnlySentIsValid(buffer: seq<Byte>, sent: seq<Byte>, auth: Authenticator, macKey: seq<Byte>, curve: Curve,
                        dhValid: nat -> bool)
    requires Deserialize(buffer, curve).Some? && Deserialize(buffer, curve).value.mac == auth(macKey, sent)
    requires forall b: seq<Byte> | auth(macKey, b) == auth(macKey, sent) :: b == sent
    ensures var m := Deserialize(buffer, curve).value;
            ValidDataMessage(m, auth, macKey, curve, dhValid) <==>
              Body(m) == Some(sent) && (m.dh.Some? ==> dhValid(m.dh.value))
    ensures ValidDataMessage(Deserialize(buffer, curve).value, auth, macKey, curve, dhValid) ==>
              (Received(buffer) == sent <==> CanonicalDh(buffer[HEADER_BYTES..]))
  {
    ReserializedIsReceived(buffer, curve);
  }

  // ----------------------------------------------- what the authenticator covers

  /** The bytes of the buffer before the authenticator. */
  function Received(buffer: seq<Byte>): seq<Byte>
    requires |buffer| >= HEADER_BYTES && ReadTail(buffer[HEADER_BYTES..]).Some?
  {
    buffer[..HEADER_BYTES + ReadTail(buffer[HEADER_BYTES..]).value.used]
  }

  /** The 3072-bit key is written without leading zero bytes and in at most 384 bytes. */
  predicate CanonicalDh(tail: seq<Byte>)
    requires ReadData(tail).Some?
  {
    var d := ReadData(tail).value.value;
    |d| <= DH_BYTES && (d != [] ==> d[0] != 0)
  }

  lemma DhWritten(buffer: seq<Byte>)
    requires ReadDhMpi(buffer).Some?
    ensures DhMpi(ReadDhMpi(buffer).value.value) == Some(buffer[..ReadDhMpi(buffer).value.used])
            <==> CanonicalDh(buffer)
  {
    var d := ReadData(buffer).value.value;
    DataWritten(buffer);
    if d == [] || d[0] != 0 {
      MagnitudeOfValue(d);
    } else {
      assert Magnitude(Value(d)) != d;
      DataInjective(Magnitude(Value(d)), d);
    }
  }

  lemma DataInjective(a: seq<Byte>, b: seq<Byte>)
    requires a != b
    ensures Data(a) != Data(b)
  {
    assert Data(a)[4..] == a && Data(b)[4..] == b;
  }

  /** The received tail before the authenticator, piece by piece. */
  lemma TailSplit(tail: seq<Byte>)
    requires ReadTail(tail).Some?
    ensures var t := ReadTail(tail).value;
            && ReadDhMpi(tail).Some? && ReadDhMpi(tail).value == Read(t.dh, t.dhBytes)
            && tail[..t.used] == tail[..t.dhBytes] + (t.nonce + Data(t.encMsg))
  {
    var t := ReadTail(tail).value;
    var b1 := tail[t.dhBytes..];
    var b2 := b1[DATA_MSG_NONCE_BYTES..];
    DataWritten(b2);
    var e := 4 + |t.encMsg|;
    assert b1[..DATA_MSG_NONCE_BYTES + e] == b1[..DATA_MSG_NONCE_BYTES] + b2[..e];
    assert tail[..t.used] == tail[..t.dhBytes] + b1[..DATA_MSG_NONCE_BYTES + e];
  }

  lemma CanonicalIffRewritten(head: seq<Byte>, tail: seq<Byte>)
    requires ReadTail(tail).Some?
    ensures var t := ReadTail(tail).value;
            DhMpi(t.dh).Some? && head + DhMpi(t.dh).value + (t.nonce + Data(t.encMsg)) == head + tail[..t.used]
            <==> CanonicalDh(tail)
  {
    var t := ReadTail(tail).value;
    TailSplit(tail);
    DhWritten(tail);
    var rest := t.nonce + Data(t.encMsg);
    assert head + tail[..t.used] == head + tail[..t.dhBytes] + rest;
    if DhMpi(t.dh).Some? {
      SameMiddle(head, DhMpi(t.dh).value, tail[..t.dhBytes], rest);
    }
  }

  lemma BodyRewritten(head: seq<Byte>, t: Tail)
    requires |head| == HEADER_BYTES
    requires ReadHeader(head).version == VERSION_4 && ReadHeader(head).kind == DATA_MSG_TYPE
    ensures Body(Message(ReadHeader(head), t.dh, t.nonce, t.encMsg, t.mac))
            == if DhMpi(t.dh).None? then None else Some(head + DhMpi(t.dh).value + (t.nonce + Data(t.encMsg)))
  {
    HeaderWritten(head);
    var h := ReadHeader(head);
    assert h.(version := VERSION_4, kind := DATA_MSG_TYPE) == h;
    if DhMpi(t.dh).Some? {
      assert head + DhMpi(t.dh).value + t.nonce + Data(t.encMsg) == head + DhMpi(t.dh).value + (t.nonce + Data(t.encMsg));
    }
  }

  lemma FrontOf(buffer: seq<Byte>, n: nat, m: nat)
    requires n + m <= |buffer|
    ensures buffer[..n + m] == buffer[..n] + buffer[n..][..m]
  {
  }

  lemma RewrittenIff(head: seq<Byte>, tail: seq<Byte>, m: Message)
    requires |head| == HEADER_BYTES && ReadTail(tail).Some?
    requires ReadHeader(head).version == VERSION_4 && ReadHeader(head).kind == DATA_MSG_TYPE
    requires var t := ReadTail(tail).value; m == Message(ReadHeader(head), t.dh, t.nonce, t.encMsg, t.mac)
    ensures Body(m) == Some(head + tail[..ReadTail(tail).value.used]) <==> CanonicalDh(tail)
  {
    CanonicalIffRewritten(head, tail);
    BodyRewritten(head, ReadTail(tail).value);
  }

  /** For every buffer that parses: the authenticator is computed over exactly the received
      bytes if and only if the 3072-bit key was in its canonical form. */
  lemma ReserializedIsReceived(buffer: seq<Byte>, curve: Curve)
    requires Deserialize(buffer, curve).Some?
    ensures Body(Deserialize(buffer, curve).value) == Some(Received(buffer)) <==> CanonicalDh(buffer[HEADER_BYTES..])
  {
    var head, tail := buffer[..HEADER_BYTES], buffer[HEADER_BYTES..];
    RewrittenIff(head, tail, Deserialize(buffer, curve).value);
    FrontOf(buffer, HEADER_BYTES, ReadTail(tail).value.used);
  }

  lemma SameMiddle(a: seq<Byte>, x: seq<Byte>, y: seq<Byte>, b: seq<Byte>)
    ensures a + x + b == a + y + b <==> x == y
  {
    if a + x + b == a + y + b {
      assert |x| == |y|;
      assert (a + x + b)[|a|..|a| + |x|] == x && (a + y + b)[|a|..|a| + |y|] == y;
    }
  }
}
