/** What the packets mean: the messages that clients and broker exchange. */
module Messages {
  import opened Bytes
  import opened Wrappers
  import opened Codec

  const TOPIC_SIZE := 256

  /** A text message (PUBLISH, SUBSCRIBE or a type nobody handles), a handshake step, or an ACK. */
  datatype Message =
    | Text(header: Header, topic: seq<byte>, data: seq<byte>)
    | Control(header: Header, kind: byte, data: seq<byte>)
    | Ack(header: Header)

  function Encode(m: Message): seq<byte>
    requires m.Text? ==> |m.topic| <= 255
  {
    match m
    case Text(h, topic, data) => MessageBytes(h, topic, data)
    case Control(h, kind, data) => ControlBytes(h, kind, data)
    case Ack(h) => EncodeHeader(h)
  }

  /** Messages as the senders build them: they fit a packet, their header declares their true payload
      length, and a topic is a C string. */
  ghost predicate Encodable(m: Message) {
    match m
    case Text(h, topic, data) =>
      && Serializable(topic, data, PACKET_SIZE) && 0 !in topic
      && !BareType(h.msgType) && h.payloadLength == 1 + |topic| + |data|
    case Control(h, kind, data) =>
      h.msgType == MSG_CONTROL && h.payloadLength == 1 + |data| && HEADER_SIZE + 1 + |data| <= PACKET_SIZE
    case Ack(h) =>
      h.msgType == MSG_ACK && h.payloadLength == 0
  }

  /** Both parsing steps of a receiver, whose control-data buffer has `controlSize` bytes, stay inside
      its receive buffer. */
  predicate Readable(buffer: seq<byte>, len: nat, controlSize: nat) {
    && ReadsInside(buffer, len, TOPIC_SIZE, PACKET_SIZE)
    && (len >= HEADER_SIZE && DecodeHeader(buffer).msgType == MSG_CONTROL ==>
          ControlReadsInside(buffer, len, controlSize))
  }

  /** The message in a received datagram, if the receiver accepts it. */
  function Decode(buffer: seq<byte>, len: nat, controlSize: nat): Option<Message>
    requires Readable(buffer, len, controlSize)
  {
    match ParseMessage(buffer, len, TOPIC_SIZE, PACKET_SIZE)
    case Rejected(_) => None
    case Full(h, topic, data) => Some(Text(h, topic, data))
    case Bare(h) =>
      if h.msgType == MSG_ACK then Some(Ack(h))
      else
        match ParseControl(buffer, len, controlSize)
        case BadControl(_) => None
        case GoodControl(h', kind, data) => Some(Control(h', kind, data))
  }

  /** Every message that clients and broker build arrives as it was sent, whatever an earlier packet
      left in the rest of the receive buffer. */
  lemma DecodeEncoded(m: Message, stale: seq<byte>, controlSize: nat)
    requires Encodable(m) && (m.Control? ==> |m.data| <= controlSize < 0xFFFF_FFFF_FFFF_FFFF)
    ensures Readable(Encode(m) + stale, |Encode(m)|, controlSize)
    ensures Decode(Encode(m) + stale, |Encode(m)|, controlSize) == Some(m)
  {
    match m
    case Text(_, _, _) => DecodeEncodedText(m, stale, controlSize);
    case Control(_, _, _) => DecodeEncodedControl(m, stale, controlSize);
    case Ack(h) => HeaderRoundTrip(h, stale);
  }

  lemma DecodeEncodedText(m: Message, stale: seq<byte>, controlSize: nat)
    requires Encodable(m) && m.Text?
    ensures Readable(Encode(m) + stale, |Encode(m)|, controlSize)
    ensures Decode(Encode(m) + stale, |Encode(m)|, controlSize) == Some(m)
  {
    var b, rest := Encode(m) + stale, [|m.topic|] + m.topic + m.data + stale;
    assert b == EncodeHeader(m.header) + rest;
    HeaderRoundTrip(m.header, rest);
    assert b[HEADER_SIZE] == |m.topic|;
    MessageRoundTrip(m.header, m.topic, m.data, stale, TOPIC_SIZE, PACKET_SIZE);
  }

  lemma DecodeEncodedControl(m: Message, stale: seq<byte>, controlSize: nat)
    requires Encodable(m) && m.Control? && |m.data| <= controlSize < 0xFFFF_FFFF_FFFF_FFFF
    ensures Readable(Encode(m) + stale, |Encode(m)|, controlSize)
    ensures Decode(Encode(m) + stale, |Encode(m)|, controlSize) == Some(m)
  {
    var b, rest := Encode(m) + stale, [m.kind] + m.data + stale;
    assert ControlHeader(m.header, |m.data|) == m.header;
    assert b == EncodeHeader(m.header) + rest;
    HeaderRoundTrip(m.header, rest);
    ControlRoundTrip(m.header, m.kind, m.data, stale, controlSize);
  }

  // ---------- receiving ----------

  /** `deserialize_message` into a receive loop's local buffers, read back as C string and byte range. */
  method Parse(buffer: array<byte>, received: nat)
    returns (rc: int, header: Header, topic: seq<byte>, data: seq<byte>)
    requires ReadsInside(buffer[..], received, TOPIC_SIZE, PACKET_SIZE)
    requires var p := ParseMessage(buffer[..], received, TOPIC_SIZE, PACKET_SIZE); p.Full? ==> 0 !in p.topic
    ensures match ParseMessage(buffer[..], received, TOPIC_SIZE, PACKET_SIZE)
            case Rejected(_) => rc != 0
            case Bare(h) => rc == 0 && header == h && BareType(header.msgType)
            case Full(h, t, d) => rc == 0 && header == h && topic == t && data == d && !BareType(header.msgType)
  {
    var topicBuffer := new byte[TOPIC_SIZE];
    var dataBuffer := new byte[PACKET_SIZE];
    rc, header := DeserializeMessage(buffer, received, StandardHeader(0, 0, 0, 0), topicBuffer, dataBuffer);
    topic, data := [], [];
    if rc == 0 && !BareType(header.msgType) {
      ghost var p := ParseMessage(buffer[..], received, TOPIC_SIZE, PACKET_SIZE);
      CStringOfTerminated(p.topic, topicBuffer[|p.topic| + 1..]);
      topic := CString(topicBuffer[..]);
      var dataLen := header.payloadLength - (1 + |topic|);
      data := dataBuffer[..dataLen];
    }
  }

  // ---------- the messages of the protocol ----------

  /** The header both sides fill in; only four fields vary. */
  function StandardHeader(msgType: byte, qosLevel: byte, msgId: uint32, payloadLength: uint16): Header {
    Header(1, msgType, qosLevel, 0, msgId, 0, 1, 1, payloadLength, 1)
  }

  function ReceivedReply(msgId: uint32): Message {
    Control(StandardHeader(MSG_CONTROL, QOS_EXACTLY_ONCE, msgId, 1), CONTROL_RECEIVED, [])
  }

  function CompleteReply(msgId: uint32): Message {
    Control(StandardHeader(MSG_CONTROL, QOS_EXACTLY_ONCE, msgId, 1), CONTROL_COMPLETE, [])
  }

  function AckReply(msgId: uint32): Message {
    Ack(StandardHeader(MSG_ACK, QOS_AT_LEAST_ONCE, msgId, 0))
  }

  /** What `slimmq_publish` builds: the length field is 16 bits wide. */
  function Publication(qos: byte, msgId: uint32, topic: seq<byte>, data: seq<byte>): Message {
    Text(StandardHeader(MSG_PUBLISH, qos, msgId, (1 + |topic| + |data|) % 0x1_0000), topic, data)
  }

  function Subscription(msgId: uint32, topic: seq<byte>): Message {
    Text(StandardHeader(MSG_SUBSCRIBE, QOS_AT_MOST_ONCE, msgId, (1 + |topic|) % 0x1_0000), topic, [])
  }

  /** `rel_hdr`: the publication's own header with type and length replaced. */
  function ReleaseRequest(publication: Message): Message {
    Control(publication.header.(msgType := MSG_CONTROL, payloadLength := 1), CONTROL_RELEASE, [])
  }

  /** The fifteen bytes of a header as both sides fill it in. */
  lemma HeaderBytes(msgType: byte, qos: byte, msgId: uint32, n: uint16)
    ensures EncodeHeader(StandardHeader(msgType, qos, msgId, n))
            == [1, msgType, qos, 0, 0] + Bytes32(msgId) + [0, 1, 1] + Bytes16(n) + [1]
  {
    hide Bytes32;
    assert Bytes16(0) == [0, 0];
  }

  /** What the broker answers, byte by byte: ACK, RECEIVED, COMPLETE. */
  lemma ReplyBytes(msgId: uint32)
    ensures Encode(AckReply(msgId)) == [1, 1, 1, 0, 0] + Bytes32(msgId) + [0, 1, 1, 0, 0, 1]
    ensures Encode(ReceivedReply(msgId)) == [1, 3, 2, 0, 0] + Bytes32(msgId) + [0, 1, 1, 1, 0, 1, 1]
    ensures Encode(CompleteReply(msgId)) == [1, 3, 2, 0, 0] + Bytes32(msgId) + [0, 1, 1, 1, 0, 1, 3]
  {
    hide Bytes32, EncodeHeader;
    HeaderBytes(1, 1, msgId, 0);
    HeaderBytes(3, 2, msgId, 1);
    assert Bytes16(0) == [0, 0] && Bytes16(1) == [1, 0];
  }

  /** What a client sends, byte by byte: PUBLISH, RELEASE, SUBSCRIBE. */
  lemma RequestBytes(qos: byte, msgId: uint32, topic: seq<byte>, data: seq<byte>)
    requires Serializable(topic, data, PACKET_SIZE)
    ensures Encode(Publication(qos, msgId, topic, data))
            == [1, 0, qos, 0, 0] + Bytes32(msgId) + [0, 1, 1] + Bytes16(1 + |topic| + |data|) + [1, |topic|]
               + topic + data
    ensures Encode(ReleaseRequest(Publication(qos, msgId, topic, data)))
            == [1, 3, qos, 0, 0] + Bytes32(msgId) + [0, 1, 1, 1, 0, 1, 2]
    ensures Encode(Subscription(msgId, topic))
            == [1, 4, 0, 0, 0] + Bytes32(msgId) + [0, 1, 1] + Bytes16(1 + |topic|) + [1, |topic|] + topic
  {
    hide Bytes32, EncodeHeader;
    HeaderBytes(0, qos, msgId, 1 + |topic| + |data|);
    HeaderBytes(3, qos, msgId, 1);
    HeaderBytes(4, 0, msgId, 1 + |topic|);
  }

  /** A publication that fits the packet buffer was not truncated in its 16-bit length field, so it is
      received as built; the other protocol messages always are. */
  lemma ProtocolMessagesEncodable(qos: byte, msgId: uint32, topic: seq<byte>, data: seq<byte>)
    requires 0 !in topic
    ensures Encodable(ReceivedReply(msgId)) && Encodable(CompleteReply(msgId)) && Encodable(AckReply(msgId))
    ensures Serializable(topic, data, PACKET_SIZE) <==> Encodable(Publication(qos, msgId, topic, data))
    ensures Serializable(topic, [], PACKET_SIZE) <==> Encodable(Subscription(msgId, topic))
    ensures Encodable(ReleaseRequest(Publication(qos, msgId, topic, data)))
  {
  }
}
