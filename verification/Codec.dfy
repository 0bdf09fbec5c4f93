/** The wire format: a packed 15-byte header, then `[topic length][topic][data]` or `[control type][data]`. */
module Codec {
  import opened Bytes

  const MSG_PUBLISH: byte := 0
  const MSG_ACK: byte := 1
  const MSG_CONTROL: byte := 3
  const MSG_SUBSCRIBE: byte := 4

  const QOS_AT_MOST_ONCE: byte := 0
  const QOS_AT_LEAST_ONCE: byte := 1
  const QOS_EXACTLY_ONCE: byte := 2

  const CONTROL_RECEIVED: byte := 1
  const CONTROL_RELEASE: byte := 2
  const CONTROL_COMPLETE: byte := 3

  const HEADER_SIZE := 15
  const PACKET_SIZE := 2048

  datatype Header = Header(
    version: byte,
    msgType: byte,
    qosLevel: byte,
    topicId: uint16,
    msgId: uint32,
    fragId: byte,
    fragTotal: byte,
    batchSize: byte,
    payloadLength: uint16,
    clientNodeCount: byte)

  // ---------- header ----------

  function EncodeHeader(h: Header): (b: seq<byte>)
    ensures |b| == HEADER_SIZE
  {
    [h.version, h.msgType, h.qosLevel] + Bytes16(h.topicId) + Bytes32(h.msgId)
    + [h.fragId, h.fragTotal, h.batchSize] + Bytes16(h.payloadLength) + [h.clientNodeCount]
  }

  function DecodeHeader(b: seq<byte>): Header
    requires |b| >= HEADER_SIZE
  {
    Header(b[0], b[1], b[2], Value16(b[3..5]), Value32(b[5..9]), b[9], b[10], b[11], Value16(b[12..14]), b[14])
  }

  /** All ten fields survive the trip through memory, whatever bytes follow the header. */
  lemma HeaderRoundTrip(h: Header, rest: seq<byte>)
    ensures DecodeHeader(EncodeHeader(h) + rest) == h
  {
    var b := EncodeHeader(h) + rest;
    assert b[3..5] == Bytes16(h.topicId) && b[5..9] == Bytes32(h.msgId) && b[12..14] == Bytes16(h.payloadLength);
    Bytes16RoundTrip(h.topicId, b[3..5]);
    Bytes32RoundTrip(h.msgId, b[5..9]);
    Bytes16RoundTrip(h.payloadLength, b[12..14]);
  }

  /** Conversely the header loses nothing of the first fifteen bytes. */
  lemma HeaderBytesRoundTrip(b: seq<byte>)
    requires |b| >= HEADER_SIZE
    ensures EncodeHeader(DecodeHeader(b)) == b[..HEADER_SIZE]
  {
    Bytes16RoundTrip(0, b[3..5]);
    Bytes32RoundTrip(0, b[5..9]);
    Bytes16RoundTrip(0, b[12..14]);
  }

  /** Where the ten fields lie in the packed header, least significant byte first. */
  lemma HeaderLayout(h: Header)
    ensures var b: seq<int> := EncodeHeader(h);
            && |b| == 15
            && b[0] == h.version && b[1] == h.msgType && b[2] == h.qosLevel
            && b[3] + 0x100 * b[4] == h.topicId
            && b[5] + 0x100 * b[6] + 0x1_0000 * b[7] + 0x100_0000 * b[8] == h.msgId
            && b[9] == h.fragId && b[10] == h.fragTotal && b[11] == h.batchSize
            && b[12] + 0x100 * b[13] == h.payloadLength && b[14] == h.clientNodeCount
  {
    LittleEndian(h.msgId);
  }

  // ---------- PUBLISH, SUBSCRIBE and other text messages ----------

  /** Header, one length byte, topic, data. */
  function MessageBytes(h: Header, topic: seq<byte>, data: seq<byte>): (b: seq<byte>)
    requires |topic| <= 255
    ensures |b| == HEADER_SIZE + 1 + |topic| + |data|
  {
    EncodeHeader(h) + [|topic|] + topic + data
  }

  /** Behind the header: the topic's length, the topic without terminator, the data. */
  lemma MessageLayout(h: Header, topic: seq<byte>, data: seq<byte>)
    requires |topic| <= 255
    ensures var b, n := MessageBytes(h, topic, data), |topic|;
            && |b| == 16 + n + |data| && b[..15] == EncodeHeader(h) && b[15] == n
            && b[16..16 + n] == topic && b[16 + n..] == data
  {
  }

  predicate Serializable(topic: seq<byte>, data: seq<byte>, size: nat) {
    |topic| <= 255 && HEADER_SIZE + 1 + |topic| + |data| <= size
  }

  /** A null topic is the empty sequence: the source treats the two alike. */
  method SerializeMessage(h: Header, topic: seq<byte>, data: seq<byte>, out: array<byte>) returns (len: int)
    modifies out
    ensures Serializable(topic, data, out.Length) ==>
              len == HEADER_SIZE + 1 + |topic| + |data| &&
              out[..] == MessageBytes(h, topic, data) + old(out[len..])
    ensures !Serializable(topic, data, out.Length) ==> len == -1 && out[..] == old(out[..])
  {
    if |topic| > 255 {
      return -1;
    }
    var total := 1 + |topic| + |data|;
    if out.Length < HEADER_SIZE + total {
      return -1;
    }
    MemCopy(out, 0, EncodeHeader(h));
    out[HEADER_SIZE] := |topic|;
    assert out[..] == EncodeHeader(h) + [|topic|] + old(out[HEADER_SIZE + 1..]);
    MemCopy(out, HEADER_SIZE + 1, topic);
    assert out[..] == EncodeHeader(h) + [|topic|] + topic + old(out[HEADER_SIZE + 1 + |topic|..]);
    MemCopy(out, HEADER_SIZE + 1 + |topic|, data);
    len := HEADER_SIZE + total;
  }

  /** What parsing yields: an error code, a header alone (ACK, CONTROL), or header, topic and data. */
  datatype Parsed =
    | Rejected(code: int)
    | Bare(header: Header)
    | Full(header: Header, topic: seq<byte>, data: seq<byte>)

  predicate BareType(t: byte) {
    t == MSG_ACK || t == MSG_CONTROL
  }

  /** The parser never compares `len` with the declared lengths, so its caller owns every read:
      each copy it goes on to make must stay inside the receive buffer. */
  predicate ReadsInside(buffer: seq<byte>, len: nat, topicSize: nat, maxData: nat) {
    len <= |buffer| &&
    (len >= HEADER_SIZE ==>
       var h := DecodeHeader(buffer);
       if BareType(h.msgType) then
         0 < h.payloadLength <= maxData ==> HEADER_SIZE + h.payloadLength <= |buffer|
       else
         HEADER_SIZE < |buffer| &&
         var n := buffer[HEADER_SIZE];
         (n + 1 <= h.payloadLength && (n == 0 || n < topicSize) ==>
            HEADER_SIZE + 1 + n <= |buffer| &&
            (h.payloadLength - (1 + n) <= maxData ==> HEADER_SIZE + h.payloadLength <= |buffer|)))
  }

  function ParseMessage(buffer: seq<byte>, len: nat, topicSize: nat, maxData: nat): Parsed
    requires ReadsInside(buffer, len, topicSize, maxData)
  {
    if len < HEADER_SIZE then Rejected(-1)
    else
      var h := DecodeHeader(buffer);
      if BareType(h.msgType) then Bare(h)
      else
        var n := buffer[HEADER_SIZE];
        var start := HEADER_SIZE + 1;
        if n + 1 > h.payloadLength then Rejected(-2)
        else if n > 0 && n >= topicSize then Rejected(-3)
        else if h.payloadLength - (1 + n) > maxData then Rejected(-4)
        else Full(h, buffer[start..start + n], buffer[start + n..HEADER_SIZE + h.payloadLength])
  }

  /** `memcpy` of a string into a buffer, followed by its terminator. */
  method CopyTerminated(dst: array<byte>, src: seq<byte>)
    requires |src| < dst.Length
    modifies dst
    ensures dst[..] == src + [0] + old(dst[|src| + 1..])
  {
    MemCopy(dst, 0, src);
    ghost var was := dst[..];
    dst[|src|] := 0;
    assert dst[..] == was[|src| := 0];
  }

  /** Out-parameters as in the source: the caller's header is overwritten unless the result is -1,
      the topic buffer receives a NUL-terminated copy, the data buffer the payload; an early error
      return leaves the later buffers alone. */
  method DeserializeMessage(buffer: array<byte>, len: nat, before: Header, topicOut: array<byte>, dataOut: array<byte>)
    returns (rc: int, header: Header)
    requires buffer != topicOut && buffer != dataOut && topicOut != dataOut && topicOut.Length > 0
    requires ReadsInside(buffer[..], len, topicOut.Length, dataOut.Length)
    modifies topicOut, dataOut
    ensures var p := ParseMessage(buffer[..], len, topicOut.Length, dataOut.Length);
            (rc == 0 <==> !p.Rejected?) && (p.Rejected? ==> rc == p.code)
    ensures header == if rc == -1 then before else DecodeHeader(buffer[..])
    ensures rc in {0, -1, -2, -3, -4} && (rc == -1 <==> len < 15)
    ensures rc in {-2, -3, -4} ==> header.msgType !in {MSG_ACK, MSG_CONTROL}
    ensures len >= 15 && header.msgType !in {MSG_ACK, MSG_CONTROL} ==>
              var n := buffer[15];
              && (rc == -2 <==> header.payloadLength < 1 + n)
              && (rc == -3 <==> header.payloadLength >= 1 + n && n > 0 && n >= topicOut.Length)
              && (rc == -4 <==> && header.payloadLength - (1 + n) > dataOut.Length && (n == 0 || n < topicOut.Length))
    ensures rc != 0 ==> dataOut[..] == old(dataOut[..])
    ensures rc !in {0, -4} ==> topicOut[..] == old(topicOut[..])
    ensures rc == 0 && BareType(header.msgType) ==>
              topicOut[..] == [0] + old(topicOut[1..]) &&
              (header.payloadLength <= dataOut.Length ==>
                 var n := header.payloadLength;
                 dataOut[..] == buffer[HEADER_SIZE..HEADER_SIZE + n] + old(dataOut[n..]))
    ensures rc == 0 && !BareType(header.msgType) ==>
              var p := ParseMessage(buffer[..], len, topicOut.Length, dataOut.Length);
              topicOut[..] == p.topic + [0] + old(topicOut[|p.topic| + 1..]) &&
              dataOut[..] == p.data + old(dataOut[|p.data|..])
  {
    if len < HEADER_SIZE {
      return -1, before;
    }
    header := DecodeHeader(buffer[..]);
    if header.msgType == MSG_ACK || header.msgType == MSG_CONTROL {
      var dataLen := header.payloadLength;
      if dataLen > 0 && dataOut.Length >= dataLen {
        MemCopy(dataOut, 0, buffer[HEADER_SIZE..HEADER_SIZE + dataLen]);
      }
      CopyTerminated(topicOut, []);
      return 0, header;
    }
    rc := ReadText(buffer, header, topicOut, dataOut);
  }

  method ReadText(buffer: array<byte>, header: Header, topicOut: array<byte>, dataOut: array<byte>) returns (rc: int)
    requires buffer != topicOut && buffer != dataOut && topicOut != dataOut && topicOut.Length > 0
    requires HEADER_SIZE <= buffer.Length && header == DecodeHeader(buffer[..]) && !BareType(header.msgType)
    requires ReadsInside(buffer[..], HEADER_SIZE, topicOut.Length, dataOut.Length)
    modifies topicOut, dataOut
    ensures var p := ParseMessage(buffer[..], HEADER_SIZE, topicOut.Length, dataOut.Length);
            (rc == 0 <==> p.Full?) && (p.Rejected? ==> rc == p.code)
    ensures rc != -1
    ensures rc != 0 ==> dataOut[..] == old(dataOut[..])
    ensures rc !in {0, -4} ==> topicOut[..] == old(topicOut[..])
    ensures rc == 0 ==>
              var p := ParseMessage(buffer[..], HEADER_SIZE, topicOut.Length, dataOut.Length);
              topicOut[..] == p.topic + [0] + old(topicOut[|p.topic| + 1..]) &&
              dataOut[..] == p.data + old(dataOut[|p.data|..])
  {
    var topicLen := buffer[HEADER_SIZE];
    if topicLen + 1 > header.payloadLength {
      return -2;
    }
    if topicLen > 0 && topicLen >= topicOut.Length {
      return -3;
    }
    CopyTerminated(topicOut, buffer[HEADER_SIZE + 1..HEADER_SIZE + 1 + topicLen]);
    var dataLen := header.payloadLength - (1 + topicLen);
    if dataLen > dataOut.Length {
      return -4;
    }
    MemCopy(dataOut, 0, buffer[HEADER_SIZE + 1 + topicLen..HEADER_SIZE + 1 + topicLen + dataLen]);
    rc := 0;
  }

  /** Parsing undoes serialising exactly when the header declares the true payload length (and the
      output buffers are large enough): `stale` is whatever an earlier packet left behind it. */
  lemma MessageRoundTrip(h: Header, topic: seq<byte>, data: seq<byte>, stale: seq<byte>, topicSize: nat, maxData: nat)
    requires |topic| < topicSize <= 256 && |data| <= maxData && !BareType(h.msgType)
    requires ReadsInside(MessageBytes(h, topic, data) + stale, HEADER_SIZE + 1 + |topic| + |data|, topicSize, maxData)
    ensures ParseMessage(MessageBytes(h, topic, data) + stale, HEADER_SIZE + 1 + |topic| + |data|, topicSize, maxData)
         == Full(h, topic, data)
       <==> h.payloadLength == 1 + |topic| + |data|
  {
    var b := MessageBytes(h, topic, data) + stale;
    assert b == EncodeHeader(h) + ([|topic|] + topic + data + stale);
    HeaderRoundTrip(h, [|topic|] + topic + data + stale);
    var p := ParseMessage(b, HEADER_SIZE + 1 + |topic| + |data|, topicSize, maxData);
    if p.Full? {
      assert |p.data| == h.payloadLength - (1 + |topic|);
    }
  }

  /** The other direction: whatever parses, serialises back to the very bytes it was read from. */
  lemma ParsedBytesRoundTrip(buffer: seq<byte>, len: nat, topicSize: nat, maxData: nat)
    requires ReadsInside(buffer, len, topicSize, maxData)
    requires ParseMessage(buffer, len, topicSize, maxData).Full?
    ensures var p := ParseMessage(buffer, len, topicSize, maxData);
            && |p.topic| <= 255 && p.header.payloadLength == 1 + |p.topic| + |p.data|
            && MessageBytes(p.header, p.topic, p.data) == buffer[..HEADER_SIZE + p.header.payloadLength]
  {
    var p := ParseMessage(buffer, len, topicSize, maxData);
    HeaderBytesRoundTrip(buffer);
    var n := |p.topic|;
    assert buffer[..HEADER_SIZE + p.header.payloadLength]
        == buffer[..HEADER_SIZE] + [buffer[HEADER_SIZE]] + buffer[HEADER_SIZE + 1..HEADER_SIZE + 1 + n]
         + buffer[HEADER_SIZE + 1 + n..HEADER_SIZE + p.header.payloadLength];
  }

  // ---------- CONTROL messages ----------

  function ControlHeader(h: Header, dataLen: nat): Header {
    h.(msgType := MSG_CONTROL, payloadLength := (1 + dataLen) % 0x1_0000)
  }

  function ControlBytes(h: Header, kind: byte, data: seq<byte>): (b: seq<byte>)
    ensures |b| == HEADER_SIZE + 1 + |data|
  {
    EncodeHeader(ControlHeader(h, |data|)) + [kind] + data
  }

  method SerializeControl(h: Header, kind: byte, data: seq<byte>, out: array<byte>) returns (len: int)
    modifies out
    ensures HEADER_SIZE + 1 + |data| <= out.Length ==>
              len == HEADER_SIZE + 1 + |data| && out[..] == ControlBytes(h, kind, data) + old(out[len..])
    ensures HEADER_SIZE + 1 + |data| > out.Length ==> len == -1 && out[..] == old(out[..])
  {
    if out.Length < HEADER_SIZE + 1 + |data| {
      return -1;
    }
    var hdr := h.(msgType := MSG_CONTROL, payloadLength := (1 + |data|) % 0x1_0000);
    MemCopy(out, 0, EncodeHeader(hdr));
    out[HEADER_SIZE] := kind;
    assert out[..] == EncodeHeader(hdr) + [kind] + old(out[HEADER_SIZE + 1..]);
    MemCopy(out, HEADER_SIZE + 1, data);
    len := HEADER_SIZE + 1 + |data|;
  }

  datatype ParsedControl = BadControl(code: int) | GoodControl(header: Header, kind: byte, data: seq<byte>)

  /** The declared length minus one is an unsigned `size_t`, so a declared length of zero wraps to the
      largest value and is rejected with the oversized ones. */
  function ControlDataLength(h: Header): nat {
    if h.payloadLength == 0 then 0xFFFF_FFFF_FFFF_FFFF else h.payloadLength - 1
  }

  predicate ControlReadsInside(buffer: seq<byte>, len: nat, maxData: nat) {
    len <= |buffer| &&
    (len >= HEADER_SIZE + 1 ==>
       var n := ControlDataLength(DecodeHeader(buffer));
       n <= maxData ==> HEADER_SIZE + 1 + n <= |buffer|)
  }

  function ParseControl(buffer: seq<byte>, len: nat, maxData: nat): ParsedControl
    requires ControlReadsInside(buffer, len, maxData)
  {
    if len < HEADER_SIZE + 1 then BadControl(-2)
    else
      var h := DecodeHeader(buffer);
      var n := ControlDataLength(h);
      if n > 0 && n > maxData then BadControl(-3)
      else GoodControl(h, buffer[HEADER_SIZE], buffer[HEADER_SIZE + 1..HEADER_SIZE + 1 + n])
  }

  method DeserializeControl(buffer: array<byte>, len: nat, before: Header, dataOut: array<byte>)
    returns (rc: int, header: Header, kind: byte)
    requires buffer != dataOut
    requires ControlReadsInside(buffer[..], len, dataOut.Length)
    modifies dataOut
    ensures var p := ParseControl(buffer[..], len, dataOut.Length);
            && (rc == 0 <==> p.GoodControl?)
            && (p.BadControl? ==> rc == p.code && dataOut[..] == old(dataOut[..]))
            && (header == if rc == -2 then before else DecodeHeader(buffer[..]))
            && (p.GoodControl? ==> kind == p.kind && dataOut[..] == p.data + old(dataOut[|p.data|..]))
    ensures rc in {0, -2, -3} && (rc == -2 <==> len < 16)
    ensures len >= 16 ==>
              var n := if header.payloadLength == 0 then 0xFFFF_FFFF_FFFF_FFFF else header.payloadLength - 1;
              (rc == -3 <==> n > dataOut.Length)
  {
    kind := 0;
    if len < HEADER_SIZE + 1 {
      return -2, before, kind;
    }
    header := DecodeHeader(buffer[..]);
    kind := buffer[HEADER_SIZE];
    var dataLen: nat := if header.payloadLength == 0 then 0xFFFF_FFFF_FFFF_FFFF else header.payloadLength - 1;
    if dataLen > 0 {
      if dataLen > dataOut.Length {
        return -3, header, kind;
      }
      MemCopy(dataOut, 0, buffer[HEADER_SIZE + 1..HEADER_SIZE + 1 + dataLen]);
    }
    rc := 0;
  }

  /** A control packet parses back to its type and data and to the header it was built from, with the
      two fields the serialiser overwrites; a 16-bit length that wrapped never parses back. */
  lemma ControlRoundTrip(h: Header, kind: byte, data: seq<byte>, stale: seq<byte>, maxData: nat)
    requires |data| <= maxData < 0xFFFF_FFFF_FFFF_FFFF
    requires ControlReadsInside(ControlBytes(h, kind, data) + stale, HEADER_SIZE + 1 + |data|, maxData)
    ensures ParseControl(ControlBytes(h, kind, data) + stale, HEADER_SIZE + 1 + |data|, maxData)
         == GoodControl(h.(msgType := MSG_CONTROL, payloadLength := (1 + |data|) % 0x1_0000), kind, data)
       <==> 1 + |data| < 0x1_0000
  {
    var b := ControlBytes(h, kind, data) + stale;
    assert b == EncodeHeader(ControlHeader(h, |data|)) + ([kind] + data + stale);
    HeaderRoundTrip(ControlHeader(h, |data|), [kind] + data + stale);
    var p := ParseControl(b, HEADER_SIZE + 1 + |data|, maxData);
    if p.GoodControl? {
      assert |p.data| == ControlDataLength(ControlHeader(h, |data|));
      assert b[HEADER_SIZE + 1..HEADER_SIZE + 1 + |data|] == data;
    }
  }
}
