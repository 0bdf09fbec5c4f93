/** From the publisher's bytes to the subscriber's event, and the packets of whole runs as bytes. */
module Relay {
  import opened Bytes
  import opened Wrappers
  import opened Addresses
  import opened Codec
  import opened Messages
  import opened EventQueues
  import opened Brokers
  import C = ClientModel
  import D = Delivery

  const CONTROL_DATA_SIZE := 256

  lemma {:induction false} OnePacketEach(m: Message, targets: seq<Address>)
    requires m.Text? && Serializable(m.topic, m.data, PACKET_SIZE)
    ensures |ForwardPackets(m, targets)| == |targets|
    ensures forall i :: 0 <= i < |targets| ==> ForwardPackets(m, targets)[i] == Datagram(targets[i], Encode(m))
  {
    if targets != [] {
      OnePacketEach(m, targets[..|targets| - 1]);
    }
  }

  /** Relay identity. What `slimmq_publish` sends is parsed by the broker and serialised again for each
      target: every target gets the publisher's bytes, unchanged. Whatever earlier packets left in the
      receive buffers, the subscriber's listener then queues an event with the published data and the
      first 127 bytes of the published topic. */
  lemma RelayIdentity(qos: byte, msgId: uint32, topic: seq<byte>, data: seq<byte>,
                      stale: seq<byte>, stale': seq<byte>, targets: seq<Address>, c: C.Client)
    requires 0 !in topic && Serializable(topic, data, PACKET_SIZE)
    requires |c.queue| < MAX_EVENT_QUEUE_SIZE
    ensures var packet := MessageBytes(StandardHeader(MSG_PUBLISH, qos, msgId, 1 + |topic| + |data|), topic, data);
            && Readable(packet + stale, |packet|, PACKET_SIZE)
            && Readable(packet + stale', |packet|, CONTROL_DATA_SIZE)
            && var parsed := Decode(packet + stale, |packet|, PACKET_SIZE);
            && parsed.Some?
            && ForwardPackets(parsed.value, targets)
               == seq(|targets|, i requires 0 <= i < |targets| => Datagram(targets[i], packet))
            && var relayed := Decode(packet + stale', |packet|, CONTROL_DATA_SIZE);
            && relayed.Some?
            && C.Listen(c, relayed.value, true)
               == c.(queue := c.queue +
                      [Event(MSG_PUBLISH, msgId, if |topic| <= 127 then topic else topic[..127], data)])
  {
    hide Readable, Decode;
    var m := Publication(qos, msgId, topic, data);
    ProtocolMessagesEncodable(qos, msgId, topic, data);
    DecodeEncoded(m, stale, PACKET_SIZE);
    DecodeEncoded(m, stale', CONTROL_DATA_SIZE);
    OnePacketEach(m, targets);
  }

  // ---------- the packets of a run, as bytes ----------

  /** In every run, every packet on its way to the broker is one its handlers accept, and is parsed as
      the message that was sent. */
  lemma BrokerReadsWhatWasSent(steps: seq<D.Step>, w: D.World, p: D.Packet, stale: seq<byte>)
    requires D.Reaches(steps, w) && p in w.toBroker
    ensures Encodable(p.message)
    ensures Broker.Acceptable(Encode(p.message) + stale, |Encode(p.message)|)
    ensures Decode(Encode(p.message) + stale, |Encode(p.message)|, PACKET_SIZE) == Some(p.message)
  {
    hide D.Reaches, D.ClientOk, D.CallOk, D.CountsOk, D.ReplyOk, D.ForwardOk, D.ResultOk, Readable, Decode;
    D.RunsKeepInvariant(steps, w);
    assert D.PacketOk(w, p);
    DecodeEncoded(p.message, stale, PACKET_SIZE);
  }

  /** Likewise every packet on its way to a client. */
  lemma ClientReadsWhatWasSent(steps: seq<D.Step>, w: D.World, p: D.Packet, stale: seq<byte>)
    requires D.Reaches(steps, w) && p in w.toClient
    ensures Encodable(p.message)
    ensures Readable(Encode(p.message) + stale, |Encode(p.message)|, CONTROL_DATA_SIZE)
    ensures Decode(Encode(p.message) + stale, |Encode(p.message)|, CONTROL_DATA_SIZE) == Some(p.message)
  {
    hide D.Reaches, D.ClientOk, D.CallOk, D.CountsOk, D.PacketOk, D.ResultOk, Readable, Decode;
    D.RunsKeepInvariant(steps, w);
    assert D.ReplyOk(w, p);
    DecodeEncoded(p.message, stale, CONTROL_DATA_SIZE);
  }
}
