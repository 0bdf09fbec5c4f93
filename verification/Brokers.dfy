/** The broker's handlers over the real tables: each does to them, and sends, exactly what the state
    machine of BrokerModel says. */
module Brokers {
  import opened Bytes
  import opened Wrappers
  import opened Addresses
  import opened Lists
  import opened Codec
  import opened Messages
  import opened TopicNames
  import opened SubscriberLists
  import opened TopicTables
  import opened PendingTables
  import opened BrokerModel

  datatype Datagram = Datagram(dst: Address, bytes: seq<byte>)

  /** One packet per target, if the message fits the packet buffer. */
  ghost function ForwardPackets(m: Message, targets: seq<Address>): seq<Datagram> {
    if targets == [] || !m.Text? || !Serializable(m.topic, m.data, PACKET_SIZE) then []
    else ForwardPackets(m, targets[..|targets| - 1]) + [Datagram(targets[|targets| - 1], Encode(m))]
  }

  /** The packets of a reaction in sending order. */
  ghost function Packets(r: Reaction, from: Address): seq<Datagram> {
    (if r.forwards == [] then [] else ForwardPackets(r.forwards[0].message, r.forwards[0].targets))
    + (if r.replies == [] || r.replies[0].Text? then [] else [Datagram(from, Encode(r.replies[0]))])
  }

  /** All datagrams of a run, in sending order. */
  ghost function Wire(inputs: seq<Input>): seq<Datagram> {
    if inputs == [] then []
    else
      var before, i := inputs[..|inputs| - 1], inputs[|inputs| - 1];
      Wire(before) + Packets(React(Run(before).broker, i.from, i.message, i.targets), i.from)
  }

  class Broker {
    const table: PendingTable
    const topics: TopicTable
    ghost var state: BrokerModel.Broker
    ghost var sent: seq<Datagram>
    ghost var log: seq<Forward>
    ghost var inputs: seq<Input>

    /** The tables hold the abstract state. */
    ghost predicate Valid()
      reads this, table, table.buckets, table.nodes, topics, topics.nodes
    {
      && table.Valid() && topics.Valid()
      && state == BrokerModel.Broker(States(table.contents), topics.trie.subs)
    }

    /** The messages handled so far, run through the state machine, give this state, this log and these
        datagrams. */
    ghost predicate Faithful()
      reads this
    {
      Legal(inputs) && Run(inputs) == Session(state, log) && sent == Wire(inputs)
    }

    constructor ()
      ensures Valid() && state == EMPTY_BROKER && sent == [] && log == []
      ensures Faithful() && inputs == []
    {
      hide Trie.Valid;
      var t := PendingTables.NewTable();
      var u := new TopicTable();
      table, topics, state := t, u, EMPTY_BROKER;
      sent, log, inputs := [], [], [];
    }

    /** `send_bytes`, seen from the outside. */
    method Send(dst: Address, bytes: seq<byte>)
      modifies this`sent
      ensures sent == old(sent) + [Datagram(dst, bytes)]
    {
      sent := sent + [Datagram(dst, bytes)];
    }

    /** Every table entry that changed carries the present time. */
    twostate predicate Stamped(now: int)
      reads table
    {
      forall k :: k in table.contents && (k !in old(table.contents) || table.contents[k] != old(table.contents)[k]) ==>
        table.contents[k].timestamp == now
    }

    /** `pending_table_update`. */
    method UpdatePending(key: Key, state: PendingTables.State, now: int)
      requires Valid()
      modifies this`state, table, table.buckets, table.nodes
      ensures Valid() && this.state == old(this.state).(pending := old(this.state).pending[key := state])
      ensures fresh(table.nodes - old(table.nodes))
      ensures Stamped(now)
    {
      hide TopicTable.Valid, ChainTables.ChainTable.Valid;
      StatesOfPut(table.contents, key, ChainTables.Record(state, now));
      table.Put(key, state, now);
      this.state := this.state.(pending := this.state.pending[key := state]);
    }

    /** `pending_table_get`. */
    method LookUpPending(key: Key) returns (found: bool, current: PendingTables.State)
      requires Valid()
      ensures found <==> key in state.pending
      ensures found ==> current == state.pending[key]
    {
      hide TopicTable.Valid, ChainTables.ChainTable.Valid;
      found, current := table.Get(key);
    }

    /** One round of the sending loop: a message too long for the buffer is silently skipped. */
    method SendMessage(dst: Address, header: Header, topic: seq<byte>, data: seq<byte>)
      modifies this`sent
      ensures sent == old(sent) + ForwardPackets(Text(header, topic, data), [dst])
    {
      var buffer := new byte[PACKET_SIZE];
      var len := SerializeMessage(header, topic, data, buffer);
      if len > 0 {
        assert buffer[..len] == MessageBytes(header, topic, data);
        Send(dst, buffer[..len]);
      }
      assert [dst][..0] == [];
      assert ForwardPackets(Text(header, topic, data), [dst][..0]) == [];
    }

    /** The sending loop of `publish_to_subscribers`. */
    method SendAll(list: SubscriberList, header: Header, topic: seq<byte>, data: seq<byte>)
      requires list.Valid()
      modifies this`sent
      ensures sent == old(sent) + ForwardPackets(Text(header, topic, data), list.Addrs())
    {
      hide ForwardPackets;
      ghost var targets, m := list.Addrs(), Text(header, topic, data);
      NoPackets(m);
      var s := list.head;
      ghost var i := 0;
      while s != null
        invariant i <= |list.cells| && s == CellAt(list.cells, i)
        invariant sent == old(sent) + ForwardPackets(m, targets[..i])
        decreases |list.cells| - i
      {
        MorePackets(m, targets, i);
        SendMessage(s.addr, header, topic, data);
        s := s.next;
        i := i + 1;
      }
      assert targets[..i] == targets;
    }

    /** `publish_to_subscribers`. */
    method PublishToSubscribers(header: Header, topic: seq<byte>, data: seq<byte>) returns (ghost targets: seq<Address>)
      requires Valid() && NoEmptyLevel(topic)
      modifies this`sent
      ensures NoRepeats(targets) && Members(targets) == Matching(state.subs, Levels(topic))
      ensures sent == old(sent) + ForwardPackets(Text(header, topic, data), targets)
    {
      hide TopicTable.Valid, ChainTables.ChainTable.Valid;
      var list := topics.GetMatchingSubscribers(topic);
      targets := list.Addrs();
      SendAll(list, header, topic, data);
    }

    /** What a handler does to the tables, to the log of forwards and on the network. */
    twostate predicate Performs(r: Reaction, from: Address)
      reads this
    {
      && state == r.broker
      && log == old(log) + r.forwards
      && sent == old(sent) + Packets(r, from)
    }

    /** `handle_publish`; the ghost result lists the subscribers a forward goes to. */
    method HandlePublish(header: Header, topic: seq<byte>, data: seq<byte>, from: Address, now: int)
      returns (ghost targets: seq<Address>)
      requires Valid() && NoEmptyLevel(topic)
      modifies this`state, this`sent, this`log, table, table.buckets, table.nodes
      ensures Valid() && fresh(table.nodes - old(table.nodes))
      ensures Stamped(now)
      ensures NoRepeats(targets) && Members(targets) == Matching(old(state).subs, Levels(topic))
      ensures Performs(OnPublish(old(state), from, Text(header, topic, data), targets), from)
      ensures header.qosLevel == QOS_AT_LEAST_ONCE ==>
                |sent| > |old(sent)| && sent[|sent| - 1] == Datagram(from, Encode(AckReply(header.msgId)))
    {
      hide TopicTable.Valid, ChainTables.ChainTable.Valid;
      if header.qosLevel == QOS_EXACTLY_ONCE {
        targets := HandleExactlyOnce(header, topic, data, from, now);
        return;
      }
      targets := PublishToSubscribers(header, topic, data);
      log := log + [Forward(Key(from, header.msgId), Text(header, topic, data), targets)];
      if header.qosLevel == QOS_AT_LEAST_ONCE {
        Send(from, EncodeHeader(StandardHeader(MSG_ACK, QOS_AT_LEAST_ONCE, header.msgId, 0)));
      }
    }

    /** The QoS 2 branch of `handle_publish`. */
    method HandleExactlyOnce(header: Header, topic: seq<byte>, data: seq<byte>, from: Address, now: int)
      returns (ghost targets: seq<Address>)
      requires Valid() && NoEmptyLevel(topic) && header.qosLevel == QOS_EXACTLY_ONCE
      modifies this`state, this`sent, this`log, table, table.buckets, table.nodes
      ensures Valid() && fresh(table.nodes - old(table.nodes))
      ensures Stamped(now)
      ensures NoRepeats(targets) && Members(targets) == Matching(old(state).subs, Levels(topic))
      ensures Performs(OnPublish(old(state), from, Text(header, topic, data), targets), from)
      ensures var key := Key(from, header.msgId);
              (key in old(state).pending ==> old(state).pending[key] != Completed) ==>
                |sent| > |old(sent)| && sent[|sent| - 1] == Datagram(from, Encode(ReceivedReply(header.msgId)))
    {
      hide TopicTable.Valid, ChainTables.ChainTable.Valid, Matching, Levels, NoRepeats, Members, ForwardPackets, Encode;
      var found, current := LookUpPending(Key(from, header.msgId));
      if found {
        targets := AnyTargets(topic);
        if current == Completed {
          return;
        }
      } else {
        UpdatePending(Key(from, header.msgId), PendingTables.Received, now);
        targets := PublishToSubscribers(header, topic, data);
        log := log + [Forward(Key(from, header.msgId), Text(header, topic, data), targets)];
      }
      SendControl(from, header.msgId, CONTROL_RECEIVED);
    }

    /** The matching subscribers, in some order, when nothing is sent to them. */
    ghost method AnyTargets(topic: seq<byte>) returns (targets: seq<Address>)
      ensures NoRepeats(targets) && Members(targets) == Matching(state.subs, Levels(topic))
    {
      targets := ListOf(Matching(state.subs, Levels(topic)));
    }

    /** The two-step answer of the handshake: header with one byte of payload, the control type. */
    method SendControl(dst: Address, msgId: uint32, kind: byte)
      modifies this`sent
      ensures sent == old(sent) + [Datagram(dst, Encode(
        Control(StandardHeader(MSG_CONTROL, QOS_EXACTLY_ONCE, msgId, 1), kind, [])))]
    {
      var buffer := new byte[PACKET_SIZE];
      var header := StandardHeader(MSG_CONTROL, QOS_EXACTLY_ONCE, msgId, 1);
      var len := SerializeControl(header, kind, [], buffer);
      assert buffer[..HEADER_SIZE + 1] == ControlBytes(header, kind, []);
      Send(dst, buffer[..HEADER_SIZE + 1]);
    }

    /** `handle_control_release`. */
    method HandleControlRelease(header: Header, from: Address, now: int)
      requires Valid()
      modifies this`state, this`sent, table, table.buckets, table.nodes
      ensures Valid() && fresh(table.nodes - old(table.nodes))
      ensures Stamped(now)
      ensures Performs(OnRelease(old(state), from, header.msgId), from)
    {
      hide TopicTable.Valid, ChainTables.ChainTable.Valid;
      UpdatePending(Key(from, header.msgId), Released, now);
      SendControl(from, header.msgId, CONTROL_COMPLETE);
      UpdatePending(Key(from, header.msgId), Completed, now);
    }

    /** `handle_control_received`. */
    method HandleControlReceived(header: Header, from: Address, now: int)
      requires Valid()
      modifies this`state, this`sent, table, table.buckets, table.nodes
      ensures Valid() && fresh(table.nodes - old(table.nodes))
      ensures Stamped(now)
      ensures Performs(OnReceived(old(state), from, header.msgId), from)
    {
      hide TopicTable.Valid, ChainTables.ChainTable.Valid;
      var found, current := LookUpPending(Key(from, header.msgId));
      if !found {
        return;
      }
      if current != PendingTables.Received {
        return;
      }
      UpdatePending(Key(from, header.msgId), WaitRelease, now);
    }

    /** `handle_subscribe`. */
    method HandleSubscribe(topic: seq<byte>, from: Address)
      requires Valid() && NoEmptyLevel(topic)
      modifies this`state, topics, topics.nodes
      ensures Valid() && fresh(topics.nodes - old(topics.nodes))
      ensures state == old(state).(subs := old(state).subs + {(Levels(topic), from)})
    {
      hide TopicTable.Valid, ChainTables.ChainTable.Valid;
      var rc := topics.Subscribe(topic, from);
      state := state.(subs := state.subs + {(Levels(topic), from)});
    }

    /** `handle_control`, after the header was parsed. */
    method HandleControl(buffer: array<byte>, received: nat, header: Header, from: Address, now: int)
      requires Valid() && received <= buffer.Length && ControlReadsInside(buffer[..], received, PACKET_SIZE)
      requires received >= HEADER_SIZE && header == DecodeHeader(buffer[..])
      modifies this`state, this`sent, table, table.buckets, table.nodes
      ensures Valid() && fresh(table.nodes - old(table.nodes))
      ensures Stamped(now)
      ensures match ParseControl(buffer[..], received, PACKET_SIZE)
              case BadControl(_) => state == old(state) && log == old(log) && sent == old(sent)
              case GoodControl(h, kind, data) => Performs(React(old(state), from, Control(h, kind, data), []), from)
    {
      hide TopicTable.Valid, ChainTables.ChainTable.Valid;
      var ctrlData := new byte[PACKET_SIZE];
      var rc, hdr, kind := DeserializeControl(buffer, received, header, ctrlData);
      if rc != 0 {
        return;
      }
      if kind == CONTROL_RELEASE {
        HandleControlRelease(hdr, from, now);
      } else if kind == CONTROL_RECEIVED {
        HandleControlReceived(hdr, from, now);
      }
    }

    /** The subscribe and publish branches of the main loop, after parsing. */
    method HandleText(header: Header, topic: seq<byte>, data: seq<byte>, from: Address, now: int)
      returns (ghost targets: seq<Address>)
      requires Valid() && (header.msgType in {MSG_SUBSCRIBE, MSG_PUBLISH} ==> NoEmptyLevel(topic))
      modifies this`state, this`sent, this`log, table, table.buckets, table.nodes, topics, topics.nodes
      ensures Valid() && fresh(table.nodes - old(table.nodes)) && fresh(topics.nodes - old(topics.nodes))
      ensures Stamped(now)
      ensures RightTargets(old(state), Text(header, topic, data), targets)
      ensures Performs(React(old(state), from, Text(header, topic, data), targets), from)
    {
      hide TopicTable.Valid, ChainTables.ChainTable.Valid, Matching;
      targets := [];
      if header.msgType == MSG_SUBSCRIBE {
        HandleSubscribe(topic, from);
      } else if header.msgType == MSG_PUBLISH {
        targets := HandlePublish(header, topic, data, from, now);
      }
    }

    /** What a datagram must satisfy for the handlers to stay within the memory they own: the declared
        lengths fit the receive buffer, topics hold no NUL, and topics looked up have no empty level. */
    static ghost predicate Acceptable(buffer: seq<byte>, received: nat) {
      && Readable(buffer, received, PACKET_SIZE)
      && var m := Decode(buffer, received, PACKET_SIZE);
         m.Some? && m.value.Text? ==>
           && 0 !in m.value.topic
           && (m.value.header.msgType in {MSG_SUBSCRIBE, MSG_PUBLISH} ==> NoEmptyLevel(m.value.topic))
    }

    /** The dispatch of the main loop. */
    method Dispatch(buffer: array<byte>, received: nat, from: Address, now: int)
      returns (ghost targets: seq<Address>)
      requires Valid() && Acceptable(buffer[..], received)
      modifies this`state, this`sent, this`log, table, table.buckets, table.nodes, topics, topics.nodes
      ensures Valid() && fresh(table.nodes - old(table.nodes)) && fresh(topics.nodes - old(topics.nodes))
      ensures Stamped(now)
      ensures match Decode(buffer[..], received, PACKET_SIZE)
              case None => state == old(state) && log == old(log) && sent == old(sent)
              case Some(m) =>
                RightTargets(old(state), m, targets) && Performs(React(old(state), from, m, targets), from)
    {
      hide TopicTable.Valid, ChainTables.ChainTable.Valid, Matching, OnPublish, OnRelease, OnReceived;
      targets := [];
      var rc, header, topic, data := Parse(buffer, received);
      if rc != 0 {
        return;
      }
      if header.msgType == MSG_CONTROL {
        HandleControl(buffer, received, header, from, now);
      } else if header.msgType != MSG_ACK {
        targets := HandleText(header, topic, data, from, now);
      }
    }

    /** The message in what `recv_bytes` delivered, if any. */
    static ghost function Received(buffer: seq<byte>, received: int): Option<Message>
      requires received >= 0 ==> Acceptable(buffer, received)
    {
      if received < 0 then None else Decode(buffer, received, PACKET_SIZE)
    }

    /** One round of `broker_main_loop`: a datagram that does not parse changes nothing; any other does
        what the state machine does with its message. */
    method HandleDatagram(buffer: array<byte>, received: int, from: Address, now: int)
      returns (ghost targets: seq<Address>)
      requires Valid() && Faithful() && received <= buffer.Length
      requires received >= 0 ==> Acceptable(buffer[..], received)
      modifies this, table, table.buckets, table.nodes, topics, topics.nodes
      ensures Valid() && Faithful()
      ensures fresh(table.nodes - old(table.nodes)) && fresh(topics.nodes - old(topics.nodes))
      ensures Stamped(now)
      ensures match old(Received(buffer[..], received))
              case None => state == old(state) && log == old(log) && sent == old(sent) && inputs == old(inputs)
              case Some(m) =>
                && Performs(React(old(state), from, m, targets), from)
                && inputs == old(inputs) + [Input(from, m, targets)]
    {
      hide TopicTable.Valid, ChainTables.ChainTable.Valid, RightTargets, Legal, Run, React, Packets;
      hide Decode, Readable, Wire;
      targets := [];
      if received < 0 {
        return;
      }
      ghost var m := Decode(buffer[..], received, PACKET_SIZE);
      targets := Dispatch(buffer, received, from, now);
      if m.Some? {
        LegalExtended(inputs, Input(from, m.value, targets));
        WireOfLonger(inputs, Input(from, m.value, targets));
        inputs := inputs + [Input(from, m.value, targets)];
      }
    }
  }

  lemma WireOfLonger(inputs: seq<Input>, i: Input)
    ensures Wire(inputs + [i])
         == Wire(inputs) + Packets(React(Run(inputs).broker, i.from, i.message, i.targets), i.from)
  {
    assert (inputs + [i])[..|inputs|] == inputs;
  }

  // ---------- the datagrams a subscriber is sent ----------

  /** The packets that forwards of this very message send to `s`. */
  ghost function SentTo(log: seq<Forward>, m: Message, s: Address): nat {
    if log == [] then 0
    else
      var f := log[|log| - 1];
      SentTo(log[..|log| - 1], m, s) + if f.message == m then PacketsTo(f, s) else 0
  }

  ghost predicate Relayable(m: Message) {
    IsPublish(m) && Serializable(m.topic, m.data, PACKET_SIZE)
  }

  /** Different messages have different bytes, and an answer is never taken for a publication. */
  lemma EncodeTellsApart(m: Message, m': Message)
    requires Relayable(m) && (m'.Text? ==> |m'.topic| <= 255)
    requires m'.Control? || (m'.Ack? ==> m'.header.msgType == MSG_ACK)
    ensures Encode(m) == Encode(m') ==> m == m'
  {
    var b := Encode(m');
    assert b[1] == if m'.Control? then MSG_CONTROL else m'.header.msgType;
    assert Encode(m)[1] == MSG_PUBLISH;
    if Encode(m) == b && m'.Text? {
      TextBytes(m);
      TextBytes(m');
    }
  }

  /** The fields of a text message, as they lie in its bytes. */
  lemma TextBytes(m: Message)
    requires m.Text? && |m.topic| <= 255
    ensures var b, start := Encode(m), HEADER_SIZE + 1;
            && |b| >= start + |m.topic| && DecodeHeader(b) == m.header && b[HEADER_SIZE] == |m.topic|
            && b[start..start + |m.topic|] == m.topic && b[start + |m.topic|..] == m.data
  {
    assert Encode(m) == EncodeHeader(m.header) + ([|m.topic|] + m.topic + m.data);
    HeaderRoundTrip(m.header, [|m.topic|] + m.topic + m.data);
  }

  lemma {:induction false} ForwardedTo(m: Message, m': Message, targets: seq<Address>, s: Address)
    requires Relayable(m) && m'.Text?
    ensures multiset(ForwardPackets(m', targets))[Datagram(s, Encode(m))]
         == if m' == m then multiset(targets)[s] else 0
  {
    hide Encode;
    if targets != [] && Serializable(m'.topic, m'.data, PACKET_SIZE) {
      var last := |targets| - 1;
      ForwardedTo(m, m', targets[..last], s);
      EncodeTellsApart(m, m');
      assert targets == targets[..last] + [targets[last]];
    }
  }

  lemma ReactionSends(m: Message, r: Reaction, from: Address, s: Address)
    requires Relayable(m) && |r.forwards| <= 1 && (r.forwards != [] ==> r.forwards[0].message.Text?)
    requires |r.replies| <= 1
    requires r.replies != [] ==> r.replies[0].Control? || r.replies[0] == AckReply(r.replies[0].header.msgId)
    ensures multiset(Packets(r, from))[Datagram(s, Encode(m))]
         == if r.forwards != [] && r.forwards[0].message == m then PacketsTo(r.forwards[0], s) else 0
  {
    if r.forwards != [] {
      ForwardedTo(m, r.forwards[0].message, r.forwards[0].targets, s);
    }
    if r.replies != [] {
      EncodeTellsApart(m, r.replies[0]);
    }
  }

  /** At most one forward of a text message, and at most one answer. */
  lemma ReactionShape(b: BrokerModel.Broker, i: Input)
    ensures var r := React(b, i.from, i.message, i.targets);
            && |r.forwards| <= 1 && (r.forwards != [] ==> IsPublish(r.forwards[0].message))
            && |r.replies| <= 1
            && (r.replies != [] ==> r.replies[0].Control? || r.replies[0] == AckReply(r.replies[0].header.msgId))
  {
    hide Levels;
  }

  lemma SentToLonger(log: seq<Forward>, forwards: seq<Forward>, m: Message, s: Address)
    requires |forwards| <= 1
    ensures SentTo(log + forwards, m, s)
         == SentTo(log, m, s) + if forwards != [] && forwards[0].message == m then PacketsTo(forwards[0], s) else 0
  {
    if forwards == [] {
      assert log + forwards == log;
    } else {
      assert (log + forwards)[..|log|] == log;
    }
  }

  /** The datagrams themselves: a subscriber was sent a publication's bytes as often as the log says. */
  lemma {:induction false} WireAgreesWithLog(inputs: seq<Input>, m: Message, s: Address)
    requires Relayable(m)
    ensures multiset(Wire(inputs))[Datagram(s, Encode(m))] == SentTo(Run(inputs).log, m, s)
  {
    hide Packets, Encode, PacketsTo, React, SentTo;
    if inputs == [] {
      assert SentTo([], m, s) == 0 by { NothingSent(m, s); }
    } else {
      var last := |inputs| - 1;
      var i, was := inputs[last], Run(inputs[..last]);
      var r := React(was.broker, i.from, i.message, i.targets);
      WireAgreesWithLog(inputs[..last], m, s);
      ReactionShape(was.broker, i);
      ReactionSends(m, r, i.from, s);
      SentToLonger(was.log, r.forwards, m, s);
    }
  }

  lemma NothingSent(m: Message, s: Address)
    ensures SentTo([], m, s) == 0
  {
  }

  /** If no other publisher or id sent the same bytes, that is how often this one's packet was delivered. */
  lemma {:induction false} SentForKey(log: seq<Forward>, key: Key, m: Message, s: Address)
    requires m.header.qosLevel == QOS_EXACTLY_ONCE
    requires forall f :: f in log ==> (f.key == key <==> f.message == m)
    ensures SentTo(log, m, s) == Deliveries(log, key, s)
  {
    if log != [] {
      SentForKey(log[..|log| - 1], key, m, s);
    }
  }

  // ---------- the answers a publisher is sent ----------

  predicate IsReply(m: Message) {
    var id := m.header.msgId;
    m == AckReply(id) || m == ReceivedReply(id) || m == CompleteReply(id)
  }

  /** A message that calls for this answer: a QoS 1 publication for an ACK, a RELEASE for a COMPLETE, and a
      QoS 2 publication for a RECEIVED, unless its handshake is completed. */
  ghost predicate Asks(b: BrokerModel.Broker, i: Input, reply: Message) {
    && i.message.header.msgId == reply.header.msgId
    && (|| (reply.Ack? && IsPublish(i.message) && i.message.header.qosLevel == QOS_AT_LEAST_ONCE)
        || (reply.Control? && reply.kind == CONTROL_COMPLETE && i.message.Control? && i.message.kind == CONTROL_RELEASE)
        || (reply.Control? && reply.kind == CONTROL_RECEIVED
            && IsPublish(i.message) && i.message.header.qosLevel == QOS_EXACTLY_ONCE
            && var key := Key(i.from, i.message.header.msgId);
               (key in b.pending ==> b.pending[key] != Completed)))
  }

  /** How many of the messages from `a` called for this answer. */
  ghost function Asked(inputs: seq<Input>, a: Address, reply: Message): nat {
    if inputs == [] then 0
    else
      var before, i := inputs[..|inputs| - 1], inputs[|inputs| - 1];
      Asked(before, a, reply) + if i.from == a && Asks(Run(before).broker, i, reply) then 1 else 0
  }

  lemma RepliesTellApart(m: Message, m': Message)
    requires IsReply(m) && IsReply(m') && Encode(m) == Encode(m')
    ensures m == m'
  {
    var rest := if m.Control? then [m.kind] else [];
    var rest' := if m'.Control? then [m'.kind] else [];
    assert Encode(m) == EncodeHeader(m.header) + rest && Encode(m') == EncodeHeader(m'.header) + rest';
    HeaderRoundTrip(m.header, rest);
    HeaderRoundTrip(m'.header, rest');
    assert m.Control? && m'.Control? ==> Encode(m)[HEADER_SIZE] == m.kind && Encode(m')[HEADER_SIZE] == m'.kind;
  }

  lemma {:induction false} NoReplyForwarded(m: Message, targets: seq<Address>, d: Datagram)
    requires IsPublish(m) && (|m.topic| <= 255 ==> d.bytes != Encode(m))
    ensures multiset(ForwardPackets(m, targets))[d] == 0
  {
    hide Encode;
    if targets != [] && Serializable(m.topic, m.data, PACKET_SIZE) {
      NoReplyForwarded(m, targets[..|targets| - 1], d);
    }
  }

  lemma PublicationIsNoReply(m: Message, reply: Message)
    requires IsPublish(m) && |m.topic| <= 255 && IsReply(reply)
    ensures Encode(m) != Encode(reply)
  {
    assert Encode(m)[1] == MSG_PUBLISH && Encode(reply)[1] == reply.header.msgType;
  }

  lemma ReplyIffAsked(b: BrokerModel.Broker, i: Input, reply: Message)
    requires IsReply(reply)
    ensures var r := React(b, i.from, i.message, i.targets);
            && (r.replies != [] ==> IsReply(r.replies[0]))
            && (r.replies != [] && r.replies[0] == reply <==> Asks(b, i, reply))
  {
    hide Levels, Encode;
  }

  lemma OneReply(from: Address, m: Message, a: Address, reply: Message)
    requires IsReply(m) && IsReply(reply)
    ensures multiset([Datagram(from, Encode(m))])[Datagram(a, Encode(reply))]
         == if from == a && m == reply then 1 else 0
  {
    hide Encode;
    if Encode(m) == Encode(reply) {
      RepliesTellApart(m, reply);
    }
  }

  lemma ForwardsAnswerNobody(r: Reaction, d: Datagram, reply: Message)
    requires |r.forwards| <= 1 && (r.forwards != [] ==> IsPublish(r.forwards[0].message))
    requires IsReply(reply) && d.bytes == Encode(reply)
    ensures r.forwards != [] ==> multiset(ForwardPackets(r.forwards[0].message, r.forwards[0].targets))[d] == 0
  {
    hide Encode, ForwardPackets, IsReply;
    if r.forwards != [] {
      var m := r.forwards[0].message;
      if |m.topic| <= 255 {
        PublicationIsNoReply(m, reply);
      }
      NoReplyForwarded(m, r.forwards[0].targets, d);
    }
  }

  lemma ReactionAnswers(b: BrokerModel.Broker, i: Input, a: Address, reply: Message)
    requires IsReply(reply)
    ensures multiset(Packets(React(b, i.from, i.message, i.targets), i.from))[Datagram(a, Encode(reply))]
         == if i.from == a && Asks(b, i, reply) then 1 else 0
  {
    hide Encode, ForwardPackets, React, Asks;
    var r, d := React(b, i.from, i.message, i.targets), Datagram(a, Encode(reply));
    ReactionShape(b, i);
    ReplyIffAsked(b, i, reply);
    ForwardsAnswerNobody(r, d, reply);
    if r.replies != [] {
      OneReply(i.from, r.replies[0], a, reply);
    }
  }

  /** The datagrams themselves: a client was sent each answer exactly as often as its messages called for it.
      So a QoS 1 publication is acknowledged each time it is served, a RELEASE completed each time, and a QoS 2
      publication answered each time until it is completed. */
  lemma {:induction false} AnswersOnWire(inputs: seq<Input>, a: Address, reply: Message)
    requires IsReply(reply)
    ensures multiset(Wire(inputs))[Datagram(a, Encode(reply))] == Asked(inputs, a, reply)
  {
    hide Packets, Encode, React, Asks;
    if inputs != [] {
      var last := |inputs| - 1;
      AnswersOnWire(inputs[..last], a, reply);
      ReactionAnswers(Run(inputs[..last]).broker, inputs[last], a, reply);
    }
  }

  /** Once a handshake is completed, no message whatever makes the broker send its RECEIVED again. */
  lemma {:induction false} SilentOnceCompleted(inputs: seq<Input>, n: nat, key: Key)
    requires n <= |inputs|
    requires var p := Run(inputs[..n]).broker.pending; key in p && p[key] == Completed
    ensures var p := Run(inputs).broker.pending; key in p && p[key] == Completed
    ensures var d := Datagram(key.addr, Encode(ReceivedReply(key.msgId)));
            multiset(Wire(inputs))[d] == multiset(Wire(inputs[..n]))[d]
  {
    hide Packets, Encode;
    var last := |inputs| - 1;
    if n == |inputs| {
      assert inputs[..n] == inputs;
    } else {
      assert inputs[..last][..n] == inputs[..n];
      SilentOnceCompleted(inputs[..last], n, key);
      StaysCompleted(Run(inputs[..last]), inputs[last], key);
      ReactionAnswers(Run(inputs[..last]).broker, inputs[last], key.addr, ReceivedReply(key.msgId));
    }
  }

  lemma StaysCompleted(s: Session, i: Input, key: Key)
    requires key in s.broker.pending && s.broker.pending[key] == Completed
    ensures key in BrokerModel.After(s, i).broker.pending && BrokerModel.After(s, i).broker.pending[key] == Completed
    ensures i.from == key.addr ==> !Asks(s.broker, i, ReceivedReply(key.msgId))
  {
  }

  lemma NoPackets(m: Message)
    ensures ForwardPackets(m, []) == []
  {
  }

  lemma MorePackets(m: Message, targets: seq<Address>, i: nat)
    requires i < |targets|
    ensures ForwardPackets(m, targets[..i + 1]) == ForwardPackets(m, targets[..i]) + ForwardPackets(m, [targets[i]])
  {
    assert targets[..i + 1][..i] == targets[..i] && [targets[i]][..0] == [];
    assert ForwardPackets(m, [targets[i]][..0]) == [];
  }
}
