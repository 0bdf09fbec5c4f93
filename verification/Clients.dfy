/** The client library over its real event queue and handshake table: each call, and each round of the
    listener, does to them, and sends, exactly what the state machine of ClientModel says, whatever the
    other threads do in between. */
module Clients {
  import opened Bytes
  import opened Wrappers
  import opened Addresses
  import opened Codec
  import opened Messages
  import opened EventQueues
  import opened Qos2Tables
  import C = ClientModel
  import D = Delivery

  /** A publish call: its packet, and its result once it has returned. */
  datatype Call = Call(message: Message, result: Option<int>)

  /** A client's past: where it is now, the messages it sent, and its publish calls by message id. */
  datatype Life = Life(client: C.Client, sent: seq<Message>, calls: map<uint32, Call>)

  predicate CanMove(l: Life, s: D.Step) {
    && !s.Connect? && !s.Serve?
    && (s.Publish? || s.Subscribe? ==> l.client.nextId < 0x1_0000_0000)
    && (s.Publish? || s.SetRetryPolicy? ==> l.client.phase.Idle?)
    && (s.Tick? ==> !l.client.phase.Idle?)
  }

  function Next(l: Life, s: D.Step): Life
    requires CanMove(l, s)
  {
    var c, o := l.client, D.OutcomeOf(l.client, s);
    var id := D.CallKey(s.a, c).msgId;
    Life(o.client,
         if o.sent.Some? then l.sent + [o.sent.value] else l.sent,
         if s.Publish? then l.calls[id := Call(Publication(c.qos, id, s.topic, s.data), o.returned)]
         else if s.Tick? && o.returned.Some? then l.calls[id := Call(c.phase.m, o.returned)]
         else l.calls)
  }

  /** The life that a sequence of moves leads to; a move that cannot be made changes nothing. */
  function Run(moves: seq<D.Step>): Life {
    if moves == [] then Life(C.NEW_CLIENT, [], map[])
    else
      var l, s := Run(moves[..|moves| - 1]), moves[|moves| - 1];
      if CanMove(l, s) then Next(l, s) else l
  }

  lemma RunLonger(moves: seq<D.Step>, s: D.Step)
    requires CanMove(Run(moves), s)
    ensures Run(moves + [s]) == Next(Run(moves), s)
  {
    assert (moves + [s])[..|moves|] == moves;
  }

  /** The datagrams that went out are the encoded messages. */
  ghost predicate OnWire(wire: seq<seq<byte>>, sent: seq<Message>) {
    && |wire| == |sent|
    && forall i :: 0 <= i < |sent| ==> (sent[i].Text? ==> |sent[i].topic| <= 255) && wire[i] == Encode(sent[i])
  }

  /** What a receiver makes of a datagram: whatever is left in its buffer behind it, a text message of this
      type, with this id, topic and data (a topic being a C string). */
  ghost predicate Carries(bytes: seq<byte>, msgType: byte, msgId: uint32, topic: seq<byte>, data: seq<byte>) {
    0 !in topic ==>
      forall stale: seq<byte> ::
        && Readable(bytes + stale, |bytes|, PACKET_SIZE)
        && var m := Decode(bytes + stale, |bytes|, PACKET_SIZE);
        && m.Some? && m.value.Text? && m.value.topic == topic && m.value.data == data
        && m.value.header.msgType == msgType && m.value.header.msgId == msgId
  }

  lemma BuiltCarries(m: Message)
    requires m.Text? && |m.topic| <= 255 && (0 !in m.topic ==> Encodable(m))
    ensures Carries(Encode(m), m.header.msgType, m.header.msgId, m.topic, m.data)
  {
    hide Readable, Decode, Encode;
    if 0 !in m.topic {
      forall stale: seq<byte>
        ensures Readable(Encode(m) + stale, |Encode(m)|, PACKET_SIZE)
        ensures Decode(Encode(m) + stale, |Encode(m)|, PACKET_SIZE) == Some(m)
      {
        DecodeEncoded(m, stale, PACKET_SIZE);
      }
    }
  }

  lemma InLaterPart(all: seq<seq<byte>>, n: nat, k: nat, bytes: seq<byte>)
    requires n <= k <= |all|
    ensures bytes in all[k..] ==> bytes in all[n..]
  {
    assert all[n..][k - n..] == all[k..];
  }

  class Client {
    const queue: EventQueue
    const table: Qos2Table
    ghost const self: Address
    var nextId: nat
    var qos: byte
    var timeoutMs: int
    var maxRetries: int
    ghost var life: Life
    ghost var moves: seq<D.Step>
    ghost var wire: seq<seq<byte>>

    /** The fields, the queue and the table hold the client of the state machine. */
    ghost predicate Valid()
      reads this, queue, queue.buffer, queue.owned, table, table.buckets, table.nodes
    {
      && queue.Valid() && table.Valid()
      && life.client ==
           C.Client(nextId, qos, timeoutMs, maxRetries, States(table.contents), queue.contents, life.client.phase)
    }

    /** The moves made so far give this life, and the datagrams sent are its messages. */
    ghost predicate Faithful()
      reads this
    {
      Run(moves) == life && OnWire(wire, life.sent)
    }

    /** Nothing of the past is taken back, and the retry policy stays. */
    twostate predicate Continues()
      reads this
    {
      && Faithful() && old(moves) <= moves && old(wire) <= wire
      && timeoutMs == old(timeoutMs) && maxRetries == old(maxRetries)
    }

    /** `slimmq_connect`. */
    constructor (ghost self: Address)
      ensures Valid() && Faithful() && life == Run([]) && moves == [] && wire == []
      ensures nextId == 1 && qos == QOS_AT_MOST_ONCE && timeoutMs == 0 && maxRetries == 0
      ensures queue.contents == [] && table.contents == map[]
    {
      var t := Qos2Tables.NewTable();
      var q := new EventQueue();
      queue, table, this.self := q, t, self;
      nextId, qos, timeoutMs, maxRetries := 1, QOS_AT_MOST_ONCE, 0, 0;
      life, moves, wire := Life(C.NEW_CLIENT, [], map[]), [], [];
    }

    /** What the other threads do while this one sleeps or is between two accesses to shared state: the
        listener hears any datagrams, and the other functions of the library are called, in any number and
        order. Callers rely on the contract only. */
    method Interleave()
      requires Valid() && Faithful()
      modifies this, queue, queue.buffer, table, table.buckets, table.nodes
      ensures Valid() && Continues() && fresh(table.nodes - old(table.nodes))
      ensures life.client.phase == old(life.client.phase) && life.calls == old(life.calls)
    {
      hide EventQueue.Valid, ChainTables.ChainTable.Valid, Run, OnWire, Next, CanMove, Client.Valid;
      var rounds: int := *;
      for i := 0 to if rounds < 0 then 0 else rounds
        invariant Valid() && Continues() && fresh(table.nodes - old(table.nodes))
        invariant life.client.phase == old(life.client.phase) && life.calls == old(life.calls)
      {
        MoveOfAnother();
      }
    }

    /** One such move. */
    method MoveOfAnother()
      requires Valid() && Faithful()
      modifies this, queue, queue.buffer, table, table.buckets, table.nodes
      ensures Valid() && Continues() && fresh(table.nodes - old(table.nodes))
      ensures life.client.phase == old(life.client.phase) && life.calls == old(life.calls)
    {
      hide EventQueue.Valid, ChainTables.ChainTable.Valid, Run, OnWire, FirstAck, Encode, Decode;
      var choice: int := *;
      if choice == 0 {
        HearAnything();
      } else if choice == 1 && nextId < 0x1_0000_0000 {
        var topic: seq<byte> := *;
        var rc := Subscribe(topic);
      } else if choice == 2 && queue.count > 0 {
        assert life.client.queue != [] by { QueueCounts(); }
        var topic, data, dataLen := NextEvent(MAX_TOPIC_LEN);
      } else if choice == 3 {
        var level: byte := *;
        SetQos(level);
      }
    }

    lemma QueueCounts()
      requires Valid() && queue.count > 0
      ensures life.client.queue != []
    {
    }

    /** The listener receives any datagram that keeps it inside the memory it owns. */
    method HearAnything()
      requires Valid() && Faithful()
      modifies this`life, this`moves, queue, queue.buffer, table, table.buckets, table.nodes
      ensures Valid() && Continues() && fresh(table.nodes - old(table.nodes))
      ensures life.client.phase == old(life.client.phase) && life.calls == old(life.calls)
    {
      hide EventQueue.Valid, ChainTables.ChainTable.Valid, Run, OnWire, FirstAck, Encode, Decode, Readable;
      var datagram: seq<byte>, len: int, mallocOk: bool, now: int := *, *, *, *;
      var buffer := new byte[PACKET_SIZE];
      if |datagram| == PACKET_SIZE {
        MemCopy(buffer, 0, datagram);
      }
      if len <= PACKET_SIZE && (len > 0 ==> Acceptable(buffer[..], len)) {
        Hear(buffer, len, mallocOk, now);
      }
    }

    /** Adds a move, made on the real fields already, to the past. */
    ghost method Record(s: D.Step)
      requires Run(moves) == life && CanMove(life, s) && OnWire(wire, Next(life, s).sent)
      modifies this`life, this`moves
      ensures Faithful() && life == Next(old(life), s) && moves == old(moves) + [s]
    {
      hide OnWire, Next;
      RunLonger(moves, s);
      life := Next(life, s);
      moves := moves + [s];
    }

    /** `send_bytes`: the datagram goes out, or the call fails. */
    method SendBytes(bytes: seq<byte>) returns (sent: int)
      modifies this`wire
      ensures wire == if sent < 0 then old(wire) else old(wire) + [bytes]
      ensures sent >= 0 ==> sent == |bytes|
    {
      var ok: bool := *;
      if !ok {
        return -1;
      }
      wire := wire + [bytes];
      sent := |bytes|;
    }

    // ---------- slimmq_publish ----------

    /** The head of the call: takes an id and builds the packet. */
    method Begin(topic: seq<byte>, data: seq<byte>) returns (header: Header, packet: array<byte>, len: int)
      requires Valid() && Faithful() && nextId < 0x1_0000_0000 && life.client.phase.Idle?
      modifies this`nextId, this`life, this`moves
      ensures Valid() && Continues() && life == Next(old(life), D.Publish(self, topic, data))
      ensures moves == old(moves) + [D.Publish(self, topic, data)]
      ensures var m := Text(header, topic, data);
              && life.client.phase == (if len >= 0 then C.Sending(m, 0) else C.Idle)
              && life.calls == old(life.calls)[old(nextId) := Call(m, if len >= 0 then Option.None else Some(-1))]
      ensures header == Publication(old(qos), old(nextId), topic, data).header
      ensures len >= 0 <==> Serializable(topic, data, PACKET_SIZE)
      ensures len >= 0 ==> len <= packet.Length && packet[..len] == MessageBytes(header, topic, data)
    {
      hide EventQueue.Valid, ChainTables.ChainTable.Valid, Run, OnWire;
      header := StandardHeader(MSG_PUBLISH, qos, nextId, (1 + |topic| + |data|) % 0x1_0000);
      nextId := nextId + 1;
      packet := new byte[PACKET_SIZE];
      len := SerializeMessage(header, topic, data, packet);
      assert len >= 0 ==> packet[..len] == MessageBytes(header, topic, data);
      Record(D.Publish(self, topic, data));
    }

    /** The send at the head of the retry loop. */
    method TrySend(bytes: seq<byte>, ghost m: Message, ghost tries: int) returns (sent: int)
      requires Valid() && Faithful() && life.client.phase == C.Sending(m, tries) && tries <= maxRetries
      requires m.Text? && |m.topic| <= 255 && bytes == Encode(m)
      modifies this`life, this`moves, this`wire
      ensures Valid() && Continues()
      ensures life == Next(old(life), D.Tick(self, sent >= 0))
      ensures wire == if sent < 0 then old(wire) else old(wire) + [bytes]
    {
      hide EventQueue.Valid, ChainTables.ChainTable.Valid, Run, Encode;
      sent := SendBytes(bytes);
      Record(D.Tick(self, sent >= 0));
    }

    /** One poll of the QoS 1 wait. */
    method PollAck(msgId: uint32, ghost m: Message, ghost tries: int, ghost i: nat) returns (rc: int)
      requires Valid() && Faithful() && life.client.phase == C.AwaitingAck(m, tries, i)
      requires msgId == m.header.msgId && i < C.Polls(timeoutMs)
      modifies this`life, this`moves, queue, queue.buffer
      ensures Valid() && Continues()
      ensures rc == 0 ==> life.client.phase.Idle? && life.calls == old(life.calls)[m.header.msgId := Call(m, Some(0))]
      ensures rc != 0 ==> life.client.phase == C.AwaitingAck(m, tries, i + 1) && life.calls == old(life.calls)
    {
      hide EventQueue.Valid, ChainTables.ChainTable.Valid, Run, OnWire, FirstAck;
      rc := queue.WaitAck(msgId);
      Record(D.Tick(self, true));
    }

    /** The QoS 1 wait: `usleep` and a poll, as often as the timeout allows. */
    method AwaitAck(msgId: uint32, ghost m: Message, ghost tries: int) returns (acked: bool)
      requires Valid() && Faithful() && life.client.phase == C.AwaitingAck(m, tries, 0) && msgId == m.header.msgId
      modifies this, queue, queue.buffer, table, table.buckets, table.nodes
      ensures Valid() && Continues() && fresh(table.nodes - old(table.nodes))
      ensures acked ==> life.client.phase.Idle? && life.calls == old(life.calls)[m.header.msgId := Call(m, Some(0))]
      ensures !acked ==> life.client.phase == C.Sending(m, tries + 1) && life.calls == old(life.calls)
    {
      hide EventQueue.Valid, ChainTables.ChainTable.Valid, Run, OnWire, FirstAck;
      var i := 0;
      while i < timeoutMs / 100
        invariant 0 <= i <= C.Polls(timeoutMs)
        invariant Valid() && Continues() && fresh(table.nodes - old(table.nodes))
        invariant life.client.phase == C.AwaitingAck(m, tries, i) && life.calls == old(life.calls)
        decreases C.Polls(timeoutMs) - i
      {
        Interleave();
        var rc := PollAck(msgId, m, tries, i);
        if rc == 0 {
          return true;
        }
        i := i + 1;
      }
      Record(D.Tick(self, true));
      acked := false;
    }

    /** `qos2_table_get_state`. */
    method GetHandshake(msgId: uint32) returns (state: Qos2Tables.State)
      requires Valid()
      ensures state == Lookup(life.client.states, msgId)
    {
      hide EventQueue.Valid, ChainTables.ChainTable.Valid;
      state := Qos2Tables.GetState(table, msgId);
    }

    /** The wait for RECEIVED: it ends with the polls or when the table says so. */
    method AwaitReceived(msgId: uint32, ghost m: Message, ghost tries: int)
      requires Valid() && Faithful() && life.client.phase == C.AwaitingReceived(m, tries, 0) && msgId == m.header.msgId
      modifies this, queue, queue.buffer, table, table.buckets, table.nodes
      ensures Valid() && Continues() && fresh(table.nodes - old(table.nodes))
      ensures life.client.phase == C.CheckingReceived(m, tries) && life.calls == old(life.calls)
    {
      hide EventQueue.Valid, ChainTables.ChainTable.Valid, Run, OnWire, Lookup;
      var i := 0;
      while i < timeoutMs / 100
        invariant 0 <= i <= C.Polls(timeoutMs)
        invariant Valid() && Continues() && fresh(table.nodes - old(table.nodes))
        invariant life.client.phase == C.AwaitingReceived(m, tries, i) && life.calls == old(life.calls)
        decreases C.Polls(timeoutMs) - i
      {
        Interleave();
        var polled := GetHandshake(msgId);
        if polled == WaitComplete {
          break;
        }
        Record(D.Tick(self, true));
        i := i + 1;
      }
      Record(D.Tick(self, true));
    }

    /** Another look at the table decides whether to go on. */
    method CheckReceived(msgId: uint32, ghost m: Message, ghost tries: int) returns (received: bool)
      requires Valid() && Faithful() && life.client.phase == C.CheckingReceived(m, tries) && msgId == m.header.msgId
      modifies this`life, this`moves
      ensures Valid() && Continues() && life.calls == old(life.calls)
      ensures life.client.phase == if received then C.Releasing(m, tries) else C.Sending(m, tries + 1)
    {
      hide EventQueue.Valid, ChainTables.ChainTable.Valid, Run, OnWire, Lookup;
      var state := GetHandshake(msgId);
      Record(D.Tick(self, true));
      received := state == WaitComplete;
    }

    /** The RELEASE, built from the publication's header; whether it could be sent is not looked at. */
    method SendRelease(header: Header, ghost m: Message, ghost tries: int)
      requires Valid() && Faithful() && life.client.phase == C.Releasing(m, tries) && header == m.header
      modifies this`life, this`moves, this`wire
      ensures Valid() && Continues()
      ensures life.client.phase == C.AwaitingComplete(m, tries, 0) && life.calls == old(life.calls)
    {
      hide EventQueue.Valid, ChainTables.ChainTable.Valid, Run;
      var buffer := new byte[256];
      var release := header.(msgType := MSG_CONTROL, payloadLength := 1);
      var len := SerializeControl(release, CONTROL_RELEASE, [], buffer);
      assert buffer[..len] == Encode(ReleaseRequest(m));
      var sent := SendBytes(buffer[..len]);
      Record(D.Tick(self, sent >= 0));
    }

    /** One poll of the wait for COMPLETE; a completed handshake is removed from the table. */
    method PollComplete(msgId: uint32, ghost m: Message, ghost tries: int, ghost i: nat) returns (done: bool)
      requires Valid() && Faithful() && life.client.phase == C.AwaitingComplete(m, tries, i)
      requires msgId == m.header.msgId && i < C.Polls(timeoutMs)
      modifies this, queue, queue.buffer, table, table.buckets, table.nodes
      ensures Valid() && Continues() && fresh(table.nodes - old(table.nodes))
      ensures done ==> life.client.phase.Idle? && life.calls == old(life.calls)[m.header.msgId := Call(m, Some(0))]
      ensures done ==> msgId !in table.contents
      ensures !done ==> life.client.phase == C.AwaitingComplete(m, tries, i + 1) && life.calls == old(life.calls)
    {
      hide EventQueue.Valid, ChainTables.ChainTable.Valid, Run, OnWire, Lookup;
      var state := GetHandshake(msgId);
      Record(D.Tick(self, true));
      if state != Qos2Tables.Completed {
        return false;
      }
      Interleave();
      StatesOfRemove(table.contents, msgId);
      table.Remove(msgId);
      Record(D.Tick(self, true));
      done := true;
    }

    /** The wait for COMPLETE. */
    method AwaitComplete(msgId: uint32, ghost m: Message, ghost tries: int) returns (done: bool)
      requires Valid() && Faithful() && life.client.phase == C.AwaitingComplete(m, tries, 0) && msgId == m.header.msgId
      modifies this, queue, queue.buffer, table, table.buckets, table.nodes
      ensures Valid() && Continues() && fresh(table.nodes - old(table.nodes))
      ensures done ==> life.client.phase.Idle? && life.calls == old(life.calls)[m.header.msgId := Call(m, Some(0))]
      ensures !done ==> life.client.phase == C.Sending(m, tries + 1) && life.calls == old(life.calls)
    {
      hide EventQueue.Valid, ChainTables.ChainTable.Valid, Run, OnWire, Lookup;
      var i := 0;
      while i < timeoutMs / 100
        invariant 0 <= i <= C.Polls(timeoutMs)
        invariant Valid() && Continues() && fresh(table.nodes - old(table.nodes))
        invariant life.client.phase == C.AwaitingComplete(m, tries, i) && life.calls == old(life.calls)
        decreases C.Polls(timeoutMs) - i
      {
        Interleave();
        done := PollComplete(msgId, m, tries, i);
        if done {
          return;
        }
        i := i + 1;
      }
      Record(D.Tick(self, true));
      done := false;
    }

    /** The QoS 2 half of an attempt, after the send. */
    method Handshake(header: Header, ghost m: Message, ghost tries: int) returns (done: bool)
      requires Valid() && Faithful() && life.client.phase == C.AwaitingReceived(m, tries, 0) && header == m.header
      modifies this, queue, queue.buffer, table, table.buckets, table.nodes
      ensures Valid() && Continues() && fresh(table.nodes - old(table.nodes))
      ensures done ==> life.client.phase.Idle? && life.calls == old(life.calls)[m.header.msgId := Call(m, Some(0))]
      ensures !done ==> life.client.phase == C.Sending(m, tries + 1) && life.calls == old(life.calls)
    {
      hide EventQueue.Valid, ChainTables.ChainTable.Valid, Run, OnWire;
      AwaitReceived(header.msgId, m, tries);
      Interleave();
      var received := CheckReceived(header.msgId, m, tries);
      if !received {
        return false;
      }
      Interleave();
      SendRelease(header, m, tries);
      done := AwaitComplete(header.msgId, m, tries);
    }

    /** One round of the retry loop. At a QoS level that does not exist the packet is sent and nothing else
        happens, so that the next round is the same attempt again. */
    method Attempt(header: Header, bytes: seq<byte>, ghost m: Message, ghost tries: int) returns (ended: bool, rc: int)
      requires Valid() && Faithful() && life.client.phase == C.Sending(m, tries) && tries <= maxRetries
      requires m.Text? && |m.topic| <= 255 && bytes == Encode(m)
      requires header == m.header
      modifies this, queue, queue.buffer, table, table.buckets, table.nodes
      ensures Valid() && Continues() && fresh(table.nodes - old(table.nodes))
      ensures ended ==> life.client.phase.Idle? && life.calls == old(life.calls)[m.header.msgId := Call(m, Some(rc))]
      ensures !ended ==>
                && life.client.phase == C.Sending(m, if header.qosLevel <= QOS_EXACTLY_ONCE then tries + 1 else tries)
                && life.calls == old(life.calls)
      ensures rc in {0, -1} && (!ended || rc == 0 ==> bytes in wire[|old(wire)|..])
      ensures header.qosLevel == QOS_AT_MOST_ONCE ==>
                ended && rc in {0, -1} && wire == if rc == 0 then old(wire) + [bytes] else old(wire)
    {
      hide EventQueue.Valid, ChainTables.ChainTable.Valid, Run, OnWire, Encode;
      var sent := TrySend(bytes, m, tries);
      if sent < 0 {
        return true, -1;
      }
      assert wire[|old(wire)|] == bytes;
      rc := 0;
      if header.qosLevel == QOS_AT_MOST_ONCE {
        ended := true;
      } else if header.qosLevel == QOS_AT_LEAST_ONCE {
        ended := AwaitAck(header.msgId, m, tries);
      } else if header.qosLevel == QOS_EXACTLY_ONCE {
        ended := Handshake(header, m, tries);
      } else {
        ended := false;
      }
    }

    /** The end of the retry loop. */
    ghost method GiveUp(m: Message, tries: int)
      requires Valid() && Faithful() && life.client.phase == C.Sending(m, tries) && tries > maxRetries
      modifies this`life, this`moves
      ensures Valid() && Continues()
      ensures life.client.phase.Idle? && life.calls == old(life.calls)[m.header.msgId := Call(m, Some(-1))]
    {
      hide EventQueue.Valid, ChainTables.ChainTable.Valid, Run, OnWire;
      Record(D.Tick(self, true));
    }

    /** The retry loop. */
    method Repeat(header: Header, bytes: seq<byte>, ghost m: Message) returns (rc: int)
      requires Valid() && Faithful() && life.client.phase == C.Sending(m, 0)
      requires m.Text? && |m.topic| <= 255 && bytes == Encode(m)
      requires header == m.header && header.qosLevel <= QOS_EXACTLY_ONCE
      modifies this, queue, queue.buffer, table, table.buckets, table.nodes
      ensures Valid() && Continues() && fresh(table.nodes - old(table.nodes))
      ensures life.client.phase.Idle? && life.calls == old(life.calls)[m.header.msgId := Call(m, Some(rc))]
      ensures rc in {0, -1} && (rc == 0 ==> bytes in wire[|old(wire)|..])
    {
      hide Client.Valid, EventQueue.Valid, ChainTables.ChainTable.Valid, Run, OnWire, Next, Encode;
      var retries := 0;
      while retries <= maxRetries
        invariant Valid() && Continues() && fresh(table.nodes - old(table.nodes))
        invariant life.client.phase == C.Sending(m, retries) && life.calls == old(life.calls)
        decreases maxRetries + 1 - retries
      {
        Interleave();
        ghost var before := wire;
        var ended: bool;
        ended, rc := Attempt(header, bytes, m, retries);
        if ended {
          assert rc == 0 ==> bytes in wire[|old(wire)|..] by { InLaterPart(wire, |old(wire)|, |before|, bytes); }
          return;
        }
        retries := retries + 1;
      }
      GiveUp(m, retries);
      rc := -1;
    }

    /** `slimmq_publish`. Its own moves, mixed with anything other threads do, are those of the state machine
        from the head of the call to the result it returns; it returns 0 only after its packet went out. (A QoS
        level that does not exist makes the loop send forever, so it is excluded.) */
    method Publish(topic: seq<byte>, data: seq<byte>) returns (rc: int)
      requires Valid() && Faithful() && life.client.phase.Idle?
      requires nextId < 0x1_0000_0000 && qos <= QOS_EXACTLY_ONCE
      modifies this, queue, queue.buffer, table, table.buckets, table.nodes
      ensures Valid() && Continues() && fresh(table.nodes - old(table.nodes))
      ensures old(moves) + [D.Publish(self, topic, data)] <= moves
      ensures life.client.phase.Idle?
      ensures var m := Publication(old(qos), old(nextId), topic, data);
              life.calls == old(life.calls)[old(nextId) := Call(m, Some(rc))]
      ensures rc in {0, -1} && (!Serializable(topic, data, PACKET_SIZE) ==> rc == -1)
      ensures rc == 0 ==>
                exists bytes :: && bytes in wire[|old(wire)|..]
                                && Carries(bytes, MSG_PUBLISH, old(nextId), topic, data)
    {
      hide Client.Valid, EventQueue.Valid, ChainTables.ChainTable.Valid, Run, OnWire, Next, Carries;
      var header, packet, len := Begin(topic, data);
      if len < 0 {
        return -1;
      }
      ghost var m := Text(header, topic, data);
      if 0 !in topic {
        ProtocolMessagesEncodable(qos, header.msgId, topic, data);
      }
      BuiltCarries(m);
      rc := Repeat(header, packet[..len], m);
    }

    // ---------- the other calls ----------

    /** Serialises a subscription and sends it. */
    method SendSubscription(header: Header, topic: seq<byte>) returns (rc: int)
      modifies this`wire
      ensures !Serializable(topic, [], PACKET_SIZE) ==> rc < 0
      ensures rc < 0 ==> wire == old(wire)
      ensures rc >= 0 ==> rc == HEADER_SIZE + 1 + |topic| && wire == old(wire) + [MessageBytes(header, topic, [])]
    {
      var buffer := new byte[PACKET_SIZE];
      var len := SerializeMessage(header, topic, [], buffer);
      if len < 0 {
        return -1;
      }
      assert buffer[..len] == MessageBytes(header, topic, []);
      rc := SendBytes(buffer[..len]);
    }

    /** `slimmq_subscribe`: takes an id and sends one datagram, which every receiver reads as a SUBSCRIBE with
        that id and topic; the result is what `send_bytes` says, or -1 if it does not fit. */
    method Subscribe(topic: seq<byte>) returns (rc: int)
      requires Valid() && Faithful() && nextId < 0x1_0000_0000
      modifies this`nextId, this`life, this`moves, this`wire
      ensures Valid() && Continues()
      ensures moves == old(moves) + [D.Subscribe(self, topic, rc >= 0)] && life == Next(old(life), moves[|old(moves)|])
      ensures nextId == old(nextId) + 1 && (!Serializable(topic, [], PACKET_SIZE) ==> rc < 0)
      ensures rc < 0 ==> wire == old(wire)
      ensures rc >= 0 ==>
                && |wire| == |old(wire)| + 1 && rc == |wire[|old(wire)|]|
                && Carries(wire[|old(wire)|], MSG_SUBSCRIBE, old(nextId), topic, [])
    {
      hide EventQueue.Valid, ChainTables.ChainTable.Valid, Run, Carries, MessageBytes;
      var header := StandardHeader(MSG_SUBSCRIBE, QOS_AT_MOST_ONCE, nextId, (1 + |topic|) % 0x1_0000);
      ghost var m := Subscription(nextId, topic);
      nextId := nextId + 1;
      rc := SendSubscription(header, topic);
      if rc >= 0 {
        if 0 !in topic {
          ProtocolMessagesEncodable(0, m.header.msgId, topic, []);
        }
        BuiltCarries(m);
      }
      Record(D.Subscribe(self, topic, rc >= 0));
    }

    /** `slimmq_next_event`, when an event is there: hands out its data and as much of its topic as fits. */
    method NextEvent(topicSize: nat) returns (topic: seq<byte>, data: array?<byte>, dataLen: nat)
      requires Valid() && Faithful() && life.client.queue != [] && topicSize > 0
      modifies this`life, this`moves, queue
      ensures Valid() && Continues() && moves == old(moves) + [D.NextEvent(self)]
      ensures var e := old(life.client.queue)[0];
              && topic <= e.topic && |topic| == (if |e.topic| < topicSize then |e.topic| else topicSize - 1)
              && dataLen == |e.payload| && (data == null <==> e.payload == [])
              && (data != null ==> data[..] == e.payload && data in queue.popped)
      ensures life == Next(old(life), D.NextEvent(self)) && life.client.queue == old(life.client.queue)[1..]
    {
      hide EventQueue.Valid, ChainTables.ChainTable.Valid, Run, OnWire;
      var e := queue.Pop();
      topic := if |e.topic| < topicSize then e.topic else e.topic[..topicSize - 1];
      data, dataLen := e.data, e.dataLen;
      Record(D.NextEvent(self));
    }

    /** `slimmq_set_qos`. */
    method SetQos(qos: byte)
      requires Valid() && Faithful()
      modifies this`qos, this`life, this`moves, table, table.buckets
      ensures Valid() && Continues() && moves == old(moves) + [D.SetQos(self, qos)]
      ensures life == Next(old(life), D.SetQos(self, qos))
      ensures this.qos == qos && table.contents == if qos == QOS_EXACTLY_ONCE then map[] else old(table.contents)
      ensures table.nodes == old(table.nodes)
    {
      hide EventQueue.Valid, ChainTables.ChainTable.Valid, Run, OnWire;
      this.qos := qos;
      if qos == QOS_EXACTLY_ONCE {
        table.Clear();
      }
      Record(D.SetQos(self, qos));
    }

    /** `slimmq_set_retry_policy`, between two publish calls. */
    method SetRetryPolicy(timeoutMs: int, maxRetries: int)
      requires Valid() && Faithful() && life.client.phase.Idle?
      modifies this`timeoutMs, this`maxRetries, this`life, this`moves
      ensures Valid() && Faithful() && moves == old(moves) + [D.SetRetryPolicy(self, timeoutMs, maxRetries)]
      ensures this.timeoutMs == timeoutMs && this.maxRetries == maxRetries
    {
      hide EventQueue.Valid, ChainTables.ChainTable.Valid, Run, OnWire;
      this.timeoutMs, this.maxRetries := timeoutMs, maxRetries;
      Record(D.SetRetryPolicy(self, timeoutMs, maxRetries));
    }

    // ---------- the listener ----------

    static const CONTROL_DATA_SIZE := 256

    /** As for the broker: declared lengths fit the receive buffer, and topics hold no NUL. */
    static predicate Acceptable(buffer: seq<byte>, len: nat) {
      && Readable(buffer, len, CONTROL_DATA_SIZE)
      && var m := Decode(buffer, len, CONTROL_DATA_SIZE);
         m.Some? && m.value.Text? ==> 0 !in m.value.topic
    }

    /** `qos2_table_set`. */
    method SetHandshake(msgId: uint32, state: Qos2Tables.State, now: int)
      requires Valid()
      modifies table, table.buckets, table.nodes
      ensures table.Valid() && States(table.contents) == old(life.client.states)[msgId := state]
      ensures table.contents == old(table.contents)[msgId := ChainTables.Record(state, now)]
      ensures fresh(table.nodes - old(table.nodes))
    {
      hide EventQueue.Valid, ChainTables.ChainTable.Valid;
      StatesOfPut(table.contents, msgId, ChainTables.Record(state, now));
      table.Put(msgId, state, now);
    }

    /** What a handshake message does to the table; other control types are ignored. */
    method HearHandshake(header: Header, kind: byte, ghost data: seq<byte>, now: int)
      requires Valid() && Faithful()
      modifies this`life, this`moves, table, table.buckets, table.nodes
      ensures Valid() && Continues() && fresh(table.nodes - old(table.nodes))
      ensures life == Next(old(life), D.Listen(self, Control(header, kind, data), true))
    {
      hide EventQueue.Valid, ChainTables.ChainTable.Valid, Run, OnWire;
      if kind == CONTROL_RECEIVED {
        SetHandshake(header.msgId, WaitComplete, now);
      } else if kind == CONTROL_COMPLETE {
        SetHandshake(header.msgId, Qos2Tables.Completed, now);
      }
      Record(D.Listen(self, Control(header, kind, data), true));
    }

    /** The CONTROL branch of `listener_loop`. */
    method HearControl(buffer: array<byte>, len: nat, header: Header, now: int)
      requires Valid() && Faithful() && len <= buffer.Length && ControlReadsInside(buffer[..], len, CONTROL_DATA_SIZE)
      requires len >= HEADER_SIZE && header == DecodeHeader(buffer[..])
      modifies this`life, this`moves, table, table.buckets, table.nodes
      ensures Valid() && Continues() && fresh(table.nodes - old(table.nodes))
      ensures match ParseControl(buffer[..], len, CONTROL_DATA_SIZE)
              case BadControl(_) => life == old(life)
              case GoodControl(h, kind, data) => life == Next(old(life), D.Listen(self, Control(h, kind, data), true))
    {
      hide EventQueue.Valid, ChainTables.ChainTable.Valid, Run, OnWire, Next, CanMove, States;
      var ctrlData := new byte[CONTROL_DATA_SIZE];
      ghost var p := ParseControl(buffer[..], len, CONTROL_DATA_SIZE);
      var rc, hdr, kind := DeserializeControl(buffer, len, header, ctrlData);
      if rc == 0 {
        HearHandshake(hdr, kind, p.data, now);
      }
    }

    /** The other branches: an ACK or a publication becomes an event. */
    method HearEvent(header: Header, topic: seq<byte>, data: seq<byte>, mallocOk: bool, ghost m: Message)
      requires Valid() && Faithful()
      requires m == if header.msgType == MSG_ACK then Ack(header) else Text(header, topic, data)
      modifies this`life, this`moves, queue, queue.buffer
      ensures Valid() && Continues() && life == Next(old(life), D.Listen(self, m, mallocOk))
    {
      hide EventQueue.Valid, ChainTables.ChainTable.Valid, Run, OnWire, States;
      if header.msgType == MSG_ACK {
        var pushed := queue.Push(Event(MSG_ACK, header.msgId, [], []), mallocOk);
      } else if header.msgType == MSG_PUBLISH {
        var pushed := queue.Push(Event(MSG_PUBLISH, header.msgId, topic, data), mallocOk);
      }
      Record(D.Listen(self, m, mallocOk));
    }

    /** One round of `listener_loop`: a datagram that does not parse changes nothing, any other does what
        the state machine does with its message. */
    method Hear(buffer: array<byte>, len: int, mallocOk: bool, now: int)
      requires Valid() && Faithful() && len <= buffer.Length && (len > 0 ==> Acceptable(buffer[..], len))
      modifies this`life, this`moves, queue, queue.buffer, table, table.buckets, table.nodes
      ensures Valid() && Continues() && fresh(table.nodes - old(table.nodes))
      ensures len <= 0 || Decode(buffer[..], len, CONTROL_DATA_SIZE).None? ==> life == old(life)
      ensures len > 0 && Decode(buffer[..], len, CONTROL_DATA_SIZE).Some? ==>
                var m := Decode(buffer[..], len, CONTROL_DATA_SIZE).value;
                life == Next(old(life), D.Listen(self, m, m.Control? || mallocOk))
    {
      hide EventQueue.Valid, ChainTables.ChainTable.Valid, Run, OnWire, Next, States;
      if len <= 0 {
        return;
      }
      var rc, header, topic, data := Parse(buffer, len);
      if rc != 0 {
        return;
      }
      if header.msgType == MSG_CONTROL {
        HearControl(buffer, len, header, now);
      } else {
        HearEvent(header, topic, data, mallocOk, Decode(buffer[..], len, CONTROL_DATA_SIZE).value);
      }
    }
  }
}
