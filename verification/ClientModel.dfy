/** A client as a state machine: the publishing thread, statement by statement between two accesses to
    shared state, and the listener thread, one received message at a time. */
module ClientModel {
  import opened Bytes
  import opened Wrappers
  import opened Codec
  import opened Messages
  import opened EventQueues
  import Q = Qos2Tables

  /** Where `slimmq_publish` stands with publication `m`: `tries` is its `retries`, `i` a poll counter. */
  datatype Phase =
    | Idle
    | Sending(m: Message, tries: int)
    | AwaitingAck(m: Message, tries: int, i: nat)
    | AwaitingReceived(m: Message, tries: int, i: nat)
    | CheckingReceived(m: Message, tries: int)
    | Releasing(m: Message, tries: int)
    | AwaitingComplete(m: Message, tries: int, i: nat)
    | Forgetting(m: Message)

  datatype Client = Client(
    nextId: nat,
    qos: byte,
    timeoutMs: int,
    maxRetries: int,
    states: map<uint32, Q.State>,
    queue: seq<Event>,
    phase: Phase)

  /** What a step does besides changing the client: a message to the broker, or the publish call's result. */
  datatype Outcome = Outcome(client: Client, sent: Option<Message>, returned: Option<int>)

  /** C division truncates towards zero; a loop bounded by a negative count does not run. */
  function Polls(timeoutMs: int): nat {
    if timeoutMs < 0 then 0 else timeoutMs / 100
  }

  function Quiet(c: Client): Outcome {
    Outcome(c, None, None)
  }

  function Returns(c: Client, rc: int): Outcome {
    Outcome(c.(phase := Idle), None, Some(rc))
  }

  /** The head of `slimmq_publish`: takes an id, builds the packet, gives up if it does not fit. */
  function StartPublish(c: Client, topic: seq<byte>, data: seq<byte>): Outcome
    requires c.nextId < 0x1_0000_0000
  {
    var c' := c.(nextId := c.nextId + 1);
    if Serializable(topic, data, PACKET_SIZE) then
      Quiet(c'.(phase := Sending(Publication(c.qos, c.nextId, topic, data), 0)))
    else
      Returns(c', -1)
  }

  /** `slimmq_subscribe`; the send itself may fail. */
  function StartSubscribe(c: Client, topic: seq<byte>, sendOk: bool): Outcome
    requires c.nextId < 0x1_0000_0000
  {
    var sent := if sendOk && Serializable(topic, [], PACKET_SIZE) then Some(Subscription(c.nextId, topic)) else None;
    Outcome(c.(nextId := c.nextId + 1), sent, None)
  }

  /** The head of the retry loop. A QoS level other than 0, 1 and 2 makes it send again forever. */
  function Send(c: Client, m: Message, tries: int, sendOk: bool): Outcome {
    if tries > c.maxRetries || !sendOk then Returns(c, -1)
    else if m.header.qosLevel == QOS_AT_MOST_ONCE then Outcome(c.(phase := Idle), Some(m), Some(0))
    else if m.header.qosLevel == QOS_AT_LEAST_ONCE then Outcome(c.(phase := AwaitingAck(m, tries, 0)), Some(m), None)
    else if m.header.qosLevel == QOS_EXACTLY_ONCE then
      Outcome(c.(phase := AwaitingReceived(m, tries, 0)), Some(m), None)
    else Outcome(c, Some(m), None)
  }

  /** One step of the publishing thread; `sendOk` is whether a send in this step succeeds. */
  function Tick(c: Client, sendOk: bool): Outcome {
    match c.phase
    case Idle => Quiet(c)
    case Sending(m, tries) => Send(c, m, tries, sendOk)
    case AwaitingAck(m, tries, i) =>
      if i >= Polls(c.timeoutMs) then Quiet(c.(phase := Sending(m, tries + 1)))
      else if FirstAck(c.queue, m.header.msgId) < |c.queue| then
        Returns(c.(queue := AckTaken(c.queue, m.header.msgId)), 0)
      else Quiet(c.(phase := AwaitingAck(m, tries, i + 1)))
    case AwaitingReceived(m, tries, i) =>
      if i >= Polls(c.timeoutMs) || Q.Lookup(c.states, m.header.msgId) == Q.WaitComplete then
        Quiet(c.(phase := CheckingReceived(m, tries)))
      else Quiet(c.(phase := AwaitingReceived(m, tries, i + 1)))
    case CheckingReceived(m, tries) =>
      if Q.Lookup(c.states, m.header.msgId) != Q.WaitComplete then Quiet(c.(phase := Sending(m, tries + 1)))
      else Quiet(c.(phase := Releasing(m, tries)))
    case Releasing(m, tries) =>
      Outcome(c.(phase := AwaitingComplete(m, tries, 0)), if sendOk then Some(ReleaseRequest(m)) else None, None)
    case AwaitingComplete(m, tries, i) =>
      if i >= Polls(c.timeoutMs) then Quiet(c.(phase := Sending(m, tries + 1)))
      else if Q.Lookup(c.states, m.header.msgId) == Q.Completed then Quiet(c.(phase := Forgetting(m)))
      else Quiet(c.(phase := AwaitingComplete(m, tries, i + 1)))
    case Forgetting(m) =>
      Returns(c.(states := c.states - {m.header.msgId}), 0)
  }

  /** `listener_loop` on one received message; `mallocOk` is whether an event's data can be copied. */
  function Listen(c: Client, m: Message, mallocOk: bool): Client {
    match m
    case Ack(h) => Enqueue(c, Event(MSG_ACK, h.msgId, [], []), true)
    case Control(h, kind, _) =>
      if kind == CONTROL_RECEIVED then c.(states := c.states[h.msgId := Q.WaitComplete])
      else if kind == CONTROL_COMPLETE then c.(states := c.states[h.msgId := Q.Completed])
      else c
    case Text(h, topic, data) =>
      if h.msgType == MSG_PUBLISH then Enqueue(c, Event(MSG_PUBLISH, h.msgId, topic, data), mallocOk || data == [])
      else c
  }

  function Enqueue(c: Client, e: Event, mallocOk: bool): Client {
    if mallocOk then c.(queue := Pushed(c.queue, e)) else c
  }

  /** `slimmq_next_event`, when there is an event. */
  function NextEvent(c: Client): Client {
    if c.queue == [] then c else c.(queue := c.queue[1..])
  }

  /** `slimmq_set_qos`: choosing QoS 2 clears the handshake table. */
  function SetQos(c: Client, qos: byte): Client {
    c.(qos := qos, states := if qos == QOS_EXACTLY_ONCE then map[] else c.states)
  }

  /** `slimmq_connect`: ids start at 1. */
  const NEW_CLIENT := Client(1, QOS_AT_MOST_ONCE, 0, 0, map[], [], Idle)
}
