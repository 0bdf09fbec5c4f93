/** Clients, broker and a network that may lose, duplicate, delay and reorder packets, step by step. */
module Delivery {
  import opened Bytes
  import opened Addresses
  import opened Lists
  import opened Codec
  import opened Messages
  import opened TopicNames
  import opened TopicTables
  import opened EventQueues
  import opened PendingTables
  import B = BrokerModel
  import C = ClientModel
  import Q = Qos2Tables

  /** A packet between a client and the broker; `addr` is the client's address, whoever sends. */
  datatype Packet = Packet(addr: Address, message: Message)

  /** A publish call: the packet it sends, and how often it may repeat it. */
  datatype Call = Call(message: Message, maxRetries: int)

  /** The packets ever sent stay in `toBroker` and `toClient`: losing one means never delivering it,
      duplicating it means delivering it again. `handled` counts the deliveries to the broker. */
  datatype World = World(
    clients: map<Address, C.Client>,
    broker: B.Broker,
    toBroker: multiset<Packet>,
    toClient: set<Packet>,
    handled: multiset<Packet>,
    log: seq<B.Forward>,
    calls: map<Key, Call>,
    results: map<Key, int>)

  datatype Step =
    | Connect(a: Address)
    | Publish(a: Address, topic: seq<byte>, data: seq<byte>)
    | Subscribe(a: Address, topic: seq<byte>, sendOk: bool)
    | Tick(a: Address, sendOk: bool)
    | Listen(a: Address, m: Message, mallocOk: bool)
    | NextEvent(a: Address)
    | SetQos(a: Address, qos: byte)
    | SetRetryPolicy(a: Address, timeoutMs: int, maxRetries: int)
    | Serve(a: Address, m: Message, targets: seq<Address>)

  const START := World(map[], B.EMPTY_BROKER, multiset{}, {}, multiset{}, [], map[], map[])

  ghost predicate GoodTopic(topic: seq<byte>) {
    0 !in topic && NoEmptyLevel(topic)
  }

  /** One publish call at a time on a client, and its retry policy only changes between two of them;
      everything else may happen at any time. No message id is used twice. */
  ghost predicate Enabled(w: World, s: Step) {
    if s.Connect? then s.a !in w.clients
    else if s.Serve? then Packet(s.a, s.m) in w.toBroker && B.RightTargets(w.broker, s.m, s.targets)
    else
      && s.a in w.clients
      && var c := w.clients[s.a];
      match s
      case Publish(_, topic, _) => c.phase.Idle? && c.nextId < 0x1_0000_0000 && GoodTopic(topic)
      case Subscribe(_, topic, _) => c.nextId < 0x1_0000_0000 && GoodTopic(topic)
      case Tick(_, _) => !c.phase.Idle?
      case Listen(a, m, _) => Packet(a, m) in w.toClient
      case SetRetryPolicy(_, _, _) => c.phase.Idle?
      case _ => true
  }

  /** The client a step belongs to; `slimmq_connect` makes a new one. */
  function ClientAt(w: World, a: Address): C.Client {
    if a in w.clients then w.clients[a] else C.NEW_CLIENT
  }

  /** The publish call a client is in, or the one it would start. */
  function CallKey(a: Address, c: C.Client): Key {
    Key(a, if c.phase.Idle? then c.nextId % 0x1_0000_0000 else c.phase.m.header.msgId)
  }

  function OutcomeOf(c: C.Client, s: Step): C.Outcome
    requires !s.Serve? && (s.Publish? || s.Subscribe? ==> c.nextId < 0x1_0000_0000)
  {
    match s
    case Connect(_) => C.Quiet(c)
    case Publish(_, topic, data) => C.StartPublish(c, topic, data)
    case Subscribe(_, topic, sendOk) => C.StartSubscribe(c, topic, sendOk)
    case Tick(_, sendOk) => C.Tick(c, sendOk)
    case Listen(_, m, mallocOk) => C.Quiet(C.Listen(c, m, mallocOk))
    case NextEvent(_) => C.Quiet(C.NextEvent(c))
    case SetQos(_, qos) => C.Quiet(C.SetQos(c, qos))
    case SetRetryPolicy(_, timeoutMs, maxRetries) => C.Quiet(c.(timeoutMs := timeoutMs, maxRetries := maxRetries))
  }

  /** What a client's step does to the world. */
  function Act(w: World, s: Step, o: C.Outcome): World {
    var a, c := s.a, ClientAt(w, s.a);
    var key := CallKey(a, c);
    w.(clients := w.clients[a := o.client],
       toBroker := w.toBroker + if o.sent.Some? then multiset{Packet(a, o.sent.value)} else multiset{},
       results := if o.returned.Some? then w.results[key := o.returned.value] else w.results,
       calls := if s.Publish? then
                  w.calls[key := Call(Publication(c.qos, key.msgId, s.topic, s.data), c.maxRetries)]
                else w.calls)
  }

  /** The packets a reaction of the broker puts on the network. */
  function Replies(r: B.Reaction, from: Address): set<Packet> {
    (set x | x in r.replies :: Packet(from, x))
    + (set f, t | f in r.forwards && t in f.targets && B.PacketsTo(f, t) > 0 :: Packet(t, f.message))
  }

  ghost function After(w: World, s: Step): World
    requires Enabled(w, s)
  {
    if s.Serve? then
      var r := B.React(w.broker, s.a, s.m, s.targets);
      w.(broker := r.broker,
         toClient := w.toClient + Replies(r, s.a),
         handled := w.handled + multiset{Packet(s.a, s.m)},
         log := w.log + r.forwards)
    else
      Act(w, s, OutcomeOf(ClientAt(w, s.a), s))
  }

  // ---------- the causal invariant ----------

  function KeyOf(p: Packet): Key {
    Key(p.addr, p.message.header.msgId)
  }

  /** How often the broker forwarded the publication with this key. */
  function Copies(log: seq<B.Forward>, key: Key): nat {
    if log == [] then 0 else Copies(log[..|log| - 1], key) + if log[|log| - 1].key == key then 1 else 0
  }

  function QosOf(m: Message): byte {
    m.header.qosLevel
  }

  predicate Called(w: World, key: Key, m: Message) {
    key in w.calls && w.calls[key].message == m
  }

  /** What is on its way to the broker: subscriptions, the publications of calls, and a RELEASE only
      after a RECEIVED was sent to its client. */
  ghost predicate PacketOk(w: World, p: Packet) {
    && Encodable(p.message)
    && match p.message
       case Text(h, topic, _) => GoodTopic(topic) && (h.msgType == MSG_SUBSCRIBE || Called(w, KeyOf(p), p.message))
       case Control(_, _, _) =>
         && KeyOf(p) in w.calls && QosOf(w.calls[KeyOf(p)].message) == QOS_EXACTLY_ONCE
         && p.message == ReleaseRequest(w.calls[KeyOf(p)].message)
         && Packet(p.addr, ReceivedReply(KeyOf(p).msgId)) in w.toClient
       case Ack(_) => false
  }

  predicate HasCompleted(b: B.Broker, key: Key) {
    key in b.pending && b.pending[key] == PendingTables.Completed
  }

  /** What is on its way to a client: relayed publications, an ACK only for a forwarded publication, a
      RECEIVED only for an entry of the pending table, a COMPLETE only for a completed one. */
  ghost predicate ReplyOk(w: World, p: Packet) {
    match p.message
    case Text(_, _, _) => exists f :: f in w.log && f.message == p.message && p.addr in f.targets
    case Control(_, _, _) =>
      || (p.message == ReceivedReply(KeyOf(p).msgId) && KeyOf(p) in w.broker.pending)
      || (p.message == CompleteReply(KeyOf(p).msgId) && HasCompleted(w.broker, KeyOf(p)))
    case Ack(_) => p.message == AckReply(KeyOf(p).msgId) && Copies(w.log, KeyOf(p)) > 0
  }

  /** `a` subscribed with a filter that selects the topic. */
  ghost predicate Subscribed(b: B.Broker, a: Address, topic: seq<byte>) {
    a in Matching(b.subs, Levels(topic))
  }

  ghost predicate ForwardOk(w: World, f: B.Forward) {
    && Called(w, f.key, f.message) && Encodable(f.message) && f.message.Text?
    && forall t :: t in f.targets ==> Subscribed(w.broker, t, f.message.topic)
  }

  ghost predicate CallOk(w: World, key: Key) {
    && key in w.calls && key.addr in w.clients && key.msgId < w.clients[key.addr].nextId
    && IsCall(w.calls[key].message, key.msgId)
  }

  predicate IsCall(m: Message, msgId: uint32) {
    B.IsPublish(m) && m == Publication(QosOf(m), msgId, m.topic, m.data)
  }

  /** How often the broker handled the publication of a call. */
  function Handled(w: World, key: Key): nat {
    if key in w.calls then w.handled[Packet(key.addr, w.calls[key].message)] else 0
  }

  predicate IsQos2(w: World, key: Key) {
    key in w.calls && QosOf(w.calls[key].message) == QOS_EXACTLY_ONCE
  }

  /** The log agrees with what was handled, and the pending table with the log. */
  ghost predicate CountsOk(w: World, key: Key) {
    && Copies(w.log, key) == (if IsQos2(w, key) && Handled(w, key) > 0 then 1 else Handled(w, key))
    && (key in w.broker.pending <==> IsQos2(w, key) && Handled(w, key) > 0)
  }

  /** The handshake table knows only what packets told it; an id may fall back from Completed to
      WaitComplete when a late RECEIVED arrives. */
  ghost predicate StateOk(w: World, a: Address, id: uint32, s: Q.State) {
    || (s == Q.WaitComplete && Packet(a, ReceivedReply(id)) in w.toClient)
    || (s == Q.Completed && Packet(a, CompleteReply(id)) in w.toClient)
  }

  /** What the listener queues for a relayed publication. */
  function EventOf(m: Message): Event
    requires m.Text?
  {
    Event(MSG_PUBLISH, m.header.msgId, Cut(m.topic), m.data)
  }

  /** An ACK event for each ACK heard, any other event for a relayed publication heard. */
  ghost predicate EventOk(w: World, a: Address, e: Event) {
    if e.msgType == MSG_ACK then Packet(a, AckReply(e.msgId)) in w.toClient
    else exists p :: p in w.toClient && p.addr == a && p.message.Text? && e == EventOf(p.message)
  }

  ghost predicate PhaseOk(w: World, a: Address, ph: C.Phase) {
    !ph.Idle? ==>
      var id := ph.m.header.msgId;
      && ph.m.Text? && Called(w, Key(a, id), ph.m) && Encodable(ph.m) && GoodTopic(ph.m.topic)
      && (ph.AwaitingAck? ==> QosOf(ph.m) == QOS_AT_LEAST_ONCE)
      && (!ph.Sending? && !ph.AwaitingAck? ==> QosOf(ph.m) == QOS_EXACTLY_ONCE)
      && (ph.Releasing? || ph.AwaitingComplete? ==> Packet(a, ReceivedReply(id)) in w.toClient)
      && (ph.Forgetting? ==> Packet(a, CompleteReply(id)) in w.toClient)
  }

  ghost predicate ClientOk(w: World, a: Address, c: C.Client) {
    && (forall id :: id in c.states ==> StateOk(w, a, id, c.states[id]))
    && |c.queue| <= MAX_EVENT_QUEUE_SIZE && (forall e :: e in c.queue ==> EventOk(w, a, e))
    && PhaseOk(w, a, c.phase)
  }

  /** A call that returned 0 was confirmed by the broker: completed at QoS 2, acknowledged by the ACK of its
      own id at QoS 1. */
  ghost predicate ResultOk(w: World, key: Key, rc: int) {
    && key in w.calls && rc in {0, -1}
    && (rc == 0 && QosOf(w.calls[key].message) == QOS_EXACTLY_ONCE ==> HasCompleted(w.broker, key))
    && (rc == 0 && QosOf(w.calls[key].message) == QOS_AT_LEAST_ONCE ==>
          Packet(key.addr, AckReply(key.msgId)) in w.toClient)
  }

  ghost predicate Inv(w: World) {
    && (forall p :: p in w.toBroker ==> PacketOk(w, p))
    && (forall p :: p in w.handled ==> p in w.toBroker)
    && (forall p :: p in w.toClient ==> ReplyOk(w, p))
    && (forall f :: f in w.log ==> ForwardOk(w, f))
    && (forall k :: k in w.calls ==> CallOk(w, k))
    && (forall k :: CountsOk(w, k))
    && (forall a :: a in w.clients ==> ClientOk(w, a, w.clients[a]))
    && (forall k :: k in w.results ==> ResultOk(w, k, w.results[k]))
  }

  // ---------- every step keeps it ----------

  /** What no step takes back. */
  ghost predicate Grows(w: World, w': World) {
    && w.toBroker <= w'.toBroker && w.toClient <= w'.toClient
    && (forall k :: k in w.calls ==> k in w'.calls && w'.calls[k] == w.calls[k])
    && (forall a :: a in w.clients ==> a in w'.clients && w.clients[a].nextId <= w'.clients[a].nextId)
    && w.broker.subs <= w'.broker.subs
    && (forall k :: k in w.broker.pending ==> k in w'.broker.pending)
    && (forall k :: HasCompleted(w.broker, k) ==> HasCompleted(w'.broker, k))
    && (forall f :: f in w.log ==> f in w'.log)
    && (forall k :: Copies(w.log, k) <= Copies(w'.log, k))
  }

  lemma CopiesOfLonger(log: seq<B.Forward>, f: B.Forward, key: Key)
    ensures Copies(log + [f], key) == Copies(log, key) + if f.key == key then 1 else 0
  {
    assert (log + [f])[..|log + [f]| - 1] == log;
  }

  lemma ActGrows(w: World, s: Step, o: C.Outcome)
    requires o.client.nextId >= ClientAt(w, s.a).nextId
    requires s.Publish? ==> CallKey(s.a, ClientAt(w, s.a)) !in w.calls
    ensures Grows(w, Act(w, s, o))
  {
    hide Copies;
  }

  lemma ServeGrows(w: World, s: Step)
    requires Enabled(w, s) && s.Serve?
    ensures Grows(w, After(w, s))
  {
    hide Copies, Enabled, Replies, Levels;
    var r := B.React(w.broker, s.a, s.m, s.targets);
    if r.forwards == [] {
      assert w.log + r.forwards == w.log;
    } else {
      assert r.forwards == [r.forwards[0]];
      forall k ensures Copies(w.log, k) <= Copies(w.log + r.forwards, k) {
        CopiesOfLonger(w.log, r.forwards[0], k);
      }
    }
  }

  /** Facts about packets, forwards and results survive, whatever else happens. */
  lemma FactsSurvive(w: World, w': World)
    requires Inv(w) && Grows(w, w')
    ensures forall p :: p in w.toBroker ==> PacketOk(w', p)
    ensures forall p :: p in w.toClient ==> ReplyOk(w', p)
    ensures forall f :: f in w.log ==> ForwardOk(w', f)
    ensures forall k :: k in w.calls ==> CallOk(w', k)
    ensures forall k :: k in w.results ==> ResultOk(w', k, w.results[k])
  {
    forall p | p in w.toBroker ensures PacketOk(w', p) {
      assert PacketOk(w, p);
    }
    forall p | p in w.toClient ensures ReplyOk(w', p) {
      assert ReplyOk(w, p);
    }
    forall f | f in w.log ensures ForwardOk(w', f) {
      assert ForwardOk(w, f);
    }
    forall k | k in w.calls ensures CallOk(w', k) {
      assert CallOk(w, k);
    }
    forall k | k in w.results ensures ResultOk(w', k, w.results[k]) {
      assert ResultOk(w, k, w.results[k]);
    }
  }

  lemma ClientSurvives(w: World, w': World, a: Address, c: C.Client)
    requires Grows(w, w') && ClientOk(w, a, c)
    ensures ClientOk(w', a, c)
  {
    forall id | id in c.states ensures StateOk(w', a, id, c.states[id]) {
      assert StateOk(w, a, id, c.states[id]);
    }
    forall e | e in c.queue ensures EventOk(w', a, e) {
      assert EventOk(w, a, e);
    }
  }

  // ---------- a client's step ----------

  /** Enough for a client's step to keep the invariant. */
  ghost predicate ActOk(w: World, s: Step, o: C.Outcome) {
    var w' := Act(w, s, o);
    && o.client.nextId >= ClientAt(w, s.a).nextId
    && ClientOk(w', s.a, o.client)
    && (o.sent.Some? ==> PacketOk(w', Packet(s.a, o.sent.value)))
    && (o.returned.Some? ==> ResultOk(w', CallKey(s.a, ClientAt(w, s.a)), o.returned.value))
    && (s.Publish? ==>
          var key := CallKey(s.a, ClientAt(w, s.a));
          key !in w.calls && CallOk(w', key))
  }

  lemma ActKeepsCounts(w: World, s: Step, o: C.Outcome, k: Key)
    requires Inv(w) && ActOk(w, s, o)
    ensures CountsOk(Act(w, s, o), k)
  {
    hide Copies, PacketOk, ClientOk, CallOk, ReplyOk, ForwardOk, ResultOk;
    var w' := Act(w, s, o);
    var key := CallKey(s.a, ClientAt(w, s.a));
    assert CountsOk(w, k);
    if s.Publish? && k == key {
      var p := Packet(key.addr, w'.calls[key].message);
      NotYetHandled(w, p);
    }
  }

  lemma NotYetHandled(w: World, p: Packet)
    requires Inv(w) && KeyOf(p) !in w.calls && B.IsPublish(p.message)
    ensures w.handled[p] == 0
  {
    hide Copies;
    assert p in w.handled ==> p in w.toBroker;
    assert p in w.toBroker ==> PacketOk(w, p);
  }

  lemma ActKeepsInvariant(w: World, s: Step, o: C.Outcome)
    requires Inv(w) && ActOk(w, s, o)
    ensures Inv(Act(w, s, o))
  {
    hide Copies, PacketOk, ClientOk, CallOk, ReplyOk, ForwardOk, ResultOk, CountsOk;
    var w' := Act(w, s, o);
    ActGrows(w, s, o);
    FactsSurvive(w, w');
    forall k ensures CountsOk(w', k) {
      ActKeepsCounts(w, s, o, k);
    }
    forall a | a in w.clients ensures ClientOk(w', a, w.clients[a]) {
      ClientSurvives(w, w', a, w.clients[a]);
    }
  }

  /** What a step of the publishing thread yields is right already in the world before it. */
  ghost predicate TickOk(w: World, a: Address, c: C.Client, o: C.Outcome) {
    && o.client.nextId >= c.nextId
    && ClientOk(w, a, o.client)
    && (o.sent.Some? ==> PacketOk(w, Packet(a, o.sent.value)))
    && (o.returned.Some? ==> ResultOk(w, CallKey(a, c), o.returned.value))
  }

  lemma AckConfirms(w: World, a: Address, c: C.Client, id: uint32)
    requires Inv(w) && ClientOk(w, a, c) && FirstAck(c.queue, id) < |c.queue|
    ensures Packet(a, AckReply(id)) in w.toClient && Copies(w.log, Key(a, id)) > 0
  {
    hide Copies, PacketOk, CallOk, ForwardOk, ResultOk, CountsOk, FirstAck, PhaseOk;
    var e := c.queue[FirstAck(c.queue, id)];
    assert EventOk(w, a, e);
    assert ReplyOk(w, Packet(a, AckReply(id)));
  }

  lemma CompleteConfirms(w: World, a: Address, id: uint32)
    requires Inv(w) && Packet(a, CompleteReply(id)) in w.toClient
    ensures HasCompleted(w.broker, Key(a, id))
  {
    hide Copies, PacketOk, CallOk, ForwardOk, ResultOk, CountsOk, ClientOk;
    assert ReplyOk(w, Packet(a, CompleteReply(id)));
  }

  lemma SmallerQueueOk(w: World, a: Address, c: C.Client, queue: seq<Event>)
    requires ClientOk(w, a, c) && |queue| <= |c.queue| && forall e :: e in queue ==> e in c.queue
    ensures ClientOk(w, a, c.(queue := queue))
  {
  }

  lemma KnownState(w: World, a: Address, c: C.Client, id: uint32)
    requires ClientOk(w, a, c)
    ensures id in c.states ==> StateOk(w, a, id, c.states[id])
  {
  }

  lemma PollAckIsOk(w: World, a: Address, c: C.Client)
    requires Inv(w) && ClientOk(w, a, c) && c.phase.AwaitingAck?
    ensures TickOk(w, a, c, C.Tick(c, true))
  {
    hide Inv, Copies, FirstAck, Encodable, GoodTopic;
    var id := c.phase.m.header.msgId;
    if c.phase.i < C.Polls(c.timeoutMs) && FirstAck(c.queue, id) < |c.queue| {
      AckConfirms(w, a, c, id);
      SmallerQueueOk(w, a, c, AckTaken(c.queue, id));
    }
  }

  lemma FewerStatesOk(w: World, a: Address, c: C.Client, id: uint32)
    requires ClientOk(w, a, c)
    ensures ClientOk(w, a, c.(states := c.states - {id}, phase := C.Idle))
  {
  }

  lemma ForgetIsOk(w: World, a: Address, c: C.Client)
    requires Inv(w) && ClientOk(w, a, c) && c.phase.Forgetting?
    ensures TickOk(w, a, c, C.Tick(c, true))
  {
    hide Inv, Copies, Encodable, GoodTopic;
    CompleteConfirms(w, a, c.phase.m.header.msgId);
    FewerStatesOk(w, a, c, c.phase.m.header.msgId);
  }

  lemma TickIsOk(w: World, a: Address, c: C.Client, sendOk: bool)
    requires Inv(w) && ClientOk(w, a, c) && !c.phase.Idle?
    ensures TickOk(w, a, c, C.Tick(c, sendOk))
  {
    hide Inv, Copies, FirstAck, StateOk, EventOk;
    if c.phase.AwaitingAck? {
      PollAckIsOk(w, a, c);
    } else if c.phase.Forgetting? {
      ForgetIsOk(w, a, c);
    } else if c.phase.AwaitingComplete? || c.phase.CheckingReceived? {
      LookedUpIsOk(w, a, c);
    }
  }

  lemma LookedUpIsOk(w: World, a: Address, c: C.Client)
    requires ClientOk(w, a, c) && (c.phase.AwaitingComplete? || c.phase.CheckingReceived?)
    ensures TickOk(w, a, c, C.Tick(c, true))
  {
    hide Encodable, GoodTopic, EventOk;
    KnownState(w, a, c, c.phase.m.header.msgId);
  }

  lemma ListenIsOk(w: World, a: Address, c: C.Client, m: Message, mallocOk: bool)
    requires Inv(w) && ClientOk(w, a, c) && Packet(a, m) in w.toClient
    ensures ClientOk(w, a, C.Listen(c, m, mallocOk))
  {
    hide Inv, Copies, PhaseOk;
    var c' := C.Listen(c, m, mallocOk);
    HeardReply(w, a, m);
    forall id | id in c'.states ensures StateOk(w, a, id, c'.states[id]) {
      assert id in c.states ==> StateOk(w, a, id, c.states[id]);
    }
    forall e | e in c'.queue ensures EventOk(w, a, e) {
      assert e in c.queue ==> EventOk(w, a, e);
      assert m.Text? ==> Packet(a, m).addr == a;
    }
  }

  lemma HeardReply(w: World, a: Address, m: Message)
    requires Inv(w) && Packet(a, m) in w.toClient
    ensures ReplyOk(w, Packet(a, m))
  {
  }

  lemma AheadIsOk(w: World, s: Step, o: C.Outcome)
    requires Inv(w) && !s.Publish? && TickOk(w, s.a, ClientAt(w, s.a), o)
    ensures ActOk(w, s, o)
  {
    hide Copies, ClientOk, Encodable;
    ActGrows(w, s, o);
    ClientSurvives(w, Act(w, s, o), s.a, o.client);
  }

  lemma NextIdUnused(w: World, key: Key)
    requires Inv(w) && key.addr in w.clients && key.msgId >= w.clients[key.addr].nextId
    ensures key !in w.calls
  {
    assert key in w.calls ==> CallOk(w, key);
  }

  lemma NewPhaseOk(w: World, a: Address, c: C.Client, ph: C.Phase)
    requires ClientOk(w, a, c) && PhaseOk(w, a, ph)
    ensures ClientOk(w, a, c.(phase := ph))
  {
  }

  lemma PublishIsOk(w: World, s: Step)
    requires Inv(w) && Enabled(w, s) && s.Publish?
    ensures ActOk(w, s, OutcomeOf(ClientAt(w, s.a), s))
  {
    hide Inv, Copies, Encodable, NoEmptyLevel, ClientOk;
    var c, o := w.clients[s.a], OutcomeOf(w.clients[s.a], s);
    var key := CallKey(s.a, c);
    NextIdUnused(w, key);
    ActGrows(w, s, o);
    ProtocolMessagesEncodable(c.qos, key.msgId, s.topic, s.data);
    ClientIsOk(w, s.a);
    TickedClientOk(w, s.a, c);
    ClientSurvives(w, Act(w, s, o), s.a, c.(nextId := c.nextId + 1));
    NewPhaseOk(Act(w, s, o), s.a, c.(nextId := c.nextId + 1), o.client.phase);
  }

  lemma TickedClientOk(w: World, a: Address, c: C.Client)
    requires ClientOk(w, a, c)
    ensures ClientOk(w, a, c.(nextId := c.nextId + 1))
  {
  }

  lemma ClientStepIsOk(w: World, s: Step)
    requires Inv(w) && Enabled(w, s) && !s.Serve?
    ensures ActOk(w, s, OutcomeOf(ClientAt(w, s.a), s))
  {
    hide Inv, ClientOk, PacketOk, GoodTopic, ActOk, C.StartSubscribe;
    var a, c := s.a, ClientAt(w, s.a);
    ClientIsOk(w, a);
    match s
    case Serve(_, _, _) =>
    case Publish(_, _, _) => PublishIsOk(w, s);
    case Subscribe(_, topic, sendOk) =>
      SubscribeIsOk(w, a, c, topic, sendOk);
      AheadIsOk(w, s, OutcomeOf(c, s));
    case Tick(_, sendOk) =>
      TickIsOk(w, a, c, sendOk);
      AheadIsOk(w, s, OutcomeOf(c, s));
    case Listen(_, m, mallocOk) =>
      ListenIsOk(w, a, c, m, mallocOk);
      AheadIsOk(w, s, OutcomeOf(c, s));
    case NextEvent(_) =>
      SmallerQueueOk(w, a, c, C.NextEvent(c).queue);
      AheadIsOk(w, s, OutcomeOf(c, s));
    case _ =>
      SettingsAreOk(w, a, c, OutcomeOf(c, s).client);
      AheadIsOk(w, s, OutcomeOf(c, s));
  }

  lemma ClientIsOk(w: World, a: Address)
    requires Inv(w)
    ensures ClientOk(w, a, ClientAt(w, a))
  {
  }

  lemma SubscribeIsOk(w: World, a: Address, c: C.Client, topic: seq<byte>, sendOk: bool)
    requires ClientOk(w, a, c) && c.nextId < 0x1_0000_0000 && GoodTopic(topic)
    ensures TickOk(w, a, c, C.StartSubscribe(c, topic, sendOk))
  {
    ProtocolMessagesEncodable(QOS_AT_MOST_ONCE, c.nextId, topic, []);
  }

  lemma SettingsAreOk(w: World, a: Address, c: C.Client, c': C.Client)
    requires ClientOk(w, a, c) && c'.queue == c.queue && c'.phase == c.phase && c'.states in {c.states, map[]}
    ensures ClientOk(w, a, c')
  {
  }

  // ---------- a step of the broker ----------

  /** What the invariant says about a packet being served, and about a key. */
  lemma ServedFacts(w: World, p: Packet, k: Key)
    requires Inv(w) && p in w.toBroker
    ensures PacketOk(w, p) && CountsOk(w, k) && CountsOk(w, KeyOf(p))
    ensures p.message.Control? ==> KeyOf(p) in w.broker.pending
    ensures k in w.calls ==> CallOk(w, k)
  {
    hide Copies, ForwardOk, ResultOk, ClientOk, Encodable;
    assert PacketOk(w, p);
    assert p.message.Control? ==> ReplyOk(w, Packet(p.addr, ReceivedReply(KeyOf(p).msgId)));
  }

  lemma ServedCounts(w: World, s: Step, k: Key)
    requires Inv(w) && Enabled(w, s) && s.Serve?
    ensures CountsOk(After(w, s), k)
  {
    hide Inv, Copies, Encodable, GoodTopic, B.RightTargets;
    var r := B.React(w.broker, s.a, s.m, s.targets);
    ServedFacts(w, Packet(s.a, s.m), k);
    if r.forwards == [] {
      assert w.log + r.forwards == w.log;
    } else {
      assert r.forwards == [r.forwards[0]];
      CopiesOfLonger(w.log, r.forwards[0], k);
    }
  }

  lemma ServedReplies(w: World, s: Step, p: Packet)
    requires Inv(w) && Enabled(w, s) && s.Serve? && Grows(w, After(w, s))
    requires p in Replies(B.React(w.broker, s.a, s.m, s.targets), s.a)
    ensures ReplyOk(After(w, s), p)
  {
    hide Inv, Grows, Copies, Encodable, B.RightTargets;
    var r := B.React(w.broker, s.a, s.m, s.targets);
    if r.forwards != [] {
      assert r.forwards == [r.forwards[0]];
      assert r.forwards[0] in After(w, s).log;
      CopiesOfLonger(w.log, r.forwards[0], Key(s.a, s.m.header.msgId));
    }
  }

  lemma ServedForwards(w: World, s: Step, f: B.Forward)
    requires Inv(w) && Enabled(w, s) && s.Serve?
    requires f in B.React(w.broker, s.a, s.m, s.targets).forwards
    ensures ForwardOk(After(w, s), f)
  {
    hide Copies, Encodable, ClientOk, ResultOk, CountsOk, ReplyOk, CallOk, Matching, Levels, NoRepeats;
    assert PacketOk(w, Packet(s.a, s.m));
    assert forall t :: t in s.targets ==> t in Members(s.targets);
  }

  lemma ServeKeepsInvariant(w: World, s: Step)
    requires Inv(w) && Enabled(w, s) && s.Serve?
    ensures Inv(After(w, s))
  {
    hide Copies, PacketOk, ClientOk, CallOk, ReplyOk, ForwardOk, ResultOk, CountsOk, B.RightTargets, Replies, B.React;
    var r, w' := B.React(w.broker, s.a, s.m, s.targets), After(w, s);
    ServeGrows(w, s);
    FactsSurvive(w, w');
    forall k ensures CountsOk(w', k) {
      ServedCounts(w, s, k);
    }
    forall p | p in Replies(r, s.a) ensures ReplyOk(w', p) {
      ServedReplies(w, s, p);
    }
    forall f | f in r.forwards ensures ForwardOk(w', f) {
      ServedForwards(w, s, f);
    }
    forall a | a in w.clients ensures ClientOk(w', a, w.clients[a]) {
      ClientSurvives(w, w', a, w.clients[a]);
    }
  }

  // ---------- runs ----------

  /** Every step of the clients, the network and the broker keeps the causal invariant. */
  lemma StepKeepsInvariant(w: World, s: Step)
    requires Inv(w) && Enabled(w, s)
    ensures Inv(After(w, s))
  {
    hide Inv, ActOk, OutcomeOf;
    if s.Serve? {
      ServeKeepsInvariant(w, s);
    } else {
      ClientStepIsOk(w, s);
      ActKeepsInvariant(w, s, OutcomeOf(ClientAt(w, s.a), s));
    }
  }

  /** `steps` leads from the start to `w`, every step being possible when it is taken. */
  ghost predicate Reaches(steps: seq<Step>, w: World) {
    if steps == [] then w == START
    else
      var last := |steps| - 1;
      exists w0 :: Reaches(steps[..last], w0) && Enabled(w0, steps[last]) && w == After(w0, steps[last])
  }

  lemma {:induction false} RunsKeepInvariant(steps: seq<Step>, w: World)
    requires Reaches(steps, w)
    ensures Inv(w)
  {
    hide Inv, Enabled, After;
    if steps == [] {
      StartIsOk();
    } else {
      var last := |steps| - 1;
      var w0 :| Reaches(steps[..last], w0) && Enabled(w0, steps[last]) && w == After(w0, steps[last]);
      RunsKeepInvariant(steps[..last], w0);
      StepKeepsInvariant(w0, steps[last]);
    }
  }

  lemma StartIsOk()
    ensures Inv(START)
  {
  }

  // ---------- what runs guarantee ----------

  /** The log has exactly one entry for `key`, and it carries `m`. */
  ghost predicate ForwardedOnce(log: seq<B.Forward>, key: Key, m: Message) {
    exists i :: 0 <= i < |log| && log[i].key == key && log[i].message == m
      && forall j :: 0 <= j < |log| && log[j].key == key ==> j == i
  }

  lemma {:induction false} CopiesCount(log: seq<B.Forward>, key: Key)
    ensures Copies(log, key) > 0 <==> exists i :: 0 <= i < |log| && log[i].key == key
    ensures Copies(log, key) <= 1 <==>
              forall i, j :: 0 <= i < |log| && 0 <= j < |log| && log[i].key == key && log[j].key == key ==> i == j
  {
    if log != [] {
      var n := |log| - 1;
      CopiesCount(log[..n], key);
      forall i | 0 <= i < n ensures log[..n][i] == log[i] {}
      if log[n].key == key && Copies(log, key) <= 1 {
        forall i | 0 <= i < n ensures log[i].key != key {
          assert log[..n][i] == log[i];
        }
      }
    }
  }

  lemma OneCopy(w: World, key: Key)
    requires Inv(w) && Copies(w.log, key) == 1
    ensures key in w.calls && ForwardedOnce(w.log, key, w.calls[key].message)
  {
    hide Copies, PacketOk, ClientOk, CallOk, ReplyOk, ResultOk, CountsOk;
    CopiesCount(w.log, key);
    var i :| 0 <= i < |w.log| && w.log[i].key == key;
    assert ForwardOk(w, w.log[i]);
  }

  /** Exactly once on success: when a QoS 2 publish has returned 0, the broker has forwarded that very
      packet once, whatever the network did. */
  lemma ExactlyOnceOnSuccess(steps: seq<Step>, w: World, key: Key)
    requires Reaches(steps, w) && IsQos2(w, key)
    requires key in w.results && w.results[key] == 0
    ensures ForwardedOnce(w.log, key, w.calls[key].message)
  {
    hide Copies, Reaches, PacketOk, ClientOk, CallOk, ReplyOk, ForwardOk;
    RunsKeepInvariant(steps, w);
    assert ResultOk(w, key, 0) && CountsOk(w, key);
    OneCopy(w, key);
  }

  /** Whatever a QoS 2 call returned or has yet to return, its packet was forwarded, and then just once,
      if and only if a copy of it was ever handled by the broker. */
  lemma ForwardedIffHandled(steps: seq<Step>, w: World, key: Key)
    requires Reaches(steps, w) && IsQos2(w, key)
    ensures Handled(w, key) > 0 <==> ForwardedOnce(w.log, key, w.calls[key].message)
    ensures Handled(w, key) == 0 <==> forall f :: f in w.log ==> f.key != key
    ensures Handled(w, key) > 0 <==> key in w.broker.pending
  {
    hide Copies, Reaches, PacketOk, ClientOk, CallOk, ReplyOk, ForwardOk, ResultOk;
    RunsKeepInvariant(steps, w);
    assert CountsOk(w, key);
    CopiesCount(w.log, key);
    if Copies(w.log, key) == 1 {
      OneCopy(w, key);
    }
  }

  /** At least once: when a QoS 1 publish has returned 0, that very packet was forwarded, and the broker had
      sent this client the ACK with the call's own id; without that ACK, one for another id or for another
      client does not do it. */
  lemma AtLeastOnceOnSuccess(steps: seq<Step>, w: World, key: Key)
    requires Reaches(steps, w) && key in w.calls && QosOf(w.calls[key].message) == QOS_AT_LEAST_ONCE
    requires key in w.results && w.results[key] == 0
    ensures exists f :: f in w.log && f.key == key && f.message == w.calls[key].message
    ensures Packet(key.addr, AckReply(key.msgId)) in w.toClient
  {
    hide Copies, Reaches, PacketOk, ClientOk, CallOk, CountsOk;
    RunsKeepInvariant(steps, w);
    assert ResultOk(w, key, 0);
    assert ReplyOk(w, Packet(key.addr, AckReply(key.msgId)));
    CopiesCount(w.log, key);
    var i :| 0 <= i < |w.log| && w.log[i].key == key;
    assert ForwardOk(w, w.log[i]);
  }

  /** The chain of causes behind it: a RELEASE was only sent after a RECEIVED, a RECEIVED only for an
      entry of the pending table, an entry only after one forward; and a client that sees its handshake
      completed is right. */
  lemma CausalChain(steps: seq<Step>, w: World, a: Address, id: uint32)
    requires Reaches(steps, w)
    ensures forall m: Message :: Packet(a, m) in w.toBroker && m.Control? && m.header.msgId == id ==>
              m.kind == CONTROL_RELEASE && Packet(a, ReceivedReply(id)) in w.toClient
    ensures Packet(a, ReceivedReply(id)) in w.toClient ==> Key(a, id) in w.broker.pending
    ensures Key(a, id) in w.broker.pending ==>
              Key(a, id) in w.calls && ForwardedOnce(w.log, Key(a, id), w.calls[Key(a, id)].message)
    ensures a in w.clients && Q.Lookup(w.clients[a].states, id) == Q.Completed ==> HasCompleted(w.broker, Key(a, id))
  {
    hide Copies, Reaches, CallOk, ForwardOk, ResultOk, Encodable, ForwardedOnce;
    RunsKeepInvariant(steps, w);
    var key := Key(a, id);
    forall m: Message | Packet(a, m) in w.toBroker && m.Control? && m.header.msgId == id
      ensures m.kind == CONTROL_RELEASE && Packet(a, ReceivedReply(id)) in w.toClient
    {
      assert PacketOk(w, Packet(a, m));
    }
    assert Packet(a, ReceivedReply(id)) in w.toClient ==> ReplyOk(w, Packet(a, ReceivedReply(id)));
    assert CountsOk(w, key);
    if key in w.broker.pending {
      OneCopy(w, key);
    }
    if a in w.clients && Q.Lookup(w.clients[a].states, id) == Q.Completed {
      assert StateOk(w, a, id, Q.Completed);
      CompleteConfirms(w, a, id);
    }
  }

  /** Whatever is queued at a client in any run: an ACK that the broker sent to this client, or a publication
      of some call, with its data and the first 127 bytes of its topic, that one of the client's own filters
      selects. */
  lemma QueuedEvents(steps: seq<Step>, w: World, a: Address, e: Event)
    requires Reaches(steps, w) && a in w.clients && e in w.clients[a].queue
    ensures e.msgType == MSG_ACK ==> Packet(a, AckReply(e.msgId)) in w.toClient
    ensures e.msgType != MSG_ACK ==>
              exists key :: && key in w.calls && w.calls[key].message.Text?
                            && e == EventOf(w.calls[key].message) && key.msgId == e.msgId
                            && Subscribed(w.broker, a, w.calls[key].message.topic)
  {
    hide Reaches, Inv, PacketOk, Subscribed, PhaseOk, Encodable;
    RunsKeepInvariant(steps, w);
    ClientIsOk(w, a);
    assert EventOk(w, a, e);
    if e.msgType != MSG_ACK {
      var p :| p in w.toClient && p.addr == a && p.message.Text? && e == EventOf(p.message);
      HeardReply(w, a, p.message);
      var f :| f in w.log && f.message == p.message && p.addr in f.targets;
      LoggedForward(w, f);
    }
  }

  lemma LoggedForward(w: World, f: B.Forward)
    requires Inv(w) && f in w.log
    ensures ForwardOk(w, f) && f.key in w.calls && CallOk(w, f.key)
  {
  }
}
