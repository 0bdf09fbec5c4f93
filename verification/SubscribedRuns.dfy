/** Subscribing and being published to: from every reachable world there are runs in which a subscription takes
    effect, and in which a publication on a matching topic reaches the subscriber's queue. */
module SubscribedRuns {
  import opened Bytes
  import opened Addresses
  import opened Lists
  import opened Codec
  import opened Messages
  import opened TopicNames
  import opened TopicFilters
  import opened TopicTables
  import opened EventQueues
  import opened PendingTables
  import opened Delivery
  import opened ScheduledRuns
  import B = BrokerModel
  import C = ClientModel

  /** `slimmq_subscribe`, sent, delivered and served: the broker has one subscription more, and nothing else
      has changed but the client's next id. */
  lemma SubscriptionTakesEffect(steps: seq<Step>, w: World, a: Address, topic: seq<byte>)
    returns (steps': seq<Step>, w': World)
    requires Reaches(steps, w) && a in w.clients && w.clients[a].nextId < 0x1_0000_0000
    requires GoodTopic(topic) && Serializable(topic, [], PACKET_SIZE)
    ensures Reaches(steps', w')
    ensures w'.broker == w.broker.(subs := w.broker.subs + {(Levels(topic), a)})
    ensures w'.clients == w.clients[a := w.clients[a].(nextId := w.clients[a].nextId + 1)]
    ensures w'.log == w.log && w'.calls == w.calls && w'.results == w.results
  {
    hide Reaches, Levels, GoodTopic;
    var m := Subscription(w.clients[a].nextId, topic);
    var subscribe, serve := Step.Subscribe(a, topic, true), Step.Serve(a, m, []);
    OneStepFurther(steps, w, subscribe);
    var w1 := After(w, subscribe);
    assert Packet(a, m) in w1.toBroker;
    OneStepFurther(steps + [subscribe], w1, serve);
    steps', w' := steps + [subscribe] + [serve], After(w1, serve);
    assert w1.log + [] == w.log;
  }

  /** A client that may publish this: idle, at a QoS level that exists, with one attempt allowed. */
  ghost predicate MaySend(w: World, a: Address, topic: seq<byte>, data: seq<byte>) {
    && a in w.clients
    && var c := w.clients[a];
    && c.phase.Idle? && c.nextId < 0x1_0000_0000 && c.qos <= QOS_EXACTLY_ONCE && c.maxRetries >= 0
    && GoodTopic(topic) && Serializable(topic, data, PACKET_SIZE)
  }

  lemma PublicationIsSent(steps: seq<Step>, w: World, a: Address, topic: seq<byte>, data: seq<byte>)
    returns (steps': seq<Step>, w': World)
    requires Reaches(steps, w) && MaySend(w, a, topic, data)
    ensures var c, m := w.clients[a], Publication(w.clients[a].qos, w.clients[a].nextId, topic, data);
            && Reaches(steps', w') && w'.broker == w.broker && w'.log == w.log
            && Packet(a, m) in w'.toBroker && B.IsPublish(m)
            && Key(a, c.nextId) !in w.broker.pending
            && w'.clients.Keys == w.clients.Keys
            && forall s :: s in w.clients ==> w'.clients[s].queue == w.clients[s].queue
  {
    hide Reaches, GoodTopic, FirstAck, Copies;
    NextIdIsFresh(steps, w, a);
    var publish, tick := Step.Publish(a, topic, data), Step.Tick(a, true);
    OneStepFurther(steps, w, publish);
    var w1 := After(w, publish);
    OneStepFurther(steps + [publish], w1, tick);
    steps', w' := steps + [publish] + [tick], After(w1, tick);
  }

  /** A publication, sent, delivered and served: whoever has subscribed with a filter that selects the topic,
      and has room in the event queue, can hear it. */
  lemma PublicationReaches(steps: seq<Step>, w: World, a: Address, topic: seq<byte>, data: seq<byte>, s: Address)
    returns (steps': seq<Step>, w': World)
    requires Reaches(steps, w) && MaySend(w, a, topic, data)
    requires s in w.clients && |w.clients[s].queue| < MAX_EVENT_QUEUE_SIZE && Subscribed(w.broker, s, topic)
    ensures Reaches(steps', w') && s in w'.clients
    ensures w'.clients[s].queue == w.clients[s].queue + [Event(MSG_PUBLISH, w.clients[a].nextId, Cut(topic), data)]
  {
    hide Reaches, GoodTopic, Matching, Levels, NoRepeats;
    var m := Publication(w.clients[a].qos, w.clients[a].nextId, topic, data);
    var steps1, w1 := PublicationIsSent(steps, w, a, topic, data);
    var targets := ListOf(Matching(w1.broker.subs, Levels(topic)));
    var serve, listen := Step.Serve(a, m, targets), Step.Listen(s, m, true);
    OneStepFurther(steps1, w1, serve);
    var w2 := After(w1, serve);
    ForwardReaches(w1, serve, s);
    OneStepFurther(steps1 + [serve], w2, listen);
    steps', w' := steps1 + [serve] + [listen], After(w2, listen);
  }

  /** A publication with an id the broker does not know is put on its way to each target. */
  lemma ForwardReaches(w: World, serve: Step, s: Address)
    requires serve.Serve? && Enabled(w, serve) && s in Members(serve.targets)
    requires B.IsPublish(serve.m) && Key(serve.a, serve.m.header.msgId) !in w.broker.pending
    requires Serializable(serve.m.topic, serve.m.data, PACKET_SIZE)
    ensures Packet(s, serve.m) in After(w, serve).toClient
  {
    hide Levels, Matching;
    var r := B.React(w.broker, serve.a, serve.m, serve.targets);
    assert r.forwards[0] in r.forwards && s in serve.targets && s in multiset(serve.targets);
    assert Packet(s, r.forwards[0].message) in Replies(r, serve.a);
  }

  /** Both: a client subscribes with a filter, another (or the same) publishes on a topic that the filter
      selects, and the subscriber's queue holds the published data under the first 127 bytes of the topic. */
  lemma SubscriberHears(steps: seq<Step>, w: World, s: Address, filter: seq<byte>,
                        a: Address, topic: seq<byte>, data: seq<byte>)
    returns (steps': seq<Step>, w': World)
    requires Reaches(steps, w) && s in w.clients && |w.clients[s].queue| < MAX_EVENT_QUEUE_SIZE
    requires w.clients[s].nextId < 0xFFFF_FFFF && GoodTopic(filter) && Serializable(filter, [], PACKET_SIZE)
    requires MaySend(w, a, topic, data) && Matches(Levels(filter), Levels(topic))
    ensures Reaches(steps', w') && s in w'.clients
    ensures exists e :: && e in w'.clients[s].queue && e.msgType == MSG_PUBLISH
                        && e.topic == Cut(topic) && e.payload == data
  {
    hide Reaches, GoodTopic, Levels, Matches;
    var steps1, w1 := SubscriptionTakesEffect(steps, w, s, filter);
    assert (Levels(filter), s) in w1.broker.subs;
    steps', w' := PublicationReaches(steps1, w1, a, topic, data, s);
    var e := Event(MSG_PUBLISH, w1.clients[a].nextId, Cut(topic), data);
    assert w'.clients[s].queue[|w.clients[s].queue|] == e;
  }
}
