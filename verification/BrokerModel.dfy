/** The broker as a state machine over received messages, and what holds of every sequence of them. */
module BrokerModel {
  import opened Bytes
  import opened Addresses
  import opened Lists
  import opened Codec
  import opened Messages
  import opened TopicNames
  import opened TopicTables
  import opened P = PendingTables

  /** One `publish_to_subscribers` call: the publication, and whom it was sent to. */
  datatype Forward = Forward(key: Key, message: Message, targets: seq<Address>)

  datatype Broker = Broker(pending: map<Key, P.State>, subs: Subscriptions)

  /** The state after a message, the answers to its sender, and the forwards it caused. */
  datatype Reaction = Reaction(broker: Broker, replies: seq<Message>, forwards: seq<Forward>)

  const EMPTY_BROKER := Broker(map[], {})

  predicate IsPublish(m: Message) {
    m.Text? && m.header.msgType == MSG_PUBLISH
  }

  /** `handle_publish`. */
  function OnPublish(b: Broker, from: Address, m: Message, targets: seq<Address>): Reaction {
    var id := m.header.msgId;
    var key := Key(from, id);
    if m.header.qosLevel == QOS_EXACTLY_ONCE then
      if key in b.pending then
        Reaction(b, if b.pending[key] == P.Completed then [] else [ReceivedReply(id)], [])
      else
        Reaction(b.(pending := b.pending[key := P.Received]), [ReceivedReply(id)], [Forward(key, m, targets)])
    else if m.header.qosLevel == QOS_AT_LEAST_ONCE then
      Reaction(b, [AckReply(id)], [Forward(key, m, targets)])
    else
      Reaction(b, [], [Forward(key, m, targets)])
  }

  /** `handle_control_release`: the entry passes through Released and ends Completed, known or not. */
  function OnRelease(b: Broker, from: Address, id: uint32): Reaction {
    var key := Key(from, id);
    Reaction(b.(pending := b.pending[key := P.Released][key := P.Completed]), [CompleteReply(id)], [])
  }

  /** `handle_control_received`. */
  function OnReceived(b: Broker, from: Address, id: uint32): Reaction {
    var key := Key(from, id);
    if key in b.pending && b.pending[key] == P.Received then
      Reaction(b.(pending := b.pending[key := P.WaitRelease]), [], [])
    else
      Reaction(b, [], [])
  }

  /** One round of `broker_main_loop`; `targets` lists the subscribers a publication goes to. */
  function React(b: Broker, from: Address, m: Message, targets: seq<Address>): Reaction {
    match m
    case Text(h, topic, _) =>
      if h.msgType == MSG_SUBSCRIBE then Reaction(b.(subs := b.subs + {(Levels(topic), from)}), [], [])
      else if h.msgType == MSG_PUBLISH then OnPublish(b, from, m, targets)
      else Reaction(b, [], [])
    case Control(h, kind, _) =>
      if kind == CONTROL_RELEASE then OnRelease(b, from, h.msgId)
      else if kind == CONTROL_RECEIVED then OnReceived(b, from, h.msgId)
      else Reaction(b, [], [])
    case Ack(_) => Reaction(b, [], [])
  }

  /** The topic table names every matching subscriber exactly once. */
  ghost predicate RightTargets(b: Broker, m: Message, targets: seq<Address>) {
    IsPublish(m) ==> NoRepeats(targets) && Members(targets) == Matching(b.subs, Levels(m.topic))
  }

  // ---------- runs over arbitrary messages ----------

  datatype Input = Input(from: Address, message: Message, targets: seq<Address>)

  datatype Session = Session(broker: Broker, log: seq<Forward>)

  function After(s: Session, i: Input): Session {
    var r := React(s.broker, i.from, i.message, i.targets);
    Session(r.broker, s.log + r.forwards)
  }

  function Run(inputs: seq<Input>): Session {
    if inputs == [] then Session(EMPTY_BROKER, [])
    else After(Run(inputs[..|inputs| - 1]), inputs[|inputs| - 1])
  }

  ghost predicate Legal(inputs: seq<Input>) {
    forall k :: 0 <= k < |inputs| ==>
      RightTargets(Run(inputs[..k]).broker, inputs[k].message, inputs[k].targets)
  }

  lemma LegalPrefix(inputs: seq<Input>, n: nat)
    requires Legal(inputs) && n <= |inputs|
    ensures Legal(inputs[..n])
  {
    forall k | 0 <= k < n ensures inputs[..n][..k] == inputs[..k] {}
  }

  lemma LegalExtended(inputs: seq<Input>, i: Input)
    requires Legal(inputs) && RightTargets(Run(inputs).broker, i.message, i.targets)
    ensures Legal(inputs + [i]) && Run(inputs + [i]) == After(Run(inputs), i)
  {
    var longer := inputs + [i];
    assert longer[..|inputs|] == inputs;
    forall k | 0 <= k < |inputs| ensures longer[..k] == inputs[..k] {}
  }

  // ---------- at most once ----------

  predicate ExactlyOnceFor(f: Forward, key: Key) {
    f.key == key && f.message.header.qosLevel == QOS_EXACTLY_ONCE
  }

  /** How often a QoS 2 publication with this key was forwarded. */
  function ForwardCount(log: seq<Forward>, key: Key): nat {
    if log == [] then 0
    else ForwardCount(log[..|log| - 1], key) + (if ExactlyOnceFor(log[|log| - 1], key) then 1 else 0)
  }

  /** The packets one forward sends to `s`: none if it does not fit the packet buffer. */
  function PacketsTo(f: Forward, s: Address): nat {
    if f.message.Text? && Serializable(f.message.topic, f.message.data, PACKET_SIZE) then multiset(f.targets)[s] else 0
  }

  /** The QoS 2 PUBLISH packets sent to `s` on behalf of this publisher and message id. */
  function Deliveries(log: seq<Forward>, key: Key, s: Address): nat {
    if log == [] then 0
    else
      var f := log[|log| - 1];
      Deliveries(log[..|log| - 1], key, s) + (if ExactlyOnceFor(f, key) then PacketsTo(f, s) else 0)
  }

  lemma {:induction false} OnceInDistinctList(list: seq<Address>, s: Address)
    requires NoRepeats(list)
    ensures multiset(list)[s] <= 1
  {
    if list != [] {
      var n := |list| - 1;
      assert list == list[..n] + [list[n]];
      NoRepeatsSnoc(list[..n], list[n]);
      OnceInDistinctList(list[..n], s);
    }
  }

  lemma CountsOfLonger(log: seq<Forward>, f: Forward, key: Key, s: Address)
    ensures ForwardCount(log + [f], key) == ForwardCount(log, key) + if ExactlyOnceFor(f, key) then 1 else 0
    ensures Deliveries(log + [f], key, s)
         == Deliveries(log, key, s) + if ExactlyOnceFor(f, key) then PacketsTo(f, s) else 0
  {
    assert (log + [f])[..|log + [f]| - 1] == log;
  }

  /** An entry in the pending table stands for the one forward, and keeps a second from happening. */
  ghost predicate Guarded(s: Session, key: Key, sub: Address) {
    && (key !in s.broker.pending ==> ForwardCount(s.log, key) == 0)
    && ForwardCount(s.log, key) <= 1
    && Deliveries(s.log, key, sub) <= ForwardCount(s.log, key)
  }

  lemma StepKeepsGuard(s: Session, i: Input, key: Key, sub: Address)
    requires Guarded(s, key, sub) && RightTargets(s.broker, i.message, i.targets)
    ensures Guarded(After(s, i), key, sub)
  {
    hide Matching, Levels, Members, NoRepeats, ForwardCount, Deliveries;
    var r := React(s.broker, i.from, i.message, i.targets);
    if r.forwards != [] {
      var f := r.forwards[0];
      assert r.forwards == [f];
      CountsOfLonger(s.log, f, key, sub);
      OnceInDistinctList(i.targets, sub);
    } else {
      assert s.log + r.forwards == s.log;
    }
  }

  lemma {:induction false} RunIsGuarded(inputs: seq<Input>, key: Key, sub: Address)
    requires Legal(inputs)
    ensures Guarded(Run(inputs), key, sub)
  {
    if inputs != [] {
      var n := |inputs| - 1;
      LegalPrefix(inputs, n);
      RunIsGuarded(inputs[..n], key, sub);
      StepKeepsGuard(Run(inputs[..n]), inputs[n], key, sub);
    }
  }

  /** Whatever messages arrive, from whomever and in whatever order: for each publisher and message id
      the broker forwards at most one QoS 2 publication and sends each subscriber at most one packet of
      it, however many of its filters match. */
  lemma AtMostOncePerSubscriber(inputs: seq<Input>, publisher: Address, msgId: uint32, subscriber: Address)
    requires Legal(inputs)
    ensures ForwardCount(Run(inputs).log, Key(publisher, msgId)) <= 1
    ensures Deliveries(Run(inputs).log, Key(publisher, msgId), subscriber) <= 1
  {
    RunIsGuarded(inputs, Key(publisher, msgId), subscriber);
  }

  // ---------- exactly once for those who subscribed in time ----------

  /** Whether `s` had subscribed, when the message was served, with a filter that selects its topic. */
  ghost predicate WasSubscribed(inputs: seq<Input>, n: nat, s: Address)
    requires n < |inputs| && inputs[n].message.Text?
  {
    s in Matching(Run(inputs[..n]).broker.subs, Levels(inputs[n].message.topic))
  }

  /** Message `n` is a QoS 2 publication with this key that fits a packet, and its id is new to the broker. */
  ghost predicate FirstServed(inputs: seq<Input>, n: nat, key: Key)
    requires n < |inputs|
  {
    var i := inputs[n];
    && Key(i.from, i.message.header.msgId) == key && key !in Run(inputs[..n]).broker.pending
    && IsPublish(i.message) && i.message.header.qosLevel == QOS_EXACTLY_ONCE
    && Serializable(i.message.topic, i.message.data, PACKET_SIZE)
  }

  lemma {:induction false} CountInDistinctList(list: seq<Address>, s: Address)
    requires NoRepeats(list)
    ensures multiset(list)[s] == if s in Members(list) then 1 else 0
  {
    OnceInDistinctList(list, s);
    assert s in list <==> s in multiset(list);
  }

  /** Once there is an entry, no message adds a delivery. */
  lemma EntryEndsDeliveries(s: Session, i: Input, key: Key, sub: Address)
    requires key in s.broker.pending
    ensures key in After(s, i).broker.pending
    ensures Deliveries(After(s, i).log, key, sub) == Deliveries(s.log, key, sub)
  {
    hide Matching, Levels, Deliveries;
    var r := React(s.broker, i.from, i.message, i.targets);
    if r.forwards != [] {
      assert r.forwards == [r.forwards[0]];
      CountsOfLonger(s.log, r.forwards[0], key, sub);
    } else {
      assert s.log + r.forwards == s.log;
    }
  }

  lemma FirstServedDelivers(inputs: seq<Input>, n: nat, key: Key, sub: Address)
    requires Legal(inputs) && n < |inputs| && FirstServed(inputs, n, key)
    ensures key in Run(inputs[..n + 1]).broker.pending
    ensures Deliveries(Run(inputs[..n + 1]).log, key, sub) == if WasSubscribed(inputs, n, sub) then 1 else 0
  {
    hide Matching, Levels, NoRepeats, ForwardCount, Deliveries, Legal;
    LegalPrefix(inputs, n);
    RunIsGuarded(inputs[..n], key, sub);
    TargetsAt(inputs, n);
    var i := inputs[n];
    CountInDistinctList(i.targets, sub);
    assert inputs[..n + 1][..n] == inputs[..n] && inputs[..n + 1][n] == i;
    CountsOfLonger(Run(inputs[..n]).log, Forward(key, i.message, i.targets), key, sub);
  }

  lemma TargetsAt(inputs: seq<Input>, n: nat)
    requires Legal(inputs) && n < |inputs|
    ensures RightTargets(Run(inputs[..n]).broker, inputs[n].message, inputs[n].targets)
  {
  }

  /** Exactly once per subscriber: if a QoS 2 publication is served when its id is new to the broker, then,
      whatever else is served before and after, a subscriber is sent exactly one packet for this publisher
      and id if it had subscribed with a matching filter by then, and none otherwise. */
  lemma {:induction false} DeliveredToSubscribers(inputs: seq<Input>, n: nat, key: Key, sub: Address)
    requires Legal(inputs) && n < |inputs| && FirstServed(inputs, n, key)
    ensures key in Run(inputs).broker.pending
    ensures Deliveries(Run(inputs).log, key, sub) == if WasSubscribed(inputs, n, sub) then 1 else 0
  {
    hide Matching, Levels, NoRepeats, ForwardCount, Deliveries, Legal, After;
    var last := |inputs| - 1;
    if n == last {
      assert inputs[..n + 1] == inputs;
      FirstServedDelivers(inputs, n, key, sub);
    } else {
      LegalPrefix(inputs, last);
      assert inputs[..last][..n] == inputs[..n];
      DeliveredToSubscribers(inputs[..last], n, key, sub);
      EntryEndsDeliveries(Run(inputs[..last]), inputs[last], key, sub);
    }
  }

  /** Every QoS 2 forward in the log was caused by a message whose id was new. */
  lemma {:induction false} ForwardOrigin(inputs: seq<Input>, f: Forward) returns (n: nat)
    requires f in Run(inputs).log && f.message.header.qosLevel == QOS_EXACTLY_ONCE
    ensures n < |inputs| && inputs[n].message == f.message && IsPublish(f.message)
    ensures Key(inputs[n].from, f.message.header.msgId) == f.key && f.key !in Run(inputs[..n]).broker.pending
  {
    hide Levels;
    var last := |inputs| - 1;
    if f in Run(inputs[..last]).log {
      n := ForwardOrigin(inputs[..last], f);
      assert inputs[..last][..n] == inputs[..n];
    } else {
      n := last;
    }
  }

  // ---------- the life of an entry ----------

  function Rank(s: P.State): nat {
    match s
    case Received => 0
    case WaitRelease => 1
    case Released => 2
    case Completed => 3
  }

  /** `b'` has all entries of `b`, none of them further back. */
  ghost predicate Advances(b: Broker, b': Broker) {
    forall k :: k in b.pending ==> k in b'.pending && Rank(b.pending[k]) <= Rank(b'.pending[k])
  }

  ghost predicate ReleasedHidden(b: Broker) {
    forall k :: k in b.pending ==> b.pending[k] != P.Released
  }

  lemma StepAdvances(b: Broker, from: Address, m: Message, targets: seq<Address>)
    ensures Advances(b, React(b, from, m, targets).broker)
    ensures ReleasedHidden(b) ==> ReleasedHidden(React(b, from, m, targets).broker)
  {
  }

  /** Seen between two messages, entries never disappear and never fall back, and the Released state is
      never visible: for any messages at all. */
  lemma {:induction false} EntriesOnlyAdvance(inputs: seq<Input>, n: nat)
    requires n <= |inputs|
    ensures Advances(Run(inputs[..n]).broker, Run(inputs).broker)
    ensures ReleasedHidden(Run(inputs).broker)
  {
    if inputs != [] {
      var last := |inputs| - 1;
      var i := inputs[last];
      StepAdvances(Run(inputs[..last]).broker, i.from, i.message, i.targets);
      if n <= last {
        EntriesOnlyAdvance(inputs[..last], n);
        assert inputs[..last][..n] == inputs[..n];
      } else {
        EntriesOnlyAdvance(inputs[..last], last);
        assert inputs[..n] == inputs;
      }
    }
  }

  // ---------- subscriptions ----------

  predicate Subscribes(i: Input, filter: seq<Segment>) {
    i.message.Text? && i.message.header.msgType == MSG_SUBSCRIBE && Levels(i.message.topic) == filter
  }

  /** After any messages at all, the subscriptions are those of the SUBSCRIBE messages among them: how
      often and in which order they came is of no importance to what is matched from then on. */
  lemma {:induction false} SubscriptionsOfRun(inputs: seq<Input>, filter: seq<Segment>, subscriber: Address)
    ensures (filter, subscriber) in Run(inputs).broker.subs
       <==> exists i :: i in inputs && Subscribes(i, filter) && i.from == subscriber
  {
    if inputs != [] {
      var n := |inputs| - 1;
      SubscriptionsOfRun(inputs[..n], filter, subscriber);
      assert inputs == inputs[..n] + [inputs[n]];
    }
  }

  lemma OrderOfSubscriptions(inputs: seq<Input>, inputs': seq<Input>, topic: seq<Segment>)
    requires Members(inputs) == Members(inputs')
    ensures Matching(Run(inputs).broker.subs, topic) == Matching(Run(inputs').broker.subs, topic)
  {
    hide Matching, Run;
    forall s: (seq<Segment>, Address) ensures s in Run(inputs).broker.subs <==> s in Run(inputs').broker.subs {
      SubscriptionsOfRun(inputs, s.0, s.1);
      SubscriptionsOfRun(inputs', s.0, s.1);
      assert forall i :: i in inputs <==> i in Members(inputs);
      assert forall i :: i in inputs' <==> i in Members(inputs');
      assert s == (s.0, s.1);
    }
    assert Run(inputs).broker.subs == Run(inputs').broker.subs;
  }

  // ---------- the state of an entry ----------

  predicate IsQos2Publish(i: Input, key: Key) {
    && IsPublish(i.message) && i.message.header.qosLevel == QOS_EXACTLY_ONCE
    && Key(i.from, i.message.header.msgId) == key
  }

  predicate IsControl(i: Input, key: Key, kind: byte) {
    i.message.Control? && i.message.kind == kind && Key(i.from, i.message.header.msgId) == key
  }

  ghost predicate Released(inputs: seq<Input>, key: Key) {
    exists j :: 0 <= j < |inputs| && IsControl(inputs[j], key, CONTROL_RELEASE)
  }

  ghost predicate Published(inputs: seq<Input>, key: Key) {
    exists j :: 0 <= j < |inputs| && IsQos2Publish(inputs[j], key)
  }

  /** A RECEIVED behind a QoS 2 publication. */
  ghost predicate Acknowledged(inputs: seq<Input>, key: Key) {
    exists j, k :: 0 <= j < k < |inputs| && IsQos2Publish(inputs[j], key) && IsControl(inputs[k], key, CONTROL_RECEIVED)
  }

  lemma HistoriesOfLonger(inputs: seq<Input>, i: Input, key: Key)
    ensures Released(inputs + [i], key) <==> Released(inputs, key) || IsControl(i, key, CONTROL_RELEASE)
    ensures Published(inputs + [i], key) <==> Published(inputs, key) || IsQos2Publish(i, key)
    ensures Acknowledged(inputs + [i], key)
       <==> Acknowledged(inputs, key) || (Published(inputs, key) && IsControl(i, key, CONTROL_RECEIVED))
  {
    hide IsControl, IsQos2Publish;
    var all, n := inputs + [i], |inputs|;
    assert forall j :: 0 <= j < n ==> all[j] == inputs[j];
    assert all[n] == i;
    if Released(inputs, key) {
      var j :| 0 <= j < n && IsControl(inputs[j], key, CONTROL_RELEASE);
      assert IsControl(all[j], key, CONTROL_RELEASE);
    }
    if Published(inputs, key) {
      var j :| 0 <= j < n && IsQos2Publish(inputs[j], key);
      assert IsQos2Publish(all[j], key);
    }
    if Acknowledged(inputs, key) {
      var j, k :| 0 <= j < k < n && IsQos2Publish(inputs[j], key) && IsControl(inputs[k], key, CONTROL_RECEIVED);
      assert IsQos2Publish(all[j], key) && IsControl(all[k], key, CONTROL_RECEIVED);
    }
  }

  /** The state of a transaction after any messages: there is an entry iff a QoS 2 publication or a RELEASE of
      this publisher and id was served; it is completed iff a RELEASE was, else waiting for one iff a RECEIVED
      came behind the publication, else still received. */
  lemma {:induction false} EntryOfRun(inputs: seq<Input>, key: Key)
    ensures var pending := Run(inputs).broker.pending;
            && (key in pending <==> Published(inputs, key) || Released(inputs, key))
            && (key in pending ==>
                  pending[key] == if Released(inputs, key) then P.Completed
                                  else if Acknowledged(inputs, key) then P.WaitRelease
                                  else P.Received)
  {
    hide Levels, Released, Published, Acknowledged;
    if inputs == [] {
      NoHistory(key);
    } else {
      var last := |inputs| - 1;
      EntryOfRun(inputs[..last], key);
      HistoriesOfLonger(inputs[..last], inputs[last], key);
      assert inputs == inputs[..last] + [inputs[last]];
      AcknowledgedIsPublished(inputs[..last], key);
    }
  }

  lemma NoHistory(key: Key)
    ensures !Released([], key) && !Published([], key) && !Acknowledged([], key)
  {
  }

  lemma AcknowledgedIsPublished(inputs: seq<Input>, key: Key)
    ensures Acknowledged(inputs, key) ==> Published(inputs, key)
  {
  }
}
