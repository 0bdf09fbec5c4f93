/** The objects together: what a publish call of a real client object says about the log of a real broker
    object, when both took part in the same run. */
module EndToEnd {
  import opened Bytes
  import opened Wrappers
  import opened Addresses
  import opened Codec
  import opened Messages
  import opened PendingTables
  import Brokers
  import Clients
  import B = BrokerModel
  import C = ClientModel
  import D = Delivery

  // ---------- the broker inside a run ----------

  /** The messages the broker handled in a run, in order. */
  function Served(steps: seq<D.Step>): seq<B.Input> {
    if steps == [] then []
    else
      var s := steps[|steps| - 1];
      Served(steps[..|steps| - 1]) + if s.Serve? then [B.Input(s.a, s.m, s.targets)] else []
  }

  /** Seen from the broker, a run of the whole system is one of the broker's own runs. */
  lemma {:induction false} BrokerRunsInside(steps: seq<D.Step>, w: D.World)
    requires D.Reaches(steps, w)
    ensures B.Legal(Served(steps))
    ensures B.Run(Served(steps)) == B.Session(w.broker, w.log)
  {
    hide D.Inv, D.OutcomeOf, B.React, B.RightTargets, B.Legal;
    if steps == [] {
      assert B.Legal([]) by { NothingIsLegal(); }
    } else {
      var last := |steps| - 1;
      var w0 :| D.Reaches(steps[..last], w0) && D.Enabled(w0, steps[last]) && w == D.After(w0, steps[last]);
      BrokerRunsInside(steps[..last], w0);
      var s := steps[last];
      if s.Serve? {
        B.LegalExtended(Served(steps[..last]), B.Input(s.a, s.m, s.targets));
      } else {
        assert Served(steps) == Served(steps[..last]);
      }
    }
  }

  lemma NothingIsLegal()
    ensures B.Legal([])
  {
  }

  // ---------- packets and datagrams ----------

  predicate CarriedBy(p: D.Packet, d: Brokers.Datagram) {
    (p.message.Text? ==> |p.message.topic| <= 255) && d == Brokers.Datagram(p.addr, Encode(p.message))
  }

  ghost predicate WentOut(p: D.Packet, sent: seq<Brokers.Datagram>) {
    exists d :: d in sent && CarriedBy(p, d)
  }

  ghost predicate IsPacketOf(d: Brokers.Datagram, packets: set<D.Packet>) {
    exists p :: p in packets && CarriedBy(p, d)
  }

  /** The datagrams carry exactly the packets. */
  ghost predicate SamePackets(packets: set<D.Packet>, sent: seq<Brokers.Datagram>) {
    && (forall p :: p in packets ==> WentOut(p, sent))
    && (forall d :: d in sent ==> IsPacketOf(d, packets))
  }

  lemma {:induction false} ForwardCarries(m: Message, targets: seq<Address>, d: Brokers.Datagram)
    requires m.Text?
    ensures d in Brokers.ForwardPackets(m, targets) <==>
              Serializable(m.topic, m.data, PACKET_SIZE) && d.dst in targets && d.bytes == Encode(m)
  {
    hide Encode;
    if targets != [] && Serializable(m.topic, m.data, PACKET_SIZE) {
      var last := |targets| - 1;
      ForwardCarries(m, targets[..last], d);
      assert targets == targets[..last] + [targets[last]];
    }
  }

  /** What the broker puts on the network for a message, as packets and as datagrams. */
  lemma ReactionCarries(b: B.Broker, i: B.Input)
    ensures var r := B.React(b, i.from, i.message, i.targets);
            SamePackets(D.Replies(r, i.from), Brokers.Packets(r, i.from))
  {
    hide Encode, B.React, Brokers.ForwardPackets;
    var r := B.React(b, i.from, i.message, i.targets);
    Brokers.ReactionShape(b, i);
    var packets, sent := D.Replies(r, i.from), Brokers.Packets(r, i.from);
    forall p | p in packets ensures WentOut(p, sent) {
      if p.message in r.replies && p == D.Packet(i.from, p.message) {
        assert p.message == r.replies[0];
        assert Brokers.Datagram(i.from, Encode(r.replies[0])) in sent;
      } else {
        var d := Brokers.Datagram(p.addr, Encode(r.forwards[0].message));
        ForwardCarries(r.forwards[0].message, r.forwards[0].targets, d);
        assert d in sent;
      }
    }
    forall d | d in sent ensures IsPacketOf(d, packets) {
      DatagramIsPacket(r, i.from, d);
    }
  }

  lemma DatagramIsPacket(r: B.Reaction, from: Address, d: Brokers.Datagram)
    requires |r.forwards| <= 1 && (r.forwards != [] ==> r.forwards[0].message.Text?)
    requires |r.replies| <= 1 && (r.replies != [] ==> !r.replies[0].Text?)
    requires d in Brokers.Packets(r, from)
    ensures IsPacketOf(d, D.Replies(r, from))
  {
    hide Encode, Brokers.ForwardPackets;
    if r.forwards != [] && d in Brokers.ForwardPackets(r.forwards[0].message, r.forwards[0].targets) {
      var f := r.forwards[0];
      ForwardCarries(f.message, f.targets, d);
      assert d.dst in multiset(f.targets);
      var p := D.Packet(d.dst, f.message);
      assert f in r.forwards && p in D.Replies(r, from);
      assert CarriedBy(p, d);
    } else {
      var p := D.Packet(from, r.replies[0]);
      assert r.replies[0] in r.replies && p in D.Replies(r, from);
      assert CarriedBy(p, d);
    }
  }

  lemma WentOutEarlier(p: D.Packet, sent: seq<Brokers.Datagram>, moreSent: seq<Brokers.Datagram>)
    ensures WentOut(p, sent) || WentOut(p, moreSent) ==> WentOut(p, sent + moreSent)
  {
    hide CarriedBy;
    assert forall d :: d in sent || d in moreSent ==> d in sent + moreSent;
  }

  lemma PacketOfMore(d: Brokers.Datagram, packets: set<D.Packet>, more: set<D.Packet>)
    ensures IsPacketOf(d, packets) || IsPacketOf(d, more) ==> IsPacketOf(d, packets + more)
  {
    hide CarriedBy;
    assert forall p :: p in packets || p in more ==> p in packets + more;
  }

  lemma MorePackets(packets: set<D.Packet>, sent: seq<Brokers.Datagram>,
                    more: set<D.Packet>, moreSent: seq<Brokers.Datagram>)
    requires SamePackets(packets, sent) && SamePackets(more, moreSent)
    ensures SamePackets(packets + more, sent + moreSent)
  {
    hide WentOut, IsPacketOf;
    forall p | p in packets + more ensures WentOut(p, sent + moreSent) {
      WentOutEarlier(p, sent, moreSent);
    }
    forall d | d in sent + moreSent ensures IsPacketOf(d, packets + more) {
      PacketOfMore(d, packets, more);
    }
  }

  lemma NoPacketsYet()
    ensures SamePackets({}, [])
  {
  }

  lemma {:induction false} WireIsToClient(steps: seq<D.Step>, w: D.World)
    requires D.Reaches(steps, w)
    ensures SamePackets(w.toClient, Brokers.Wire(Served(steps)))
  {
    hide D.Inv, D.OutcomeOf, D.Replies, B.React, B.RightTargets, SamePackets, Brokers.Packets;
    if steps == [] {
      NoPacketsYet();
    } else {
      var last := |steps| - 1;
      var w0 :| D.Reaches(steps[..last], w0) && D.Enabled(w0, steps[last]) && w == D.After(w0, steps[last]);
      WireIsToClient(steps[..last], w0);
      var s := steps[last];
      if s.Serve? {
        var i := B.Input(s.a, s.m, s.targets);
        BrokerRunsInside(steps[..last], w0);
        ReactionCarries(w0.broker, i);
        Brokers.WireOfLonger(Served(steps[..last]), i);
        MorePackets(w0.toClient, Brokers.Wire(Served(steps[..last])),
                    D.Replies(B.React(w0.broker, s.a, s.m, s.targets), s.a),
                    Brokers.Packets(B.React(w0.broker, s.a, s.m, s.targets), s.a));
      } else {
        assert Served(steps) == Served(steps[..last]);
      }
    }
  }

  /** A broker object that handled the messages of a run is in the state of that run; its log tells the
      same story, and the datagrams it sent are the packets that clients can hear; so the guarantees to
      publishers and to subscribers hold of it. */
  lemma BrokerObjectAgrees(steps: seq<D.Step>, w: D.World, broker: Brokers.Broker, key: Key, subscriber: Address)
    requires D.Reaches(steps, w) && broker.Faithful() && broker.inputs == Served(steps)
    ensures broker.state == w.broker && broker.log == w.log
    ensures SamePackets(w.toClient, broker.sent)
    ensures B.Deliveries(broker.log, key, subscriber) <= 1
    ensures D.IsQos2(w, key) && key in w.results && w.results[key] == 0 ==>
              D.ForwardedOnce(broker.log, key, w.calls[key].message)
  {
    hide D.Reaches, B.Legal, B.Run, D.ForwardedOnce, B.Deliveries, SamePackets, Brokers.Wire;
    BrokerRunsInside(steps, w);
    WireIsToClient(steps, w);
    B.AtMostOncePerSubscriber(broker.inputs, key.addr, key.msgId, subscriber);
    if D.IsQos2(w, key) && key in w.results && w.results[key] == 0 {
      D.ExactlyOnceOnSuccess(steps, w, key);
    }
  }

  // ---------- the client inside a run of the whole system ----------

  /** The moves of the client at `a`. */
  function MovesOf(steps: seq<D.Step>, a: Address): seq<D.Step> {
    if steps == [] then []
    else
      var s := steps[|steps| - 1];
      MovesOf(steps[..|steps| - 1], a) + if s.a == a && !s.Serve? && !s.Connect? then [s] else []
  }

  /** The life of the client at `a` is what the world shows of it. */
  ghost predicate Agrees(l: Clients.Life, w: D.World, a: Address) {
    && l.client == D.ClientAt(w, a)
    && (a !in w.clients ==> l == Clients.Run([]))
    && (forall id: uint32 :: CallAgrees(l, w, a, id))
    && (forall m: Message :: SentAgrees(l, w, a, m))
  }

  /** The client sent a message as often as its packet is on the network. */
  ghost predicate SentAgrees(l: Clients.Life, w: D.World, a: Address, m: Message) {
    multiset(l.sent)[m] == w.toBroker[D.Packet(a, m)]
  }

  ghost predicate CallAgrees(l: Clients.Life, w: D.World, a: Address, id: uint32) {
    && (id in l.calls <==> Key(a, id) in w.calls)
    && (id in l.calls ==>
          && l.calls[id].message == w.calls[Key(a, id)].message
          && l.calls[id].result == if Key(a, id) in w.results then Some(w.results[Key(a, id)]) else None)
  }

  lemma MoveKeepsSent(l: Clients.Life, w: D.World, s: D.Step, m: Message)
    requires l.client == D.ClientAt(w, s.a) && SentAgrees(l, w, s.a, m)
    requires D.Enabled(w, s) && !s.Serve? && !s.Connect? && Clients.CanMove(l, s)
    ensures SentAgrees(Clients.Next(l, s), D.After(w, s), s.a, m)
  {
    hide D.OutcomeOf, D.GoodTopic;
  }

  lemma MoveKeepsCalls(l: Clients.Life, w: D.World, s: D.Step, id: uint32)
    requires Agrees(l, w, s.a) && D.Inv(w) && D.Enabled(w, s) && !s.Serve? && !s.Connect? && Clients.CanMove(l, s)
    ensures CallAgrees(Clients.Next(l, s), D.After(w, s), s.a, id)
  {
    hide D.Inv, D.OutcomeOf, Clients.Run, D.GoodTopic, Publication, SentAgrees;
    TickReturns(w, s);
    assert CallAgrees(l, w, s.a, id);
  }

  lemma MoveKeepsAgreement(l: Clients.Life, w: D.World, s: D.Step)
    requires Agrees(l, w, s.a) && D.Inv(w) && D.Enabled(w, s) && !s.Serve? && !s.Connect?
    ensures Clients.CanMove(l, s) && Agrees(Clients.Next(l, s), D.After(w, s), s.a)
  {
    hide D.Inv, D.OutcomeOf, Clients.Run, D.GoodTopic, CallAgrees, SentAgrees, Publication;
    forall id: uint32 ensures CallAgrees(Clients.Next(l, s), D.After(w, s), s.a, id) {
      MoveKeepsCalls(l, w, s, id);
    }
    forall m: Message ensures SentAgrees(Clients.Next(l, s), D.After(w, s), s.a, m) {
      assert SentAgrees(l, w, s.a, m);
      MoveKeepsSent(l, w, s, m);
    }
  }

  /** Only publish calls and their steps return results, those of the call in progress. */
  lemma TickReturns(w: D.World, s: D.Step)
    requires D.Inv(w) && D.Enabled(w, s) && !s.Serve? && !s.Connect?
    ensures var c := D.ClientAt(w, s.a);
            && (!s.Publish? && !s.Tick? ==> D.OutcomeOf(c, s).returned.None?)
            && (s.Tick? ==> D.Called(w, D.CallKey(s.a, c), c.phase.m))
            && (s.Publish? ==> D.CallKey(s.a, c) !in w.calls && D.CallKey(s.a, c) !in w.results)
  {
    hide D.Copies, Encodable, D.GoodTopic;
    var c := D.ClientAt(w, s.a);
    D.ClientIsOk(w, s.a);
    var key := D.CallKey(s.a, c);
    assert key in w.calls ==> D.CallOk(w, key);
    assert key in w.results ==> D.ResultOk(w, key, w.results[key]);
  }

  /** Seen from one client, a run of the whole system is a life of that client: so a client object that
      made those moves is in the state that the run gives it. */
  lemma {:induction false} ClientRunsInside(steps: seq<D.Step>, w: D.World, a: Address)
    requires D.Reaches(steps, w)
    ensures Agrees(Clients.Run(MovesOf(steps, a)), w, a)
  {
    hide D.Inv;
    if steps != [] {
      var last := |steps| - 1;
      var w0 :| D.Reaches(steps[..last], w0) && D.Enabled(w0, steps[last]) && w == D.After(w0, steps[last]);
      ClientRunsInside(steps[..last], w0, a);
      var l, s := Clients.Run(MovesOf(steps[..last], a)), steps[last];
      if s.a == a && !s.Serve? && !s.Connect? {
        D.RunsKeepInvariant(steps[..last], w0);
        MoveKeepsAgreement(l, w0, s);
        Clients.RunLonger(MovesOf(steps[..last], a), s);
      } else {
        assert MovesOf(steps, a) == MovesOf(steps[..last], a);
        OthersKeepAgreement(l, w0, s, a);
      }
    }
  }

  /** A step of others leaves everything of the client at `a` alone. */
  lemma OthersAct(w: D.World, s: D.Step, o: C.Outcome, a: Address)
    requires s.a != a || (s.Connect? && a !in w.clients && o == C.Quiet(C.NEW_CLIENT))
    ensures SameFor(w, D.Act(w, s, o), a)
  {
  }

  /** Nothing of the client at `a` differs between the worlds. */
  ghost predicate SameFor(w: D.World, w': D.World, a: Address) {
    && D.ClientAt(w', a) == D.ClientAt(w, a) && (a in w.clients ==> a in w'.clients)
    && (forall m: Message :: w'.toBroker[D.Packet(a, m)] == w.toBroker[D.Packet(a, m)])
    && (forall id: uint32 :: SameCall(w, w', Key(a, id)))
  }

  ghost predicate SameCall(w: D.World, w': D.World, key: Key) {
    && (key in w'.calls <==> key in w.calls) && (key in w.calls ==> w'.calls[key] == w.calls[key])
    && (key in w'.results <==> key in w.results) && (key in w.results ==> w'.results[key] == w.results[key])
  }

  lemma OthersStep(w: D.World, s: D.Step, a: Address)
    requires D.Enabled(w, s) && (s.a != a || s.Serve? || s.Connect?)
    ensures SameFor(w, D.After(w, s), a)
  {
    hide D.Replies, B.React, D.Act, D.GoodTopic, B.RightTargets, SameFor;
    if s.Serve? {
      ServeLeavesClients(w, s, a);
    } else {
      OthersAct(w, s, D.OutcomeOf(D.ClientAt(w, s.a), s), a);
    }
  }

  lemma ServeLeavesClients(w: D.World, s: D.Step, a: Address)
    requires D.Enabled(w, s) && s.Serve?
    ensures SameFor(w, D.After(w, s), a)
  {
    hide D.Replies, B.React;
  }

  lemma OthersKeepAgreement(l: Clients.Life, w: D.World, s: D.Step, a: Address)
    requires Agrees(l, w, a) && D.Enabled(w, s) && (s.a != a || s.Serve? || s.Connect?)
    ensures Agrees(l, D.After(w, s), a)
  {
    hide D.After, D.Enabled, Clients.Run;
    OthersStep(w, s, a);
    var w' := D.After(w, s);
    forall id: uint32 ensures CallAgrees(l, w', a, id) {
      assert CallAgrees(l, w, a, id) && SameCall(w, w', Key(a, id));
    }
    forall m: Message ensures SentAgrees(l, w', a, m) {
      assert SentAgrees(l, w, a, m);
    }
  }

  /** So the datagrams of a client object are exactly its packets of the run, each as often. */
  lemma ClientWireIsToBroker(steps: seq<D.Step>, w: D.World, client: Clients.Client)
    requires D.Reaches(steps, w) && client.Faithful() && client.moves == MovesOf(steps, client.self)
    ensures forall m: Message :: w.toBroker[D.Packet(client.self, m)] == multiset(client.life.sent)[m]
    ensures |client.wire| == |client.life.sent|
    ensures forall k :: 0 <= k < |client.wire| ==>
              && (client.life.sent[k].Text? ==> |client.life.sent[k].topic| <= 255)
              && client.wire[k] == Encode(client.life.sent[k])
              && D.Packet(client.self, client.life.sent[k]) in w.toBroker
  {
    hide D.Reaches, Clients.Run, Encode;
    ClientRunsInside(steps, w, client.self);
    forall m: Message ensures w.toBroker[D.Packet(client.self, m)] == multiset(client.life.sent)[m] {
      assert SentAgrees(client.life, w, client.self, m);
    }
    forall k | 0 <= k < |client.wire| ensures D.Packet(client.self, client.life.sent[k]) in w.toBroker {
      assert client.life.sent[k] in multiset(client.life.sent);
      assert SentAgrees(client.life, w, client.self, client.life.sent[k]);
    }
  }

  // ---------- both ----------

  /** No call under another key sends the same bytes. */
  ghost predicate OnlyCallWith(w: D.World, key: Key, m: Message) {
    forall k :: k in w.calls && w.calls[k].message == m ==> k == key
  }

  /** In a run, the log entries for a key are those that carry its packet, unless another call sends the same. */
  lemma LogOfOnlyCall(w: D.World, key: Key, m: Message)
    requires D.Inv(w) && D.Called(w, key, m) && OnlyCallWith(w, key, m)
    ensures forall f :: f in w.log ==> (f.key == key <==> f.message == m)
  {
    hide D.PacketOk, D.ReplyOk, D.CallOk, D.CountsOk, D.ClientOk, D.ResultOk, Encodable;
    forall f | f in w.log ensures f.key == key <==> f.message == m {
      assert D.ForwardOk(w, f);
    }
  }

  /** A forwarded publication was first served at some message of the run, when its id was new. */
  lemma FirstService(w: D.World, inputs: seq<B.Input>, key: Key, m: Message) returns (n: nat)
    requires D.Inv(w) && B.Run(inputs).log == w.log && D.ForwardedOnce(w.log, key, m)
    requires D.QosOf(m) == QOS_EXACTLY_ONCE
    ensures n < |inputs| && inputs[n].message == m && B.FirstServed(inputs, n, key)
    ensures Brokers.Relayable(m)
  {
    hide D.PacketOk, D.ReplyOk, D.CountsOk, D.ClientOk, D.ResultOk, B.Run;
    var i :| 0 <= i < |w.log| && w.log[i].key == key && w.log[i].message == m;
    assert D.ForwardOk(w, w.log[i]) && D.CallOk(w, key);
    n := B.ForwardOrigin(inputs, w.log[i]);
  }

  /** End to end: when a QoS 2 call to `slimmq_publish` on a client object has returned 0, the broker object
      has forwarded that call's packet exactly once. Every address that had subscribed with a matching filter
      by the time `n` of that forward was sent one packet for it, every other none. On the wire: the
      datagrams with the packet's bytes that went to a subscriber are those of the log, so if no other call
      has the same bytes there is exactly one to each such subscriber, and none to anyone else. */
  lemma PublishReturnedZero(steps: seq<D.Step>, w: D.World, client: Clients.Client, broker: Brokers.Broker, id: uint32)
    returns (n: nat)
    requires D.Reaches(steps, w)
    requires client.Faithful() && client.moves == MovesOf(steps, client.self)
    requires broker.Faithful() && broker.inputs == Served(steps)
    requires id in client.life.calls && client.life.calls[id].result == Some(0)
    requires D.QosOf(client.life.calls[id].message) == QOS_EXACTLY_ONCE
    ensures var key, m := Key(client.self, id), client.life.calls[id].message;
            && D.ForwardedOnce(broker.log, key, m)
            && n < |broker.inputs| && broker.inputs[n].message == m && m.Text?
            && B.FirstServed(broker.inputs, n, key)
            && (forall s: Address ::
                  B.Deliveries(broker.log, key, s) == if B.WasSubscribed(broker.inputs, n, s) then 1 else 0)
            && (forall s: Address ::
                  multiset(broker.sent)[Brokers.Datagram(s, Encode(m))] == Brokers.SentTo(broker.log, m, s))
            && (OnlyCallWith(w, key, m) ==>
                  forall s: Address ::
                    multiset(broker.sent)[Brokers.Datagram(s, Encode(m))]
                    == if B.WasSubscribed(broker.inputs, n, s) then 1 else 0)
  {
    hide D.Reaches, D.Inv, D.ForwardedOnce, B.Legal, B.Run, B.Deliveries, B.WasSubscribed, B.FirstServed;
    hide Clients.Run, Brokers.Wire, Encode;
    var key, m := Key(client.self, id), client.life.calls[id].message;
    D.RunsKeepInvariant(steps, w);
    ClientRunsInside(steps, w, client.self);
    assert CallAgrees(client.life, w, client.self, id);
    D.ExactlyOnceOnSuccess(steps, w, key);
    BrokerRunsInside(steps, w);
    n := FirstService(w, broker.inputs, key, m);
    forall s: Address
      ensures B.Deliveries(broker.log, key, s) == if B.WasSubscribed(broker.inputs, n, s) then 1 else 0
    {
      B.DeliveredToSubscribers(broker.inputs, n, key, s);
    }
    forall s: Address
      ensures multiset(broker.sent)[Brokers.Datagram(s, Encode(m))] == Brokers.SentTo(broker.log, m, s)
    {
      Brokers.WireAgreesWithLog(broker.inputs, m, s);
    }
    if OnlyCallWith(w, key, m) {
      LogOfOnlyCall(w, key, m);
      forall s: Address ensures Brokers.SentTo(broker.log, m, s) == B.Deliveries(broker.log, key, s) {
        Brokers.SentForKey(broker.log, key, m, s);
      }
    }
  }
}
