/** A client never uses a message id twice: two text packets of one client with the same id are copies of the
    same packet. */
module MessageIds {
  import opened Codec
  import opened Messages
  import opened Delivery
  import B = BrokerModel
  import C = ClientModel

  predicate IsSubscription(m: Message) {
    m.Text? && m.header.msgType == MSG_SUBSCRIBE
  }

  /** An id that was used is behind the client's counter; a subscription's is no call's. */
  ghost predicate IdUsed(w: World, p: Packet) {
    p.message.Text? ==>
      && p.addr in w.clients && p.message.header.msgId < w.clients[p.addr].nextId
      && (IsSubscription(p.message) ==> KeyOf(p) !in w.calls)
  }

  predicate Clash(p: Packet, q: Packet) {
    IsSubscription(p.message) && IsSubscription(q.message) && KeyOf(p) == KeyOf(q) && p != q
  }

  ghost predicate IdsOk(w: World) {
    && (forall p :: p in w.toBroker ==> IdUsed(w, p))
    && (forall p, q :: p in w.toBroker && q in w.toBroker ==> !Clash(p, q))
  }

  lemma SubscribeKeepsIds(w: World, s: Step)
    requires Inv(w) && IdsOk(w) && Enabled(w, s) && s.Subscribe?
    ensures IdsOk(After(w, s))
  {
    hide Inv, Encodable, GoodTopic, Serializable;
    var w' := After(w, s);
    UsedIdsOfCalls(w);
    forall p | p in w'.toBroker ensures IdUsed(w', p) {
      assert p in w.toBroker ==> IdUsed(w, p);
    }
    forall p, q | p in w'.toBroker && q in w'.toBroker ensures !Clash(p, q) {
      assert p in w.toBroker ==> IdUsed(w, p);
      assert q in w.toBroker ==> IdUsed(w, q);
      assert p in w.toBroker && q in w.toBroker ==> !Clash(p, q);
    }
  }

  lemma UsedIdsOfCalls(w: World)
    requires Inv(w)
    ensures forall k :: k in w.calls ==> k.addr in w.clients && k.msgId < w.clients[k.addr].nextId
  {
    hide Copies;
    forall k | k in w.calls ensures k.addr in w.clients && k.msgId < w.clients[k.addr].nextId {
      assert CallOk(w, k);
    }
  }

  /** What the publishing thread sends is the packet of a call, or no text. */
  lemma TickSendsCall(w: World, s: Step)
    requires Inv(w) && Enabled(w, s) && s.Tick?
    ensures var o := OutcomeOf(ClientAt(w, s.a), s);
            o.sent.Some? && o.sent.value.Text? ==>
              B.IsPublish(o.sent.value) && Called(w, KeyOf(Packet(s.a, o.sent.value)), o.sent.value)
  {
    hide Copies, Encodable, GoodTopic;
    ClientIsOk(w, s.a);
    var key := CallKey(s.a, ClientAt(w, s.a));
    assert key in w.calls ==> CallOk(w, key);
  }

  /** A step that sends no subscription: every text it sends is the packet of a call, and calls only come with
      the next id. */
  lemma IdsStay(w: World, w': World)
    requires IdsOk(w) && (forall a :: a in w.clients ==> a in w'.clients && w.clients[a].nextId <= w'.clients[a].nextId)
    requires forall p :: p in w'.toBroker && p !in w.toBroker ==> IdUsed(w', p) && !IsSubscription(p.message)
    requires forall k :: k in w'.calls && k !in w.calls ==> k.addr in w.clients ==> k.msgId >= w.clients[k.addr].nextId
    ensures IdsOk(w')
  {
    forall p | p in w'.toBroker ensures IdUsed(w', p) {
      assert p in w.toBroker ==> IdUsed(w, p);
    }
    forall p, q | p in w'.toBroker && q in w'.toBroker ensures !Clash(p, q) {
      assert p in w.toBroker && q in w.toBroker ==> !Clash(p, q);
    }
  }

  lemma TickKeepsIds(w: World, s: Step)
    requires Inv(w) && IdsOk(w) && Enabled(w, s) && s.Tick?
    ensures IdsOk(After(w, s))
  {
    hide Inv, IdsOk, Encodable, GoodTopic, Copies;
    UsedIdsOfCalls(w);
    TickSendsCall(w, s);
    IdsStay(w, After(w, s));
  }

  lemma OtherKeepsIds(w: World, s: Step)
    requires Inv(w) && IdsOk(w) && Enabled(w, s) && !s.Subscribe? && !s.Tick?
    ensures IdsOk(After(w, s))
  {
    hide Inv, IdsOk, Encodable, GoodTopic, Serializable, Copies, B.React;
    IdsStay(w, After(w, s));
  }

  lemma {:induction false} RunsKeepIds(steps: seq<Step>, w: World)
    requires Reaches(steps, w)
    ensures IdsOk(w)
  {
    hide Inv, Enabled, After;
    if steps != [] {
      var last := |steps| - 1;
      var w0 :| Reaches(steps[..last], w0) && Enabled(w0, steps[last]) && w == After(w0, steps[last]);
      RunsKeepInvariant(steps[..last], w0);
      RunsKeepIds(steps[..last], w0);
      StepKeepsIds(w0, steps[last]);
    }
  }

  lemma StepKeepsIds(w: World, s: Step)
    requires Inv(w) && IdsOk(w) && Enabled(w, s)
    ensures IdsOk(After(w, s))
  {
    hide Inv, IdsOk, Enabled, After;
    if s.Subscribe? {
      SubscribeKeepsIds(w, s);
    } else if s.Tick? {
      TickKeepsIds(w, s);
    } else {
      OtherKeepsIds(w, s);
    }
  }

  /** In every run, whatever a client published or subscribed to: two of its packets that carry the same id are
      the same packet. */
  lemma OnePacketPerId(steps: seq<Step>, w: World, p: Packet, q: Packet)
    requires Reaches(steps, w) && p in w.toBroker && q in w.toBroker
    requires p.message.Text? && q.message.Text? && KeyOf(p) == KeyOf(q)
    ensures p == q
  {
    hide Reaches, Copies, Encodable, GoodTopic, ClientOk, CallOk, ReplyOk, ForwardOk, CountsOk, ResultOk;
    RunsKeepInvariant(steps, w);
    RunsKeepIds(steps, w);
    assert PacketOk(w, p) && PacketOk(w, q) && IdUsed(w, p) && IdUsed(w, q) && !Clash(p, q);
  }
}
