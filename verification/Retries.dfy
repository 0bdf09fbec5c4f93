/** How many packets a publish call puts on the network, and what that bounds. */
module Retries {
  import opened Codec
  import opened Messages
  import opened EventQueues
  import opened PendingTables
  import opened Delivery
  import B = BrokerModel
  import C = ClientModel
  import Q = Qos2Tables

  /** The packets a call may send: its first attempt and its retries. */
  function Limit(call: Call): nat {
    if call.maxRetries < 0 then 0 else call.maxRetries + 1
  }

  /** How often the packet of a call was sent. */
  function Attempts(w: World, key: Key): nat
    requires key in w.calls
  {
    w.toBroker[Packet(key.addr, w.calls[key].message)]
  }

  predicate InCall(w: World, key: Key) {
    key.addr in w.clients && !w.clients[key.addr].phase.Idle? && CallKey(key.addr, w.clients[key.addr]) == key
  }

  /** `retries` counts the attempts made before the current one. */
  predicate PhaseCounts(ph: C.Phase, n: nat, limit: nat) {
    match ph
    case Idle => n <= limit
    case Sending(_, tries) => n == tries <= limit
    case AwaitingAck(_, tries, _) => n == tries + 1 <= limit
    case AwaitingReceived(_, tries, _) => n == tries + 1 <= limit
    case CheckingReceived(_, tries) => n == tries + 1 <= limit
    case Releasing(_, tries) => n == tries + 1 <= limit
    case AwaitingComplete(_, tries, _) => n == tries + 1 <= limit
    case Forgetting(_) => n <= limit
  }

  ghost predicate AttemptsOk(w: World, key: Key)
    requires key in w.calls
  {
    QosOf(w.calls[key].message) <= QOS_EXACTLY_ONCE ==>
      var call := w.calls[key];
      if InCall(w, key) then
        && w.clients[key.addr].maxRetries == call.maxRetries
        && PhaseCounts(w.clients[key.addr].phase, Attempts(w, key), Limit(call))
      else Attempts(w, key) <= Limit(call)
  }

  lemma ClientOf(w: World, key: Key)
    requires Inv(w)
    ensures key.addr in w.clients ==> ClientOk(w, key.addr, w.clients[key.addr])
    ensures key in w.calls ==> CallOk(w, key)
  {
  }

  lemma NotYetSent(w: World, p: Packet)
    requires Inv(w) && KeyOf(p) !in w.calls && B.IsPublish(p.message)
    ensures w.toBroker[p] == 0
  {
    hide Copies;
    assert p in w.toBroker ==> PacketOk(w, p);
  }

  lemma TickKeepsOthers(w: World, s: Step, key: Key)
    requires Inv(w) && Enabled(w, s) && s.Tick? && key != CallKey(s.a, w.clients[s.a])
    requires key in w.calls && AttemptsOk(w, key)
    ensures AttemptsOk(After(w, s), key)
  {
    hide Inv, Encodable, GoodTopic, Copies, PhaseCounts;
    ClientOf(w, key);
    ClientOf(w, CallKey(s.a, w.clients[s.a]));
  }

  lemma TickCounts(w: World, s: Step, key: Key)
    requires Inv(w) && Enabled(w, s) && s.Tick?
    requires key in w.calls && AttemptsOk(w, key)
    ensures AttemptsOk(After(w, s), key)
  {
    hide Inv, Encodable, GoodTopic, Copies, StateOk, EventOk, FirstAck, Q.Lookup;
    if key != CallKey(s.a, w.clients[s.a]) {
      TickKeepsOthers(w, s, key);
    } else {
      ClientOf(w, key);
    }
  }

  lemma PublishCounts(w: World, s: Step, key: Key)
    requires Inv(w) && Enabled(w, s) && s.Publish?
    requires key in w.calls ==> AttemptsOk(w, key)
    requires key in After(w, s).calls
    ensures AttemptsOk(After(w, s), key)
  {
    hide Inv, Encodable, GoodTopic, Copies, Serializable;
    ClientOf(w, key);
    var taken := CallKey(s.a, w.clients[s.a]);
    ClientOf(w, taken);
    if key == taken {
      NotYetSent(w, Packet(s.a, After(w, s).calls[taken].message));
    }
  }

  lemma StepCounts(w: World, s: Step, key: Key)
    requires Inv(w) && Enabled(w, s)
    requires key in w.calls ==> AttemptsOk(w, key)
    requires key in After(w, s).calls
    ensures AttemptsOk(After(w, s), key)
  {
    hide Inv, Encodable, GoodTopic, Copies, Serializable, PhaseCounts, B.React;
    ClientOf(w, key);
    if s.Tick? {
      TickCounts(w, s, key);
    } else if s.Publish? {
      PublishCounts(w, s, key);
    }
  }

  lemma {:induction false} RunsCount(steps: seq<Step>, w: World, key: Key)
    requires Reaches(steps, w) && key in w.calls
    ensures AttemptsOk(w, key)
  {
    hide Inv, Enabled, After, AttemptsOk;
    if steps != [] {
      var last := |steps| - 1;
      var w0 :| Reaches(steps[..last], w0) && Enabled(w0, steps[last]) && w == After(w0, steps[last]);
      RunsKeepInvariant(steps[..last], w0);
      if key in w0.calls {
        RunsCount(steps[..last], w0, key);
      }
      StepCounts(w0, steps[last], key);
    }
  }

  lemma LimitHolds(w: World, key: Key)
    requires key in w.calls && AttemptsOk(w, key) && QosOf(w.calls[key].message) <= QOS_EXACTLY_ONCE
    ensures Attempts(w, key) <= Limit(w.calls[key])
  {
  }

  /** A call at QoS 0, 1 or 2 sends its packet at most max_retries + 1 times. So on a network that
      delivers no packet more often than it was sent, a QoS 1 publication is forwarded at most
      max_retries + 1 times, and always as often as it was handled. */
  lemma ForwardsBounded(steps: seq<Step>, w: World, key: Key)
    requires Reaches(steps, w) && key in w.calls && QosOf(w.calls[key].message) <= QOS_EXACTLY_ONCE
    ensures Attempts(w, key) <= Limit(w.calls[key])
    ensures !IsQos2(w, key) ==> Copies(w.log, key) == Handled(w, key)
    ensures w.handled <= w.toBroker ==> Copies(w.log, key) <= Limit(w.calls[key])
  {
    hide Reaches, AttemptsOk, Copies, PacketOk, ClientOk, CallOk, ReplyOk, ForwardOk, ResultOk;
    RunsKeepInvariant(steps, w);
    RunsCount(steps, w, key);
    LimitHolds(w, key);
    assert CountsOk(w, key);
  }

  // ---------- calls end with a result; QoS 0 ----------

  /** A call is in progress or has returned; one at QoS 0 returned 0 after sending its packet once, and -1
      without having sent it. */
  ghost predicate Settled(w: World, key: Key)
    requires key in w.calls
  {
    && (InCall(w, key) <==> key !in w.results)
    && (QosOf(w.calls[key].message) == QOS_AT_MOST_ONCE ==>
          if InCall(w, key) then w.clients[key.addr].phase.Sending? && Attempts(w, key) == 0
          else w.results[key] in {0, -1} && Attempts(w, key) == if w.results[key] == 0 then 1 else 0)
  }

  lemma TickLeavesOthersSettled(w: World, s: Step, key: Key)
    requires Inv(w) && Enabled(w, s) && s.Tick? && key in w.calls && Settled(w, key)
    requires key != CallKey(s.a, w.clients[s.a])
    ensures Settled(After(w, s), key)
  {
    hide Inv, Encodable, GoodTopic, Copies, StateOk, EventOk, FirstAck;
    ClientOf(w, key);
    ClientOf(w, CallKey(s.a, w.clients[s.a]));
  }

  lemma TickSettles(w: World, s: Step, key: Key)
    requires Inv(w) && Enabled(w, s) && s.Tick? && key in w.calls && Settled(w, key)
    ensures Settled(After(w, s), key)
  {
    hide Inv, Encodable, GoodTopic, Copies, StateOk, EventOk, FirstAck;
    if key != CallKey(s.a, w.clients[s.a]) {
      TickLeavesOthersSettled(w, s, key);
    } else {
      ClientOf(w, key);
    }
  }

  lemma PublishSettles(w: World, s: Step, key: Key)
    requires Inv(w) && Enabled(w, s) && s.Publish? && (key in w.calls ==> Settled(w, key))
    requires key in After(w, s).calls
    ensures Settled(After(w, s), key)
  {
    hide Inv, Encodable, GoodTopic, Copies, Serializable;
    ClientOf(w, key);
    var taken := CallKey(s.a, w.clients[s.a]);
    ClientOf(w, taken);
    if key == taken {
      NotYetSent(w, Packet(s.a, After(w, s).calls[taken].message));
      NotYetReturned(w, key);
    }
  }

  lemma NotYetReturned(w: World, key: Key)
    requires Inv(w) && key !in w.calls
    ensures key !in w.results
  {
    assert key in w.results ==> ResultOk(w, key, w.results[key]);
  }

  lemma StepSettles(w: World, s: Step, key: Key)
    requires Inv(w) && Enabled(w, s) && (key in w.calls ==> Settled(w, key)) && key in After(w, s).calls
    ensures Settled(After(w, s), key)
  {
    hide Inv, Encodable, GoodTopic, Copies, Serializable, B.React;
    ClientOf(w, key);
    if s.Tick? {
      TickSettles(w, s, key);
    } else if s.Publish? {
      PublishSettles(w, s, key);
    }
  }

  lemma {:induction false} RunsSettle(steps: seq<Step>, w: World, key: Key)
    requires Reaches(steps, w) && key in w.calls
    ensures Settled(w, key)
  {
    hide Inv, Enabled, After, Settled;
    if steps != [] {
      var last := |steps| - 1;
      var w0 :| Reaches(steps[..last], w0) && Enabled(w0, steps[last]) && w == After(w0, steps[last]);
      RunsKeepInvariant(steps[..last], w0);
      if key in w0.calls {
        RunsSettle(steps[..last], w0, key);
      }
      StepSettles(w0, steps[last], key);
    }
  }

  /** In every run, a call has a result, 0 or -1, iff it is no longer in progress. */
  lemma CallsReturn(steps: seq<Step>, w: World, key: Key)
    requires Reaches(steps, w) && key in w.calls
    ensures key in w.results <==> !InCall(w, key)
    ensures key in w.results ==> w.results[key] in {0, -1}
  {
    hide Reaches, Copies, PacketOk, ClientOk, CallOk, ReplyOk, ForwardOk, CountsOk;
    RunsSettle(steps, w, key);
    RunsKeepInvariant(steps, w);
    assert key in w.results ==> ResultOk(w, key, w.results[key]);
  }

  /** At QoS 0 the result says exactly whether the packet was sent: a call that returned sent it once and
      returned 0, or never sent it and returned -1; one still in progress has not sent it. */
  lemma AtMostOnceResult(steps: seq<Step>, w: World, key: Key)
    requires Reaches(steps, w) && key in w.calls && QosOf(w.calls[key].message) == QOS_AT_MOST_ONCE
    ensures key in w.results && w.results[key] == 0 <==> Attempts(w, key) == 1
    ensures key in w.results && w.results[key] == -1 <==> key in w.results && Attempts(w, key) == 0
    ensures Attempts(w, key) <= 1
  {
    hide Reaches;
    RunsSettle(steps, w, key);
  }
}
