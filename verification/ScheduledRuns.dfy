/** Publish calls under a schedule of losses are runs of the whole system, so what holds of all runs holds of
    them, and what they reach is reachable. */
module ScheduledRuns {
  import opened Bytes
  import opened Wrappers
  import opened Addresses
  import opened Lists
  import opened Codec
  import opened Messages
  import opened TopicNames
  import opened TopicTables
  import opened EventQueues
  import opened PendingTables
  import opened Delivery
  import opened LossSchedules
  import B = BrokerModel
  import C = ClientModel
  import Q = Qos2Tables

  lemma OneStepFurther(steps: seq<Step>, w: World, s: Step)
    requires Reaches(steps, w) && Enabled(w, s)
    ensures Reaches(steps + [s], After(w, s))
  {
    hide Enabled, After;
    assert (steps + [s])[..|steps|] == steps;
  }

  /** In every run, the id that a client's next call takes is one that client and broker know nothing of. */
  lemma NextIdIsFresh(steps: seq<Step>, w: World, a: Address)
    requires Reaches(steps, w) && a in w.clients && w.clients[a].nextId < 0x1_0000_0000
    ensures FreshId(w.clients[a], w.broker, a) && |w.clients[a].queue| <= MAX_EVENT_QUEUE_SIZE
  {
    hide Reaches, Inv, PacketOk, Copies;
    RunsKeepInvariant(steps, w);
    var c := w.clients[a];
    var id: uint32 := c.nextId;
    ClientIsOk(w, a);
    UnusedKey(w, Key(a, id));
    assert id in c.states ==> StateOk(w, a, id, c.states[id]);
    if FirstAck(c.queue, id) < |c.queue| {
      AckConfirms(w, a, c, id);
    }
  }

  /** A key that no call has yet is in no table, log or packet to its client. */
  lemma UnusedKey(w: World, key: Key)
    requires Inv(w) && key.addr in w.clients && key.msgId >= w.clients[key.addr].nextId
    ensures key !in w.calls && key !in w.broker.pending && Copies(w.log, key) == 0
    ensures Packet(key.addr, ReceivedReply(key.msgId)) !in w.toClient
    ensures Packet(key.addr, CompleteReply(key.msgId)) !in w.toClient
  {
    hide Copies, PacketOk, ClientOk, ForwardOk, ResultOk;
    assert key in w.calls ==> CallOk(w, key);
    assert CountsOk(w, key);
    var p, q := Packet(key.addr, ReceivedReply(key.msgId)), Packet(key.addr, CompleteReply(key.msgId));
    assert p in w.toClient ==> ReplyOk(w, p);
    assert q in w.toClient ==> ReplyOk(w, q);
  }

  // ---------- a turn of a scheduled call, step by step ----------

  /** The world shows the scheduled system; `base` is what was logged before the call. */
  ghost predicate Shows(w: World, s: System, from: Address, base: seq<B.Forward>) {
    && from in w.clients && w.clients[from] == s.client && w.broker == s.broker && w.log == base + s.log
    && (s.coming.Some? ==> Packet(from, s.coming.value.message) in w.toClient)
  }

  /** Between `w` and `w'` no call began and no subscription was made. */
  ghost predicate SameCalls(w: World, w': World) {
    w'.calls == w.calls && w'.broker.subs == w.broker.subs
  }

  lemma ArrivalReaches(steps: seq<Step>, w: World, s: System, from: Address, base: seq<B.Forward>)
    returns (steps': seq<Step>, w': World)
    requires Reaches(steps, w) && Shows(w, s, from, base)
    ensures Reaches(steps', w') && Shows(w', Arrived(s), from, base)
    ensures SameCalls(w, w') && w'.results == w.results
  {
    hide Reaches, C.Listen;
    steps', w' := steps, w;
    if Arrived(s) != s {
      steps', w' := HearReaches(steps, w, s, from, s.coming.value.message, base);
    }
  }

  lemma TickReaches(steps: seq<Step>, w: World, s: System, from: Address, base: seq<B.Forward>)
    returns (steps': seq<Step>, w': World)
    requires Reaches(steps, w) && Shows(w, s, from, base) && !s.client.phase.Idle?
    ensures var o := C.Tick(s.client, true);
            && Reaches(steps', w') && Shows(w', s.(client := o.client), from, base) && SameCalls(w, w')
            && (o.sent.Some? ==> Packet(from, o.sent.value) in w'.toBroker)
            && w'.results ==
                 if o.returned.Some? then w.results[CallKey(from, s.client) := o.returned.value] else w.results
  {
    hide Reaches, C.Tick;
    var st := Step.Tick(from, true);
    OneStepFurther(steps, w, st);
    steps', w' := steps + [st], After(w, st);
  }

  lemma HearReaches(steps: seq<Step>, w: World, s: System, from: Address, m: Message, base: seq<B.Forward>)
    returns (steps': seq<Step>, w': World)
    requires Reaches(steps, w) && Shows(w, s, from, base) && Packet(from, m) in w.toClient
    ensures Reaches(steps', w') && Shows(w', s.(client := C.Listen(s.client, m, true)), from, base)
    ensures SameCalls(w, w') && w'.results == w.results && w'.toClient == w.toClient
  {
    hide Reaches, C.Listen;
    var st := Step.Listen(from, m, true);
    OneStepFurther(steps, w, st);
    steps', w' := steps + [st], After(w, st);
  }

  lemma ServeReaches(steps: seq<Step>, w: World, s: System, link: Link, m: Message, base: seq<B.Forward>)
    returns (steps': seq<Step>, w': World)
    requires Reaches(steps, w) && Shows(w, s, link.from, base) && Packet(link.from, m) in w.toBroker
    requires B.RightTargets(w.broker, m, link.targets) && (m.Text? ==> B.IsPublish(m))
    ensures var r := B.React(s.broker, link.from, m, link.targets);
            && Reaches(steps', w')
            && Shows(w', System(s.client, r.broker, s.log + r.forwards, None), link.from, base)
            && SameCalls(w, w') && w'.results == w.results && Replies(r, link.from) <= w'.toClient
  {
    hide Reaches, Replies, B.RightTargets;
    var st := Step.Serve(link.from, m, link.targets);
    OneStepFurther(steps, w, st);
    steps', w' := steps + [st], After(w, st);
    assert w'.log == base + (s.log + B.React(s.broker, link.from, m, link.targets).forwards);
  }

  /** A packet of the client, as the schedule has it delivered. */
  lemma DeliveryReaches(steps: seq<Step>, w: World, s: System, link: Link, m: Message, r: Round, base: seq<B.Forward>)
    returns (steps': seq<Step>, w': World)
    requires Reaches(steps, w) && Shows(w, s, link.from, base) && Packet(link.from, m) in w.toBroker
    requires B.RightTargets(w.broker, m, link.targets) && (m.Text? ==> B.IsPublish(m))
    ensures Reaches(steps', w') && Shows(w', Delivered(s, m, link, r), link.from, base)
    ensures SameCalls(w, w') && w'.results == w.results
  {
    hide Reaches, B.RightTargets, C.Listen;
    steps', w' := steps, w;
    if if m.Text? then r.pub else r.rel {
      var reaction := B.React(s.broker, link.from, m, link.targets);
      steps', w' := ServeReaches(steps, w, s, link, m, base);
      var s1 := System(s.client, reaction.broker, s.log + reaction.forwards, None);
      assert reaction.replies != [] ==> Packet(link.from, reaction.replies[0]) in w'.toClient;
      if reaction.forwards != [] && B.PacketsTo(reaction.forwards[0], link.from) > 0 && r.own {
        assert Packet(link.from, reaction.forwards[0].message) in w'.toClient;
        steps', w' := HearReaches(steps', w', s1, link.from, reaction.forwards[0].message, base);
      }
    }
  }

  lemma TurnReaches(steps: seq<Step>, w: World, s: System, link: Link, base: seq<B.Forward>)
    returns (steps': seq<Step>, w': World)
    requires Reaches(steps, w) && Shows(w, s, link.from, base)
    requires !s.client.phase.Idle? && B.IsPublish(s.client.phase.m)
    requires B.RightTargets(w.broker, s.client.phase.m, link.targets)
    ensures Reaches(steps', w') && Shows(w', Turn(s, link), link.from, base) && SameCalls(w, w')
    ensures w'.results ==
              if ResultOf(s).Some? then w.results[CallKey(link.from, s.client) := ResultOf(s).value] else w.results
  {
    hide Reaches, Delivered, Arrived;
    var r := RoundOf(link.schedule, Tries(s.client.phase));
    var s0 := Arrived(s);
    steps', w' := ArrivalReaches(steps, w, s, link.from, base);
    var o := C.Tick(s0.client, true);
    steps', w' := TickReaches(steps', w', s0, link.from, base);
    if o.sent.Some? {
      steps', w' := DeliveryReaches(steps', w', s0.(client := o.client), link, o.sent.value, r, base);
    }
  }

  lemma TargetsStayRight(b: B.Broker, b': B.Broker, m: Message, targets: seq<Address>)
    requires B.RightTargets(b, m, targets) && b'.subs == b.subs
    ensures B.RightTargets(b', m, targets)
  {
  }

  lemma RunningIsBusy(c: C.Client)
    requires Running(c)
    ensures !c.phase.Idle?
  {
  }

  lemma {:induction false} FinishReaches(steps: seq<Step>, w: World, s: System, link: Link, base: seq<B.Forward>)
    returns (steps': seq<Step>, w': World)
    requires Reaches(steps, w) && Shows(w, s, link.from, base) && Running(s.client)
    requires B.IsPublish(s.client.phase.m) && B.RightTargets(w.broker, s.client.phase.m, link.targets)
    ensures var (last, rc) := Finish(s, link);
            && Reaches(steps', w') && Shows(w', last, link.from, base) && SameCalls(w, w')
            && w'.results == w.results[CallKey(link.from, s.client) := rc]
    decreases AttemptsLeft(s.client), StagesLeft(s.client.phase), PollsLeft(s.client)
  {
    hide Reaches, Turn, ResultOf, Running, B.IsPublish, B.RightTargets, AttemptsLeft, StagesLeft, PollsLeft;
    RunningIsBusy(s.client);
    steps', w' := TurnReaches(steps, w, s, link, base);
    if ResultOf(s).None? {
      TurnRuns(s, link);
      TargetsStayRight(w.broker, w'.broker, s.client.phase.m, link.targets);
      RunningIsBusy(Turn(s, link).client);
      steps', w' := FinishReaches(steps', w', Turn(s, link), link, base);
    }
  }

  // ---------- whole calls ----------

  /** A client, in any reachable world, that may start this call, and the subscribers its message goes to. */
  ghost predicate MayPublish(w: World, link: Link, topic: seq<byte>, data: seq<byte>) {
    && link.from in w.clients
    && var c := w.clients[link.from];
    && c.phase.Idle? && c.nextId < 0x1_0000_0000 && c.qos <= QOS_EXACTLY_ONCE
    && GoodTopic(topic) && Serializable(topic, data, PACKET_SIZE)
    && NoRepeats(link.targets) && Members(link.targets) == Matching(w.broker.subs, Levels(topic))
  }

  /** A call under a schedule of losses, started in any reachable world, is a run of the whole system: it
      reaches a world with the client, the broker, the forwards and the result that the schedule gives. */
  lemma ScheduleIsRun(steps: seq<Step>, w: World, link: Link, topic: seq<byte>, data: seq<byte>)
    returns (steps': seq<Step>, w': World)
    requires Reaches(steps, w) && MayPublish(w, link, topic, data)
    ensures var c := w.clients[link.from];
            var key := Key(link.from, c.nextId);
            var (last, rc) := LossSchedules.Publish(c, w.broker, link, topic, data);
            && FreshId(c, w.broker, link.from)
            && Reaches(steps', w') && Shows(w', last, link.from, w.log)
            && Called(w', key, Publication(c.qos, c.nextId, topic, data))
            && w'.results == w.results[key := rc]
  {
    hide Reaches, Finish, Running, Matching, FreshId, FirstAck;
    NextIdIsFresh(steps, w, link.from);
    var c := w.clients[link.from];
    var st := Step.Publish(link.from, topic, data);
    OneStepFurther(steps, w, st);
    var w1 := After(w, st);
    var s := System(C.StartPublish(c, topic, data).client, w.broker, [], None);
    StartRuns(c, topic, data);
    assert Shows(w1, s, link.from, w.log);
    steps', w' := FinishReaches(steps + [st], w1, s, link, w.log);
  }

  lemma StartRuns(c: C.Client, topic: seq<byte>, data: seq<byte>)
    requires c.nextId < 0x1_0000_0000 && c.qos <= QOS_EXACTLY_ONCE && Serializable(topic, data, PACKET_SIZE)
    ensures Running(C.StartPublish(c, topic, data).client)
  {
  }

  // ---------- any settings, any schedule ----------

  /** The result that the schedule gives a call of a client with these settings and this many events queued. */
  ghost predicate Confirms(link: Link, qos: byte, timeoutMs: int, maxRetries: int, queued: nat) {
    if qos == QOS_AT_MOST_ONCE then maxRetries >= 0
    else if qos == QOS_AT_LEAST_ONCE then AckedInTime(timeoutMs, maxRetries, queued, link)
    else ClosedInTime(timeoutMs, maxRetries, link)
  }

  lemma SettingsReach(steps: seq<Step>, w: World, a: Address, qos: byte, timeoutMs: int, maxRetries: int)
    returns (steps': seq<Step>, w': World)
    requires Reaches(steps, w) && a in w.clients && w.clients[a].phase.Idle?
    ensures Reaches(steps', w') && a in w'.clients && w'.broker == w.broker && w'.log == w.log
    ensures var c, c' := w.clients[a], w'.clients[a];
            && c'.phase.Idle? && c'.nextId == c.nextId && c'.queue == c.queue
            && c'.qos == qos && c'.timeoutMs == timeoutMs && c'.maxRetries == maxRetries
    ensures w'.results == w.results
  {
    hide Reaches;
    var setQos, setPolicy := Step.SetQos(a, qos), Step.SetRetryPolicy(a, timeoutMs, maxRetries);
    OneStepFurther(steps, w, setQos);
    var w1 := After(w, setQos);
    OneStepFurther(steps + [setQos], w1, setPolicy);
    steps', w' := steps + [setQos] + [setPolicy], After(w1, setPolicy);
  }

  /** From every reachable world in which a client is idle, with every QoS level, timeout and retry limit set,
      for every message and every schedule of losses and delays: there is a run in which the client takes
      these settings and publishes, the packet carries this QoS level, and the call returns exactly what the
      schedule gives for these settings. */
  lemma ConfiguredCall(steps: seq<Step>, w: World, link: Link, topic: seq<byte>, data: seq<byte>,
                       qos: byte, timeoutMs: int, maxRetries: int)
    returns (steps': seq<Step>, w': World)
    requires Reaches(steps, w) && MayPublish(w, link, topic, data) && qos <= QOS_EXACTLY_ONCE
    ensures var c := w.clients[link.from];
            var key := Key(link.from, c.nextId);
            && Reaches(steps', w') && Called(w', key, Publication(qos, c.nextId, topic, data))
            && w'.results == w.results[key := if Confirms(link, qos, timeoutMs, maxRetries, |c.queue|) then 0 else -1]
  {
    hide Reaches, FreshId, Matching, NoRepeats, GoodTopic, AckedInTime, ClosedInTime;
    var steps1, w1 := SettingsReach(steps, w, link.from, qos, timeoutMs, maxRetries);
    var c := w1.clients[link.from];
    steps', w' := ScheduleIsRun(steps1, w1, link, topic, data);
    NextIdIsFresh(steps1, w1, link.from);
    if qos == QOS_AT_MOST_ONCE {
      AtMostOnceSchedule(c, w1.broker, link, topic, data);
    } else if qos == QOS_AT_LEAST_ONCE {
      AtLeastOnceCondition(c, w1.broker, link, topic, data);
    } else {
      ExactlyOnceSchedule(c, w1.broker, link, topic, data);
    }
  }

  // ---------- calls that succeed ----------

  lemma NewClientReached(a: Address) returns (steps: seq<Step>, w: World)
    ensures Reaches(steps, w) && a in w.clients && w.broker == B.EMPTY_BROKER && w.clients[a] == C.NEW_CLIENT
    ensures w.results == map[]
  {
    hide Reaches;
    assert Reaches([], START) by { StartIsReached(); }
    OneStepFurther([], START, Step.Connect(a));
    steps, w := [] + [Step.Connect(a)], After(START, Step.Connect(a));
  }

  lemma StartIsReached()
    ensures Reaches([], START)
  {
  }

  /** Some call does return 0 at every QoS level: what is said of such calls is not said of nothing. Here the
      answers come before the last poll of a wait of one second. */
  lemma SomeCallSucceeds(a: Address, topic: seq<byte>, data: seq<byte>, qos: byte) returns (steps: seq<Step>, w: World)
    requires GoodTopic(topic) && Serializable(topic, data, PACKET_SIZE) && qos <= QOS_EXACTLY_ONCE
    ensures Reaches(steps, w) && Called(w, Key(a, 1), Publication(qos, 1, topic, data))
    ensures Key(a, 1) in w.results && w.results[Key(a, 1)] == 0
    ensures qos == QOS_EXACTLY_ONCE ==> ForwardedOnce(w.log, Key(a, 1), w.calls[Key(a, 1)].message)
  {
    hide Reaches, NoRepeats, Levels, GoodTopic, ForwardedOnce;
    var steps0, w0 := NewClientReached(a);
    var link := Link(a, [], [Round(true, true, Some(9), true, Some(9))]);
    NoRepeatsOfNothing<Address>();
    assert Matching(w0.broker.subs, Levels(topic)) == {};
    assert Opens(link, 1000, 0) && Closes(link, 1000, 0) && Answers(link, 1000, 0);
    assert Echoings(link, 0, 1) == Echoings(link, 1, 1) == 0;
    steps, w := ConfiguredCall(steps0, w0, link, topic, data, qos, 1000, 0);
    if qos == QOS_EXACTLY_ONCE {
      ExactlyOnceOnSuccess(steps, w, Key(a, 1));
    }
  }

  // ---------- a late RECEIVED ----------

  /** What a list of steps of one client leads to. */
  lemma ClientMoves(steps: seq<Step>, w: World, st: Step) returns (w': World)
    requires Reaches(steps, w) && Enabled(w, st) && (st.Listen? || st.Tick?)
    ensures Reaches(steps + [st], w') && st.a in w'.clients && w'.clients[st.a] == OutcomeOf(w.clients[st.a], st).client
    ensures w'.broker == w.broker && w'.log == w.log && w'.toClient == w.toClient && w'.calls == w.calls
    ensures var o := OutcomeOf(w.clients[st.a], st);
            var key := CallKey(st.a, w.clients[st.a]);
            w'.results == if o.returned.Some? then w.results[key := o.returned.value] else w.results
  {
    hide Reaches, OutcomeOf;
    OneStepFurther(steps, w, st);
    w' := After(w, st);
  }

  /** In any reachable world in which a client waits for COMPLETE, with a poll to come, and the broker has sent
      it: hearing the COMPLETE and then, again, the RECEIVED leaves the client waiting after the poll; hearing
      them the other way round ends the call. */
  lemma LateReceivedInRun(steps: seq<Step>, w: World, a: Address) returns (late: World, good: World)
    requires Reaches(steps, w) && a in w.clients && w.clients[a].phase.AwaitingComplete?
    requires var c := w.clients[a]; 100 * (c.phase.i + 1) <= c.timeoutMs
    requires Packet(a, CompleteReply(w.clients[a].phase.m.header.msgId)) in w.toClient
    ensures var c, id := w.clients[a], w.clients[a].phase.m.header.msgId;
            var complete, received := Step.Listen(a, CompleteReply(id), true), Step.Listen(a, ReceivedReply(id), true);
            && Reaches(steps + [complete] + [received] + [Step.Tick(a, true)], late)
            && a in late.clients && late.results == w.results && late.broker == w.broker && late.log == w.log
            && late.calls == w.calls
            && late.clients[a].phase == C.AwaitingComplete(c.phase.m, c.phase.tries, c.phase.i + 1)
            && late.clients[a].timeoutMs == c.timeoutMs && late.clients[a].maxRetries == c.maxRetries
            && Q.Lookup(late.clients[a].states, id) == Q.WaitComplete
            && Reaches(steps + [received] + [complete] + [Step.Tick(a, true)] + [Step.Tick(a, true)], good)
            && good.results == w.results[Key(a, id) := 0]
  {
    hide Reaches, Inv;
    var c, id := w.clients[a], w.clients[a].phase.m.header.msgId;
    RunsKeepInvariant(steps, w);
    ClientIsOk(w, a);
    var complete, received := Step.Listen(a, CompleteReply(id), true), Step.Listen(a, ReceivedReply(id), true);
    var w1 := ClientMoves(steps, w, complete);
    var w2 := ClientMoves(steps + [complete], w1, received);
    late := ClientMoves(steps + [complete] + [received], w2, Step.Tick(a, true));
    var v1 := ClientMoves(steps, w, received);
    var v2 := ClientMoves(steps + [received], v1, complete);
    var v3 := ClientMoves(steps + [received] + [complete], v2, Step.Tick(a, true));
    good := ClientMoves(steps + [received] + [complete] + [Step.Tick(a, true)], v3, Step.Tick(a, true));
  }

  /** The first four turns of a QoS 2 call in which nothing is lost: send, poll, check, RELEASE. */
  lemma FourTurns(s: System, link: Link, m: Message)
    requires s.client.phase == C.Sending(m, 0) && s.client.timeoutMs == 100 && s.client.maxRetries == 0
    requires B.IsPublish(m) && m.header.qosLevel == QOS_EXACTLY_ONCE
    requires Key(link.from, m.header.msgId) !in s.broker.pending
    requires m.header.msgId !in s.client.states && link.schedule == [Round(true, true, Some(0), true, Some(0))]
    ensures var s1 := Turn(s, link);
            var s2 := Turn(s1, link);
            var s3 := Turn(s2, link);
            var s4 := Turn(s3, link);
            && s1.client.phase == C.AwaitingReceived(m, 0, 0) && s2.client.phase == C.CheckingReceived(m, 0)
            && s3.client.phase == C.Releasing(m, 0) && s4.client.phase == C.AwaitingComplete(m, 0, 0)
            && s4.coming == Some(Answer(CompleteReply(m.header.msgId), 0))
            && HasCompleted(s4.broker, Key(link.from, m.header.msgId))
            && s4.client.timeoutMs == 100 && s4.client.maxRetries == 0
            && ResultOf(s).None? && ResultOf(s1).None? && ResultOf(s2).None? && ResultOf(s3).None?
  {
    var s1 := Turn(s, link);
    assert s1.coming == Some(Answer(ReceivedReply(m.header.msgId), 0));
    var s2 := Turn(s1, link);
    assert Q.Lookup(s2.client.states, m.header.msgId) == Q.WaitComplete;
  }

  lemma SomeClientWaits(a: Address, topic: seq<byte>, data: seq<byte>) returns (steps: seq<Step>, w: World)
    requires GoodTopic(topic) && Serializable(topic, data, PACKET_SIZE)
    ensures Reaches(steps, w) && a in w.clients && Key(a, 1) !in w.results
    ensures var m := Publication(QOS_EXACTLY_ONCE, 1, topic, data);
            && Called(w, Key(a, 1), m) && HasCompleted(w.broker, Key(a, 1))
            && w.clients[a].phase == C.AwaitingComplete(m, 0, 0)
    ensures w.clients[a].timeoutMs == 100 && w.clients[a].maxRetries == 0
    ensures Packet(a, CompleteReply(1)) in w.toClient
  {
    hide Reaches, NoRepeats, Levels, GoodTopic, Turn, ResultOf;
    var steps0, w0 := NewClientReached(a);
    var steps1, w1 := SettingsReach(steps0, w0, a, QOS_EXACTLY_ONCE, 100, 0);
    var link := Link(a, [], [Round(true, true, Some(0), true, Some(0))]);
    NoRepeatsOfNothing<Address>();
    assert Matching(w1.broker.subs, Levels(topic)) == {};
    NextIdIsFresh(steps1, w1, a);
    var publish := Step.Publish(a, topic, data);
    OneStepFurther(steps1, w1, publish);
    var m := Publication(QOS_EXACTLY_ONCE, 1, topic, data);
    var s := System(w1.clients[a].(nextId := 2, phase := C.Sending(m, 0)), w1.broker, [], None);
    FourTurns(s, link, m);
    var t1, v1 := TurnReaches(steps1 + [publish], After(w1, publish), s, link, w1.log);
    var t2, v2 := TurnReaches(t1, v1, Turn(s, link), link, w1.log);
    var t3, v3 := TurnReaches(t2, v2, Turn(Turn(s, link), link), link, w1.log);
    steps, w := TurnReaches(t3, v3, Turn(Turn(Turn(s, link), link), link), link, w1.log);
  }

  /** So a call can fail although its COMPLETE was heard before a poll that took place: no packet is lost, but
      the network delivers the RECEIVED once more, after the COMPLETE. */
  lemma LateReceivedFails(a: Address, topic: seq<byte>, data: seq<byte>) returns (steps: seq<Step>, w: World)
    requires GoodTopic(topic) && Serializable(topic, data, PACKET_SIZE)
    ensures Reaches(steps, w) && Called(w, Key(a, 1), Publication(QOS_EXACTLY_ONCE, 1, topic, data))
    ensures Key(a, 1) in w.results && w.results[Key(a, 1)] == -1
    ensures HasCompleted(w.broker, Key(a, 1)) && ForwardedOnce(w.log, Key(a, 1), w.calls[Key(a, 1)].message)
  {
    hide Reaches, GoodTopic, ForwardedOnce, Inv;
    var steps0, w0 := SomeClientWaits(a, topic, data);
    var w1, good := LateReceivedInRun(steps0, w0, a);
    var steps1 := steps0 + [Step.Listen(a, CompleteReply(1), true)] + [Step.Listen(a, ReceivedReply(1), true)]
                  + [Step.Tick(a, true)];
    var w2 := ClientMoves(steps1, w1, Step.Tick(a, true));
    steps := steps1 + [Step.Tick(a, true)] + [Step.Tick(a, true)];
    w := ClientMoves(steps1 + [Step.Tick(a, true)], w2, Step.Tick(a, true));
    ForwardedIffHandled(steps, w, Key(a, 1));
  }
}
