/** A publish call over a network that, in each attempt, loses a packet or delivers it, answers after any
    delay: which losses and delays a call survives, and how often its message is forwarded. */
module LossSchedules {
  import opened Bytes
  import opened Wrappers
  import opened Addresses
  import opened Codec
  import opened Messages
  import opened EventQueues
  import opened PendingTables
  import B = BrokerModel
  import C = ClientModel
  import Q = Qos2Tables

  /** The fate of the packets of one attempt. The publication and the RELEASE get through at once or not at
      all, as does the publisher's own copy of a forward, should it subscribe to its own topic (a copy that no
      data buffer could be allocated for is as good as lost). The first answer (RECEIVED or ACK) and the
      COMPLETE arrive just before poll `i` of the wait for them, if the wait lasts that long, or never. */
  datatype Round = Round(pub: bool, own: bool, ans: Option<nat>, rel: bool, comp: Option<nat>)

  /** An answer on its way, and the poll before which it arrives. */
  datatype Answer = Answer(message: Message, at: nat)

  datatype System = System(client: C.Client, broker: B.Broker, log: seq<B.Forward>, coming: Option<Answer>)

  /** What stays the same during a call: the client's address, the subscribers, the fate of packets. */
  datatype Link = Link(from: Address, targets: seq<Address>, schedule: seq<Round>)

  function RoundOf(schedule: seq<Round>, tries: int): Round {
    if 0 <= tries < |schedule| then schedule[tries] else Round(false, false, None, false, None)
  }

  function Tries(ph: C.Phase): int {
    if ph.Idle? || ph.Forgetting? then 0 else ph.tries
  }

  predicate Waiting(ph: C.Phase) {
    ph.AwaitingAck? || ph.AwaitingReceived? || ph.AwaitingComplete?
  }

  /** The answer to a packet, if there is one and it is not lost. */
  function AnswerTo(replies: seq<Message>, r: Round): Option<Answer> {
    if replies == [] then None
    else
      var m := replies[0];
      var at := if m.Control? && m.kind == CONTROL_COMPLETE then r.comp else r.ans;
      if at.Some? then Some(Answer(m, at.value)) else None
  }

  /** The publisher's own copy of a forward, if it is a target and the copy gets through. */
  function Echoed(c: C.Client, forwards: seq<B.Forward>, link: Link, r: Round): (c': C.Client)
    ensures c'.phase == c.phase && c'.timeoutMs == c.timeoutMs && c'.maxRetries == c.maxRetries
  {
    if forwards != [] && B.PacketsTo(forwards[0], link.from) > 0 && r.own then
      C.Listen(c, forwards[0].message, true)
    else c
  }

  /** A packet of the client that gets through is handled at once; forwards go out before the answer. */
  function Delivered(s: System, m: Message, link: Link, r: Round): (s': System)
    ensures s'.client.phase == s.client.phase
    ensures s'.client.timeoutMs == s.client.timeoutMs && s'.client.maxRetries == s.client.maxRetries
  {
    if if m.Text? then r.pub else r.rel then
      var reaction := B.React(s.broker, link.from, m, link.targets);
      System(Echoed(s.client, reaction.forwards, link, r), reaction.broker, s.log + reaction.forwards,
             AnswerTo(reaction.replies, r))
    else s.(coming := None)
  }

  /** The wait for the answer lasts as long as this: poll `i` happens 100 * (i + 1) ms after the send, and
      after the last poll for RECEIVED the table is looked at once more. */
  predicate InTime(c: C.Client, at: nat) {
    100 * (if c.phase.AwaitingReceived? then at else at + 1) <= c.timeoutMs
  }

  /** The answer arrives now, if this is the poll before which it does. */
  function Arrived(s: System): (s': System)
    ensures s'.client.phase == s.client.phase
    ensures s'.client.timeoutMs == s.client.timeoutMs && s'.client.maxRetries == s.client.maxRetries
    ensures s'.broker == s.broker && s'.log == s.log
  {
    if s.coming.Some? && Waiting(s.client.phase) && s.coming.value.at == s.client.phase.i
       && InTime(s.client, s.coming.value.at)
    then s.(client := C.Listen(s.client, s.coming.value.message, true), coming := None)
    else s
  }

  /** One step of the publishing thread, with the packets it sets in motion. */
  function Turn(s: System, link: Link): System {
    var s0 := Arrived(s);
    var r := RoundOf(link.schedule, Tries(s.client.phase));
    var o := C.Tick(s0.client, true);
    var s1 := s0.(client := o.client);
    if o.sent.Some? then Delivered(s1, o.sent.value, link, r)
    else if Waiting(o.client.phase) then s1
    else s1.(coming := None)
  }

  function ResultOf(s: System): Option<int> {
    C.Tick(Arrived(s).client, true).returned
  }

  predicate Trying(c: C.Client, m: Message, tries: int) {
    m.header.qosLevel <= QOS_EXACTLY_ONCE && tries <= c.maxRetries
  }

  /** A phase that a call at QoS 0, 1 or 2 goes through. */
  predicate Running(c: C.Client) {
    match c.phase
    case Idle => false
    case Sending(m, tries) => m.header.qosLevel <= QOS_EXACTLY_ONCE
    case Forgetting(m) => true
    case AwaitingAck(m, tries, i) => Trying(c, m, tries) && i <= C.Polls(c.timeoutMs)
    case AwaitingReceived(m, tries, i) => Trying(c, m, tries) && i <= C.Polls(c.timeoutMs)
    case AwaitingComplete(m, tries, i) => Trying(c, m, tries) && i <= C.Polls(c.timeoutMs)
    case CheckingReceived(m, tries) => Trying(c, m, tries)
    case Releasing(m, tries) => Trying(c, m, tries)
  }

  /** Attempts, stages of an attempt and polls that are left. */
  function AttemptsLeft(c: C.Client): nat {
    if c.phase.Idle? || c.phase.Forgetting? || c.phase.tries > c.maxRetries then 0
    else c.maxRetries + 1 - c.phase.tries
  }

  function StagesLeft(ph: C.Phase): nat {
    match ph
    case Sending(_, _) => 5
    case AwaitingAck(_, _, _) => 4
    case AwaitingReceived(_, _, _) => 4
    case CheckingReceived(_, _) => 3
    case Releasing(_, _) => 2
    case AwaitingComplete(_, _, _) => 1
    case _ => 0
  }

  function PollsLeft(c: C.Client): nat {
    if c.phase.AwaitingAck? || c.phase.AwaitingReceived? || c.phase.AwaitingComplete? then
      if c.phase.i <= C.Polls(c.timeoutMs) then C.Polls(c.timeoutMs) - c.phase.i else 0
    else 0
  }

  /** The rest of the call: its result and the state it leaves behind. */
  function Finish(s: System, link: Link): (System, int)
    requires Running(s.client)
    decreases AttemptsLeft(s.client), StagesLeft(s.client.phase), PollsLeft(s.client)
  {
    hide Delivered, Arrived;
    var s' := Turn(s, link);
    if ResultOf(s).Some? then (s', ResultOf(s).value) else Finish(s', link)
  }

  /** A turn that does not end the call leaves it running with less to do. */
  lemma TurnRuns(s: System, link: Link)
    requires Running(s.client) && ResultOf(s).None?
    ensures var c, c' := s.client, Turn(s, link).client;
            && Running(c') && c'.phase.m == c.phase.m
            && c'.timeoutMs == c.timeoutMs && c'.maxRetries == c.maxRetries
            && (|| AttemptsLeft(c') < AttemptsLeft(c)
                || (AttemptsLeft(c') == AttemptsLeft(c) && StagesLeft(c'.phase) < StagesLeft(c.phase))
                || (AttemptsLeft(c') == AttemptsLeft(c) && StagesLeft(c'.phase) == StagesLeft(c.phase)
                    && PollsLeft(c') < PollsLeft(c)))
  {
    hide Delivered, Arrived;
  }

  // ---------- QoS 2 ----------

  /** PUBLISH gets through in attempt `j`, and RECEIVED before the check. */
  predicate Opens(link: Link, timeoutMs: int, j: int) {
    var r := RoundOf(link.schedule, j);
    r.pub && r.ans.Some? && 100 * r.ans.value <= timeoutMs
  }

  /** RELEASE gets through in attempt `k`, and COMPLETE before a poll that still happens. */
  predicate Closes(link: Link, timeoutMs: int, k: int) {
    var r := RoundOf(link.schedule, k);
    r.rel && r.comp.Some? && 100 * (r.comp.value + 1) <= timeoutMs
  }

  predicate Arrives(link: Link, j: int) {
    RoundOf(link.schedule, j).pub
  }

  /** Before attempt `t`: the client waits to complete if an earlier attempt opened the handshake, the
      broker has an entry if a PUBLISH ever arrived, and only a waiting client's entry is completed. */
  predicate BeforeAttempt(s: System, link: Link, m: Message, t: int, waiting: bool) {
    var id := m.header.msgId;
    var key := Key(link.from, id);
    && B.IsPublish(m) && m.header.qosLevel == QOS_EXACTLY_ONCE
    && s.client.phase == C.Sending(m, t) && 0 <= t <= s.client.maxRetries + 1
    && (waiting <==> Q.Lookup(s.client.states, id) == Q.WaitComplete)
    && Q.Lookup(s.client.states, id) != Q.Completed
    && (waiting ==> key in s.broker.pending)
    && (key in s.broker.pending && s.broker.pending[key] == PendingTables.Completed ==> waiting)
  }

  function Entering(s: System, ph: C.Phase): System {
    s.(client := s.client.(phase := ph), coming := None)
  }

  /** The answer, if any, is this one. */
  predicate Expects(s: System, m: Message) {
    s.coming.Some? ==> s.coming.value.message == m
  }

  /** What the wait for RECEIVED leaves in the table: the id waits to complete if it did before, or if the
      RECEIVED arrives before the check. */
  function AfterWait(c: C.Client, id: uint32, coming: Option<Answer>, i: nat): C.Client {
    if coming.Some? && i <= coming.value.at && 100 * coming.value.at <= c.timeoutMs then
      c.(states := c.states[id := Q.WaitComplete])
    else c
  }

  /** Polling for RECEIVED ends in the check, at once or when the polls run out. */
  lemma {:induction false} ReceivedPolls(s: System, link: Link, m: Message, t: int, i: nat) returns (s': System)
    requires s.client.phase == C.AwaitingReceived(m, t, i) && Running(s.client)
    requires Expects(s, ReceivedReply(m.header.msgId))
    ensures s'.client.phase == C.CheckingReceived(m, t) && Running(s'.client)
    ensures Finish(s, link) == Finish(s', link) && s'.broker == s.broker && s'.log == s.log && s'.coming.None?
    ensures var id := m.header.msgId;
            var before := Q.Lookup(s.client.states, id) == Q.WaitComplete;
            var c := if before then s.client else AfterWait(s.client, id, s.coming, i);
            s'.client == c.(phase := C.CheckingReceived(m, t))
    decreases C.Polls(s.client.timeoutMs) - i
  {
    var s1 := Turn(s, link);
    if s1.client.phase.AwaitingReceived? {
      s' := ReceivedPolls(s1, link, m, t, i + 1);
    } else {
      s' := s1;
      var id := m.header.msgId;
      var states := s.client.states;
      assert Q.Lookup(states, id) == Q.WaitComplete ==> states[id := Q.WaitComplete] == states;
    }
  }

  /** One poll for a COMPLETE that has not come yet. */
  lemma CompletePoll(s: System, link: Link, m: Message, t: int, i: nat)
    requires s.client.phase == C.AwaitingComplete(m, t, i)
    requires Expects(s, CompleteReply(m.header.msgId)) && Q.Lookup(s.client.states, m.header.msgId) != Q.Completed
    ensures var s1 := Turn(s, link);
            var now := s.coming.Some? && s.coming.value.at == i && 100 * (i + 1) <= s.client.timeoutMs;
            && ResultOf(s).None? && s1.broker == s.broker && s1.log == s.log
            && (now ==> s1.client.phase == C.Forgetting(m))
            && (!now ==> (
                  var next := if 100 * (i + 1) <= s.client.timeoutMs then C.AwaitingComplete(m, t, i + 1)
                              else C.Sending(m, t + 1);
                  && s1.client == s.client.(phase := next)
                  && s1.coming == if next.Sending? then None else s.coming))
  {
  }

  /** Polling for COMPLETE ends the call when it comes in time, and else in the next attempt. */
  lemma {:induction false} CompletePolls(s: System, link: Link, m: Message, t: int, i: nat)
    requires s.client.phase == C.AwaitingComplete(m, t, i) && Running(s.client)
    requires Expects(s, CompleteReply(m.header.msgId)) && Q.Lookup(s.client.states, m.header.msgId) != Q.Completed
    ensures var comes := && s.coming.Some? && i <= s.coming.value.at
                         && 100 * (s.coming.value.at + 1) <= s.client.timeoutMs;
            && (comes ==> Finish(s, link).1 == 0 && Finish(s, link).0.log == s.log)
            && (!comes ==> Finish(s, link) == Finish(Entering(s, C.Sending(m, t + 1)), link))
    decreases C.Polls(s.client.timeoutMs) - i
  {
    hide Turn, ResultOf;
    CompletePoll(s, link, m, t, i);
    var s1 := Turn(s, link);
    assert Finish(s, link) == Finish(s1, link);
    if s1.client.phase.AwaitingComplete? {
      CompletePolls(s1, link, m, t, i + 1);
    } else if s1.client.phase.Forgetting? {
      LastTurn(s1, link, m);
    }
  }

  lemma LastTurn(s: System, link: Link, m: Message)
    requires s.client.phase == C.Forgetting(m)
    ensures Finish(s, link).1 == 0 && Finish(s, link).0.log == s.log
  {
  }

  /** What the send of attempt `t` does at once. */
  lemma Sent(s: System, link: Link, m: Message, t: int, waiting: bool)
    requires BeforeAttempt(s, link, m, t, waiting) && t <= s.client.maxRetries
    ensures var s1, key, r := Turn(s, link), Key(link.from, m.header.msgId), RoundOf(link.schedule, t);
            && s1.client.phase == C.AwaitingReceived(m, t, 0) && s1.client.states == s.client.states
            && s1.client.maxRetries == s.client.maxRetries && s1.client.timeoutMs == s.client.timeoutMs
            && Finish(s, link) == Finish(s1, link) && Expects(s1, ReceivedReply(m.header.msgId))
            && (!waiting ==>
                  s1.coming ==
                    if r.pub && r.ans.Some? then Some(Answer(ReceivedReply(m.header.msgId), r.ans.value)) else None)
            && (s1.coming.Some? ==> r.pub && r.ans == Some(s1.coming.value.at))
            && s1.log == s.log +
                 (if Arrives(link, t) && key !in s.broker.pending then [B.Forward(key, m, link.targets)] else [])
            && (key in s1.broker.pending <==> key in s.broker.pending || Arrives(link, t))
            && (key in s1.broker.pending && s1.broker.pending[key] == PendingTables.Completed ==> waiting)
  {
  }

  /** The first half of an attempt: from the send up to the check. */
  lemma FirstHalf(s: System, link: Link, m: Message, t: int, waiting: bool) returns (s': System)
    requires BeforeAttempt(s, link, m, t, waiting) && t <= s.client.maxRetries
    ensures s'.client.phase == C.CheckingReceived(m, t) && Running(s'.client) && Finish(s, link) == Finish(s', link)
    ensures var key := Key(link.from, m.header.msgId);
            && BeforeAttempt(Entering(s', C.Sending(m, t + 1)), link, m, t + 1,
                             waiting || Opens(link, s.client.timeoutMs, t))
            && s'.log == s.log +
                 (if Arrives(link, t) && key !in s.broker.pending then [B.Forward(key, m, link.targets)] else [])
            && (key in s'.broker.pending <==> key in s.broker.pending || Arrives(link, t))
            && s'.client.maxRetries == s.client.maxRetries && s'.client.timeoutMs == s.client.timeoutMs
            && s'.coming.None?
  {
    hide Turn;
    Sent(s, link, m, t, waiting);
    s' := ReceivedPolls(Turn(s, link), link, m, t, 0);
  }

  /** The second half of an attempt by a client that waits to complete. */
  lemma SecondHalf(s: System, link: Link, m: Message, t: int) returns (s': System)
    requires s.client.phase == C.CheckingReceived(m, t) && t <= s.client.maxRetries && s.coming.None?
    requires BeforeAttempt(Entering(s, C.Sending(m, t + 1)), link, m, t + 1, true)
    ensures var closes := Closes(link, s.client.timeoutMs, t);
            && (closes ==> Finish(s, link).1 == 0 && Finish(s, link).0.log == s.log)
            && (!closes ==>
                  && BeforeAttempt(s', link, m, t + 1, true) && Running(s'.client)
                  && Finish(s, link) == Finish(s', link)
                  && s'.log == s.log && s'.client.maxRetries == s.client.maxRetries
                  && s'.client.timeoutMs == s.client.timeoutMs)
  {
    var s1 := Turn(s, link);
    var s2 := Turn(s1, link);
    assert s1.client.phase == C.Releasing(m, t);
    assert s2.client.phase == C.AwaitingComplete(m, t, 0);
    assert Finish(s, link) == Finish(s1, link) == Finish(s2, link);
    CompletePolls(s2, link, m, t, 0);
    s' := Entering(s2, C.Sending(m, t + 1));
  }

  /** A client that saw no RECEIVED goes on to the next attempt. */
  lemma NotReceived(s: System, link: Link, m: Message, t: int)
    requires s.client.phase == C.CheckingReceived(m, t) && Running(s.client) && s.coming.None?
    requires Q.Lookup(s.client.states, m.header.msgId) != Q.WaitComplete
    ensures Finish(s, link) == Finish(Entering(s, C.Sending(m, t + 1)), link)
  {
    assert Turn(s, link) == Entering(s, C.Sending(m, t + 1));
  }

  /** A handshake opened no later than some attempt from `t` on that closes it. */
  ghost predicate Succeeds(link: Link, c: C.Client, t: int, waiting: bool) {
    exists k :: && t <= k <= c.maxRetries && Closes(link, c.timeoutMs, k)
                && (waiting || exists j :: t <= j <= k && Opens(link, c.timeoutMs, j))
  }

  ghost predicate EverArrives(link: Link, t: int, maxRetries: int) {
    exists j :: t <= j <= maxRetries && Arrives(link, j)
  }

  lemma SucceedsNowOrLater(link: Link, c: C.Client, t: int, waiting: bool)
    requires t <= c.maxRetries
    ensures Succeeds(link, c, t, waiting)
       <==> ((waiting || Opens(link, c.timeoutMs, t)) && Closes(link, c.timeoutMs, t))
            || Succeeds(link, c, t + 1, waiting || Opens(link, c.timeoutMs, t))
    ensures EverArrives(link, t, c.maxRetries) <==> Arrives(link, t) || EverArrives(link, t + 1, c.maxRetries)
  {
    hide Opens, Closes, Arrives;
  }

  /** Only the limits of the client matter. */
  lemma SameLimits(link: Link, c: C.Client, c': C.Client, t: int, waiting: bool)
    requires c'.timeoutMs == c.timeoutMs && c'.maxRetries == c.maxRetries
    ensures Succeeds(link, c', t, waiting) == Succeeds(link, c, t, waiting)
  {
  }

  /** No attempt is left. */
  lemma Exhausted(s: System, link: Link, m: Message, t: int)
    requires s.client.phase == C.Sending(m, t) && Running(s.client) && t > s.client.maxRetries
    ensures Finish(s, link).1 == -1 && Finish(s, link).0.log == s.log
  {
  }

  lemma NothingLeft(link: Link, c: C.Client, waiting: bool)
    ensures !Succeeds(link, c, c.maxRetries + 1, waiting) && !EverArrives(link, c.maxRetries + 1, c.maxRetries)
  {
  }

  /** The rest of a QoS 2 call, from the head of attempt `t` on. */
  lemma {:induction false} FromAttempt(s: System, link: Link, m: Message, t: int, waiting: bool)
    requires BeforeAttempt(s, link, m, t, waiting)
    ensures var key, c := Key(link.from, m.header.msgId), s.client;
            && Finish(s, link).1 == (if Succeeds(link, c, t, waiting) then 0 else -1)
            && Finish(s, link).0.log == s.log +
                 (if EverArrives(link, t, c.maxRetries) && key !in s.broker.pending
                  then [B.Forward(key, m, link.targets)] else [])
    decreases s.client.maxRetries + 1 - t
  {
    NothingLeft(link, s.client, waiting);
    hide Turn, Opens, Closes, Arrives, Succeeds, EverArrives, C.Polls;
    var c := s.client;
    if t <= c.maxRetries {
      var awaited := waiting || Opens(link, c.timeoutMs, t);
      SucceedsNowOrLater(link, c, t, waiting);
      var s1 := FirstHalf(s, link, m, t, waiting);
      SameLimits(link, c, s1.client, t + 1, awaited);
      if !awaited {
        NotReceived(s1, link, m, t);
        var s2 := Entering(s1, C.Sending(m, t + 1));
        SameLimits(link, c, s2.client, t + 1, false);
        FromAttempt(s2, link, m, t + 1, false);
      } else {
        var s2 := SecondHalf(s1, link, m, t);
        if !Closes(link, c.timeoutMs, t) {
          SameLimits(link, c, s2.client, t + 1, true);
          FromAttempt(s2, link, m, t + 1, true);
        }
      }
    } else {
      Exhausted(s, link, m, t);
    }
  }

  // ---------- QoS 1 ----------

  /** In how many of the attempts from `t` up to `n` PUBLISH arrives. */
  function Arrivals(link: Link, t: int, n: int): nat
    decreases n - t
  {
    if t >= n then 0 else (if Arrives(link, t) then 1 else 0) + Arrivals(link, t + 1, n)
  }

  /** In attempt `t` the publisher gets a copy of its own publication. */
  predicate Echoes(link: Link, t: int) {
    link.from in link.targets && Arrives(link, t) && RoundOf(link.schedule, t).own
  }

  function Echoings(link: Link, t: int, n: int): nat
    decreases n - t
  {
    if t >= n then 0 else (if Echoes(link, t) then 1 else 0) + Echoings(link, t + 1, n)
  }

  /** PUBLISH gets through in attempt `j`, and the ACK before a poll that still happens. */
  predicate Answers(link: Link, timeoutMs: int, j: int) {
    var r := RoundOf(link.schedule, j);
    r.pub && r.ans.Some? && 100 * (r.ans.value + 1) <= timeoutMs
  }

  /** Attempt `j` brings the ACK, in time, into the event queue, which held `queued` events before attempt `t`:
      the publisher's own copies leave a slot. */
  predicate Acked(link: Link, timeoutMs: int, queued: nat, t: int, j: int) {
    Answers(link, timeoutMs, j) && queued + Echoings(link, t, j + 1) < MAX_EVENT_QUEUE_SIZE
  }

  predicate BeforeQos1Attempt(s: System, m: Message, t: int) {
    && B.IsPublish(m) && m.header.qosLevel == QOS_AT_LEAST_ONCE && Serializable(m.topic, m.data, PACKET_SIZE)
    && s.client.phase == C.Sending(m, t) && 0 <= t <= s.client.maxRetries + 1
    && |s.client.queue| <= MAX_EVENT_QUEUE_SIZE && FirstAck(s.client.queue, m.header.msgId) == |s.client.queue|
  }

  /** An event at the end of a queue without ACKs for `msgId`. */
  lemma {:induction false} FirstAckPushed(q: seq<Event>, e: Event, msgId: uint32)
    requires FirstAck(q, msgId) == |q|
    ensures FirstAck(q + [e], msgId) == if IsAck(e, msgId) then |q| else |q| + 1
  {
    if q != [] {
      assert (q + [e])[1..] == q[1..] + [e];
      FirstAckPushed(q[1..], e, msgId);
    } else {
      assert (q + [e])[1..] == [];
    }
  }

  /** One poll for an ACK, of which the queue held none. */
  lemma AckPoll(s: System, link: Link, m: Message, t: int, i: nat)
    requires s.client.phase == C.AwaitingAck(m, t, i) && Expects(s, AckReply(m.header.msgId))
    requires |s.client.queue| <= MAX_EVENT_QUEUE_SIZE && FirstAck(s.client.queue, m.header.msgId) == |s.client.queue|
    ensures var s1 := Turn(s, link);
            var now := && s.coming.Some? && s.coming.value.at == i && 100 * (i + 1) <= s.client.timeoutMs
                       && |s.client.queue| < MAX_EVENT_QUEUE_SIZE;
            && s1.broker == s.broker && s1.log == s.log
            && (now ==> ResultOf(s) == Some(0))
            && (!now ==> (
                  var next := if 100 * (i + 1) <= s.client.timeoutMs then C.AwaitingAck(m, t, i + 1)
                              else C.Sending(m, t + 1);
                  ResultOf(s).None? && s1.client == s.client.(phase := next)))
            && (!now && 100 * (i + 1) <= s.client.timeoutMs ==>
                  s1.coming == if s.coming.Some? && s.coming.value.at == i then None else s.coming)
            && (!now && 100 * (i + 1) > s.client.timeoutMs ==> s1.coming.None?)
  {
    hide FirstAck;
    FirstAckPushed(s.client.queue, Event(MSG_ACK, m.header.msgId, [], []), m.header.msgId);
  }

  /** Polling for an ACK ends the call when it comes in time and finds a slot, and else in the next attempt. */
  lemma {:induction false} AckPolls(s: System, link: Link, m: Message, t: int, i: nat)
    requires s.client.phase == C.AwaitingAck(m, t, i) && Running(s.client) && Expects(s, AckReply(m.header.msgId))
    requires |s.client.queue| <= MAX_EVENT_QUEUE_SIZE && FirstAck(s.client.queue, m.header.msgId) == |s.client.queue|
    ensures var comes := && s.coming.Some? && i <= s.coming.value.at
                         && 100 * (s.coming.value.at + 1) <= s.client.timeoutMs
                         && |s.client.queue| < MAX_EVENT_QUEUE_SIZE;
            && (comes ==> Finish(s, link).1 == 0 && Finish(s, link).0.log == s.log)
            && (!comes ==> Finish(s, link) == Finish(Entering(s, C.Sending(m, t + 1)), link))
    decreases C.Polls(s.client.timeoutMs) - i
  {
    hide Turn, ResultOf, FirstAck;
    AckPoll(s, link, m, t, i);
    var s1 := Turn(s, link);
    if ResultOf(s).None? && s1.client.phase.AwaitingAck? {
      AckPolls(s1, link, m, t, i + 1);
    }
  }

  /** The queue once the publisher's own copy had its chance. */
  function AfterEcho(link: Link, m: Message, t: int, q: seq<Event>): seq<Event>
    requires m.Text?
  {
    if Echoes(link, t) then Pushed(q, Event(MSG_PUBLISH, m.header.msgId, m.topic, m.data)) else q
  }

  lemma EchoKeepsOut(link: Link, m: Message, t: int, q: seq<Event>)
    requires m.Text? && FirstAck(q, m.header.msgId) == |q| <= MAX_EVENT_QUEUE_SIZE
    ensures var q' := AfterEcho(link, m, t, q);
            && FirstAck(q', m.header.msgId) == |q'| <= MAX_EVENT_QUEUE_SIZE
            && (|q'| < MAX_EVENT_QUEUE_SIZE <==> |q| + Echoings(link, t, t + 1) < MAX_EVENT_QUEUE_SIZE)
            && (|q'| < MAX_EVENT_QUEUE_SIZE ==> |q'| == |q| + Echoings(link, t, t + 1))
  {
    FirstAckPushed(q, Event(MSG_PUBLISH, m.header.msgId, Cut(m.topic), m.data), m.header.msgId);
    assert Echoings(link, t + 1, t + 1) == 0;
  }

  /** What the send of attempt `t` does at once. */
  lemma Qos1Sent(s: System, link: Link, m: Message, t: int)
    requires BeforeQos1Attempt(s, m, t) && t <= s.client.maxRetries
    ensures var s1, q, r := Turn(s, link), AfterEcho(link, m, t, s.client.queue), RoundOf(link.schedule, t);
            && s1.client == s.client.(phase := C.AwaitingAck(m, t, 0), queue := q)
            && s1.coming == (if r.pub && r.ans.Some? then Some(Answer(AckReply(m.header.msgId), r.ans.value)) else None)
            && |s1.log| == |s.log| + if Arrives(link, t) then 1 else 0
  {
    hide FirstAck;
  }

  lemma Qos1Attempt(s: System, link: Link, m: Message, t: int)
    requires BeforeQos1Attempt(s, m, t) && t <= s.client.maxRetries
    ensures var acked := Acked(link, s.client.timeoutMs, |s.client.queue|, t, t);
            && (acked ==> Finish(s, link).1 == 0 && |Finish(s, link).0.log| == |s.log| + 1)
            && (!acked ==>
                  var s' := Entering(Turn(s, link), C.Sending(m, t + 1));
                  && BeforeQos1Attempt(s', m, t + 1) && Finish(s, link) == Finish(s', link)
                  && s'.client.maxRetries == s.client.maxRetries && s'.client.timeoutMs == s.client.timeoutMs
                  && s'.client.queue == AfterEcho(link, m, t, s.client.queue)
                  && |s'.log| == |s.log| + if Arrives(link, t) then 1 else 0)
  {
    hide Delivered, Echoings, AfterEcho, FirstAck;
    var s1 := Turn(s, link);
    Qos1Sent(s, link, m, t);
    EchoKeepsOut(link, m, t, s.client.queue);
    assert Finish(s, link) == Finish(s1, link);
    AckPolls(s1, link, m, t, 0);
  }

  /** `n` is the first attempt from `t` on that brings the ACK, or one past the last. */
  predicate FirstAcked(link: Link, timeoutMs: int, queued: nat, t: int, maxRetries: int, n: int) {
    && t <= n <= maxRetries + 1
    && (n <= maxRetries ==> Acked(link, timeoutMs, queued, t, n))
    && forall j :: t <= j < n ==> !Acked(link, timeoutMs, queued, t, j)
  }

  /** `queued'` events after attempt `t`: attempt `t` added the publisher's own copy if there was room. */
  predicate Refilled(link: Link, queued: nat, t: int, queued': nat) {
    if queued + Echoings(link, t, t + 1) < MAX_EVENT_QUEUE_SIZE then queued' == queued + Echoings(link, t, t + 1)
    else queued' >= MAX_EVENT_QUEUE_SIZE
  }

  lemma AckedLater(link: Link, timeoutMs: int, queued: nat, t: int, j: int, queued': nat)
    requires t < j && Refilled(link, queued, t, queued')
    ensures Acked(link, timeoutMs, queued, t, j) <==> Acked(link, timeoutMs, queued', t + 1, j)
  {
    assert Echoings(link, t + 1, t + 1) == 0;
  }

  lemma FirstAckedLater(link: Link, timeoutMs: int, queued: nat, t: int, maxRetries: int, n: int, queued': nat)
    requires FirstAcked(link, timeoutMs, queued, t, maxRetries, n) && t < n && Refilled(link, queued, t, queued')
    ensures FirstAcked(link, timeoutMs, queued', t + 1, maxRetries, n)
  {
    hide Acked;
    AckedLater(link, timeoutMs, queued, t, n, queued');
    var u := t + 1;
    forall j | u <= j < n ensures !Acked(link, timeoutMs, queued', u, j) {
      AckedLater(link, timeoutMs, queued, t, j, queued');
      assert !Acked(link, timeoutMs, queued, t, j);
    }
  }

  lemma {:induction false} FromQos1Attempt(s: System, link: Link, m: Message, t: int, n: int)
    requires BeforeQos1Attempt(s, m, t)
    requires FirstAcked(link, s.client.timeoutMs, |s.client.queue|, t, s.client.maxRetries, n)
    ensures Finish(s, link).1 == (if n <= s.client.maxRetries then 0 else -1)
    ensures |Finish(s, link).0.log| == |s.log| + Arrivals(link, t, n) + if n <= s.client.maxRetries then 1 else 0
    decreases s.client.maxRetries + 1 - t
  {
    hide Turn, Answers, C.Polls, FirstAck, Acked, AfterEcho;
    var q := s.client.queue;
    if t <= s.client.maxRetries {
      Qos1Attempt(s, link, m, t);
      if t < n {
        var s' := Entering(Turn(s, link), C.Sending(m, t + 1));
        EchoKeepsOut(link, m, t, q);
        FirstAckedLater(link, s.client.timeoutMs, |q|, t, s.client.maxRetries, n, |s'.client.queue|);
        FromQos1Attempt(s', link, m, t + 1, n);
      }
    } else {
      Exhausted(s, link, m, t);
    }
  }

  // ---------- QoS 0 ----------

  /** One send, whose result is the call's: the message is forwarded iff that one packet arrives. */
  lemma Qos0Attempt(s: System, link: Link, m: Message)
    requires B.IsPublish(m) && m.header.qosLevel == QOS_AT_MOST_ONCE && s.client.phase == C.Sending(m, 0)
    ensures Finish(s, link).1 == if s.client.maxRetries >= 0 then 0 else -1
    ensures |Finish(s, link).0.log| == |s.log| + if s.client.maxRetries >= 0 && Arrives(link, 0) then 1 else 0
  {
  }

  // ---------- whole calls ----------

  /** `slimmq_publish` from its first line on, when its packet fits the buffer. */
  function Publish(c: C.Client, b: B.Broker, link: Link, topic: seq<byte>, data: seq<byte>): (System, int)
    requires c.nextId < 0x1_0000_0000 && Serializable(topic, data, PACKET_SIZE) && c.qos <= QOS_EXACTLY_ONCE
  {
    Finish(System(C.StartPublish(c, topic, data).client, b, [], None), link)
  }

  /** The client and the broker know nothing of this id yet. */
  predicate FreshId(c: C.Client, b: B.Broker, from: Address) {
    && c.nextId < 0x1_0000_0000 && Key(from, c.nextId) !in b.pending
    && c.nextId !in c.states && FirstAck(c.queue, c.nextId) == |c.queue|
  }

  /** In some attempt PUBLISH gets through and RECEIVED comes in time for the check, and in the same or a later
      one RELEASE gets through and COMPLETE comes in time for a poll. */
  ghost predicate ClosedInTime(timeoutMs: int, maxRetries: int, link: Link) {
    exists j, k :: 0 <= j <= k <= maxRetries && Opens(link, timeoutMs, j) && Closes(link, timeoutMs, k)
  }

  /** The exact success condition at QoS 2, and how often the message is forwarded, for every timeout and
      retry limit. So a lost COMPLETE can be made up for, although the broker stays silent on the repeated
      PUBLISH. */
  lemma ExactlyOnceSchedule(c: C.Client, b: B.Broker, link: Link, topic: seq<byte>, data: seq<byte>)
    requires FreshId(c, b, link.from) && Serializable(topic, data, PACKET_SIZE) && c.qos == QOS_EXACTLY_ONCE
    ensures var (s, rc) := Publish(c, b, link, topic, data);
            && rc == (if ClosedInTime(c.timeoutMs, c.maxRetries, link) then 0 else -1)
            && |s.log| == if exists j :: 0 <= j <= c.maxRetries && Arrives(link, j) then 1 else 0
  {
    hide Opens, Closes;
    var m := Publication(c.qos, c.nextId, topic, data);
    var s := System(C.StartPublish(c, topic, data).client, b, [], None);
    assert EverArrives(link, 0, c.maxRetries) <==> exists j :: 0 <= j <= c.maxRetries && Arrives(link, j);
    if c.maxRetries < 0 {
      Exhausted(s, link, m, 0);
    } else {
      FromAttempt(s, link, m, 0, false);
      SameLimits(link, c, s.client, 0, false);
      if Succeeds(link, c, 0, false) {
        var k :| && 0 <= k <= c.maxRetries && Closes(link, c.timeoutMs, k)
                 && exists j :: 0 <= j <= k && Opens(link, c.timeoutMs, j);
        var j :| 0 <= j <= k && Opens(link, c.timeoutMs, j);
        assert Opens(link, c.timeoutMs, j) && Closes(link, c.timeoutMs, k);
      }
    }
  }

  /** "-1 means not delivered" is false, and this is exactly when: a QoS 2 call fails although its message
      was forwarded iff a PUBLISH arrives in some attempt and no handshake is closed in time. */
  lemma FailureAfterForward(c: C.Client, b: B.Broker, link: Link, topic: seq<byte>, data: seq<byte>)
    requires FreshId(c, b, link.from) && Serializable(topic, data, PACKET_SIZE) && c.qos == QOS_EXACTLY_ONCE
    ensures var (s, rc) := Publish(c, b, link, topic, data);
            (rc == -1 && |s.log| == 1) <==>
            ((exists j :: 0 <= j <= c.maxRetries && Arrives(link, j)) && !ClosedInTime(c.timeoutMs, c.maxRetries, link))
  {
    ExactlyOnceSchedule(c, b, link, topic, data);
  }

  /** Three such calls: the only COMPLETE is lost; it comes after the last poll; and everything comes at once,
      but the timeout is still the zero that `slimmq_connect` leaves. */
  lemma FailureDoesNotMeanUndelivered(c: C.Client, b: B.Broker, link: Link, topic: seq<byte>, data: seq<byte>)
    requires FreshId(c, b, link.from) && Serializable(topic, data, PACKET_SIZE) && c.qos == QOS_EXACTLY_ONCE
    requires c.maxRetries == 0
    requires || link.schedule == [Round(true, true, Some(0), true, None)]
             || (c.timeoutMs == 1000 && link.schedule == [Round(true, true, Some(0), true, Some(10))])
             || (c.timeoutMs == 0 && link.schedule == [Round(true, true, Some(0), true, Some(0))])
    ensures var (s, rc) := Publish(c, b, link, topic, data); rc == -1 && |s.log| == 1
  {
    ExactlyOnceSchedule(c, b, link, topic, data);
    assert Arrives(link, 0);
  }

  /** The first attempt whose ACK a poll finds, or one past the last. */
  predicate Confirmed(c: C.Client, link: Link, n: int) {
    if c.maxRetries < 0 then n == c.maxRetries + 1
    else FirstAcked(link, c.timeoutMs, |c.queue|, 0, c.maxRetries, n)
  }

  /** QoS 1: the call succeeds with the first attempt that gets PUBLISH through and whose ACK comes in time for
      a poll and finds a slot in the event queue, behind the copies of its own publication that the publisher
      may have been sent; it fails if there is none. Besides that attempt, the message was forwarded once for
      each earlier one whose PUBLISH arrived, its ACK being lost, late, or finding the queue full. */
  lemma AtLeastOnceSchedule(c: C.Client, b: B.Broker, link: Link, topic: seq<byte>, data: seq<byte>, n: int)
    requires FreshId(c, b, link.from) && Serializable(topic, data, PACKET_SIZE) && c.qos == QOS_AT_LEAST_ONCE
    requires |c.queue| <= MAX_EVENT_QUEUE_SIZE && Confirmed(c, link, n)
    ensures var (s, rc) := Publish(c, b, link, topic, data);
            && rc == (if n <= c.maxRetries then 0 else -1)
            && |s.log| == Arrivals(link, 0, n) + if n <= c.maxRetries then 1 else 0
  {
    hide Answers;
    var m := Publication(c.qos, c.nextId, topic, data);
    var s := System(C.StartPublish(c, topic, data).client, b, [], None);
    if c.maxRetries < 0 {
      Exhausted(s, link, m, 0);
    } else {
      FromQos1Attempt(s, link, m, 0, n);
    }
  }

  /** An ACK that counts: in some attempt PUBLISH gets through and the ACK comes in time for a poll, while the
      queue, with the publisher's own copies up to then, has room. */
  ghost predicate AckedInTime(timeoutMs: int, maxRetries: int, queued: nat, link: Link) {
    exists j :: 0 <= j <= maxRetries && Answers(link, timeoutMs, j)
                && queued + Echoings(link, 0, j + 1) < MAX_EVENT_QUEUE_SIZE
  }

  /** The same as a condition on the schedule alone. */
  lemma AtLeastOnceCondition(c: C.Client, b: B.Broker, link: Link, topic: seq<byte>, data: seq<byte>)
    requires FreshId(c, b, link.from) && Serializable(topic, data, PACKET_SIZE) && c.qos == QOS_AT_LEAST_ONCE
    requires |c.queue| <= MAX_EVENT_QUEUE_SIZE
    ensures Publish(c, b, link, topic, data).1
         == if AckedInTime(c.timeoutMs, c.maxRetries, |c.queue|, link) then 0 else -1
  {
    hide Answers;
    var n := SomeConfirmed(c, link);
    AtLeastOnceSchedule(c, b, link, topic, data, n);
    if 0 <= n <= c.maxRetries {
      assert Acked(link, c.timeoutMs, |c.queue|, 0, n) && Answers(link, c.timeoutMs, n);
    }
    forall j | && 0 <= j <= c.maxRetries && Answers(link, c.timeoutMs, j)
               && |c.queue| + Echoings(link, 0, j + 1) < MAX_EVENT_QUEUE_SIZE
      ensures Acked(link, c.timeoutMs, |c.queue|, 0, j)
    {
    }
  }

  lemma SomeConfirmed(c: C.Client, link: Link) returns (n: int)
    ensures Confirmed(c, link, n)
  {
    n := 0;
    if c.maxRetries < 0 {
      n := c.maxRetries + 1;
    } else {
      while n <= c.maxRetries && !Acked(link, c.timeoutMs, |c.queue|, 0, n)
        invariant 0 <= n <= c.maxRetries + 1
        invariant forall j :: 0 <= j < n ==> !Acked(link, c.timeoutMs, |c.queue|, 0, j)
      {
        n := n + 1;
      }
    }
  }

  /** QoS 0: with a retry limit that allows the one attempt, the call returns 0, and the message is forwarded
      iff its packet arrives; with a negative limit it returns -1 and nothing is sent. */
  lemma AtMostOnceSchedule(c: C.Client, b: B.Broker, link: Link, topic: seq<byte>, data: seq<byte>)
    requires FreshId(c, b, link.from) && Serializable(topic, data, PACKET_SIZE) && c.qos == QOS_AT_MOST_ONCE
    ensures var (s, rc) := Publish(c, b, link, topic, data);
            && rc == (if c.maxRetries >= 0 then 0 else -1)
            && |s.log| == if c.maxRetries >= 0 && Arrives(link, 0) then 1 else 0
  {
    var m := Publication(c.qos, c.nextId, topic, data);
    Qos0Attempt(System(C.StartPublish(c, topic, data).client, b, [], None), link, m);
  }

  /** A publisher subscribed to its own topic can fail although nothing is lost or late: with one slot left in
      its queue, its own copy takes the place of the ACK. */
  lemma OwnCopyCrowdsOutAck(c: C.Client, b: B.Broker, link: Link, topic: seq<byte>, data: seq<byte>)
    requires FreshId(c, b, link.from) && Serializable(topic, data, PACKET_SIZE) && c.qos == QOS_AT_LEAST_ONCE
    requires |c.queue| == MAX_EVENT_QUEUE_SIZE - 1 && link.from in link.targets && c.maxRetries == 0
    requires link.schedule == [Round(true, true, Some(0), true, Some(0))]
    ensures var (s, rc) := Publish(c, b, link, topic, data); rc == -1 && |s.log| == 1
  {
    assert Echoes(link, 0) && Echoings(link, 0, 1) == 1 + Echoings(link, 1, 1);
    assert !Acked(link, c.timeoutMs, |c.queue|, 0, 0);
    AtLeastOnceSchedule(c, b, link, topic, data, 1);
    assert Arrivals(link, 0, 1) == 1 + Arrivals(link, 1, 1);
  }
}
