/** What the waits of `slimmq_publish` find, poll by poll, and what the handshake table remembers of the
    messages heard in between. */
module Waits {
  import opened Bytes
  import opened Wrappers
  import opened Codec
  import opened Messages
  import opened EventQueues
  import C = ClientModel
  import Q = Qos2Tables

  // ---------- what the listener heard ----------

  /** The client after hearing these messages, with memory for every event. */
  function HeardAll(c: C.Client, heard: seq<Message>): C.Client {
    if heard == [] then c else C.Listen(HeardAll(c, heard[..|heard| - 1]), heard[|heard| - 1], true)
  }

  predicate IsReceived(m: Message, id: uint32) {
    m.Control? && m.header.msgId == id && m.kind == CONTROL_RECEIVED
  }

  predicate IsComplete(m: Message, id: uint32) {
    m.Control? && m.header.msgId == id && m.kind == CONTROL_COMPLETE
  }

  /** `heard[n]` is the last RECEIVED or COMPLETE for `id`. */
  predicate LastStep(heard: seq<Message>, id: uint32, n: nat) {
    && n < |heard| && (IsReceived(heard[n], id) || IsComplete(heard[n], id))
    && forall k :: n < k < |heard| ==> !IsReceived(heard[k], id) && !IsComplete(heard[k], id)
  }

  predicate NoStep(heard: seq<Message>, id: uint32) {
    forall m :: m in heard ==> !IsReceived(m, id) && !IsComplete(m, id)
  }

  lemma HeardOne(c: C.Client, m: Message, id: uint32)
    ensures Q.Lookup(C.Listen(c, m, true).states, id) ==
              if IsReceived(m, id) then Q.WaitComplete
              else if IsComplete(m, id) then Q.Completed
              else Q.Lookup(c.states, id)
    ensures C.Listen(c, m, true).phase == c.phase
    ensures C.Listen(c, m, true).timeoutMs == c.timeoutMs && C.Listen(c, m, true).maxRetries == c.maxRetries
  {
  }

  lemma {:induction false} HearingKeeps(c: C.Client, heard: seq<Message>)
    ensures HeardAll(c, heard).phase == c.phase
    ensures HeardAll(c, heard).timeoutMs == c.timeoutMs && HeardAll(c, heard).maxRetries == c.maxRetries
  {
    hide C.Listen;
    if heard != [] {
      HearingKeeps(c, heard[..|heard| - 1]);
      HeardOne(HeardAll(c, heard[..|heard| - 1]), heard[|heard| - 1], 0);
    }
  }

  lemma {:induction false} NoStepKeeps(c: C.Client, heard: seq<Message>, id: uint32)
    requires NoStep(heard, id)
    ensures Q.Lookup(HeardAll(c, heard).states, id) == Q.Lookup(c.states, id)
  {
    hide C.Listen;
    if heard != [] {
      NoStepKeeps(c, heard[..|heard| - 1], id);
      HeardOne(HeardAll(c, heard[..|heard| - 1]), heard[|heard| - 1], id);
    }
  }

  /** Whatever was heard, in whatever order: the entry of an id is that of the last RECEIVED or COMPLETE for
      it (and what it was before if there is none). So a late RECEIVED undoes a COMPLETE. */
  lemma {:induction false} LastHeardCounts(c: C.Client, heard: seq<Message>, id: uint32, n: nat)
    requires LastStep(heard, id, n)
    ensures Q.Lookup(HeardAll(c, heard).states, id) == if IsReceived(heard[n], id) then Q.WaitComplete else Q.Completed
    ensures HeardAll(c, heard).phase == c.phase && HeardAll(c, heard).timeoutMs == c.timeoutMs
  {
    hide C.Listen;
    HearingKeeps(c, heard);
    var last := |heard| - 1;
    HeardOne(HeardAll(c, heard[..last]), heard[last], id);
    if n < last {
      assert LastStep(heard[..last], id, n);
      LastHeardCounts(c, heard[..last], id, n);
    }
  }

  /** The events of these messages: an ACK's has no topic and no data, a publication's has its topic cut to 127
      bytes; SUBSCRIBE, CONTROL and messages of unknown types have none. */
  function EventsOf(heard: seq<Message>): (events: seq<Event>)
    ensures |events| <= |heard|
  {
    if heard == [] then []
    else
      var m := heard[|heard| - 1];
      EventsOf(heard[..|heard| - 1])
      + if m.Ack? then [Event(MSG_ACK, m.header.msgId, [], [])]
        else if m.Text? && m.header.msgType == MSG_PUBLISH then
          [Event(MSG_PUBLISH, m.header.msgId, Cut(m.topic), m.data)]
        else []
  }

  /** As many as there are free slots. */
  function Fitting(queued: nat, events: seq<Event>): seq<Event> {
    if queued + |events| <= MAX_EVENT_QUEUE_SIZE then events
    else if queued < MAX_EVENT_QUEUE_SIZE then events[..MAX_EVENT_QUEUE_SIZE - queued]
    else []
  }

  /** With nobody taking events out, the queue gains the events of the messages heard, in order, up to 128 of them
      in all; what comes later is lost. */
  lemma {:induction false} HeardEventsQueue(c: C.Client, heard: seq<Message>)
    requires |c.queue| <= MAX_EVENT_QUEUE_SIZE
    ensures HeardAll(c, heard).queue == c.queue + Fitting(|c.queue|, EventsOf(heard))
  {
    if heard != [] {
      HeardEventsQueue(c, heard[..|heard| - 1]);
    }
  }

  // ---------- sends that fail ----------

  /** A publication that cannot be sent ends the call at once, at every QoS level. A RELEASE that cannot be sent
      is as good as lost on the way: the client waits for COMPLETE all the same. No other step sends. */
  lemma FailedSends(c: C.Client)
    ensures c.phase.Sending? ==> (
              var o := C.Tick(c, false);
              && o.sent.None? && o.returned == Some(-1) && o.client == c.(phase := C.Idle)
              && (C.Tick(c, true).sent.Some? <==> c.phase.tries <= c.maxRetries))
    ensures c.phase.Releasing? ==>
              C.Tick(c, true).sent.Some? && C.Tick(c, false) == C.Tick(c, true).(sent := None)
    ensures !c.phase.Sending? && !c.phase.Releasing? ==>
              C.Tick(c, true).sent.None? && C.Tick(c, false) == C.Tick(c, true)
  {
  }

  // ---------- the waits ----------

  /** The wait for an ACK looks at the queue once every 100 ms while the timeout lasts: poll `i` takes the
      first ACK of the call's id if there is one, and the call returns 0; otherwise the next poll follows.
      When the timeout is over the next attempt does. */
  lemma AckWait(c: C.Client) returns (n: nat)
    requires c.phase.AwaitingAck?
    ensures n <= |c.queue| && forall k :: 0 <= k < n ==> !IsAck(c.queue[k], c.phase.m.header.msgId)
    ensures n < |c.queue| ==> c.queue[n].msgType == MSG_ACK && c.queue[n].msgId == c.phase.m.header.msgId
    ensures var o, ph := C.Tick(c, true), c.phase;
            && o.sent.None?
            && (100 * (ph.i + 1) <= c.timeoutMs && n < |c.queue| ==>
                  && o.returned == Some(0)
                  && o.client == c.(queue := c.queue[..n] + c.queue[n + 1..], phase := C.Idle))
            && (100 * (ph.i + 1) <= c.timeoutMs && n == |c.queue| ==>
                  o.client == c.(phase := C.AwaitingAck(ph.m, ph.tries, ph.i + 1)) && o.returned.None?)
            && (100 * (ph.i + 1) > c.timeoutMs ==>
                  o.client == c.(phase := C.Sending(ph.m, ph.tries + 1)) && o.returned.None?)
  {
    n := FirstAck(c.queue, c.phase.m.header.msgId);
  }

  /** The wait for RECEIVED ends, and the check follows, with the first poll that finds the id waiting to
      complete, and else when the timeout is over. */
  lemma ReceivedWait(c: C.Client)
    requires c.phase.AwaitingReceived?
    ensures var o, ph := C.Tick(c, true), c.phase;
            var there := Q.Lookup(c.states, ph.m.header.msgId) == Q.WaitComplete;
            && o.sent.None? && o.returned.None?
            && o.client == c.(phase := if 100 * (ph.i + 1) <= c.timeoutMs && !there
                                       then C.AwaitingReceived(ph.m, ph.tries, ph.i + 1)
                                       else C.CheckingReceived(ph.m, ph.tries))
  {
  }

  /** The wait for COMPLETE is over with the first poll that finds the id completed; when the timeout is over
      the next attempt follows. */
  lemma CompleteWait(c: C.Client)
    requires c.phase.AwaitingComplete?
    ensures var o, ph := C.Tick(c, true), c.phase;
            var there := Q.Lookup(c.states, ph.m.header.msgId) == Q.Completed;
            && o.sent.None? && o.returned.None?
            && o.client == c.(phase := if 100 * (ph.i + 1) > c.timeoutMs then C.Sending(ph.m, ph.tries + 1)
                                       else if there then C.Forgetting(ph.m)
                                       else C.AwaitingComplete(ph.m, ph.tries, ph.i + 1))
  {
  }

  /** So a poll ends the wait for COMPLETE iff the timeout lasts and, of the handshake messages heard for this
      id since any earlier point, the last was a COMPLETE. */
  lemma CompletePoll(c: C.Client, heard: seq<Message>, n: nat)
    requires c.phase.AwaitingComplete? && LastStep(heard, c.phase.m.header.msgId, n)
    ensures C.Tick(HeardAll(c, heard), true).client.phase == C.Forgetting(c.phase.m) <==>
              100 * (c.phase.i + 1) <= c.timeoutMs && IsComplete(heard[n], c.phase.m.header.msgId)
  {
    LastHeardCounts(c, heard, c.phase.m.header.msgId, n);
    CompleteWait(HeardAll(c, heard));
  }

  /** And the check after the wait for RECEIVED goes on to the RELEASE iff the last was a RECEIVED: a COMPLETE
      that came too late for its own wait makes this attempt fail. */
  lemma ReceivedCheck(c: C.Client, heard: seq<Message>, n: nat)
    requires c.phase.CheckingReceived? && LastStep(heard, c.phase.m.header.msgId, n)
    ensures C.Tick(HeardAll(c, heard), true).client.phase ==
              if IsReceived(heard[n], c.phase.m.header.msgId) then C.Releasing(c.phase.m, c.phase.tries)
              else C.Sending(c.phase.m, c.phase.tries + 1)
  {
    LastHeardCounts(c, heard, c.phase.m.header.msgId, n);
  }

  /** A COMPLETE heard and a later RECEIVED heard before the poll: this poll does not end the call. */
  lemma LateReceivedUndoesComplete(c: C.Client, complete: Message, received: Message)
    requires c.phase.AwaitingComplete?
    requires IsComplete(complete, c.phase.m.header.msgId) && IsReceived(received, c.phase.m.header.msgId)
    ensures var c' := HeardAll(c, [complete, received]);
            && Q.Lookup(c'.states, c.phase.m.header.msgId) == Q.WaitComplete
            && !C.Tick(c', true).client.phase.Forgetting? && C.Tick(c', true).returned.None?
    ensures 100 * (c.phase.i + 1) <= c.timeoutMs ==>
              C.Tick(HeardAll(c, [received, complete]), true).client.phase == C.Forgetting(c.phase.m)
  {
    var id := c.phase.m.header.msgId;
    assert LastStep([complete, received], id, 1) && LastStep([received, complete], id, 1);
    LastHeardCounts(c, [complete, received], id, 1);
    LastHeardCounts(c, [received, complete], id, 1);
    CompleteWait(HeardAll(c, [complete, received]));
    CompleteWait(HeardAll(c, [received, complete]));
  }
}
