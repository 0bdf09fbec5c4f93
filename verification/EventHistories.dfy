/** What happens to events over any interleaving of the queue's three operations. */
module EventHistories {
  import opened Bytes
  import opened Codec
  import opened EventQueues

  /** One completed call. A push of an event with data also needs its allocation to succeed; a pop
      completes only when there is something to pop. */
  datatype Op = Push(e: Event, mallocOk: bool) | Pop | WaitAck(msgId: uint32)

  /** The queue, and what went in and out of it so far. */
  datatype History = History(
    queue: seq<Event>,
    accepted: seq<Event>,
    popped: seq<Event>,
    acked: seq<Event>)

  function After(h: History, op: Op): History {
    match op
    case Push(e, mallocOk) =>
      if |h.queue| < MAX_EVENT_QUEUE_SIZE && (e.payload == [] || mallocOk) then
        h.(queue := Pushed(h.queue, e), accepted := h.accepted + [e.(topic := Cut(e.topic))])
      else h
    case Pop =>
      if h.queue == [] then h else h.(queue := h.queue[1..], popped := h.popped + [h.queue[0]])
    case WaitAck(msgId) =>
      var i := FirstAck(h.queue, msgId);
      if i < |h.queue| then h.(queue := AckTaken(h.queue, msgId), acked := h.acked + [h.queue[i]]) else h
  }

  function Run(ops: seq<Op>): History {
    if ops == [] then History([], [], [], []) else After(Run(ops[..|ops| - 1]), ops[|ops| - 1])
  }

  /** Everything but the acknowledgements, in order. */
  function Messages(events: seq<Event>): seq<Event> {
    if events == [] then []
    else
      var rest := Messages(events[1..]);
      if events[0].msgType == MSG_ACK then rest else [events[0]] + rest
  }

  lemma {:induction false} MessagesConcat(a: seq<Event>, b: seq<Event>)
    ensures Messages(a + b) == Messages(a) + Messages(b)
  {
    if a == [] {
      assert a + b == b;
    } else {
      assert (a + b)[1..] == a[1..] + b;
      MessagesConcat(a[1..], b);
    }
  }

  lemma MessagesWithoutAck(q: seq<Event>, i: nat)
    requires i < |q| && q[i].msgType == MSG_ACK
    ensures Messages(Without(q, i)) == Messages(q)
  {
    hide Messages;
    var before, behind := q[..i], q[i + 1..];
    assert q == before + ([q[i]] + behind);
    MessagesConcat(before, [q[i]] + behind);
    MessagesConcat([q[i]], behind);
    MessagesConcat(before, behind);
    AckIsNoMessage(q[i]);
    assert [] + Messages(behind) == Messages(behind);
  }

  lemma AckIsNoMessage(e: Event)
    requires e.msgType == MSG_ACK
    ensures Messages([e]) == []
  {
    assert Messages([e]) == Messages([e][1..]);
  }

  lemma CountWithout(q: seq<Event>, i: nat)
    requires i < |q|
    ensures multiset(q) == multiset(Without(q, i)) + multiset{q[i]}
  {
    assert q == q[..i] + [q[i]] + q[i + 1..];
  }

  lemma CountSnoc(q: seq<Event>, e: Event)
    ensures multiset(q + [e]) == multiset(q) + multiset{e}
  {
  }

  ghost predicate InOrder(h: History) {
    Messages(h.accepted) == Messages(h.popped) + Messages(h.queue)
  }

  ghost predicate Conserved(h: History) {
    && multiset(h.accepted) == multiset(h.popped) + multiset(h.acked) + multiset(h.queue)
    && forall k :: 0 <= k < |h.acked| ==> h.acked[k].msgType == MSG_ACK
  }

  lemma StepKeepsOrder(h: History, op: Op)
    requires InOrder(h)
    ensures InOrder(After(h, op))
  {
    var q := h.queue;
    match op
    case Push(e, mallocOk) =>
      var stored := e.(topic := Cut(e.topic));
      MessagesConcat(h.accepted, [stored]);
      MessagesConcat(q, [stored]);
    case Pop =>
      if q != [] {
        assert q == [q[0]] + q[1..];
        MessagesConcat([q[0]], q[1..]);
        MessagesConcat(h.popped, [q[0]]);
      }
    case WaitAck(msgId) =>
      var i := FirstAck(q, msgId);
      if i < |q| {
        MessagesWithoutAck(q, i);
      }
  }

  lemma AckIsConserved(h: History, msgId: uint32)
    requires Conserved(h)
    ensures Conserved(After(h, WaitAck(msgId)))
  {
    var i := FirstAck(h.queue, msgId);
    if i < |h.queue| {
      var e := h.queue[i];
      CountWithout(h.queue, i);
      CountSnoc(h.acked, e);
    }
  }

  lemma PushIsConserved(h: History, e: Event, mallocOk: bool)
    requires Conserved(h)
    ensures Conserved(After(h, Push(e, mallocOk)))
  {
    CountSnoc(h.queue, e.(topic := Cut(e.topic)));
    CountSnoc(h.accepted, e.(topic := Cut(e.topic)));
  }

  lemma PopIsConserved(h: History)
    requires Conserved(h)
    ensures Conserved(After(h, Pop))
  {
    if h.queue != [] {
      CountWithout(h.queue, 0);
      assert Without(h.queue, 0) == h.queue[1..];
      CountSnoc(h.popped, h.queue[0]);
    }
  }

  lemma StepConserves(h: History, op: Op)
    requires Conserved(h)
    ensures Conserved(After(h, op))
  {
    hide Conserved, After;
    match op
    case Push(e, mallocOk) => PushIsConserved(h, e, mallocOk);
    case Pop => PopIsConserved(h);
    case WaitAck(msgId) => AckIsConserved(h, msgId);
  }

  /** First in, first out: whatever acknowledgements are picked out in between, the accepted messages
      are the popped ones followed by the queued ones, in order. */
  lemma {:induction false} MessagesFirstInFirstOut(ops: seq<Op>)
    ensures InOrder(Run(ops))
  {
    if ops != [] {
      MessagesFirstInFirstOut(ops[..|ops| - 1]);
      StepKeepsOrder(Run(ops[..|ops| - 1]), ops[|ops| - 1]);
    }
  }

  /** Conservation: every accepted event is popped, taken as an acknowledgement or still queued, each
      exactly once; only acknowledgements are taken. The ring never holds more than its 128 slots. */
  lemma {:induction false} EventsAreConserved(ops: seq<Op>)
    ensures Conserved(Run(ops)) && |Run(ops).queue| <= MAX_EVENT_QUEUE_SIZE
  {
    if ops != [] {
      EventsAreConserved(ops[..|ops| - 1]);
      StepConserves(Run(ops[..|ops| - 1]), ops[|ops| - 1]);
    }
  }
}
