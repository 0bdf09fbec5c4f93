/** The client's event queue: a 128-slot ring with pushes at the tail, pops at the head and, for
    acknowledgements, removal from the middle. */
module EventQueues {
  import opened Bytes
  import opened Codec
  import opened Lists

  const MAX_TOPIC_LEN := 128
  const MAX_EVENT_QUEUE_SIZE := 128

  /** An event as a value. */
  datatype Event = Event(msgType: byte, msgId: uint32, topic: seq<byte>, payload: seq<byte>)

  /** A slot of the ring; `data` is the event's own heap buffer, null when the payload is empty. */
  datatype Slot = Slot(msgType: byte, msgId: uint32, topic: seq<byte>, data: array?<byte>, dataLen: nat)

  /** `strncpy` into a 128-byte field whose last byte is then cleared. */
  function Cut(topic: seq<byte>): (t: seq<byte>)
    ensures t <= topic && |t| < MAX_TOPIC_LEN
    ensures |topic| < MAX_TOPIC_LEN ==> t == topic
  {
    if |topic| < MAX_TOPIC_LEN then topic else topic[..MAX_TOPIC_LEN - 1]
  }

  // ---------- the queue as a sequence ----------

  predicate IsAck(e: Event, msgId: uint32) {
    e.msgType == MSG_ACK && e.msgId == msgId
  }

  /** The place of the first acknowledgement of `msgId`, or the length when there is none. */
  function FirstAck(q: seq<Event>, msgId: uint32): (i: nat)
    ensures i <= |q|
    ensures forall j :: 0 <= j < i ==> !IsAck(q[j], msgId)
    ensures i < |q| ==> IsAck(q[i], msgId)
  {
    if q == [] || IsAck(q[0], msgId) then 0 else 1 + FirstAck(q[1..], msgId)
  }

  function Without<T>(q: seq<T>, i: nat): seq<T> {
    if i < |q| then q[..i] + q[i + 1..] else q
  }

  function Pushed(q: seq<Event>, e: Event): seq<Event> {
    if |q| < MAX_EVENT_QUEUE_SIZE then q + [e.(topic := Cut(e.topic))] else q
  }

  function AckTaken(q: seq<Event>, msgId: uint32): seq<Event> {
    Without(q, FirstAck(q, msgId))
  }

  // ---------- ring arithmetic ----------

  function RingIndex(head: nat, i: nat): (k: nat)
    requires head < MAX_EVENT_QUEUE_SIZE && i <= MAX_EVENT_QUEUE_SIZE
    ensures k < MAX_EVENT_QUEUE_SIZE && k == (head + i) % MAX_EVENT_QUEUE_SIZE
  {
    if head + i < MAX_EVENT_QUEUE_SIZE then head + i else head + i - MAX_EVENT_QUEUE_SIZE
  }

  // ---------- ownership of the data buffers ----------

  type Buffers = seq<array?<byte>>

  ghost predicate Apart(owned: Buffers, i: nat, j: nat)
    requires i < |owned| && j < |owned|
  {
    owned[i] != null ==> owned[i] != owned[j]
  }

  /** No two live slots share a data buffer. */
  ghost predicate NoSharing(owned: Buffers) {
    forall i, j {:trigger Apart(owned, i, j)} :: 0 <= i < j < |owned| ==> Apart(owned, i, j)
  }

  ghost function Live(owned: Buffers): set<array<byte>> {
    set d: array?<byte> | d in owned && d != null
  }

  lemma NoSharingWithout(owned: Buffers, i: nat)
    requires NoSharing(owned) && i < |owned|
    ensures NoSharing(Without(owned, i))
    ensures owned[i] != null ==> Live(Without(owned, i)) == Live(owned) - {owned[i]}
    ensures owned[i] == null ==> Live(Without(owned, i)) == Live(owned)
  {
    var less := Without(owned, i);
    forall j, k | 0 <= j < k < |less| ensures Apart(less, j, k) {
      assert Apart(owned, if j < i then j else j + 1, if k < i then k else k + 1);
    }
    forall j | 0 <= j < |owned| && j != i && owned[i] != null ensures owned[j] != owned[i] {
      assert if j < i then Apart(owned, j, i) else Apart(owned, i, j);
    }
    forall d: array?<byte> | d in owned && d != owned[i] ensures d in less {
      var j :| 0 <= j < |owned| && owned[j] == d;
      assert less[if j < i then j else j - 1] == d;
    }
  }

  lemma NoSharingPush(owned: Buffers, d: array?<byte>)
    requires NoSharing(owned) && (d == null || d !in owned)
    ensures NoSharing(owned + [d])
    ensures Live(owned + [d]) == Live(owned) + if d == null then {} else {d}
  {
    forall j, k | 0 <= j < k < |owned| + 1 ensures Apart(owned + [d], j, k) {
      if k < |owned| {
        assert Apart(owned, j, k);
      }
    }
  }

  /** Every buffer allocated so far is live, given away or freed: exactly one of the three, and freed at
      most once. */
  ghost predicate Accounted(owned: Buffers, mallocs: set<array<byte>>, popped: set<array<byte>>,
                            freed: seq<array<byte>>) {
    && NoSharing(owned)
    && NoRepeats(freed)
    && mallocs == Live(owned) + popped + Members(freed)
    && Live(owned) !! popped !! Members(freed)
  }

  /** Giving the first buffer away keeps the account. */
  lemma HandedOver(owned: Buffers, mallocs: set<array<byte>>, popped: set<array<byte>>, freed: seq<array<byte>>)
    requires Accounted(owned, mallocs, popped, freed) && owned != []
    ensures Accounted(owned[1..], mallocs, popped + if owned[0] == null then {} else {owned[0]}, freed)
  {
    NoSharingWithout(owned, 0);
    assert owned[1..] == Without(owned, 0);
  }

  lemma WithoutAt<T>(q: seq<T>, i: nat)
    requires i < |q|
    ensures |Without(q, i)| == |q| - 1
    ensures forall j :: 0 <= j < |q| - 1 ==> Without(q, i)[j] == q[if j < i then j else j + 1]
  {
  }

  /** Freeing the `i`-th buffer keeps the account. */
  lemma FreedOne(owned: Buffers, mallocs: set<array<byte>>, popped: set<array<byte>>, freed: seq<array<byte>>, i: nat)
    requires Accounted(owned, mallocs, popped, freed) && i < |owned|
    ensures Accounted(Without(owned, i), mallocs, popped, freed + if owned[i] == null then [] else [owned[i]])
  {
    NoSharingWithout(owned, i);
    if owned[i] != null {
      var d: array<byte> := owned[i];
      assert d in Live(owned);
      NoRepeatsSnoc(freed, d);
    } else {
      assert freed + [] == freed;
    }
  }

  // ---------- the ring ----------

  class EventQueue {
    const buffer: array<Slot>
    var head: nat
    var tail: nat
    var count: nat
    ghost var contents: seq<Event>
    ghost var owned: Buffers
    /** All data buffers ever allocated; those given away by pop; those freed, in order. */
    ghost var mallocs: set<array<byte>>
    ghost var popped: set<array<byte>>
    ghost var freed: seq<array<byte>>

    ghost predicate Ring()
      reads this
    {
      && buffer.Length == MAX_EVENT_QUEUE_SIZE
      && head < MAX_EVENT_QUEUE_SIZE && count <= MAX_EVENT_QUEUE_SIZE
      && tail == RingIndex(head, count)
      && |contents| == |owned| == count
    }

    /** The `k`-th live slot holds the `j`-th event of the contents. */
    ghost predicate SlotHolds(j: nat, k: nat)
      reads this, buffer, owned
      requires Ring() && j < count && k < count
    {
      var s, e := buffer[RingIndex(head, k)], contents[j];
      && s.msgType == e.msgType && s.msgId == e.msgId && s.topic == e.topic
      && s.data == owned[j] && s.dataLen == |e.payload|
      && (s.data == null <==> e.payload == [])
      && (s.data != null ==> s.data[..] == e.payload)
    }

    /** Where the `j`-th event is once the gap left by the `i`-th is closed. */
    ghost predicate Shifted(j: nat, i: nat)
      reads this, buffer, owned
      requires Ring() && j < count && i < count && j != i
    {
      SlotHolds(j, if j < i then j else j - 1)
    }

    /** The `i`-th live slot holds the `i`-th event of the contents. */
    ghost predicate Holds(i: nat)
      reads this, buffer, owned
      requires Ring() && i < count
    {
      SlotHolds(i, i)
    }

    ghost predicate Ownership()
      reads this
    {
      Accounted(owned, mallocs, popped, freed)
    }

    ghost predicate Valid()
      reads this, buffer, owned
    {
      && Ring()
      && Ownership()
      && forall i :: 0 <= i < count ==> Holds(i)
    }

    /** `event_queue_init`. */
    constructor ()
      ensures Valid() && contents == [] && fresh(buffer) && owned == []
      ensures mallocs == {} && popped == {} && freed == []
    {
      buffer := new Slot[MAX_EVENT_QUEUE_SIZE](_ => Slot(0, 0, [], null, 0));
      head, tail, count := 0, 0, 0;
      contents, owned := [], [];
      mallocs, popped, freed := {}, {}, [];
    }

    /** `event_queue_push`; `mallocOk` is whether the allocation of the data buffer succeeds. */
    method Push(e: Event, mallocOk: bool) returns (rc: int)
      requires Valid()
      modifies this, buffer
      ensures Valid()
      ensures rc == if |old(contents)| >= MAX_EVENT_QUEUE_SIZE then -1
                    else if e.payload != [] && !mallocOk then -2 else 0
      ensures contents == if rc == 0 then Pushed(old(contents), e) else old(contents)
      ensures old(mallocs) <= mallocs && fresh(mallocs - old(mallocs))
      ensures popped == old(popped) && freed == old(freed)
    {
      if count >= MAX_EVENT_QUEUE_SIZE {
        return -1;
      }
      var idx := tail;
      var data: array?<byte> := null;
      if |e.payload| > 0 && mallocOk {
        var d := new byte[|e.payload|];
        MemCopy(d, 0, e.payload);
        data := d;
      }
      StoreTail(Slot(e.msgType, e.msgId, Cut(e.topic), data, if data == null then 0 else |e.payload|));
      if |e.payload| > 0 && data == null {
        return -2;
      }
      ghost var stored := e.(topic := Cut(e.topic));
      Advance(stored, data);
      rc := 0;
    }

    /** Writes the slot behind the last live one; no live slot is touched. */
    method StoreTail(s: Slot)
      requires Valid() && count < MAX_EVENT_QUEUE_SIZE
      modifies buffer
      ensures Valid() && buffer[tail] == s
    {
      buffer[tail] := s;
      forall i | 0 <= i < count ensures Holds(i) {
        assert old(Holds(i)) && RingIndex(head, i) != tail;
      }
    }

    method Advance(ghost e: Event, data: array?<byte>)
      requires Valid() && count < MAX_EVENT_QUEUE_SIZE
      requires var s := buffer[tail]; s == Slot(e.msgType, e.msgId, e.topic, data, |e.payload|)
      requires data == null <==> e.payload == []
      requires data != null ==> data !in mallocs && data[..] == e.payload
      modifies this
      ensures Valid() && contents == old(contents) + [e]
      ensures mallocs == old(mallocs) + if data == null then {} else {data}
      ensures popped == old(popped) && freed == old(freed)
    {
      assert data != null ==> data !in Live(owned);
      NoSharingPush(owned, data);
      contents := contents + [e];
      owned := owned + [data];
      mallocs := mallocs + if data == null then {} else {data};
      tail := (tail + 1) % MAX_EVENT_QUEUE_SIZE;
      count := count + 1;
      forall i | 0 <= i < count ensures Holds(i) {
        assert i < count - 1 ==> old(Holds(i));
      }
    }

    /** `event_queue_pop`, once it no longer has to wait: hands the head event and its buffer over. */
    method Pop() returns (out: Slot)
      requires Valid() && contents != []
      modifies this
      ensures Valid() && contents == old(contents)[1..]
      ensures var e := old(contents)[0];
              && out.msgType == e.msgType && out.msgId == e.msgId && out.topic == e.topic
              && out.dataLen == |e.payload| && (out.data == null <==> e.payload == [])
              && (out.data != null ==> out.data[..] == e.payload)
      ensures out.data != null ==> out.data in popped
      ensures popped == old(popped) + (if out.data == null then {} else {out.data})
      ensures mallocs == old(mallocs) && freed == old(freed)
    {
      hide Accounted;
      assert Holds(0);
      HandedOver(owned, mallocs, popped, freed);
      var idx := head;
      out := buffer[idx];
      contents := contents[1..];
      owned := owned[1..];
      popped := popped + if out.data == null then {} else {out.data};
      head := (head + 1) % MAX_EVENT_QUEUE_SIZE;
      count := count - 1;
      forall i | 0 <= i < count ensures Holds(i) {
        assert old(Holds(i + 1));
      }
    }

    /** `event_queue_wait_ack`: takes the first acknowledgement of this id out of the queue. */
    method WaitAck(msgId: uint32) returns (rc: int)
      requires Valid()
      modifies this, buffer
      ensures Valid() && contents == AckTaken(old(contents), msgId)
      ensures rc == if FirstAck(old(contents), msgId) < |old(contents)| then 0 else -1
      ensures mallocs == old(mallocs) && popped == old(popped)
      ensures old(freed) <= freed && |freed| <= |old(freed)| + 1
      ensures |freed| > |old(freed)| <==> rc == 0 && old(contents)[FirstAck(old(contents), msgId)].payload != []
    {
      var i := 0;
      while i < count
        invariant Valid() && unchanged(this) && unchanged(buffer)
        invariant i <= count && FirstAck(contents, msgId) >= i
      {
        assert Holds(i);
        var idx := (head + i) % MAX_EVENT_QUEUE_SIZE;
        if buffer[idx].msgType == MSG_ACK && buffer[idx].msgId == msgId {
          FirstAckAt(contents, msgId, i);
          RemoveAt(i);
          return 0;
        }
        FirstAckBeyond(contents, msgId, i);
        i := i + 1;
      }
      rc := -1;
    }

    /** Frees the data of the `i`-th event and closes the gap. */
    method RemoveAt(i: nat)
      requires Valid() && i < count
      modifies this, buffer
      ensures Valid() && contents == Without(old(contents), i)
      ensures mallocs == old(mallocs) && popped == old(popped)
      ensures old(freed) <= freed && |freed| == |old(freed)| + if old(contents)[i].payload == [] then 0 else 1
    {
      assert Holds(i);
      var data := buffer[(head + i) % MAX_EVENT_QUEUE_SIZE].data;
      ShiftDown(i);
      forall j | 0 <= j < count && j != i ensures Shifted(j, i) {
        assert old(Holds(j));
      }
      DropEntry(i, data);
    }

    /** The bookkeeping once the gap is closed: the freed buffer, the tail and the count. */
    method DropEntry(i: nat, data: array?<byte>)
      requires Ring() && Ownership() && i < count && data == owned[i] && (data == null <==> contents[i].payload == [])
      requires forall j :: 0 <= j < count && j != i ==> Shifted(j, i)
      modifies this
      ensures Valid() && contents == Without(old(contents), i)
      ensures mallocs == old(mallocs) && popped == old(popped)
      ensures old(freed) <= freed && |freed| == |old(freed)| + if data == null then 0 else 1
    {
      hide Accounted, Without;
      FreedOne(owned, mallocs, popped, freed, i);
      WithoutAt(contents, i);
      WithoutAt(owned, i);
      freed := freed + if data == null then [] else [data];
      contents := Without(contents, i);
      owned := Without(owned, i);
      tail := (tail + MAX_EVENT_QUEUE_SIZE - 1) % MAX_EVENT_QUEUE_SIZE;
      count := count - 1;
      forall j | 0 <= j < count ensures Holds(j) {
        ghost var k := if j < i then j else j + 1;
        assert old(Shifted(k, i));
      }
    }

    /** The copying loop: every live slot behind the `i`-th moves one place towards the head. */
    method ShiftDown(i: nat)
      requires Ring() && i < count
      modifies buffer
      ensures forall m {:trigger buffer[RingIndex(head, m)]} :: 0 <= m < i ==>
                buffer[RingIndex(head, m)] == old(buffer[RingIndex(head, m)])
      ensures forall m {:trigger buffer[RingIndex(head, m)]} :: i <= m < count - 1 ==>
                buffer[RingIndex(head, m)] == old(buffer[RingIndex(head, m + 1)])
    {
      var j := i;
      while j < count - 1
        invariant i <= j <= count - 1
        invariant forall m {:trigger buffer[RingIndex(head, m)]} :: 0 <= m < i || j <= m < count ==>
                    buffer[RingIndex(head, m)] == old(buffer[RingIndex(head, m)])
        invariant forall m {:trigger buffer[RingIndex(head, m)]} :: i <= m < j ==>
                    buffer[RingIndex(head, m)] == old(buffer[RingIndex(head, m + 1)])
      {
        var from := (head + j + 1) % MAX_EVENT_QUEUE_SIZE;
        var to := (head + j) % MAX_EVENT_QUEUE_SIZE;
        assert from == RingIndex(head, j + 1) && to == RingIndex(head, j);
        buffer[to] := buffer[from];
        j := j + 1;
      }
    }

    /** `event_queue_destroy`: frees every buffer still owned, so that in the end each buffer ever
        allocated was either given away or freed, and none freed twice. */
    method Destroy()
      requires Valid()
      modifies this
      ensures NoRepeats(freed) && Members(freed) == old(mallocs) - old(popped)
      ensures old(freed) <= freed
    {
      forall j | 0 <= j < count ensures buffer[RingIndex(head, j)].data == owned[j] {
        assert Holds(j);
      }
      for i := 0 to count
        invariant unchanged(this`head) && unchanged(this`count) && unchanged(this`owned) && unchanged(this`contents)
        invariant unchanged(this`tail) && unchanged(this`mallocs) && unchanged(this`popped)
        invariant NoRepeats(freed) && old(freed) <= freed
        invariant Members(freed) == old(Members(freed)) + Live(owned[..i])
      {
        var idx := (head + i) % MAX_EVENT_QUEUE_SIZE;
        assert idx == RingIndex(head, i);
        LiveStep(owned, i);
        var data := buffer[idx].data;
        if data != null {
          ghost var d: array<byte> := data;
          assert d in Live(owned);
          NoRepeatsSnoc(freed, d);
          freed := freed + [d];
        }
      }
      assert owned[..count] == owned;
    }
  }

  lemma LiveStep(owned: Buffers, i: nat)
    requires NoSharing(owned) && i < |owned|
    ensures Live(owned[..i + 1]) == Live(owned[..i]) + if owned[i] == null then {} else {owned[i]}
    ensures owned[i] != null ==> owned[i] !in Live(owned[..i])
  {
    assert owned[..i + 1] == owned[..i] + [owned[i]];
    forall j | 0 <= j < i ensures owned[i] != null ==> owned[j] != owned[i] {
      assert Apart(owned, j, i);
    }
  }

  lemma {:induction false} FirstAckAt(q: seq<Event>, msgId: uint32, i: nat)
    requires i < |q| && IsAck(q[i], msgId) && FirstAck(q, msgId) >= i
    ensures FirstAck(q, msgId) == i
  {
  }

  lemma {:induction false} FirstAckBeyond(q: seq<Event>, msgId: uint32, i: nat)
    requires i < |q| && !IsAck(q[i], msgId) && FirstAck(q, msgId) >= i
    ensures FirstAck(q, msgId) >= i + 1
  {
  }
}
