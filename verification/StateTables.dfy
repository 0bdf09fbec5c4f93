/** The broker's table of QoS 2 transactions, keyed by publisher address and message id. */
module PendingTables {
  import opened Bytes
  import opened Addresses
  import opened ChainTables

  const PENDING_TABLE_SIZE := 1024

  datatype State = Received | WaitRelease | Released | Completed

  datatype Key = Key(addr: Address, msgId: uint32)

  /** `hash_key`: address and port as they lie in memory, mixed with the id by exclusive or. */
  function BucketOf(k: Key): (b: nat)
    ensures b < PENDING_TABLE_SIZE
  {
    (((k.addr.ip as bv32) ^ (k.addr.port as bv32)) ^ (k.msgId as bv32)) as int % PENDING_TABLE_SIZE
  }

  type PendingTable = ChainTable<Key, State>

  /** `pending_table_init`. */
  method NewTable() returns (t: PendingTable)
    ensures t.Valid() && t.contents == map[]
    ensures fresh(t) && fresh(t.buckets) && fresh(t.nodes)
  {
    t := new ChainTable<Key, State>(PENDING_TABLE_SIZE, BucketOf);
  }

  /** What the broker reads of the table: the states, without the time stamps. */
  ghost function States(contents: map<Key, Record<State>>): map<Key, State> {
    map k | k in contents :: contents[k].state
  }

  lemma StatesOfPut(contents: map<Key, Record<State>>, k: Key, r: Record<State>)
    ensures States(contents[k := r]) == States(contents)[k := r.state]
  {
  }
}

/** The client's table of QoS 2 handshakes, keyed by message id. */
module Qos2Tables {
  import opened Bytes
  import opened ChainTables

  const QOS2_TABLE_SIZE := 256

  datatype State = None | WaitReceived | WaitComplete | Completed

  /** `hash_msg_id`. */
  function BucketOf(msgId: uint32): (b: nat)
    ensures b < QOS2_TABLE_SIZE
  {
    msgId % QOS2_TABLE_SIZE
  }

  type Qos2Table = ChainTable<uint32, State>

  /** `qos2_table_init`. */
  method NewTable() returns (t: Qos2Table)
    ensures t.Valid() && t.contents == map[]
    ensures fresh(t) && fresh(t.buckets) && fresh(t.nodes)
  {
    t := new ChainTable<uint32, State>(QOS2_TABLE_SIZE, BucketOf);
  }

  ghost function States(contents: map<uint32, Record<State>>): map<uint32, State> {
    map k | k in contents :: contents[k].state
  }

  lemma StatesOfPut(contents: map<uint32, Record<State>>, k: uint32, r: Record<State>)
    ensures States(contents[k := r]) == States(contents)[k := r.state]
  {
  }

  lemma StatesOfRemove(contents: map<uint32, Record<State>>, k: uint32)
    ensures States(contents - {k}) == States(contents) - {k}
  {
  }

  function Lookup(states: map<uint32, State>, msgId: uint32): State {
    if msgId in states then states[msgId] else None
  }

  /** `qos2_table_get_state`: an unknown id reads as `None`. */
  method GetState(t: Qos2Table, msgId: uint32) returns (state: State)
    requires t.Valid()
    ensures state == Lookup(States(t.contents), msgId)
  {
    var found, s := t.Get(msgId);
    state := if found then s else None;
  }
}
