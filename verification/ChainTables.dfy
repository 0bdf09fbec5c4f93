/** The hash-chained table behind both state tables: an array of buckets, each a linked list of heap
    nodes, kept equal to a finite map from keys to (state, time of last change). */
module ChainTables {

  datatype Record<S> = Record(state: S, timestamp: int)

  class Node<K, S> {
    const key: K
    var state: S
    var timestamp: int
    var next: Node?<K, S>

    constructor (key: K, state: S, timestamp: int, next: Node?<K, S>)
      ensures this.key == key && this.state == state && this.timestamp == timestamp && this.next == next
    {
      this.key, this.state, this.timestamp, this.next := key, state, timestamp, next;
    }
  }

  predicate Expired<S>(r: Record<S>, now: int, expiration: int) {
    now - r.timestamp > expiration
  }

  /** The entries that cleanup keeps. */
  function Unexpired<K, S>(m: map<K, Record<S>>, now: int, expiration: int): map<K, Record<S>> {
    map k | k in m && !Expired(m[k], now, expiration) :: m[k]
  }

  /** `now'` lacks some expired entries of `was` and is otherwise the same. */
  ghost predicate Between<K, S>(was: map<K, Record<S>>, now': map<K, Record<S>>, now: int, expiration: int) {
    && (forall k :: k in now' ==> k in was && was[k] == now'[k])
    && (forall k :: k in was && !Expired(was[k], now, expiration) ==> k in now')
  }

  // ---------- one bucket ----------

  ghost function NodeAt<K, S>(chain: seq<Node<K, S>>, i: nat): Node?<K, S>
    requires i <= |chain|
  {
    if i < |chain| then chain[i] else null
  }

  ghost function NodeBefore<K, S>(chain: seq<Node<K, S>>, i: nat): Node?<K, S>
    requires i <= |chain|
  {
    if i == 0 then null else chain[i - 1]
  }

  /** Following `next` from `head` meets exactly the nodes of `chain`. */
  ghost predicate Chained<K, S>(head: Node?<K, S>, chain: seq<Node<K, S>>)
    reads set n | n in chain
  {
    && head == NodeAt(chain, 0)
    && forall i {:trigger chain[i].next} :: 0 <= i < |chain| ==> chain[i].next == NodeAt(chain, i + 1)
  }

  ghost predicate KeysDiffer<K, S>(chain: seq<Node<K, S>>, i: nat, j: nat)
    requires i < |chain| && j < |chain|
  {
    chain[i].key != chain[j].key
  }

  ghost predicate UniqueKeys<K, S>(chain: seq<Node<K, S>>) {
    forall i, j {:trigger KeysDiffer(chain, i, j)} :: 0 <= i < j < |chain| ==> KeysDiffer(chain, i, j)
  }

  lemma SameKeySamePlace<K, S>(chain: seq<Node<K, S>>, i: nat, j: nat)
    requires UniqueKeys(chain) && i < |chain| && j < |chain|
    ensures chain[i].key == chain[j].key ==> i == j
  {
    if i < j {
      assert KeysDiffer(chain, i, j);
    } else if j < i {
      assert KeysDiffer(chain, j, i);
    }
  }

  lemma UniqueKeysCons<K, S>(entry: Node<K, S>, chain: seq<Node<K, S>>)
    requires UniqueKeys(chain) && forall j :: 0 <= j < |chain| ==> chain[j].key != entry.key
    ensures UniqueKeys([entry] + chain)
  {
    var longer := [entry] + chain;
    forall i, j | 0 <= i < j < |longer| ensures KeysDiffer(longer, i, j) {
      if i > 0 {
        assert KeysDiffer(chain, i - 1, j - 1);
      }
    }
  }

  lemma KeysBefore<K, S>(chain: seq<Node<K, S>>, i: nat)
    requires UniqueKeys(chain) && i < |chain|
    ensures forall j :: 0 <= j < i ==> chain[j].key != chain[i].key
  {
    forall j | 0 <= j < i ensures chain[j].key != chain[i].key {
      assert KeysDiffer(chain, j, i);
    }
  }

  // ---------- the table ----------

  class ChainTable<K(==,!new), S(0)> {
    const hash: K -> nat
    const buckets: array<Node?<K, S>>
    ghost var chains: seq<seq<Node<K, S>>>
    ghost var nodes: set<Node<K, S>>
    ghost var contents: map<K, Record<S>>

    /** Bucket `b` is a chain of nodes whose keys hash to `b`, no key twice, all recorded in `contents`. */
    ghost predicate Bucket(b: nat)
      reads this, buckets, nodes
      requires b < buckets.Length == |chains|
    {
      && (forall i :: 0 <= i < |chains[b]| ==> chains[b][i] in nodes)
      && Chained(buckets[b], chains[b])
      && UniqueKeys(chains[b])
      && (forall i {:trigger chains[b][i].key} :: 0 <= i < |chains[b]| ==>
            var n := chains[b][i];
            hash(n.key) == b && n.key in contents && contents[n.key] == Record(n.state, n.timestamp))
    }

    /** Every key of the map sits in the chain of its own bucket. */
    ghost predicate Stored(k: K)
      reads this
      requires hash(k) < |chains|
    {
      exists i :: 0 <= i < |chains[hash(k)]| && chains[hash(k)][i].key == k
    }

    ghost predicate Valid()
      reads this, buckets, nodes
    {
      && |chains| == buckets.Length
      && (forall k :: hash(k) < buckets.Length)
      && (forall b :: 0 <= b < buckets.Length ==> Bucket(b))
      && (forall k :: k in contents ==> Stored(k))
    }

    constructor (size: nat, hash: K -> nat)
      requires forall k :: hash(k) < size
      ensures Valid() && contents == map[] && buckets.Length == size && this.hash == hash
      ensures fresh(buckets) && fresh(nodes)
    {
      this.hash := hash;
      buckets := new Node?<K, S>[size](_ => null);
      chains := seq(size, _ => []);
      nodes := {};
      contents := map[];
    }

    /** The walk every operation begins with. */
    method Find(key: K) returns (prev: Node?<K, S>, cur: Node?<K, S>, ghost i: nat)
      requires Valid()
      ensures cur == null ==> key !in contents
      ensures cur != null ==>
                i < |chains[hash(key)]| && cur == chains[hash(key)][i] && cur.key == key &&
                cur in nodes && prev == NodeBefore(chains[hash(key)], i) && (prev != null ==> prev in nodes)
    {
      var b := hash(key);
      assert Bucket(b);
      prev, cur := null, buckets[b];
      i := 0;
      while cur != null
        invariant i <= |chains[b]| && cur == NodeAt(chains[b], i)
        invariant prev == NodeBefore(chains[b], i)
        invariant forall j :: 0 <= j < i ==> chains[b][j].key != key
        decreases |chains[b]| - i
      {
        if cur.key == key {
          return;
        }
        prev, cur := cur, cur.next;
        i := i + 1;
      }
      assert key in contents ==> Stored(key);
    }

    /** `pending_table_update`, `qos2_table_set`: map put. */
    method Put(key: K, state: S, now: int)
      requires Valid()
      modifies this, buckets, nodes
      ensures Valid() && contents == old(contents)[key := Record(state, now)]
      ensures fresh(nodes - old(nodes))
    {
      var prev, cur, i := Find(key);
      if cur != null {
        Overwrite(cur, i, state, now);
      } else {
        Prepend(key, state, now);
      }
    }

    /** A node is found in one place only: two places would hold the same key. */
    lemma OnePlace(b: nat, j: nat, c: nat, i: nat)
      requires Valid() && b < |chains| && j < |chains[b]| && c < |chains| && i < |chains[c]|
      requires chains[b][j].key == chains[c][i].key
      ensures b == c && j == i
    {
      assert Bucket(b) && Bucket(c);
      assert hash(chains[b][j].key) == b && hash(chains[c][i].key) == c;
      SameKeySamePlace(chains[b], j, i);
    }

    method Overwrite(cur: Node<K, S>, ghost i: nat, state: S, now: int)
      requires Valid() && i < |chains[hash(cur.key)]| && cur == chains[hash(cur.key)][i]
      modifies this`contents, cur
      ensures Valid() && contents == old(contents)[cur.key := Record(state, now)]
    {
      assert Bucket(hash(cur.key));
      forall b, j | 0 <= b < |chains| && 0 <= j < |chains[b]| && chains[b][j].key == cur.key
        ensures chains[b][j] == cur
      {
        OnePlace(b, j, hash(cur.key), i);
      }
      cur.state := state;
      cur.timestamp := now;
      contents := contents[cur.key := Record(state, now)];
      forall b | 0 <= b < buckets.Length ensures Bucket(b) {
        assert old(Bucket(b));
      }
      forall k | k in contents ensures Stored(k) {
        if k == cur.key {
          assert chains[hash(k)][i].key == k;
        } else {
          assert old(Stored(k));
        }
      }
    }

    method Prepend(key: K, state: S, now: int)
      requires Valid() && key !in contents
      modifies this`chains, this`nodes, this`contents, buckets
      ensures Valid() && contents == old(contents)[key := Record(state, now)]
      ensures fresh(nodes - old(nodes))
    {
      ghost var home := hash(key);
      hide UniqueKeys;
      assert Bucket(home);
      ghost var was := chains[home];
      var entry := new Node(key, state, now, buckets[hash(key)]);
      UniqueKeysCons(entry, was);
      buckets[hash(key)] := entry;
      chains := chains[home := [entry] + was];
      nodes := nodes + {entry};
      contents := contents[key := Record(state, now)];
      forall b | 0 <= b < buckets.Length ensures Bucket(b) {
        assert old(Bucket(b));
      }
      forall k | k in contents ensures Stored(k) {
        if k == key {
          assert chains[home][0].key == k;
        } else {
          assert old(Stored(k));
          var i :| 0 <= i < |old(chains)[hash(k)]| && old(chains)[hash(k)][i].key == k;
          assert chains[hash(k)][if hash(k) == home then i + 1 else i].key == k;
        }
      }
    }

    /** `pending_table_get`, `qos2_table_get_state`: map lookup. */
    method Get(key: K) returns (found: bool, state: S)
      requires Valid()
      ensures found <==> key in contents
      ensures found ==> state == contents[key].state
    {
      var prev, cur, i := Find(key);
      assert Bucket(hash(key));
      if cur != null {
        return true, cur.state;
      }
      found, state := false, *;
    }

    /** `pending_table_remove`, `qos2_table_remove`: deletes one key, if it is there. */
    method Remove(key: K)
      requires Valid()
      modifies this, buckets, nodes
      ensures Valid() && contents == old(contents) - {key} && nodes == old(nodes)
    {
      var prev, cur, i := Find(key);
      if cur != null {
        Unlink(hash(key), prev, cur, i);
      }
    }

    /** Takes the node at place `i` of bucket `b` out of its chain. */
    method Unlink(b: nat, prev: Node?<K, S>, cur: Node<K, S>, ghost i: nat)
      requires Valid() && b < buckets.Length && i < |chains[b]| && cur == chains[b][i]
      requires prev == NodeBefore(chains[b], i)
      modifies this`chains, this`contents, buckets, if prev == null then {} else {prev}
      ensures Valid() && contents == old(contents) - {cur.key}
      ensures chains == old(chains)[b := old(chains)[b][..i] + old(chains)[b][i + 1..]]
    {
      ghost var was := chains[b];
      assert Bucket(b);
      if prev != null {
        assert KeysDiffer(was, i - 1, i);
        UnlinkAfter(b, prev, cur, i);
      } else {
        UnlinkFirst(b, cur);
        assert was[..0] + was[1..] == was[1..];
      }
    }

    method UnlinkFirst(b: nat, cur: Node<K, S>)
      requires Valid() && b < buckets.Length && |chains[b]| > 0 && cur == chains[b][0]
      modifies this`chains, this`contents, buckets
      ensures Valid() && contents == old(contents) - {cur.key}
      ensures chains == old(chains)[b := old(chains)[b][1..]]
    {
      hide UniqueKeys;
      assert Bucket(b);
      ghost var was := chains;
      assert cur.next == NodeAt(was[b], 1);
      buckets[b] := cur.next;
      chains := chains[b := was[b][1..]];
      contents := contents - {cur.key};
      DroppedKeyStaysOut(was, b, 0);
      assert was[b][..0] + was[b][1..] == was[b][1..];
      forall c | 0 <= c < buckets.Length ensures Bucket(c) {
        assert old(Bucket(c));
      }
      forall k | k in contents ensures Stored(k) {
        assert old(Stored(k));
        StoredAfterDrop(was, b, 0, k);
      }
    }

    method UnlinkAfter(b: nat, prev: Node<K, S>, cur: Node<K, S>, ghost i: nat)
      requires Valid() && b < buckets.Length && 0 < i < |chains[b]| && cur == chains[b][i]
      requires prev == chains[b][i - 1]
      modifies this`chains, this`contents, prev`next
      ensures Valid() && contents == old(contents) - {cur.key}
      ensures chains == old(chains)[b := old(chains)[b][..i] + old(chains)[b][i + 1..]]
    {
      assert Bucket(b);
      ghost var was := chains;
      forall c, j | 0 <= c < |was| && 0 <= j < |was[c]| && was[c][j] == prev
        ensures c == b && j == i - 1
      {
        OnePlace(c, j, b, i - 1);
      }
      prev.next := cur.next;
      chains := chains[b := was[b][..i] + was[b][i + 1..]];
      contents := contents - {cur.key};
      DroppedKeyStaysOut(was, b, i);
      forall c | 0 <= c < buckets.Length ensures Bucket(c) {
        assert old(Bucket(c));
        if c == b {
          assert Chained(buckets[b], chains[b]) by {
            forall j | 0 <= j < |chains[b]| ensures chains[b][j].next == NodeAt(chains[b], j + 1) {
              assert chains[b][j] == was[b][if j < i then j else j + 1];
            }
          }
        }
      }
      forall k | k in contents ensures Stored(k) {
        assert old(Stored(k));
        StoredAfterDrop(was, b, i, k);
      }
    }

    /** `pending_table_cleanup_expired`, `qos2_table_cleanup_expired`. */
    method CleanupExpired(now: int, expiration: int)
      requires Valid()
      modifies this, buckets, nodes
      ensures Valid() && nodes == old(nodes)
      ensures contents == Unexpired(old(contents), now, expiration)
      ensures forall k :: k in contents <==> k in old(contents) && now - old(contents)[k].timestamp <= expiration
      ensures forall k :: k in contents ==> contents[k] == old(contents)[k]
    {
      for b := 0 to buckets.Length
        invariant Valid() && nodes == old(nodes)
        invariant Between(old(contents), contents, now, expiration)
        invariant forall k :: k in contents && hash(k) < b ==> !Expired(contents[k], now, expiration)
      {
        CleanupBucket(b, now, expiration);
      }
    }

    /** The first `i` entries of bucket `b` are not expired. */
    ghost predicate Current(b: nat, i: nat, now: int, expiration: int)
      reads this
      requires b < |chains| && i <= |chains[b]|
    {
      forall j :: 0 <= j < i ==>
        chains[b][j].key in contents && !Expired(contents[chains[b][j].key], now, expiration)
    }

    /** Unlinks an expired entry; the entries before it stay. */
    method DropExpired(b: nat, prev: Node?<K, S>, cur: Node<K, S>, ghost i: nat, now: int, expiration: int,
                       ghost was: map<K, Record<S>>)
      requires Valid() && b < buckets.Length && i < |chains[b]| && cur == chains[b][i]
      requires prev == NodeBefore(chains[b], i) && now - cur.timestamp > expiration
      requires Between(was, contents, now, expiration) && Current(b, i, now, expiration)
      modifies this`chains, this`contents, buckets, nodes
      ensures Valid() && Between(was, contents, now, expiration)
      ensures chains[b] == old(chains[b])[..i] + old(chains[b])[i + 1..] && Current(b, i, now, expiration)
      ensures old(cur.next) == NodeAt(chains[b], i) && prev == NodeBefore(chains[b], i)
    {
      assert Bucket(b);
      assert contents[cur.key] == Record(cur.state, cur.timestamp);
      KeysBefore(chains[b], i);
      assert prev != null ==> chains[b][i - 1] in nodes;
      Unlink(b, prev, cur, i);
    }

    method CleanupBucket(b: nat, now: int, expiration: int)
      requires Valid() && b < buckets.Length
      modifies this, buckets, nodes
      ensures Valid() && nodes == old(nodes)
      ensures Between(old(contents), contents, now, expiration)
      ensures forall k :: k in contents && hash(k) == b ==> !Expired(contents[k], now, expiration)
    {
      assert Bucket(b);
      var cur := buckets[b];
      var prev: Node?<K, S> := null;
      ghost var i := 0;
      while cur != null
        invariant Valid() && nodes == old(nodes)
        invariant i <= |chains[b]| && cur == NodeAt(chains[b], i) && prev == NodeBefore(chains[b], i)
        invariant Between(old(contents), contents, now, expiration) && Current(b, i, now, expiration)
        decreases |chains[b]| - i
      {
        assert Bucket(b);
        assert contents[cur.key] == Record(cur.state, cur.timestamp);
        if now - cur.timestamp > expiration {
          var next := cur.next;
          DropExpired(b, prev, cur, i, now, expiration, old(contents));
          cur := next;
        } else {
          prev := cur;
          cur := cur.next;
          i := i + 1;
        }
      }
      forall k | k in contents && hash(k) == b ensures !Expired(contents[k], now, expiration) {
        assert Stored(k);
      }
    }

    /** `qos2_table_init` on a table in use: the entries are forgotten. */
    method Clear()
      requires Valid()
      modifies this`chains, this`contents, buckets
      ensures Valid() && contents == map[]
    {
      for b := 0 to buckets.Length
        invariant forall c :: 0 <= c < b ==> buckets[c] == null
      {
        buckets[b] := null;
      }
      chains := seq(buckets.Length, _ => []);
      contents := map[];
    }

    /** The key of the dropped node is gone from its bucket; the other keys stay unique. */
    lemma DroppedKeyStaysOut(was: seq<seq<Node<K, S>>>, b: nat, i: nat)
      requires b < |was| && i < |was[b]| && UniqueKeys(was[b])
      ensures UniqueKeys(was[b][..i] + was[b][i + 1..])
      ensures forall j {:trigger (was[b][..i] + was[b][i + 1..])[j]} :: 0 <= j < |was[b]| - 1 ==>
                (was[b][..i] + was[b][i + 1..])[j].key != was[b][i].key
    {
      var chain := was[b][..i] + was[b][i + 1..];
      forall j | 0 <= j < |chain| ensures chain[j].key != was[b][i].key {
        SameKeySamePlace(was[b], if j < i then j else j + 1, i);
      }
      forall j, k | 0 <= j < k < |chain| ensures KeysDiffer(chain, j, k) {
        assert KeysDiffer(was[b], if j < i then j else j + 1, if k < i then k else k + 1);
      }
    }

    lemma StoredAfterDrop(was: seq<seq<Node<K, S>>>, b: nat, i: nat, k: K)
      requires b < |was| && i < |was[b]| && hash(k) < |was| && k != was[b][i].key
      requires exists j :: 0 <= j < |was[hash(k)]| && was[hash(k)][j].key == k
      ensures var now := was[b := was[b][..i] + was[b][i + 1..]];
              exists j :: 0 <= j < |now[hash(k)]| && now[hash(k)][j].key == k
    {
      var j :| 0 <= j < |was[hash(k)]| && was[hash(k)][j].key == k;
      var now: seq<seq<Node<K, S>>> := was[b := was[b][..i] + was[b][i + 1..]];
      assert now[hash(k)][if hash(k) == b && j > i then j - 1 else j].key == k;
    }
  }
}
