/** The topic trie: a heap of nodes changed in place, kept equal to a plain set of
    (filter, subscriber) pairs. */
module TopicTables {
  import opened Bytes
  import opened Wrappers
  import opened Addresses
  import opened Lists
  import opened TopicNames
  import opened TopicFilters
  import opened SubscriberLists

  type Subscriptions = set<(Filter, Address)>

  /** The subscribers a publication on `topic` goes to. */
  ghost function Matching(subs: Subscriptions, topic: seq<Segment>): set<Address> {
    set s | s in subs && Matches(s.0, topic) :: s.1
  }

  /** Those among them whose filter starts with `path`, that is, runs through the node filed there. */
  ghost function MatchingBelow(subs: Subscriptions, topic: seq<Segment>, path: Filter): set<Address> {
    set s | s in subs && path <= s.0 && Matches(s.0, topic) :: s.1
  }

  lemma MatchingBelowRoot(subs: Subscriptions, topic: seq<Segment>)
    ensures MatchingBelow(subs, topic, []) == Matching(subs, topic)
  {
  }

  class TopicNode {
    const segment: Segment
    var children: seq<TopicNode>
    var subscribers: Entry?
    ghost const path: Filter
    ghost const slot: nat

    /** `slot` is the node's place among its parent's children; children are only ever appended. */
    constructor (segment: Segment, ghost path: Filter, ghost slot: nat)
      ensures this.segment == segment && this.path == path && this.slot == slot
      ensures children == [] && subscribers == null
    {
      this.segment, this.path, this.slot := segment, path, slot;
      children, subscribers := [], null;
    }
  }

  // ---------- the shape of the trie, as values ----------

  /** Every node is filed under its path; `kids` and `lists` mirror the nodes' two mutable fields. */
  datatype Trie = Trie(
    at: map<Filter, TopicNode>,
    kids: map<Filter, seq<TopicNode>>,
    lists: map<Filter, Entry?>,
    subs: Subscriptions)
  {
    ghost predicate SameKeys() {
      at.Keys == kids.Keys == lists.Keys
    }

    /** A path spells the segments from the root down to its node. */
    ghost predicate Filed() {
      && [] in at
      && (forall p :: p in at ==> at[p].path == p)
      && (forall p :: p in at ==> at[p].segment == if p == [] then EMPTY else p[|p| - 1])
    }

    /** The child pointers of the filed nodes lead to filed nodes one segment further down. */
    ghost predicate ChildrenFiled() {
      forall p, i {:trigger kids[p][i]} :: p in kids && 0 <= i < |kids[p]| ==>
        var child := kids[p][i];
        child.slot == i && child.path == p + [child.segment] && child.path in at && at[child.path] == child
    }

    /** Every filed node but the root is a child of a filed node. */
    ghost predicate ParentsFiled() {
      forall p {:trigger Parent(p)} :: p in at && p != [] ==>
        Parent(p) in kids && at[p].slot < |kids[Parent(p)]| && kids[Parent(p)][at[p].slot] == at[p]
    }

    /** A node lists, without repeats, exactly the addresses subscribed with the filter it stands for. */
    ghost predicate Holds() {
      && (forall p :: p in lists ==> Linked(lists[p]) && NoRepeats(Listed(lists[p])))
      && (forall p, a :: p in lists ==> (a in Listed(lists[p]) <==> (p, a) in subs))
      && (forall s :: s in subs ==> s.0 in lists && s.0 != [])
    }

    ghost predicate Valid() {
      SameKeys() && Filed() && ChildrenFiled() && ParentsFiled() && Holds()
    }

    ghost function WithSubscriber(path: Filter, addr: Address, entry: Entry): Trie {
      this.(lists := lists[path := entry], subs := subs + {(path, addr)})
    }

    ghost function WithChild(path: Filter, child: TopicNode): Trie
      requires path in kids
    {
      var kids' := kids[path := kids[path] + [child]][child.path := []];
      Trie(at[child.path := child], kids', lists[child.path := null], subs)
    }
  }

  ghost function Parent(path: Filter): Filter
    requires path != []
  {
    path[..|path| - 1]
  }

  /** No two siblings share a segment. */
  lemma SiblingsDiffer(t: Trie, path: Filter, i: nat, j: nat)
    requires t.Valid() && path in t.kids && i < j < |t.kids[path]|
    ensures t.kids[path][i].segment != t.kids[path][j].segment
  {
    assert t.kids[path][i].slot == i && t.kids[path][j].slot == j;
    assert t.at[t.kids[path][i].path] == t.kids[path][i];
  }

  lemma DistinctNodes(t: Trie, p: Filter, q: Filter)
    requires t.Valid() && p in t.at && q in t.at && p != q
    ensures t.at[p] != t.at[q]
  {
    assert t.at[p].path == p && t.at[q].path == q;
  }

  lemma ChildIsFiledNode(t: Trie, path: Filter, i: nat)
    requires t.Valid() && path in t.kids && i < |t.kids[path]|
    ensures var here := path + [t.kids[path][i].segment];
            here in t.at && t.at[here] == t.kids[path][i] && t.at[here].path == here
  {
    assert t.kids[path][i].slot == i;
  }

  lemma FiledNodeIsChild(t: Trie, path: Filter, segment: Segment)
    requires t.Valid() && path in t.at
    ensures path + [segment] in t.at ==>
              exists i :: 0 <= i < |t.kids[path]| && t.kids[path][i].segment == segment
  {
    assert Parent(path + [segment]) == path;
    assert path + [segment] in t.at ==> t.at[path + [segment]].segment == segment;
  }

  /** Filing a new last child keeps the shape. */
  lemma AddedChildKeepsShape(t: Trie, path: Filter, child: TopicNode)
    requires t.Valid() && path in t.at && child.path !in t.at
    requires child.path == path + [child.segment] && child.slot == |t.kids[path]|
    ensures t.WithChild(path, child).Valid()
  {
    hide Trie.Holds, Trie.ChildrenFiled, Trie.ParentsFiled;
    AddedChildIsFiled(t, path, child);
    AddedChildHasParent(t, path, child);
    AddedChildHoldsNobody(t, path, child);
  }

  lemma AddedChildHasParent(t: Trie, path: Filter, child: TopicNode)
    requires t.Valid() && path in t.at && child.path !in t.at
    requires child.path == path + [child.segment] && child.slot == |t.kids[path]|
    ensures t.WithChild(path, child).ParentsFiled()
  {
    hide Trie.Holds, Trie.ChildrenFiled;
    assert Parent(child.path) == path;
  }

  lemma AddedChildHoldsNobody(t: Trie, path: Filter, child: TopicNode)
    requires t.Valid() && path in t.kids && child.path !in t.at
    ensures t.WithChild(path, child).Holds()
  {
    hide Trie.ParentsFiled, Trie.ChildrenFiled;
  }

  lemma AddedChildIsFiled(t: Trie, path: Filter, child: TopicNode)
    requires t.Valid() && path in t.at && child.path !in t.at
    requires child.path == path + [child.segment] && child.slot == |t.kids[path]|
    ensures t.WithChild(path, child).ChildrenFiled()
  {
    var t' := t.WithChild(path, child);
    forall p, i | p in t'.kids && 0 <= i < |t'.kids[p]|
      ensures var c: TopicNode := t'.kids[p][i];
              c.slot == i && c.path == p + [c.segment] && c.path in t'.at && t'.at[c.path] == c
    {
      if p in t.kids && i < |t.kids[p]| {
        assert t'.kids[p][i] == t.kids[p][i];
      }
    }
  }

  lemma AddedSubscriberKeepsShape(t: Trie, path: Filter, addr: Address, entry: Entry)
    requires t.Valid() && path in t.lists && path != [] && addr !in Listed(t.lists[path])
    requires Linked(entry) && entry.addrs == [addr] + Listed(t.lists[path])
    ensures t.WithSubscriber(path, addr, entry).Valid()
  {
    hide Trie.Filed, Trie.Holds, Trie.ChildrenFiled, Trie.ParentsFiled, Linked, NoRepeats;
    AddedSubscriberKeepsTree(t, path, addr, entry);
    AddedSubscriberIsHeld(t, path, addr, entry);
  }

  lemma AddedSubscriberIsHeld(t: Trie, path: Filter, addr: Address, entry: Entry)
    requires t.Holds() && path in t.lists && path != [] && addr !in Listed(t.lists[path])
    requires Linked(entry) && entry.addrs == [addr] + Listed(t.lists[path])
    ensures t.WithSubscriber(path, addr, entry).Holds()
  {
    hide NoRepeats, Linked;
    NoRepeatsCons(addr, Listed(t.lists[path]));
  }

  lemma AddedSubscriberKeepsTree(t: Trie, path: Filter, addr: Address, entry: Entry)
    requires t.Valid()
    ensures t.WithSubscriber(path, addr, entry).ChildrenFiled() && t.WithSubscriber(path, addr, entry).ParentsFiled()
    ensures t.WithSubscriber(path, addr, entry).Filed()
  {
    hide Trie.Holds;
  }

  // ---------- matching, as a walk ----------

  /** The path fits the topic level by level, as far as it goes. */
  ghost predicate OnTrack(path: Filter, topic: seq<Segment>) {
    |path| <= |topic| && forall i :: 0 <= i < |path| ==> SegmentMatches(path[i], topic[i])
  }

  /** The union over the first `n` of the children. */
  ghost function MatchingChildren(subs: Subscriptions, topic: seq<Segment>, kids: seq<TopicNode>, n: nat): set<Address>
    requires n <= |kids|
  {
    if n == 0 then {}
    else MatchingChildren(subs, topic, kids, n - 1) + MatchingBelow(subs, topic, kids[n - 1].path)
  }

  lemma ChildMatchesAreIncluded(t: Trie, topic: seq<Segment>, path: Filter, n: nat, i: nat)
    requires path in t.kids && i < n <= |t.kids[path]|
    ensures MatchingBelow(t.subs, topic, t.kids[path][i].path) <= MatchingChildren(t.subs, topic, t.kids[path], n)
  {
    hide MatchingBelow;
    if i < n - 1 {
      ChildMatchesAreIncluded(t, topic, path, n - 1, i);
    }
  }

  /** Every prefix of a filed path is filed. */
  lemma {:induction false} PrefixFiled(t: Trie, path: Filter, k: nat)
    requires t.Valid() && path in t.at && k <= |path|
    ensures path[..k] in t.at
    decreases |path|
  {
    hide Trie.Holds, Trie.ChildrenFiled;
    if k < |path| {
      assert Parent(path) in t.at;
      PrefixFiled(t, Parent(path), k);
      assert Parent(path)[..k] == path[..k];
    } else {
      assert path[..k] == path;
    }
  }

  lemma MatchingBelowHas(t: Trie, topic: seq<Segment>, path: Filter, s: (Filter, Address))
    requires s in t.subs && path <= s.0 && Matches(s.0, topic)
    ensures s.1 in MatchingBelow(t.subs, topic, path)
  {
  }

  lemma MatchingBelowLonger(t: Trie, topic: seq<Segment>, path: Filter, longer: Filter)
    requires path <= longer
    ensures MatchingBelow(t.subs, topic, longer) <= MatchingBelow(t.subs, topic, path)
  {
    hide Matches;
  }

  /** A subscribed filter longer than a filed path it starts with runs through one of its children. */
  lemma FilterRunsThroughChild(t: Trie, path: Filter, s: (Filter, Address)) returns (i: nat)
    requires t.Valid() && path in t.at && s in t.subs && path <= s.0 && s.0 != path
    ensures i < |t.kids[path]| && t.kids[path][i].path <= s.0
  {
    hide Trie.ChildrenFiled, Trie.ParentsFiled;
    var next := s.0[|path|];
    PrefixFiled(t, s.0, |path| + 1);
    assert s.0[..|path| + 1] == path + [next];
    FiledNodeIsChild(t, path, next);
    i :| 0 <= i < |t.kids[path]| && t.kids[path][i].segment == next;
    ChildIsFiledNode(t, path, i);
  }

  /** A subscription below a node is at the node itself or below one of its children. */
  lemma SubscriptionBelow(t: Trie, topic: seq<Segment>, path: Filter, s: (Filter, Address))
    requires t.Valid() && path in t.at && s in t.subs && path <= s.0 && Matches(s.0, topic)
    ensures s.0 == path || s.1 in MatchingChildren(t.subs, topic, t.kids[path], |t.kids[path]|)
  {
    hide Trie.Filed, Trie.Holds, Trie.ChildrenFiled, Trie.ParentsFiled;
    hide Matches, MatchingBelow;
    if s.0 != path {
      var i := FilterRunsThroughChild(t, path, s);
      MatchingBelowHas(t, topic, t.kids[path][i].path, s);
      ChildMatchesAreIncluded(t, topic, path, |t.kids[path]|, i);
    }
  }

  lemma {:induction false} ChildMatchesAreBelow(t: Trie, topic: seq<Segment>, path: Filter, n: nat)
    requires t.Valid() && path in t.kids && n <= |t.kids[path]|
    ensures MatchingChildren(t.subs, topic, t.kids[path], n) <= MatchingBelow(t.subs, topic, path)
  {
    hide Trie.Filed, Trie.Holds, Trie.ChildrenFiled, Trie.ParentsFiled;
    hide Matches, MatchingBelow;
    if n > 0 {
      ChildMatchesAreBelow(t, topic, path, n - 1);
      ChildIsFiledNode(t, path, n - 1);
      MatchingBelowLonger(t, topic, path, t.kids[path][n - 1].path);
    }
  }

  /** The node's own subscribers, if its filter selects the topic. */
  ghost function OwnMatches(t: Trie, topic: seq<Segment>, path: Filter): set<Address>
    requires path in t.lists
  {
    if Matches(path, topic) then Members(Listed(t.lists[path])) else {}
  }

  lemma MatchingBelowSplits(t: Trie, topic: seq<Segment>, path: Filter)
    requires t.Valid() && path in t.at
    ensures MatchingBelow(t.subs, topic, path)
         == OwnMatches(t, topic, path) + MatchingChildren(t.subs, topic, t.kids[path], |t.kids[path]|)
  {
    hide Trie.ChildrenFiled, Trie.ParentsFiled;
    var own, all := OwnMatches(t, topic, path), MatchingChildren(t.subs, topic, t.kids[path], |t.kids[path]|);
    forall a | a in MatchingBelow(t.subs, topic, path) ensures a in own + all {
      var s :| s in t.subs && path <= s.0 && Matches(s.0, topic) && s.1 == a;
      assert s == (s.0, a);
      SubscriptionBelow(t, topic, path, s);
    }
    forall a | a in own ensures a in MatchingBelow(t.subs, topic, path) {
      assert (path, a) in t.subs;
    }
    ChildMatchesAreBelow(t, topic, path, |t.kids[path]|);
  }

  lemma PrefixOnTrack(filter: Filter, path: Filter, topic: seq<Segment>)
    requires path <= filter
    ensures Matches(filter, topic) ==> OnTrack(path, topic)
  {
    assert forall i :: 0 <= i < |path| ==> filter[i] == path[i];
  }

  /** A child off the topic's track, or below its last level, contributes nothing. */
  lemma NothingOffTrack(t: Trie, topic: seq<Segment>, path: Filter)
    requires !OnTrack(path, topic)
    ensures MatchingBelow(t.subs, topic, path) == {}
  {
    forall s | s in t.subs && path <= s.0 ensures !Matches(s.0, topic) {
      PrefixOnTrack(s.0, path, topic);
    }
  }

  lemma {:induction false} NothingBelowLastLevel(t: Trie, topic: seq<Segment>, path: Filter, n: nat)
    requires t.Valid() && path in t.kids && |path| >= |topic| && n <= |t.kids[path]|
    ensures MatchingChildren(t.subs, topic, t.kids[path], n) == {}
  {
    if n > 0 {
      NothingBelowLastLevel(t, topic, path, n - 1);
      ChildIsFiledNode(t, path, n - 1);
      NothingOffTrack(t, topic, t.kids[path][n - 1].path);
    }
  }

  // ---------- the heap structure ----------

  class TopicTable {
    var root: TopicNode
    ghost var trie: Trie
    ghost var nodes: set<TopicNode>

    ghost predicate Valid()
      reads this, nodes
    {
      && trie.Valid()
      && trie.at[[]] == root
      && forall p :: p in trie.at ==> Mirrors(p)
    }

    /** The node filed under `p` has the children and the subscriber list that the trie records. */
    ghost predicate Mirrors(p: Filter)
      reads this, nodes
      requires trie.SameKeys() && p in trie.at
    {
      trie.at[p] in nodes && trie.at[p].children == trie.kids[p] && trie.at[p].subscribers == trie.lists[p]
    }

    /** `init_topic_table`. */
    constructor ()
      ensures Valid() && trie.subs == {} && fresh(nodes)
    {
      var node := new TopicNode(EMPTY, [], 0);
      root := node;
      trie := Trie(map[[] := node], map[[] := []], map[[] := null], {});
      nodes := {node};
    }

    /** The search loop of `find_or_create_child`. */
    method FindChild(parent: TopicNode, segment: Segment) returns (child: TopicNode?)
      requires trie.Valid() && parent.path in trie.at && trie.at[parent.path] == parent
      requires parent.children == trie.kids[parent.path]
      ensures child == null ==> parent.path + [segment] !in trie.at
      ensures child != null ==>
                child.path == parent.path + [segment] && child.path in trie.at && trie.at[child.path] == child
    {
      hide Trie.Filed, Trie.Holds, Trie.ChildrenFiled, Trie.ParentsFiled;
      var i := 0;
      while i < |parent.children|
        invariant i <= |parent.children|
        invariant forall j :: 0 <= j < i ==> parent.children[j].segment != segment
      {
        if parent.children[i].segment == segment {
          ChildIsFiledNode(trie, parent.path, i);
          return parent.children[i];
        }
        i := i + 1;
      }
      child := null;
      FiledNodeIsChild(trie, parent.path, segment);
    }

    /** Grows the parent's child array by one slot and stores the child there. */
    method Attach(parent: TopicNode, child: TopicNode)
      requires Valid() && parent.path in trie.at && trie.at[parent.path] == parent
      requires child.path == parent.path + [child.segment] && child.path !in trie.at
      requires child !in nodes && child.slot == |parent.children| && child.children == [] && child.subscribers == null
      modifies this`trie, this`nodes, parent`children
      ensures Valid()
      ensures trie == old(trie).WithChild(parent.path, child) && nodes == old(nodes) + {child}
    {
      hide Trie.Filed, Trie.Holds, Trie.ChildrenFiled, Trie.ParentsFiled;
      assert Mirrors(parent.path);
      AddedChildKeepsShape(trie, parent.path, child);
      parent.children := parent.children + [child];
      trie := trie.WithChild(parent.path, child);
      nodes := nodes + {child};
      forall p | p in trie.at ensures Mirrors(p) {
        if p != child.path && p != parent.path {
          assert old(Mirrors(p));
          DistinctNodes(old(trie), p, parent.path);
        }
      }
    }

    /** `find_or_create_child`. */
    method FindOrCreateChild(parent: TopicNode, segment: Segment) returns (child: TopicNode)
      requires Valid() && parent.path in trie.at && trie.at[parent.path] == parent
      modifies this`trie, this`nodes, parent`children
      ensures Valid() && trie.subs == old(trie).subs
      ensures child.path == parent.path + [segment] && child.path in trie.at && trie.at[child.path] == child
      ensures old(nodes) <= nodes && fresh(nodes - old(nodes))
      ensures parent.path + [segment] in old(trie).at ==> trie == old(trie)
    {
      hide Trie.Holds, Trie.ChildrenFiled, Trie.ParentsFiled;
      assert Mirrors(parent.path);
      var found := FindChild(parent, segment);
      if found != null {
        child := found;
      } else {
        child := new TopicNode(segment, parent.path + [segment], |parent.children|);
        Attach(parent, child);
      }
    }

    /** The guarded `add_subscriber`. */
    method AddSubscriber(node: TopicNode, addr: Address)
      requires Valid() && node.path in trie.at && trie.at[node.path] == node && node.path != []
      modifies this`trie, node`subscribers
      ensures Valid() && trie.at == old(trie).at && trie.subs == old(trie).subs + {(node.path, addr)}
      ensures (node.path, addr) in old(trie).subs ==> trie == old(trie)
    {
      hide Trie.Filed, Trie.ChildrenFiled, Trie.ParentsFiled;
      assert Mirrors(node.path);
      var duplicate := IsDuplicate(node.subscribers, addr);
      if duplicate {
        assert (node.path, addr) in trie.subs;
        assert trie.subs == trie.subs + {(node.path, addr)};
      } else {
        var entry := new Entry(addr, node.subscribers);
        PushSubscriber(node, addr, entry);
      }
    }

    method PushSubscriber(node: TopicNode, addr: Address, entry: Entry)
      requires Valid() && node.path in trie.at && trie.at[node.path] == node && node.path != []
      requires Linked(entry) && addr !in Listed(node.subscribers) && entry.addrs == [addr] + Listed(node.subscribers)
      modifies this`trie, node`subscribers
      ensures Valid() && trie == old(trie).WithSubscriber(node.path, addr, entry)
    {
      hide Trie.Filed, Trie.Holds, Trie.ChildrenFiled, Trie.ParentsFiled;
      assert Mirrors(node.path);
      AddedSubscriberKeepsShape(trie, node.path, addr, entry);
      node.subscribers := entry;
      trie := trie.WithSubscriber(node.path, addr, entry);
      forall p | p in trie.at ensures Mirrors(p) {
        assert p != node.path ==> old(Mirrors(p));
        if p != node.path {
          DistinctNodes(old(trie), p, node.path);
        }
      }
    }

    lemma FiledNodes()
      requires Valid()
      ensures trie.Valid() && [] in trie.at && trie.at[[]] == root
      ensures forall p :: p in trie.at ==> trie.at[p] in nodes
    {
      forall p | p in trie.at ensures trie.at[p] in nodes {
        assert Mirrors(p);
      }
    }

    /** The walk of `subscribe_topic` from the root to the node its filter stands for. */
    method Descend(segments: array<Option<Segment>>, depth: nat, ghost filter: Filter) returns (curr: TopicNode)
      requires Valid() && segments.Length == depth == |filter|
      requires forall j :: 0 <= j < depth ==> segments[j] == Some(filter[j])
      modifies this, nodes
      ensures Valid() && trie.subs == old(trie).subs && fresh(nodes - old(nodes))
      ensures curr.path == filter && filter in trie.at && trie.at[filter] == curr
      ensures filter in old(trie).at ==> trie == old(trie)
    {
      hide TopicTable.Valid, Trie.Valid;
      FiledNodes();
      PrefixesFiled(trie, filter);
      RootIsFiled(trie);
      curr := root;
      for i := 0 to depth
        invariant Valid() && fresh(nodes - old(nodes)) && trie.subs == old(trie).subs
        invariant curr.path == filter[..i] && curr.path in trie.at && trie.at[curr.path] == curr
        invariant filter in old(trie).at ==> trie == old(trie)
      {
        FiledNodes();
        assert filter[..i + 1] == filter[..i] + [filter[i]];
        curr := FindOrCreateChild(curr, segments[i].value);
      }
      assert filter[..depth] == filter;
    }

    /** `subscribe_topic`: the topic table gains exactly this pair; a pair it has already changes nothing
        at all in the trie. */
    method Subscribe(topic: seq<byte>, addr: Address) returns (rc: int)
      requires Valid() && NoEmptyLevel(topic)
      modifies this, nodes
      ensures Valid() && rc == 0
      ensures trie.subs == old(trie).subs + {(Levels(topic), addr)}
      ensures (Levels(topic), addr) in old(trie).subs ==> trie == old(trie)
      ensures fresh(nodes - old(nodes))
    {
      hide Trie.Filed, Trie.Holds, Trie.ChildrenFiled, Trie.ParentsFiled, Levels;
      SubscribedFilterFiled(trie, Levels(topic), addr);
      var segments, depth := SplitTopic(topic);
      TokensFillLevels(topic);
      var node := Descend(segments, depth, Levels(topic));
      assert Mirrors(node.path);
      AddSubscriber(node, addr);
      rc := 0;
    }

    /** The copying loop of `match_recursive`: adds the node's subscribers that are not listed yet. */
    method CopyInto(entries: Entry?, result: SubscriberList)
      requires Linked(entries) && result.Valid() && NoRepeats(result.Addrs())
      modifies result
      ensures result.Valid() && NoRepeats(result.Addrs()) && fresh(result.footprint - old(result.footprint))
      ensures Members(result.Addrs()) == old(Members(result.Addrs())) + Members(Listed(entries))
    {
      hide SubscriberList.Valid, NoRepeats, SubscriberList.Addrs;
      var s := entries;
      ghost var copied: set<Address> := {};
      while s != null
        invariant Linked(s) && result.Valid() && NoRepeats(result.Addrs())
        invariant fresh(result.footprint - old(result.footprint))
        invariant Members(result.Addrs()) == old(Members(result.Addrs())) + copied
        invariant Members(Listed(entries)) == copied + Members(Listed(s))
        decreases |Listed(s)|
      {
        MembersCons(s.addr, Listed(s.next));
        result.AddIfAbsent(s.addr);
        copied := copied + {s.addr};
        s := s.next;
      }
    }

    /** `match_recursive`. Every filter consumes one level per node, so the level is the path's length. */
    method MatchRecursive(node: TopicNode, topic: seq<Segment>, level: nat, result: SubscriberList)
      requires Valid() && node.path in trie.at && trie.at[node.path] == node
      requires level == |node.path| && OnTrack(node.path, topic) && |topic| > 0
      requires result.Valid() && NoRepeats(result.Addrs())
      modifies result
      ensures result.Valid() && NoRepeats(result.Addrs()) && fresh(result.footprint - old(result.footprint))
      ensures Members(result.Addrs())
           == old(Members(result.Addrs())) + MatchingBelow(trie.subs, topic, node.path)
      decreases |topic| - level, 2
    {
      hide Trie.Filed, Trie.Holds, Trie.ChildrenFiled, Trie.ParentsFiled;
      hide MatchingBelow, NoRepeats, SubscriberList.Valid, SubscriberList.Addrs;
      assert Mirrors(node.path);
      NodeFacts(trie, node.path, topic);
      MatchingBelowSplits(trie, topic, node.path);
      if level == |topic| || node.segment == ALL_LEVELS {
        CopyInto(node.subscribers, result);
      }
      if level >= |topic| {
        NothingBelowLastLevel(trie, topic, node.path, |node.children|);
        return;
      }
      VisitChildren(node, topic, level, result);
    }

    /** The loop over the children. */
    method VisitChildren(node: TopicNode, topic: seq<Segment>, level: nat, result: SubscriberList)
      requires Valid() && node.path in trie.at && trie.at[node.path] == node
      requires level == |node.path| < |topic| && OnTrack(node.path, topic)
      requires result.Valid() && NoRepeats(result.Addrs())
      modifies result
      ensures result.Valid() && NoRepeats(result.Addrs()) && fresh(result.footprint - old(result.footprint))
      ensures Members(result.Addrs())
           == old(Members(result.Addrs())) + MatchingChildren(trie.subs, topic, node.children, |node.children|)
      decreases |topic| - level, 1
    {
      hide Trie.Filed, Trie.Holds, Trie.ChildrenFiled, Trie.ParentsFiled;
      hide MatchingBelow, OnTrack, SegmentMatches, NoRepeats, SubscriberList.Valid, SubscriberList.Addrs;
      assert Mirrors(node.path);
      for i := 0 to |node.children|
        invariant result.Valid() && NoRepeats(result.Addrs()) && fresh(result.footprint - old(result.footprint))
        invariant Members(result.Addrs())
               == old(Members(result.Addrs())) + MatchingChildren(trie.subs, topic, node.children, i)
      {
        ChildFacts(trie, topic, node.path, i);
        VisitChild(node.children[i], topic, level, result);
      }
    }

    /** One round of the loop over the children. */
    method VisitChild(child: TopicNode, topic: seq<Segment>, level: nat, result: SubscriberList)
      requires Valid() && child.path in trie.at && trie.at[child.path] == child
      requires |child.path| == level + 1 <= |topic|
      requires OnTrack(child.path, topic) <==> SegmentMatches(child.segment, topic[level])
      requires result.Valid() && NoRepeats(result.Addrs())
      modifies result
      ensures result.Valid() && NoRepeats(result.Addrs()) && fresh(result.footprint - old(result.footprint))
      ensures Members(result.Addrs())
           == old(Members(result.Addrs())) + MatchingBelow(trie.subs, topic, child.path)
      decreases |topic| - level, 0
    {
      hide Trie.Filed, Trie.Holds, Trie.ChildrenFiled, Trie.ParentsFiled;
      hide MatchingBelow, OnTrack;
      if child.segment == topic[level] || child.segment == ANY_LEVEL || child.segment == ALL_LEVELS {
        MatchRecursive(child, topic, level + 1, result);
      } else {
        NothingOffTrack(trie, topic, child.path);
      }
    }

    /** The topic's levels, read from the slots of `split_topic`. */
    method SplitFilled(topic: seq<byte>) returns (segments: seq<Segment>)
      requires NoEmptyLevel(topic)
      ensures segments == Levels(topic)
    {
      hide Levels, Tokens;
      var slots, depth := SplitTopic(topic);
      TokensFillLevels(topic);
      segments := [];
      for i := 0 to depth
        invariant segments == Levels(topic)[..i]
      {
        segments := segments + [slots[i].value];
      }
      assert Levels(topic)[..depth] == Levels(topic);
    }

    /** `get_matching_subscribers`: exactly the addresses subscribed with a matching filter, once each. */
    method GetMatchingSubscribers(topic: seq<byte>) returns (list: SubscriberList)
      requires Valid() && NoEmptyLevel(topic)
      ensures fresh(list) && fresh(list.footprint) && list.Valid()
      ensures NoRepeats(list.Addrs()) && Members(list.Addrs()) == Matching(trie.subs, Levels(topic))
      ensures list.count == |Matching(trie.subs, Levels(topic))|
    {
      hide Trie.Filed, Trie.Holds, Trie.ChildrenFiled, Trie.ParentsFiled;
      hide Matching, MatchingBelow, NoRepeats, SubscriberList.Valid, SubscriberList.Addrs, Levels, FirstOccurrences;
      var segments := SplitFilled(topic);
      NoRepeatsOfNothing<Address>();
      list := new SubscriberList();
      RootIsFiled(trie);
      MatchRecursive(root, segments, 0, list);
      MatchingBelowRoot(trie.subs, segments);
      FirstOccurrencesKeepsMembers(list.Addrs());
      list.RemoveDuplicates();
      NoRepeatsCount(list.Addrs());
      list.CountIsLength();
    }
  }

  lemma RootIsFiled(t: Trie)
    requires t.Valid()
    ensures [] in t.at && t.at[[]].path == []
  {
  }

  lemma SubscribedFilterFiled(t: Trie, filter: Filter, addr: Address)
    requires t.Valid()
    ensures (filter, addr) in t.subs ==> filter in t.at
  {
  }

  lemma PrefixesFiled(t: Trie, filter: Filter)
    requires t.Valid()
    ensures filter in t.at ==> forall k :: 0 <= k <= |filter| ==> filter[..k] in t.at
  {
    if filter in t.at {
      forall k | 0 <= k <= |filter| ensures filter[..k] in t.at {
        PrefixFiled(t, filter, k);
      }
    }
  }

  /** Whether the walk copies a node's own subscribers is whether its filter selects the topic. */
  lemma NodeFacts(t: Trie, path: Filter, topic: seq<Segment>)
    requires t.Valid() && path in t.at && OnTrack(path, topic) && |topic| > 0
    ensures Linked(t.lists[path])
    ensures OwnMatches(t, topic, path)
         == if |path| == |topic| || t.at[path].segment == ALL_LEVELS then Members(Listed(t.lists[path])) else {}
  {
  }

  lemma ChildFacts(t: Trie, topic: seq<Segment>, path: Filter, i: nat)
    requires t.Valid() && path in t.kids && i < |t.kids[path]|
    requires OnTrack(path, topic) && |path| < |topic|
    ensures var child := t.kids[path][i];
            && child.path == path + [child.segment] && child.path in t.at && t.at[child.path] == child
            && (OnTrack(child.path, topic) <==> SegmentMatches(child.segment, topic[|path|]))
  {
    ChildIsFiledNode(t, path, i);
    var child := t.kids[path][i];
    assert forall k :: 0 <= k < |path| ==> child.path[k] == path[k];
    assert child.path[|path|] == child.segment;
  }
}
