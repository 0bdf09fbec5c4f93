/** The singly linked lists of subscribers: the immutable entries hanging off a topic node, and the
    counted result list that `remove_duplicates` relinks in place. */
module SubscriberLists {
  import opened Addresses
  import opened Lists

  // ---------- lists without repeats ----------

  /** The list with every element that already occurred left out. */
  function FirstOccurrences(list: seq<Address>): seq<Address> {
    if list == [] then []
    else
      var n := |list| - 1;
      var before := FirstOccurrences(list[..n]);
      if list[n] in list[..n] then before else before + [list[n]]
  }

  /** Dropping repeats keeps exactly the members, once each, in order of first occurrence. */
  lemma {:induction false} FirstOccurrencesKeepsMembers(list: seq<Address>)
    ensures NoRepeats(FirstOccurrences(list))
    ensures forall a :: a in FirstOccurrences(list) <==> a in list
    ensures |FirstOccurrences(list)| <= |list|
    ensures NoRepeats(list) <==> FirstOccurrences(list) == list
  {
    if list != [] {
      var n := |list| - 1;
      FirstOccurrencesKeepsMembers(list[..n]);
      assert list == list[..n] + [list[n]];
      NoRepeatsSnoc(list[..n], list[n]);
      NoRepeatsSnoc(FirstOccurrences(list[..n]), list[n]);
    }
  }

  lemma RepeatIsStillThere(list: seq<Address>, k: nat)
    requires k < |list| && list[k] in list[..k]
    ensures forall a :: a in list <==> a in list[..k] + list[k + 1..]
  {
    assert list == list[..k] + [list[k]] + list[k + 1..];
  }

  lemma FirstOccurrencesSnoc(list: seq<Address>, a: Address)
    ensures FirstOccurrences(list + [a])
         == if a in list then FirstOccurrences(list) else FirstOccurrences(list) + [a]
  {
    assert (list + [a])[..|list|] == list;
  }

  /** A repeat may be dropped from the middle at any time without changing the outcome. */
  lemma {:induction false} DroppedRepeat(list: seq<Address>, k: nat)
    requires k < |list| && list[k] in list[..k]
    ensures FirstOccurrences(list[..k] + list[k + 1..]) == FirstOccurrences(list)
    decreases |list|
  {
    hide FirstOccurrences;
    var n := |list| - 1;
    var init, last := list[..n], list[n];
    assert list == init + [last];
    FirstOccurrencesSnoc(init, last);
    if k < n {
      assert init[..k] == list[..k];
      DroppedRepeat(init, k);
      RepeatIsStillThere(init, k);
      var short := init[..k] + init[k + 1..];
      assert list[..k] + list[k + 1..] == short + [last];
      FirstOccurrencesSnoc(short, last);
    } else {
      assert list[..k] + list[k + 1..] == init;
    }
  }

  // ---------- entries of a topic node ----------

  /** An entry is linked once, when it is pushed to the front, and never changes afterwards. */
  class Entry {
    const addr: Address
    const next: Entry?
    ghost const addrs: seq<Address>

    constructor (addr: Address, next: Entry?)
      requires Linked(next)
      ensures this.addr == addr && this.next == next && this.addrs == [addr] + Listed(next)
      ensures Linked(this)
    {
      this.addr := addr;
      this.next := next;
      this.addrs := [addr] + Listed(next);
    }
  }

  ghost function Listed(e: Entry?): seq<Address> {
    if e == null then [] else e.addrs
  }

  /** The chain of `next` pointers really holds the listed addresses. */
  ghost predicate Linked(e: Entry?)
    decreases |Listed(e)|
  {
    e != null ==>
      && e.addrs == [e.addr] + Listed(e.next)
      && Linked(e.next)
  }

  /** `is_duplicate_subscriber`. */
  method IsDuplicate(list: Entry?, addr: Address) returns (found: bool)
    requires Linked(list)
    ensures found <==> addr in Listed(list)
  {
    var e := list;
    while e != null
      invariant Linked(e)
      invariant addr in Listed(list) <==> addr in Listed(e)
      decreases |Listed(e)|
    {
      if e.addr == addr {
        return true;
      }
      e := e.next;
    }
    return false;
  }

  // ---------- the counted result list ----------

  class Subscriber {
    const addr: Address
    var next: Subscriber?

    constructor (addr: Address, next: Subscriber?)
      ensures this.addr == addr && this.next == next
    {
      this.addr, this.next := addr, next;
    }
  }

  class SubscriberList {
    var head: Subscriber?
    var count: nat
    ghost var cells: seq<Subscriber>
    ghost var footprint: set<Subscriber>

    /** `cells` are the distinct cells met when following `next` from `head`, and `count` counts them. */
    ghost predicate Valid()
      reads this, footprint
    {
      && (forall i :: 0 <= i < |cells| ==> cells[i] in footprint)
      && Chain(head, cells)
      && NoRepeats(cells)
      && count == |cells|
    }

    ghost function Addrs(): (s: seq<Address>)
      reads this
      ensures |s| == |cells|
    {
      AddrsOf(cells)
    }

    constructor ()
      ensures Valid() && Addrs() == [] && footprint == {}
    {
      head, count, cells, footprint := null, 0, [], {};
    }

    lemma CountIsLength()
      requires Valid()
      ensures count == |Addrs()|
    {
    }

    /** `is_in_list`. */
    method Contains(addr: Address) returns (found: bool)
      requires Valid()
      ensures found <==> addr in Addrs()
      ensures found <==> addr in Members(Addrs())
    {
      var s := head;
      ghost var i := 0;
      while s != null
        invariant i <= |cells| && s == CellAt(cells, i)
        invariant addr !in Addrs()[..i]
        decreases |cells| - i
      {
        if s.addr == addr {
          assert Addrs()[i] == addr;
          return true;
        }
        assert Addrs()[..i + 1] == Addrs()[..i] + [s.addr];
        s := s.next;
        i := i + 1;
      }
      assert Addrs()[..i] == Addrs();
      return false;
    }

    /** The push to the front that `match_recursive` makes for an address not yet listed. */
    method PushFront(addr: Address)
      requires Valid()
      modifies this
      ensures Valid() && Addrs() == [addr] + old(Addrs())
      ensures fresh(footprint - old(footprint))
    {
      var cell := new Subscriber(addr, head);
      head := cell;
      count := count + 1;
      ghost var was := cells;
      cells, footprint := [cell] + cells, footprint + {cell};
      NoRepeatsCons(cell, was);
    }

    /** The body of the copying loop: an address already listed is not listed again. */
    method AddIfAbsent(addr: Address)
      requires Valid() && NoRepeats(Addrs())
      modifies this
      ensures Valid() && NoRepeats(Addrs()) && fresh(footprint - old(footprint))
      ensures Members(Addrs()) == old(Members(Addrs())) + {addr}
    {
      var listed := Contains(addr);
      if !listed {
        NoRepeatsCons(addr, Addrs());
        MembersCons(addr, Addrs());
        PushFront(addr);
      }
    }

    /** `remove_duplicates`: unlinks, in place, every cell whose address an earlier cell already holds. */
    method RemoveDuplicates()
      requires Valid()
      modifies this, footprint
      ensures Valid() && Addrs() == FirstOccurrences(old(Addrs())) && footprint == old(footprint)
      ensures count == old(count) - (|old(Addrs())| - |FirstOccurrences(old(Addrs()))|)
    {
      hide FirstOccurrences, NoRepeats;
      NoRepeatsOfNothing<Address>();
      ghost var was := Addrs();
      var prev: Subscriber? := null;
      var curr := head;
      ghost var k := 0;
      while curr != null
        invariant Valid() && k <= |cells| && footprint == old(footprint)
        invariant curr == CellAt(cells, k) && prev == CellBefore(cells, k)
        invariant NoRepeats(Addrs()[..k])
        invariant FirstOccurrences(Addrs()) == FirstOccurrences(was)
        decreases |cells| - k
      {
        assert curr.next == CellAt(cells, k + 1);
        ghost var now := Addrs();
        var found := OccursBefore(curr, k);
        if found {
          DroppedRepeat(now, k);
          curr := curr.next;
          Unlink(prev, k);
        } else {
          prev := curr;
          curr := curr.next;
          NoRepeatsExtend(now, k);
          k := k + 1;
        }
      }
      assert Addrs()[..k] == Addrs();
      FirstOccurrencesKeepsMembers(Addrs());
    }

    /** The inner loop: does a cell before `curr` hold its address? */
    method OccursBefore(curr: Subscriber, ghost k: nat) returns (found: bool)
      requires Valid() && k < |cells| && cells[k] == curr
      ensures found <==> curr.addr in Addrs()[..k]
    {
      var runner := head;
      ghost var i := 0;
      while runner != curr
        invariant 0 <= i <= k && runner == cells[i]
        invariant i < k ==> Differ(cells, i, k)
        invariant forall j :: 0 <= j < i ==> Addrs()[j] != curr.addr
        decreases k - i
      {
        if runner.addr == curr.addr {
          assert Addrs()[..k][i] == curr.addr;
          return true;
        }
        runner := runner.next;
        i := i + 1;
      }
      assert i == k;
      return false;
    }

    /** Takes the first cell out of the chain. */
    method UnlinkHead()
      requires Valid() && |cells| > 0
      modifies this
      ensures Valid() && footprint == old(footprint) && cells == old(cells)[1..]
    {
      assert head.next == CellAt(cells, 1);
      head := head.next;
      count := count - 1;
      NoRepeatsDrop(cells, 0);
      assert cells[..0] + cells[1..] == cells[1..];
      cells := cells[1..];
    }

    /** Takes the cell at position `k`, right behind `prev`, out of the chain. */
    method UnlinkAfter(prev: Subscriber, ghost k: nat)
      requires Valid() && 0 < k < |cells| && prev == cells[k - 1]
      modifies this, prev
      ensures Valid() && footprint == old(footprint) && cells == old(cells)[..k] + old(cells)[k + 1..]
    {
      ghost var was := cells;
      assert prev.next == was[k] && was[k].next == CellAt(was, k + 1);
      prev.next := prev.next.next;
      count := count - 1;
      cells := was[..k] + was[k + 1..];
      forall i | 0 <= i < |cells|
        ensures cells[i].next == CellAt(cells, i + 1)
      {
        if i < k {
          assert cells[i] == was[i] && (i < k - 1 ==> Differ(was, i, k - 1));
        } else {
          assert cells[i] == was[i + 1] && Differ(was, k - 1, i + 1);
        }
      }
      NoRepeatsDrop(was, k);
    }

    method Unlink(prev: Subscriber?, ghost k: nat)
      requires Valid() && k < |cells| && prev == CellBefore(cells, k)
      modifies this, if prev == null then {} else {prev}
      ensures Valid() && footprint == old(footprint) && cells == old(cells)[..k] + old(cells)[k + 1..]
      ensures Addrs() == old(Addrs())[..k] + old(Addrs())[k + 1..]
    {
      AddrsOfDrop(cells, k);
      if prev != null {
        UnlinkAfter(prev, k);
      } else {
        assert cells[..0] + cells[1..] == cells[1..];
        UnlinkHead();
      }
    }
  }

  ghost function CellBefore(cells: seq<Subscriber>, k: nat): Subscriber?
    requires k <= |cells|
  {
    if k == 0 then null else cells[k - 1]
  }

  ghost function CellAt(cells: seq<Subscriber>, i: nat): Subscriber?
    requires i <= |cells|
  {
    if i < |cells| then cells[i] else null
  }

  ghost predicate Chain(head: Subscriber?, cells: seq<Subscriber>)
    reads cells
  {
    && head == CellAt(cells, 0)
    && (forall i {:trigger cells[i].next} :: 0 <= i < |cells| ==> cells[i].next == CellAt(cells, i + 1))
  }

  ghost function AddrsOf(cells: seq<Subscriber>): (s: seq<Address>)
    ensures |s| == |cells| && forall i :: 0 <= i < |s| ==> s[i] == cells[i].addr
  {
    if cells == [] then [] else AddrsOf(cells[..|cells| - 1]) + [cells[|cells| - 1].addr]
  }

  lemma {:induction false} AddrsOfDrop(cells: seq<Subscriber>, k: nat)
    requires k < |cells|
    ensures AddrsOf(cells[..k] + cells[k + 1..]) == AddrsOf(cells)[..k] + AddrsOf(cells)[k + 1..]
  {
    var short, want := AddrsOf(cells[..k] + cells[k + 1..]), AddrsOf(cells)[..k] + AddrsOf(cells)[k + 1..];
    forall i | 0 <= i < |cells| - 1 ensures short[i] == want[i] {
      assert short[i] == cells[if i < k then i else i + 1].addr;
    }
  }
}
