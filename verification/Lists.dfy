/** Sequences without repeats, and their members as sets. */
module Lists {

  ghost predicate Differ<T>(list: seq<T>, i: nat, j: nat)
    requires i < |list| && j < |list|
  {
    list[i] != list[j]
  }

  ghost predicate NoRepeats<T>(list: seq<T>) {
    forall i, j {:trigger Differ(list, i, j)} :: 0 <= i < j < |list| ==> Differ(list, i, j)
  }

  lemma NoRepeatsOfNothing<T>()
    ensures NoRepeats<T>([])
  {
  }

  lemma NoRepeatsSnoc<T>(list: seq<T>, x: T)
    ensures NoRepeats(list + [x]) <==> NoRepeats(list) && x !in list
  {
    var all := list + [x];
    if NoRepeats(all) {
      forall i, j | 0 <= i < j < |list| ensures Differ(list, i, j) {
        assert Differ(all, i, j);
      }
      forall i | 0 <= i < |list| ensures list[i] != x {
        assert Differ(all, i, |list|);
      }
    }
    if NoRepeats(list) && x !in list {
      forall i, j | 0 <= i < j < |all| ensures Differ(all, i, j) {
        if j < |list| {
          assert Differ(list, i, j);
        }
      }
    }
  }

  lemma NoRepeatsExtend<T>(list: seq<T>, k: nat)
    requires k < |list| && NoRepeats(list[..k]) && list[k] !in list[..k]
    ensures NoRepeats(list[..k + 1])
  {
    assert list[..k + 1] == list[..k] + [list[k]];
    NoRepeatsSnoc(list[..k], list[k]);
  }

  lemma NoRepeatsCons<T>(x: T, list: seq<T>)
    requires NoRepeats(list) && x !in list
    ensures NoRepeats([x] + list)
  {
    forall i, j | 0 <= i < j < |list| + 1 ensures Differ([x] + list, i, j) {
      if i > 0 {
        assert Differ(list, i - 1, j - 1);
      }
    }
  }

  lemma NoRepeatsDrop<T>(list: seq<T>, k: nat)
    requires NoRepeats(list) && k < |list|
    ensures NoRepeats(list[..k] + list[k + 1..])
  {
    var short := list[..k] + list[k + 1..];
    forall i, j | 0 <= i < j < |short| ensures Differ(short, i, j) {
      assert Differ(list, if i < k then i else i + 1, if j < k then j else j + 1);
    }
  }

  ghost function Members<T>(list: seq<T>): set<T> {
    set x | x in list
  }

  lemma MembersCons<T>(x: T, list: seq<T>)
    ensures Members([x] + list) == {x} + Members(list)
  {
  }

  lemma {:induction false} NoRepeatsCount<T>(list: seq<T>)
    requires NoRepeats(list)
    ensures |Members(list)| == |list|
  {
    if list != [] {
      var n := |list| - 1;
      assert list == list[..n] + [list[n]];
      NoRepeatsSnoc(list[..n], list[n]);
      NoRepeatsCount(list[..n]);
      assert Members(list) == Members(list[..n]) + {list[n]};
    }
  }

  /** Some listing of a finite set. */
  ghost function ListOf<T(!new)>(s: set<T>): (list: seq<T>)
    ensures NoRepeats(list) && Members(list) == s
    decreases s
  {
    if s == {} then []
    else
      var a :| a in s;
      var rest := ListOf(s - {a});
      NoRepeatsCons(a, rest);
      MembersCons(a, rest);
      [a] + rest
  }
}
