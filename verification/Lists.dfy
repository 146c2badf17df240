/** The kernel's circular doubly linked list with its end marker and its moving index.

    Modelled code: nimble/os/freertos/list.c:50-225 and nimble/os/freertos/include/list.h:285-330. */
module Lists {
  import opened Sequences

  /** The value of the end marker, the largest a tick count can be. */
  const MAX_DELAY: nat := 0xFFFF_FFFF

  type Value = n: nat | n <= MAX_DELAY

  class Item {
    var value: Value
    var next: Item
    var previous: Item
    var container: List?

    constructor (value: Value)
      ensures this.value == value && container == null
    {
      this.value, next, previous, container := value, this, this, null;
    }
  }

  function After(i: nat, n: nat): (j: nat)
    requires i < n
    ensures j < n
  {
    if i + 1 == n then 0 else i + 1
  }

  ghost predicate Joined(a: Item, b: Item)
    reads a`next, b`previous
  {
    a.next == b && b.previous == a
  }

  /** The items point at each other in the order of `ring`, round and round. */
  ghost predicate Linked(ring: seq<Item>)
    reads ring`next, ring`previous
  {
    && ring != [] && NoRepeats(ring)
    && forall i :: 0 <= i < |ring| ==> Joined(ring[i], ring[After(i, |ring|)])
  }

  /** All items but `ring[hole]` point at the next one. */
  ghost predicate LinkedBut(ring: seq<Item>, hole: nat)
    reads ring`next, ring`previous
  {
    && ring != [] && NoRepeats(ring)
    && forall i :: 0 <= i < |ring| && i != hole ==> Joined(ring[i], ring[After(i, |ring|)])
  }

  /** `x` is put before `ring[p]`, or last if `p` is the length. */
  lemma {:induction false} LinkedWith(ring: seq<Item>, p: nat, x: Item)
    requires 1 <= p <= |ring| && LinkedBut(ring, p - 1) && x !in ring
    requires Joined(ring[p - 1], x)
    requires Joined(x, ring[After(p - 1, |ring|)])
    ensures Linked(Inserted(ring, p, x))
  {
    var more := Inserted(ring, p, x);
    InsertedNoRepeats(ring, p, x);
    hide Inserted;
    forall i | 0 <= i < |more|
      ensures Joined(more[i], more[After(i, |more|)])
    {
      if i != p - 1 && i != p {
        var k := if i < p then i else i - 1;
        assert Joined(ring[k], ring[After(k, |ring|)]);
        assert more[i] == ring[k] && more[After(i, |more|)] == ring[After(k, |ring|)];
      }
    }
  }

  /** `ring[p]` is taken out. */
  lemma {:induction false} LinkedWithout(ring: seq<Item>, p: nat)
    requires 1 <= p < |ring| && NoRepeats(ring) && Joined(ring[p - 1], ring[After(p, |ring|)])
    requires forall i :: 0 <= i < |ring| && i != p && i != p - 1 ==> Joined(ring[i], ring[After(i, |ring|)])
    ensures Linked(Removed(ring, p))
  {
    var less := Removed(ring, p);
    hide Removed;
    forall i | 0 <= i < |less|
      ensures Joined(less[i], less[After(i, |less|)])
    {
      if i != p - 1 {
        var k := if i < p then i else i + 1;
        assert Joined(ring[k], ring[After(k, |ring|)]);
        assert less[i] == ring[k] && less[After(i, |less|)] == ring[After(k, |ring|)];
      }
    }
  }

  /** The items in the order in which walking from ring index `k` meets them, without the end marker. */
  function TurnFrom<T>(ring: seq<T>, k: nat): (t: seq<T>)
    requires k < |ring|
    ensures |t| == |ring| - 1
  {
    ring[k + 1..] + ring[1..k + 1]
  }

  lemma {:induction false} TurnWithLast<T>(ring: seq<T>, x: T)
    requires ring != []
    ensures TurnFrom(Inserted(ring, |ring|, x), 0) == TurnFrom(ring, 0) + [x]
  {
  }

  lemma {:induction false} TurnWith<T>(ring: seq<T>, k: nat, x: T)
    requires 1 <= k < |ring|
    ensures TurnFrom(Inserted(ring, k, x), k + 1) == TurnFrom(ring, k)[..|ring| - 2] + [x, ring[k]]
  {
    var more := Inserted(ring, k, x);
    assert more[k + 2..] == ring[k + 1..] && more[1..k + 2] == ring[1..k] + [x, ring[k]];
    assert ring[1..k + 1] == ring[1..k] + [ring[k]];
  }

  /** Removing behind a prefix, and in front of a suffix. */
  lemma {:induction false} RemovedBehind<T>(a: seq<T>, b: seq<T>, j: nat)
    requires j < |b|
    ensures Removed(a + b, |a| + j) == a + Removed(b, j)
  {
    assert (a + b)[..|a| + j] == a + b[..j] && (a + b)[|a| + j + 1..] == b[j + 1..];
  }

  lemma {:induction false} RemovedBefore<T>(a: seq<T>, b: seq<T>, j: nat)
    requires j < |a|
    ensures Removed(a + b, j) == Removed(a, j) + b
  {
    assert (a + b)[..j] == a[..j] && (a + b)[j + 1..] == a[j + 1..] + b;
  }

  /** Removing at or before `k` from what lies up to `k`, and after `k` from what lies behind. */
  lemma {:induction false} RemovedUpTo<T>(ring: seq<T>, at: nat, k: nat)
    requires 1 <= at <= k < |ring|
    ensures Removed(ring, at)[k..] == ring[k + 1..]
    ensures Removed(ring, at)[1..k] == Removed(ring[1..k + 1], at - 1)
  {
    var less := Removed(ring, at);
    assert |ring[..at]| == at;
    assert less[k..] == ring[k + 1..];
    assert ring[1..k + 1][..at - 1] == ring[1..at] && ring[1..k + 1][at..] == ring[at + 1..k + 1];
    assert less[1..k] == ring[1..at] + ring[at + 1..k + 1];
  }

  lemma {:induction false} RemovedAfter<T>(ring: seq<T>, at: nat, k: nat)
    requires k < at < |ring|
    ensures Removed(ring, at)[k + 1..] == Removed(ring[k + 1..], at - k - 1)
    ensures Removed(ring, at)[1..k + 1] == ring[1..k + 1]
  {
    var less := Removed(ring, at);
    assert ring[k + 1..][..at - k - 1] == ring[k + 1..at] && ring[k + 1..][at - k..] == ring[at + 1..];
    assert less[k + 1..] == ring[k + 1..at] + ring[at + 1..];
    assert less[1..k + 1] == ring[1..k + 1];
  }

  lemma {:induction false} TurnWithout<T>(ring: seq<T>, at: nat, k: nat)
    requires 1 <= at < |ring| && k < |ring|
    ensures var spot := InTurn(at, k, |ring|);
      && TurnFrom(ring, k)[spot] == ring[at]
      && TurnFrom(Removed(ring, at), if at <= k then k - 1 else k) == Removed(TurnFrom(ring, k), spot)
  {
    hide Removed;
    var behind, before := ring[k + 1..], ring[1..k + 1];
    if at <= k {
      RemovedUpTo(ring, at, k);
      RemovedBehind(behind, before, at - 1);
    } else {
      RemovedAfter(ring, at, k);
      RemovedBefore(behind, before, at - k - 1);
    }
  }

  lemma {:induction false} LinkedNoRepeats(ring: seq<Item>)
    requires Linked(ring)
    ensures NoRepeats(ring)
  {
  }

  lemma {:induction false} RemovedMembers<T>(s: seq<T>, at: nat)
    requires at < |s| && NoRepeats(s)
    ensures forall x :: x in Removed(s, at) <==> x in s && x != s[at]
  {
    assert s == s[..at] + [s[at]] + s[at + 1..];
  }

  ghost predicate Ascending(ring: seq<Item>)
    reads ring`value
  {
    forall i, j :: 1 <= i < j < |ring| ==> ring[i].value <= ring[j].value
  }

  lemma {:induction false} AscendingWith(ring: seq<Item>, at: nat, item: Item)
    requires 1 <= at <= |ring| && Ascending(ring)
    requires forall i :: 1 <= i < at ==> ring[i].value <= item.value
    requires at < |ring| ==> ring[at].value > item.value
    ensures Ascending(Inserted(ring, at, item))
  {
    var more := Inserted(ring, at, item);
    hide Inserted;
    forall i, j | 1 <= i < j < |more|
      ensures more[i].value <= more[j].value
    {
      if at < j {
        assert more[j] == ring[j - 1] && ring[at].value <= ring[j - 1].value;
      }
      if i < at {
        assert more[i] == ring[i];
      }
    }
  }

  /** The place in the walk of item `at` of a ring of `n`, with the index at `k`. */
  function InTurn(at: nat, k: nat, n: nat): (spot: nat)
    requires 1 <= at < n && k < n
    ensures spot < n - 1
  {
    if at > k then at - k - 1 else n - 1 - k + at - 1
  }

  class List {
    const end: Item
    var index: Item
    var count: nat
    ghost var ring: seq<Item>       // the end marker and the items behind it, in list order

    ghost predicate Valid()
      reads this, ring
    {
      && Linked(ring) && ring[0] == end && end.value == MAX_DELAY
      && index in ring && count == |ring| - 1
      && forall x :: x in ring && x != end ==> x.container == this
    }

    ghost predicate Sorted()
      reads this`ring, ring`value
    {
      Ascending(ring)
    }

    constructor Initialise()
      ensures Valid() && fresh(end) && ring == [end] && index == end && Sorted()
    {
      end := new Item(MAX_DELAY);
      index, count := end, 0;
      ring := [end];
      new;
      end.next, end.previous := end, end;
    }

    /** The item an item of this value goes behind: the one before the first that is larger. */
    method Place(value: Value) returns (place: Item, ghost at: nat)
      requires Valid()
      ensures 1 <= at <= |ring| && place == ring[at - 1]
      ensures forall i :: 1 <= i < at ==> ring[i].value <= value
      ensures at < |ring| ==> ring[at].value > value
    {
      if value == MAX_DELAY {
        place := end.previous;
        at := |ring|;
        assert Joined(ring[|ring| - 1], ring[After(|ring| - 1, |ring|)]);
      } else {
        place := end;
        at := 1;
        assert Joined(ring[0], ring[After(0, |ring|)]);
        while place.next.value <= value
          invariant 1 <= at <= |ring| && place == ring[at - 1]
          invariant place.next == ring[After(at - 1, |ring|)]
          invariant forall i :: 1 <= i < at ==> ring[i].value <= value
          decreases |ring| - at
        {
          place := place.next;
          at := at + 1;
          assert Joined(ring[at - 1], ring[After(at - 1, |ring|)]);
        }
      }
    }

    /** The pointer updates of both inserts: the item comes between `place` and the one after it. */
    method Hook(item: Item, place: Item, ghost at: nat)
      requires Linked(ring) && item !in ring && 1 <= at <= |ring| && place == ring[at - 1]
      modifies this`ring, ring`next, ring`previous, item`next, item`previous
      ensures ring == Inserted(old(ring), at, item) && Linked(ring)
      ensures forall x :: x in ring <==> x in old(ring) || x == item
    {
      assert Joined(ring[at - 1], ring[After(at - 1, |ring|)]);
      item.next := place.next;
      item.next.previous := item;
      item.previous := place;
      place.next := item;
      LinkedWith(ring, at, item);
      InsertedMembers(ring, at, item);
      ring := Inserted(ring, at, item);
    }

    /** An item joins the list between `place` and the one after it. */
    method Enter(item: Item, place: Item, ghost at: nat)
      requires Valid() && item !in ring && 1 <= at <= |ring| && place == ring[at - 1]
      modifies this`count, this`ring, ring`next, ring`previous, item`next, item`previous, item`container
      ensures Valid() && ring == Inserted(old(ring), at, item)
    {
      hide Linked, Inserted;
      Hook(item, place, at);
      item.container := this;
      count := count + 1;
    }

    /** Puts an item behind all items that are not larger and come before the first that is larger. */
    method Insert(item: Item) returns (ghost at: nat)
      requires Valid() && item !in ring
      modifies this`count, this`ring, ring`next, ring`previous, item`next, item`previous, item`container
      ensures Valid() && index == old(index)
      ensures 1 <= at <= |old(ring)| && ring == Inserted(old(ring), at, item)
      ensures forall i :: 1 <= i < at ==> old(ring)[i].value <= item.value
      ensures at < |old(ring)| ==> old(ring)[at].value > item.value
      ensures old(Sorted()) ==> Sorted()
    {
      hide Ascending, Valid, Inserted;
      var place: Item;
      place, at := Place(item.value);
      if Sorted() {
        AscendingWith(ring, at, item);
      }
      Enter(item, place, at);
    }

    /** Where the index is in the ring. */
    ghost function At(): (k: nat)
      requires index in ring
      reads this`index, this`ring
      ensures k < |ring| && ring[k] == index
    {
      var k :| 0 <= k < |ring| && ring[k] == index;
      k
    }

    /** The items in the order in which walking with the index meets them; an item under the index
        comes last. */
    ghost function Turn(): (t: seq<Item>)
      requires index in ring
      reads this`index, this`ring
    {
      TurnFrom(ring, At())
    }

    lemma IndexAt(k: nat)
      requires NoRepeats(ring) && k < |ring| && ring[k] == index
      ensures At() == k
    {
    }

    /** Puts an item where the walk meets it after all others, but before the item under the index. */
    method InsertEnd(item: Item)
      requires Valid() && item !in ring
      modifies this`count, this`ring, ring`next, ring`previous, item`next, item`previous, item`container
      ensures Valid() && index == old(index)
      ensures ring == Inserted(old(ring), if index == end then |old(ring)| else old(At()), item)
      ensures index == end ==> Turn() == old(Turn()) + [item]
      ensures index != end ==> old(Turn()) != [] && Turn() == old(Turn())[..|old(ring)| - 2] + [item, index]
    {
      ghost var k := At();
      ghost var at := if k == 0 then |ring| else k;
      hide TurnFrom;
      LinkedNoRepeats(ring);
      if k == 0 {
        TurnWithLast(ring, item);
      } else {
        TurnWith(ring, k, item);
      }
      var place := index.previous;
      assert Joined(ring[at - 1], ring[After(at - 1, |ring|)]);
      Enter(item, place, at);
      LinkedNoRepeats(ring);
      hide Linked;
      IndexAt(if k == 0 then 0 else k + 1);
    }

    /** The pointer updates of the removal. */
    method Unhook(item: Item, ghost at: nat)
      requires Linked(ring) && 1 <= at < |ring| && item == ring[at]
      modifies this`ring, ring`next, ring`previous
      ensures ring == Removed(old(ring), at) && Linked(ring)
      ensures forall x :: x in ring <==> x in old(ring) && x != item
      ensures item.previous == old(ring)[at - 1]
    {
      assert Joined(ring[at - 1], ring[After(at - 1, |ring|)]) && Joined(ring[at], ring[After(at, |ring|)]);
      item.next.previous := item.previous;
      item.previous.next := item.next;
      LinkedWithout(ring, at);
      RemovedMembers(ring, at);
      ring := Removed(ring, at);
    }

    /** An item leaves the list; an index on it goes back by one. */
    method Exit(item: Item, ghost at: nat)
      requires Valid() && 1 <= at < |ring| && item == ring[at]
      modifies this`index, this`count, this`ring, ring`next, ring`previous, item`container
      ensures Valid() && ring == Removed(old(ring), at) && item.container == null
      ensures index == if old(index) == item then old(ring)[at - 1] else old(index)
    {
      LinkedNoRepeats(ring);
      hide Linked, Removed;
      Unhook(item, at);
      if index == item {
        index := item.previous;
      }
      item.container := null;
      count := count - 1;
    }

    /** Takes an item out; the walk over the others is the same as before. */
    method Remove(item: Item, ghost at: nat) returns (left: nat)
      requires Valid() && 1 <= at < |ring| && item == ring[at]
      modifies this`index, this`count, this`ring, ring`next, ring`previous, item`container
      ensures Valid() && ring == Removed(old(ring), at) && left == count && item.container == null
      ensures index == if old(index) == item then old(ring)[at - 1] else old(index)
      ensures var spot := InTurn(at, old(At()), |old(ring)|);
        old(Turn())[spot] == item && Turn() == Removed(old(Turn()), spot)
    {
      ghost var k := At();
      assert index == item ==> at == k;
      TurnWithout(ring, at, k);
      hide TurnFrom, InTurn, Linked;
      LinkedNoRepeats(ring);
      Exit(item, at);
      LinkedNoRepeats(ring);
      IndexAt(if at <= k then k - 1 else k);
      left := count;
    }

    /** The next item of the walk, skipping the end marker: every item gets its turn. */
    method Next() returns (item: Item)
      requires Valid() && count > 0
      modifies this`index
      ensures Valid() && item == index == old(Turn())[0]
      ensures Turn() == old(Turn())[1..] + [item]
    {
      ghost var k := At();
      assert Joined(ring[k], ring[After(k, |ring|)]);
      index := index.next;
      if index == end {
        assert Joined(ring[0], ring[After(0, |ring|)]);
        index := index.next;
        IndexAt(1);
      } else {
        IndexAt(k + 1);
      }
      item := index;
    }
  }
}
