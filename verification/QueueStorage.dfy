/** The storage of a queue: a ring of slots, a write pointer, and a read pointer that stands one slot
    before the oldest message.

    Modelled code: nimble/os/freertos/queue.c:300-350 (a new queue), 1764-1782 (peeking restores the
    read pointer), 2175-2275 (copying in and out). A slot is one item; pointers count items. */
module QueueStorage {
  /** Where a message goes: behind the others, in front of them, or in the place of the only one. */
  datatype Position = Back | Front | Over

  function NextSlot(i: nat, n: nat): (j: nat)
    requires i < n
    ensures j < n
  {
    if i + 1 >= n then 0 else i + 1
  }

  function SlotBefore(i: nat, n: nat): (j: nat)
    requires i < n
    ensures j < n && NextSlot(j, n) == i
  {
    if i == 0 then n - 1 else i - 1
  }

  /** `k` slots on from `i`, around the end. */
  function Slot(i: nat, k: nat, n: nat): (j: nat)
    requires i < n && k <= n
    ensures j < n
  {
    if i + k < n then i + k else i + k - n
  }

  /** The next slot is one more on. */
  lemma {:induction false} SlotAfter(i: nat, k: nat, n: nat)
    requires i < n && k < n
    ensures Slot(i, k + 1, n) == NextSlot(Slot(i, k, n), n) == Slot(NextSlot(i, n), k, n)
  {
  }

  lemma {:induction false} SlotsDiffer(i: nat, k: nat, l: nat, n: nat)
    requires i < n && k < l < n
    ensures Slot(i, k, n) != Slot(i, l, n)
  {
  }

  /** `k` cells from `first` on, around the end. */
  function Window(cells: seq<int>, first: nat, k: nat): (w: seq<int>)
    requires first < |cells| && k <= |cells|
    ensures |w| == k && forall i :: 0 <= i < k ==> w[i] == cells[Slot(first, i, |cells|)]
  {
    seq(k, i requires 0 <= i < k => cells[Slot(first, i, |cells|)])
  }

  lemma {:induction false} WindowInFront(cells: seq<int>, at: nat, k: nat, item: int)
    requires at < |cells| && k < |cells|
    ensures Window(cells[at := item], at, k + 1) == [item] + Window(cells, NextSlot(at, |cells|), k)
  {
    var r, w := Window(cells[at := item], at, k + 1), [item] + Window(cells, NextSlot(at, |cells|), k);
    hide Window, Slot, NextSlot;
    WindowStart(at, |cells|);
    forall i | 0 <= i < k + 1
      ensures r[i] == w[i]
    {
      if i > 0 {
        SlotAfter(at, i - 1, |cells|);
        SlotsDiffer(at, 0, i, |cells|);
      }
    }
  }

  lemma {:induction false} WindowBehind(cells: seq<int>, first: nat, k: nat, item: int)
    requires first < |cells| && k < |cells|
    ensures Window(cells[Slot(first, k, |cells|) := item], first, k + 1) == Window(cells, first, k) + [item]
  {
    var r, w := Window(cells[Slot(first, k, |cells|) := item], first, k + 1), Window(cells, first, k) + [item];
    hide Window, Slot;
    forall i | 0 <= i < k + 1
      ensures r[i] == w[i]
    {
      if i < k {
        SlotsDiffer(first, i, k, |cells|);
      }
    }
  }

  lemma {:induction false} WindowStart(first: nat, n: nat)
    requires first < n
    ensures Slot(first, 0, n) == first
  {
  }

  lemma {:induction false} WindowWithoutFirst(cells: seq<int>, first: nat, k: nat)
    requires first < |cells| && 0 < k <= |cells|
    ensures Window(cells, first, k)[0] == cells[first]
    ensures Window(cells, NextSlot(first, |cells|), k - 1) == Window(cells, first, k)[1..]
  {
    var r, w := Window(cells, NextSlot(first, |cells|), k - 1), Window(cells, first, k)[1..];
    hide Window, Slot, NextSlot;
    WindowStart(first, |cells|);
    forall i | 0 <= i < k - 1
      ensures r[i] == w[i]
    {
      SlotAfter(first, i, |cells|);
    }
  }

  class Storage {
    const data: array<int>
    var count: nat                  // uxMessagesWaiting
    var writeTo: nat                // pcWriteTo
    var readFrom: nat               // pcReadFrom

    /** The slot of the oldest message. */
    ghost function First(): nat
      requires readFrom < data.Length
      reads this`readFrom
    {
      NextSlot(readFrom, data.Length)
    }

    /** The write pointer stands behind the messages, and the read pointer before them. */
    ghost predicate Valid()
      reads this
    {
      && readFrom < data.Length && writeTo < data.Length && count <= data.Length
      && writeTo == Slot(First(), count, data.Length)
    }

    /** The messages, the oldest first. */
    ghost function Contents(): (messages: seq<int>)
      requires Valid()
      reads this, data
      ensures |messages| == count
    {
      Window(data[..], First(), count)
    }

    constructor (length: nat)
      requires length > 0
      ensures Valid() && Contents() == [] && data.Length == length && fresh(data)
    {
      data := new int[length];
      count, writeTo, readFrom := 0, 0, length - 1;
    }

    /** Copies a message in. */
    method CopyTo(item: int, position: Position)
      requires Valid() && if position.Over? then data.Length == 1 else count < data.Length
      modifies this, data
      ensures Valid()
      ensures position.Back? ==> Contents() == old(Contents()) + [item]
      ensures position.Front? ==> Contents() == [item] + old(Contents())
      ensures position.Over? ==> Contents() == [item]
    {
      if position.Back? {
        CopyBack(item);
      } else if position.Front? {
        CopyFront(item);
      } else {
        data[readFrom] := item;
        readFrom := SlotBefore(readFrom, data.Length);
        if count > 0 {
          count := count - 1;
        }
        count := count + 1;
        assert Contents() == [item];
      }
    }

    method CopyBack(item: int)
      requires Valid() && count < data.Length
      modifies this, data
      ensures Valid() && Contents() == old(Contents()) + [item]
    {
      ghost var cells := data[..];
      SlotAfter(First(), count, data.Length);
      WindowBehind(cells, First(), count, item);
      hide Window, Slot;
      data[writeTo] := item;
      assert data[..] == cells[writeTo := item];
      writeTo := writeTo + 1;
      if writeTo >= data.Length {
        writeTo := 0;
      }
      count := count + 1;
    }

    method CopyFront(item: int)
      requires Valid() && count < data.Length
      modifies this, data
      ensures Valid() && Contents() == [item] + old(Contents())
    {
      ghost var cells := data[..];
      SlotAfter(readFrom, count, data.Length);
      WindowInFront(cells, readFrom, count, item);
      hide Window, Slot;
      data[readFrom] := item;
      assert data[..] == cells[readFrom := item];
      if readFrom == 0 {
        readFrom := data.Length - 1;
      } else {
        readFrom := readFrom - 1;
      }
      count := count + 1;
    }

    /** Moves the read pointer on and copies a message out. */
    method CopyFrom() returns (item: int)
      requires Valid() && count > 0
      modifies this`readFrom
      ensures readFrom == NextSlot(old(readFrom), data.Length) && item == data[readFrom]
    {
      readFrom := readFrom + 1;
      if readFrom >= data.Length {
        readFrom := 0;
      }
      item := data[readFrom];
    }

    /** Takes the oldest message out. */
    method Receive() returns (item: int)
      requires Valid() && count > 0
      modifies this`readFrom, this`count
      ensures Valid() && item == old(Contents())[0] && Contents() == old(Contents())[1..]
    {
      SlotAfter(First(), count - 1, data.Length);
      WindowWithoutFirst(data[..], First(), count);
      hide Window, Slot;
      item := CopyFrom();
      count := count - 1;
    }

    /** Looks at the oldest message; the read pointer goes back to where it was. */
    method Peek() returns (item: int)
      requires Valid() && count > 0
      modifies this`readFrom
      ensures Valid() && item == Contents()[0] && Contents() == old(Contents())
    {
      var original := readFrom;
      item := CopyFrom();
      readFrom := original;
      WindowWithoutFirst(data[..], First(), count);
    }
  }
}
