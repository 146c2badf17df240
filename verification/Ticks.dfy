/** The tick count, the two delayed lists it is compared with, and the pended ticks.

    Modelled code: nimble/os/freertos/tasks.c:201-213 (switching the lists), 1222-1345 (delays),
    2195-2290 (resuming), 2620-2640 (catching up), 2734-2840 (a tick), 3170-3240 (waking early),
    4032-4050, 5330-5401 (blocking); nimble/os/freertos/list.c:128-196 (sorted insertion).
    Tick counts have 32 bits; `now` is the clock they are a window of. */
module Ticks {
  import opened Sequences

  const WRAP: nat := 0x1_0000_0000
  const MAX_DELAY: nat := 0xFFFF_FFFF

  /** A list item: its owner, a blocked task, and the tick count, as stored, at which it is to wake. */
  datatype Entry = Entry(owner: nat, wake: nat)

  // ----- Sorted lists -----

  ghost predicate Sorted(list: seq<Entry>) {
    forall i, j :: 0 <= i < j < |list| ==> list[i].wake <= list[j].wake
  }

  ghost predicate Contains(list: seq<Entry>, t: nat) {
    exists i :: 0 <= i < |list| && list[i].owner == t
  }

  /** Every task once. */
  ghost predicate Single(list: seq<Entry>) {
    forall i, j :: 0 <= i < j < |list| ==> list[i].owner != list[j].owner
  }

  /** A list whose entries wake at the times the unbounded clock says, in the epoch that starts at
      `base`, all in (`from`, `to`]. */
  ghost predicate Scheduled(list: seq<Entry>, due: map<nat, nat>, base: nat, from: int, to: int) {
    && Sorted(list) && Single(list)
    && forall i :: 0 <= i < |list| ==>
         list[i].owner in due && due[list[i].owner] == base + list[i].wake && list[i].wake < WRAP
             && from < list[i].wake <= to
  }

  /** Inserts in wake order, past entries with the same time. The largest time goes last without a
      search. */
  method ListInsert(list: seq<Entry>, e: Entry) returns (at: nat)
    requires Sorted(list) && e.wake <= MAX_DELAY && forall i :: 0 <= i < |list| ==> list[i].wake <= MAX_DELAY
    ensures at <= |list| && Sorted(Inserted(list, at, e))
    ensures forall i :: 0 <= i < at ==> list[i].wake <= e.wake
    ensures forall i :: at <= i < |list| ==> list[i].wake > e.wake
  {
    if e.wake == MAX_DELAY {
      at := |list|;
    } else {
      at := 0;
      while at < |list| && list[at].wake <= e.wake
        invariant at <= |list| && forall i :: 0 <= i < at ==> list[i].wake <= e.wake
      {
        at := at + 1;
      }
    }
  }

  lemma {:induction false} InsertSingle(list: seq<Entry>, at: nat, e: Entry)
    requires at <= |list| && Single(list) && !Contains(list, e.owner)
    ensures Single(Inserted(list, at, e))
  {
    var r := Inserted(list, at, e);
    hide Inserted;
    assert forall i :: 0 <= i < |list| ==> list[i].owner != e.owner;
    forall i, j | 0 <= i < j < |r|
      ensures r[i].owner != r[j].owner
    {
      var k, l := if i < at then i else i - 1, if j < at then j else j - 1;
      assert i != at ==> r[i] == list[k];
      assert j != at ==> r[j] == list[l];
    }
  }

  lemma {:induction false} InsertScheduled(list: seq<Entry>, due: map<nat, nat>, base: nat, from: int, to: int,
                                           e: Entry, at: nat)
    requires Scheduled(list, due, base, from, to) && at <= |list| && Sorted(Inserted(list, at, e))
             && !Contains(list, e.owner)
    requires e.wake < WRAP && from < e.wake <= to
    ensures Scheduled(Inserted(list, at, e), due[e.owner := base + e.wake], base, from, to)
  {
    InsertSingle(list, at, e);
    var r, d := Inserted(list, at, e), due[e.owner := base + e.wake];
    assert forall i :: 0 <= i < |list| ==> list[i].owner != e.owner;
    hide Inserted, Sorted, Single, Contains;
    forall i | 0 <= i < |r|
      ensures r[i].owner in d && d[r[i].owner] == base + r[i].wake && r[i].wake < WRAP && from < r[i].wake <= to
    {
      var k := if i < at then i else i - 1;
      assert i != at ==> r[i] == list[k];
    }
  }

  /** A new due time for a task that is not in the list changes nothing there. */
  lemma {:induction false} OtherDue(list: seq<Entry>, due: map<nat, nat>, base: nat, from: int, to: int, t: nat,
                                    at: nat)
    requires Scheduled(list, due, base, from, to) && !Contains(list, t)
    ensures Scheduled(list, due[t := at], base, from, to) && Scheduled(list, due - {t}, base, from, to)
  {
    assert forall i :: 0 <= i < |list| ==> list[i].owner != t;
  }

  function Find(list: seq<Entry>, t: nat): (at: nat)
    ensures at <= |list| && (at < |list| ==> list[at].owner == t)
    ensures forall i :: 0 <= i < at ==> list[i].owner != t
  {
    if list == [] || list[0].owner == t then 0 else 1 + Find(list[1..], t)
  }

  /** The list without the item of `t`. */
  function Unlinked(list: seq<Entry>, t: nat): (r: seq<Entry>) {
    if Find(list, t) < |list| then Removed(list, Find(list, t)) else list
  }

  lemma {:induction false} UnlinkedScheduled(list: seq<Entry>, due: map<nat, nat>, base: nat, from: int, to: int,
                                             t: nat)
    requires Scheduled(list, due, base, from, to)
    ensures Scheduled(Unlinked(list, t), due - {t}, base, from, to)
    ensures Unlinked(list, t) != [] ==> list != [] && Unlinked(list, t)[0].wake >= list[0].wake
  {
    hide Removed, Find;
    var at := Find(list, t);
    if at < |list| {
      var r := Removed(list, at);
      assert forall i :: 0 <= i < |r| ==> r[i] == list[if i < at then i else i + 1];
    }
  }

  lemma {:induction false} UnlinkedContains(list: seq<Entry>, t: nat, u: nat)
    requires Single(list)
    ensures Contains(Unlinked(list, t), u) <==> Contains(list, u) && u != t
  {
    hide Removed, Find;
    var at, r := Find(list, t), Unlinked(list, t);
    if at < |list| {
      assert forall i :: 0 <= i < |r| ==> r[i] == list[if i < at then i else i + 1];
      if Contains(list, u) && u != t {
        var i :| 0 <= i < |list| && list[i].owner == u;
        assert r[if i < at then i else i - 1].owner == u;
      }
      if Contains(r, u) {
        var i :| 0 <= i < |r| && r[i].owner == u;
        assert list[if i < at then i else i + 1].owner == u;
      }
    }
  }

  lemma {:induction false} InsertContains(list: seq<Entry>, at: nat, e: Entry, u: nat)
    requires at <= |list|
    ensures Contains(Inserted(list, at, e), u) <==> Contains(list, u) || u == e.owner
  {
    var r := Inserted(list, at, e);
    hide Inserted;
    if Contains(list, u) {
      var i :| 0 <= i < |list| && list[i].owner == u;
      assert r[if i < at then i else i + 1].owner == u;
    }
    if Contains(r, u) && u != e.owner {
      var i :| 0 <= i < |r| && r[i].owner == u;
      assert list[if i < at then i else i - 1].owner == u;
    }
    assert r[at].owner == e.owner;
  }

  // ----- The tasks of the two lists -----

  /** The two lists hold the tasks that are due some time, each on one of them. */
  ghost predicate Partition(a: seq<Entry>, b: seq<Entry>, due: map<nat, nat>) {
    forall t :: (t in due <==> Contains(a, t) || Contains(b, t)) && !(Contains(a, t) && Contains(b, t))
  }

  lemma {:induction false} NotContained(a: seq<Entry>, b: seq<Entry>, due: map<nat, nat>, t: nat)
    requires Partition(a, b, due) && t !in due
    ensures !Contains(a, t) && !Contains(b, t)
  {
  }

  lemma {:induction false} PartitionSwap(a: seq<Entry>, b: seq<Entry>, due: map<nat, nat>)
    requires Partition(a, b, due)
    ensures Partition(b, a, due)
  {
  }

  lemma {:induction false} PartitionMore(a: seq<Entry>, b: seq<Entry>, due: map<nat, nat>, at: nat, e: Entry, time: nat)
    requires Partition(a, b, due) && e.owner !in due && at <= |a|
    ensures Partition(Inserted(a, at, e), b, due[e.owner := time])
  {
    hide Contains, Inserted;
    forall t
      ensures Contains(Inserted(a, at, e), t) <==> Contains(a, t) || t == e.owner
    {
      InsertContains(a, at, e, t);
    }
  }

  lemma {:induction false} PartitionLess(a: seq<Entry>, b: seq<Entry>, due: map<nat, nat>, t: nat)
    requires Partition(a, b, due) && Single(a) && Single(b)
    ensures Partition(Unlinked(a, t), Unlinked(b, t), due - {t})
  {
    forall u
      ensures Contains(Unlinked(a, t), u) <==> Contains(a, u) && u != t
      ensures Contains(Unlinked(b, t), u) <==> Contains(b, u) && u != t
    {
      UnlinkedContains(a, t, u);
      UnlinkedContains(b, t, u);
    }
    hide Contains, Unlinked;
  }

  lemma {:induction false} NotInOther(a: seq<Entry>, b: seq<Entry>, due: map<nat, nat>, t: nat)
    requires Partition(a, b, due) && Contains(a, t)
    ensures Unlinked(b, t) == b
  {
  }

  // ----- The clock -----

  /** The time at which the tick count was last zero. */
  function Epoch(now: nat): (e: nat)
    ensures e <= now < e + WRAP && now % WRAP == now - e
  {
    now / WRAP * WRAP
  }

  /** The tick count and the number of overflows of a clock that never wraps. */
  lemma {:induction false} NextTick(now: nat)
    ensures (now + 1) % WRAP == (now % WRAP + 1) % WRAP
    ensures now % WRAP < WRAP - 1 ==>
            (now + 1) % WRAP == now % WRAP + 1 && Epoch(now + 1) == Epoch(now) && (now + 1) / WRAP == now / WRAP
    ensures now % WRAP == WRAP - 1 ==>
            (now + 1) % WRAP == 0 && Epoch(now + 1) == Epoch(now) + WRAP && (now + 1) / WRAP == now / WRAP + 1
  {
  }

  /** When a delay of `ticks` ends, as stored: in this epoch unless the count passes the wrap. */
  lemma {:induction false} WakeTime(now: nat, ticks: nat)
    requires 0 < ticks < WRAP
    ensures var tick, wake := now % WRAP, (now % WRAP + ticks) % WRAP;
            wake < WRAP && if wake < tick then now + ticks == Epoch(now) + WRAP + wake
                           else now + ticks == Epoch(now) + wake && wake > tick
  {
    var e := Epoch(now);
    hide Epoch;
  }

  // ----- Windows of the clock -----

  lemma {:induction false} SingleOf(list: seq<Entry>, due: map<nat, nat>, base: nat, from: int, to: int)
    requires Scheduled(list, due, base, from, to)
    ensures Single(list)
  {
  }

  lemma {:induction false} SortedOf(list: seq<Entry>, due: map<nat, nat>, base: nat, from: int, to: int)
    requires Scheduled(list, due, base, from, to)
    ensures Sorted(list) && forall i :: 0 <= i < |list| ==> list[i].wake <= MAX_DELAY
  {
  }

  lemma {:induction false} InWindow(list: seq<Entry>, due: map<nat, nat>, base: nat, from: int, to: int, i: nat)
    requires Scheduled(list, due, base, from, to) && i < |list|
    ensures from < list[i].wake <= to
  {
  }

  lemma {:induction false} EmptyWindow(list: seq<Entry>, due: map<nat, nat>, base: nat, from: int, to: int)
    requires Scheduled(list, due, base, from, to) && to <= from
    ensures list == []
  {
    if list != [] {
      InWindow(list, due, base, from, to, 0);
    }
  }

  lemma {:induction false} NothingScheduled(due: map<nat, nat>, base: nat, from: int, to: int)
    ensures Scheduled([], due, base, from, to)
  {
  }

  lemma {:induction false} WiderWindow(list: seq<Entry>, due: map<nat, nat>, base: nat, from: int, to: int, wider: int)
    requires Scheduled(list, due, base, from, to) && to <= wider
    ensures Scheduled(list, due, base, from, wider)
  {
  }

  lemma {:induction false} NarrowWindow(list: seq<Entry>, due: map<nat, nat>, base: nat, from: int, narrower: int,
                                        to: int)
    requires Scheduled(list, due, base, from, to) && (list != [] ==> list[0].wake > narrower)
    ensures Scheduled(list, due, base, narrower, to)
  {
  }

  lemma {:induction false} FirstIsDue(list: seq<Entry>, due: map<nat, nat>, now: nat, tick: nat)
    requires Scheduled(list, due, Epoch(now), tick - 1, MAX_DELAY) && list != [] && list[0].wake <= tick
             && tick == now % WRAP
    ensures list[0].owner in due && due[list[0].owner] == now && Contains(list, list[0].owner)
  {
    hide Epoch;
  }

  lemma {:induction false} FirstUnlinked(list: seq<Entry>)
    requires list != []
    ensures Unlinked(list, list[0].owner) == list[1..]
  {
  }

  /** Nothing left is due now: what is delayed is due later, and the rest after the wrap. */
  lemma {:induction false} NobodyLeft(a: seq<Entry>, b: seq<Entry>, due: map<nat, nat>, now: nat)
    requires Scheduled(a, due, Epoch(now), now % WRAP, MAX_DELAY)
    requires Scheduled(b, due, Epoch(now) + WRAP, -1, now % WRAP - 1) && Partition(a, b, due)
    ensures forall t :: t in due ==> due[t] > now
  {
    hide Epoch;
    forall t | t in due
      ensures due[t] > now
    {
      if Contains(a, t) {
        var i :| 0 <= i < |a| && a[i].owner == t;
      } else {
        var i :| 0 <= i < |b| && b[i].owner == t;
      }
    }
  }

  function Members(s: seq<nat>): set<nat> {
    set t | t in s
  }

  lemma {:induction false} OneMore(all: map<nat, nat>, due: map<nat, nat>, woken: seq<nat>, t: nat, now: nat)
    requires due == all - Members(woken) && t in due && due[t] == now
    requires forall u :: u in woken ==> u in all && all[u] == now
    ensures due - {t} == all - Members(woken + [t])
    ensures forall u :: u in woken + [t] ==> u in all && all[u] == now
  {
  }

  lemma {:induction false} NobodyYet(due: map<nat, nat>)
    ensures due == due - Members([])
  {
  }

  /** Woken are exactly those that were due. */
  lemma {:induction false} ExactlyTheDue(all: map<nat, nat>, due: map<nat, nat>, woken: seq<nat>, now: nat)
    requires due == all - Members(woken) && forall t :: t in due ==> due[t] > now
    requires forall t :: t in woken ==> t in all && all[t] == now
    ensures forall t :: t in woken <==> t in all && all[t] == now
  {
    forall t | t in all && t !in woken
      ensures all[t] != now
    {
      assert t in due;
    }
  }

  class Clock {
    var tickCount: nat              // xTickCount
    var overflows: nat              // xNumOfOverflows
    var delayed: seq<Entry>         // pxDelayedTaskList
    var overflowDelayed: seq<Entry> // pxOverflowDelayedTaskList
    var indefinite: seq<nat>        // xSuspendedTaskList, as far as blocked tasks are on it
    var nextUnblock: nat            // xNextTaskUnblockTime
    var pended: nat                 // xPendedTicks
    var depth: nat                  // uxSchedulerSuspended
    var pendingReady: seq<nat>      // xPendingReadyList
    ghost var now: nat              // ticks processed since start-up
    ghost var arrived: nat          // tick interrupts and caught-up ticks since start-up
    ghost var due: map<nat, nat>    // when each delayed task is to wake, on the same clock

    /** The tick count is the clock, each list holds the wake times of its own epoch, and no
        delayed task was due at `from` or before, as stored. */
    ghost predicate Timed(from: int)
      reads this`tickCount, this`overflows, this`delayed, this`overflowDelayed, this`now, this`due
      ensures Timed(from) ==> tickCount == now % WRAP
    {
      && tickCount == now % WRAP && overflows == now / WRAP
      && Scheduled(delayed, due, Epoch(now), from, MAX_DELAY)
      && Scheduled(overflowDelayed, due, Epoch(now) + WRAP, -1, tickCount - 1)
      && Partition(delayed, overflowDelayed, due)
    }

    /** The next unblock time is not later than the first wake time. */
    ghost predicate Alert()
      reads this`delayed, this`nextUnblock
    {
      delayed != [] ==> nextUnblock <= delayed[0].wake
    }

    /** Between steps: every delayed task is still to wake, and ticks that were not processed are
        pended. */
    ghost predicate Valid()
      reads this
      ensures Valid() ==> tickCount == now % WRAP && arrived == now + pended
    {
      && Timed(tickCount) && Alert() && arrived == now + pended
      && (depth == 0 ==> pended == 0 && pendingReady == [])
    }

    lemma TimedParts(from: int)
      ensures Timed(from) <==> (&& tickCount == now % WRAP && overflows == now / WRAP
                                && Scheduled(delayed, due, Epoch(now), from, MAX_DELAY)
                                && Scheduled(overflowDelayed, due, Epoch(now) + WRAP, -1, tickCount - 1)
                                && Partition(delayed, overflowDelayed, due))
    {
      hide Scheduled, Partition, Epoch;
    }

    constructor ()
      ensures Valid() && now == 0 && due == map[] && pended == 0 && depth == 0 && indefinite == []
    {
      tickCount, overflows, nextUnblock, pended, depth := 0, 0, MAX_DELAY, 0, 0;
      delayed, overflowDelayed, indefinite, pendingReady := [], [], [], [];
      now, arrived, due := 0, 0, map[];
    }

    // ----- Blocking -----

    /** Puts the current task `t` to sleep for `ticks`, or without a timeout. */
    method AddCurrentTaskToDelayedList(t: nat, ticks: nat, canBlockIndefinitely: bool)
      requires Valid() && t !in due && 0 < ticks < WRAP
      modifies this`delayed, this`overflowDelayed, this`indefinite, this`nextUnblock, this`due
      ensures Valid()
      ensures if ticks == MAX_DELAY && canBlockIndefinitely then due == old(due) && indefinite == old(indefinite) + [t]
              else due == old(due)[t := now + ticks] && indefinite == old(indefinite)
    {
      hide Timed, Inserted, Epoch;
      if ticks == MAX_DELAY && canBlockIndefinitely {
        indefinite := indefinite + [t];
      } else {
        var wake := (tickCount + ticks) % WRAP;
        WakeTime(now, ticks);
        if wake < tickCount {
          var at := InsertOverflow(Entry(t, wake));
        } else {
          var at := InsertDelayed(Entry(t, wake));
          if wake < nextUnblock {
            nextUnblock := wake;
          }
        }
      }
    }

    method InsertDelayed(e: Entry) returns (at: nat)
      requires Timed(tickCount) && e.owner !in due && tickCount < e.wake < WRAP
      modifies this`delayed, this`due
      ensures Timed(tickCount) && due == old(due)[e.owner := Epoch(now) + e.wake]
      ensures at <= |old(delayed)| && delayed == Inserted(old(delayed), at, e)
              && (at == 0 || old(delayed)[0].wake <= e.wake)
    {
      hide Scheduled, Partition, Inserted, Sorted, Timed, Epoch;
      TimedParts(tickCount);
      NotContained(delayed, overflowDelayed, due, e.owner);
      SortedOf(delayed, due, Epoch(now), tickCount, MAX_DELAY);
      at := ListInsert(delayed, e);
      InsertScheduled(delayed, due, Epoch(now), tickCount, MAX_DELAY, e, at);
      OtherDue(overflowDelayed, due, Epoch(now) + WRAP, -1, tickCount - 1, e.owner, Epoch(now) + e.wake);
      PartitionMore(delayed, overflowDelayed, due, at, e, Epoch(now) + e.wake);
      delayed := Inserted(delayed, at, e);
      due := due[e.owner := Epoch(now) + e.wake];
      TimedParts(tickCount);
    }

    method InsertOverflow(e: Entry) returns (at: nat)
      requires Timed(tickCount) && e.owner !in due && e.wake < tickCount
      modifies this`overflowDelayed, this`due
      ensures Timed(tickCount) && due == old(due)[e.owner := Epoch(now) + WRAP + e.wake]
      ensures at <= |old(overflowDelayed)| && overflowDelayed == Inserted(old(overflowDelayed), at, e)
    {
      hide Scheduled, Partition, Inserted, Sorted, Timed, Epoch;
      TimedParts(tickCount);
      NotContained(delayed, overflowDelayed, due, e.owner);
      SortedOf(overflowDelayed, due, Epoch(now) + WRAP, -1, tickCount - 1);
      at := ListInsert(overflowDelayed, e);
      ghost var time := Epoch(now) + WRAP + e.wake;
      InsertScheduled(overflowDelayed, due, Epoch(now) + WRAP, -1, tickCount - 1, e, at);
      OtherDue(delayed, due, Epoch(now), tickCount, MAX_DELAY, e.owner, time);
      PartitionSwap(delayed, overflowDelayed, due);
      PartitionMore(overflowDelayed, delayed, due, at, e, time);
      PartitionSwap(Inserted(overflowDelayed, at, e), delayed, due[e.owner := time]);
      overflowDelayed := Inserted(overflowDelayed, at, e);
      due := due[e.owner := time];
      TimedParts(tickCount);
    }

    // ----- Waking early -----

    /** Takes `t` off whichever list it is blocked on. */
    method Unlink(t: nat)
      requires Timed(tickCount) && Alert()
      modifies this`delayed, this`overflowDelayed, this`indefinite, this`due
      ensures Timed(tickCount) && Alert() && due == old(due) - {t} && indefinite == Without(old(indefinite), t)
    {
      hide Scheduled, Partition, Unlinked, Timed, Single, Epoch, Without;
      TimedParts(tickCount);
      UnlinkedScheduled(delayed, due, Epoch(now), tickCount, MAX_DELAY, t);
      UnlinkedScheduled(overflowDelayed, due, Epoch(now) + WRAP, -1, tickCount - 1, t);
      SingleOf(delayed, due, Epoch(now), tickCount, MAX_DELAY);
      SingleOf(overflowDelayed, due, Epoch(now) + WRAP, -1, tickCount - 1);
      PartitionLess(delayed, overflowDelayed, due, t);
      delayed := Unlinked(delayed, t);
      overflowDelayed := Unlinked(overflowDelayed, t);
      indefinite := Without(indefinite, t);
      due := due - {t};
      TimedParts(tickCount);
    }

    /** An event for `t`: it is unblocked now, or when the scheduler resumes. */
    method RemoveFromEventList(t: nat)
      requires Valid()
      modifies this`delayed, this`overflowDelayed, this`indefinite, this`due, this`pendingReady
      ensures Valid()
      ensures if depth == 0 then due == old(due) - {t} && indefinite == Without(old(indefinite), t)
              && pendingReady == old(pendingReady)
              else due == old(due) && indefinite == old(indefinite) && pendingReady == old(pendingReady) + [t]
    {
      hide Timed;
      if depth == 0 {
        Unlink(t);
      } else {
        pendingReady := pendingReady + [t];
      }
    }

    // ----- Ticks -----

    method ResetNextTaskUnblockTime()
      modifies this`nextUnblock
      ensures Alert()
    {
      if delayed == [] {
        nextUnblock := MAX_DELAY;
      } else {
        nextUnblock := delayed[0].wake;
      }
    }

    /** Swaps the lists when the count wraps. The old list is empty then. */
    method SwitchDelayedLists()
      requires tickCount == now % WRAP == 0 && Epoch(now) >= WRAP && overflows + 1 == now / WRAP
      requires Scheduled(delayed, due, Epoch(now) - WRAP, WRAP - 1, MAX_DELAY)
      requires Scheduled(overflowDelayed, due, Epoch(now), -1, WRAP - 2)
      requires Partition(delayed, overflowDelayed, due)
      modifies this`delayed, this`overflowDelayed, this`overflows, this`nextUnblock
      ensures Timed(-1) && Alert()
    {
      hide Scheduled, Partition, Epoch, Timed;
      EmptyWindow(delayed, due, Epoch(now) - WRAP, WRAP - 1, MAX_DELAY);
      assert delayed == [];  // nothing that was due in the epoch that ends is left
      NothingScheduled(due, Epoch(now) + WRAP, -1, -1);
      WiderWindow(overflowDelayed, due, Epoch(now), -1, WRAP - 2, MAX_DELAY);
      PartitionSwap(delayed, overflowDelayed, due);
      delayed, overflowDelayed := overflowDelayed, delayed;
      overflows := overflows + 1;
      ResetNextTaskUnblockTime();
      TimedParts(-1);
    }

    /** The count goes up by one, and the lists are swapped if it wraps. */
    method Advance()
      requires Timed(tickCount) && Alert()
      modifies this`tickCount, this`overflows, this`delayed, this`overflowDelayed, this`nextUnblock, this`now
      ensures now == old(now) + 1 && Timed(tickCount - 1) && Alert()
    {
      hide Scheduled, Partition, Epoch, Timed;
      TimedParts(tickCount);
      NextTick(now);
      if tickCount + 1 < WRAP {
        WiderWindow(overflowDelayed, due, Epoch(now) + WRAP, -1, tickCount - 1, tickCount);
      }
      now := now + 1;
      tickCount := (tickCount + 1) % WRAP;
      if tickCount == 0 {
        SwitchDelayedLists();
      }
      TimedParts(tickCount - 1);
    }

    /** Pops the first task, whose time has come. */
    method PopDue() returns (t: nat)
      requires Timed(tickCount - 1) && delayed != [] && delayed[0].wake <= tickCount
      modifies this`delayed, this`due
      ensures Timed(tickCount - 1) && delayed == old(delayed)[1..] && t in old(due) && old(due)[t] == now
              && due == old(due) - {t}
    {
      hide Scheduled, Partition, Epoch, Timed, Unlinked, Single, Contains;
      t := delayed[0].owner;
      TimedParts(tickCount - 1);
      FirstIsDue(delayed, due, now, tickCount);
      FirstUnlinked(delayed);
      UnlinkedScheduled(delayed, due, Epoch(now), tickCount - 1, MAX_DELAY, t);
      UnlinkedScheduled(overflowDelayed, due, Epoch(now) + WRAP, -1, tickCount - 1, t);
      SingleOf(delayed, due, Epoch(now), tickCount - 1, MAX_DELAY);
      SingleOf(overflowDelayed, due, Epoch(now) + WRAP, -1, tickCount - 1);
      PartitionLess(delayed, overflowDelayed, due, t);
      NotInOther(delayed, overflowDelayed, due, t);
      delayed := delayed[1..];
      due := due - {t};
      TimedParts(tickCount - 1);
    }

    /** Pops the tasks whose time has come off the sorted list. */
    method WakeDue() returns (woken: seq<nat>)
      requires Timed(tickCount - 1)
      modifies this`delayed, this`nextUnblock, this`due
      ensures Timed(tickCount) && Alert()
      ensures forall t :: t in woken ==> t in old(due) && old(due)[t] == now
      ensures due == old(due) - Members(woken)
    {
      hide Timed, Members, Scheduled, Partition, Epoch;
      woken := [];
      NobodyYet(due);
      while delayed != [] && delayed[0].wake <= tickCount
        invariant Timed(tickCount - 1)
        invariant forall t :: t in woken ==> t in old(due) && old(due)[t] == now
        invariant due == old(due) - Members(woken)
        decreases |delayed|
      {
        ghost var before := due;
        var t := PopDue();
        OneMore(old(due), before, woken, t, now);
        woken := woken + [t];
      }
      TimedParts(tickCount - 1);
      NarrowWindow(delayed, due, Epoch(now), tickCount - 1, tickCount, MAX_DELAY);
      TimedParts(tickCount);
      if delayed == [] {
        nextUnblock := MAX_DELAY;
      } else {
        nextUnblock := delayed[0].wake;
      }
    }

    /** One tick is processed. The tasks that were to wake at this time wake, and no others. */
    method ProcessTick() returns (woken: seq<nat>)
      requires Timed(tickCount) && Alert()
      modifies this`tickCount, this`overflows, this`delayed, this`overflowDelayed, this`nextUnblock, this`now, this`due
      ensures now == old(now) + 1 && Timed(tickCount) && Alert()
      ensures forall t :: t in woken <==> t in old(due) && old(due)[t] == now
      ensures due == old(due) - Members(woken)
    {
      hide Timed, Members, Scheduled, Partition, Epoch;
      Advance();
      woken := [];
      NobodyYet(due);
      if tickCount >= nextUnblock {
        woken := WakeDue();
      } else {
        TimedParts(tickCount - 1);
        NarrowWindow(delayed, due, Epoch(now), tickCount - 1, tickCount, MAX_DELAY);
        TimedParts(tickCount);
      }
      TimedParts(tickCount);
      NobodyLeft(delayed, overflowDelayed, due, now);
      ExactlyTheDue(old(due), due, woken, now);
    }

    /** A tick interrupt. While the scheduler is suspended it is only counted. */
    method IncrementTick() returns (woken: seq<nat>)
      requires Valid()
      modifies this`tickCount, this`overflows, this`delayed, this`overflowDelayed, this`nextUnblock, this`pended,
               this`now, this`arrived, this`due
      ensures Valid() && arrived == old(arrived) + 1
      ensures depth == 0 ==> now == old(now) + 1 && due == old(due) - Members(woken)
      ensures depth == 0 ==> forall t :: t in woken <==> t in old(due) && old(due)[t] == now
      ensures depth > 0 ==> now == old(now) && due == old(due) && woken == [] && pended == old(pended) + 1
    {
      hide Timed, Members;
      arrived := arrived + 1;
      woken := [];
      if depth == 0 {
        woken := ProcessTick();
      } else {
        pended := pended + 1;
      }
    }

    method SuspendAll()
      requires Valid()
      modifies this`depth
      ensures Valid() && depth == old(depth) + 1
    {
      hide Timed;
      depth := depth + 1;
    }

    /** Moves the tasks readied meanwhile out of their blocked lists. */
    method MovePendingReady()
      requires Timed(tickCount) && Alert()
      modifies this`delayed, this`overflowDelayed, this`indefinite, this`due, this`pendingReady, this`nextUnblock
      ensures Timed(tickCount) && Alert() && due == old(due) - Members(old(pendingReady)) && pendingReady == []
    {
      hide Timed, Members;
      ghost var moved: seq<nat> := [];
      var any := pendingReady != [];
      NobodyYet(due);
      while pendingReady != []
        invariant Timed(tickCount) && Alert() && moved + pendingReady == old(pendingReady)
        invariant due == old(due) - Members(moved)
        decreases |pendingReady|
      {
        var t := pendingReady[0];
        pendingReady := pendingReady[1..];
        Unlink(t);
        OneLess(old(due), moved, t);
        moved := moved + [t];
      }
      if any {
        ResetNextTaskUnblockTime();
      }
      assert moved == old(pendingReady);
    }

    /** Resumes the scheduler: tasks readied meanwhile leave their lists, then every pended tick is
        processed. Exactly the tasks that were due by the time reached wake. */
    method ResumeAll() returns (woken: seq<nat>)
      requires Valid() && depth > 0
      modifies this
      ensures Valid() && depth == old(depth) - 1 && arrived == old(arrived)
      ensures depth > 0 ==> now == old(now) && due == old(due) && woken == []
      ensures depth == 0 ==> now == arrived && due == old(due) - Members(old(pendingReady)) - Members(woken)
      ensures depth == 0 ==> forall t :: t in woken <==> t in old(due) && t !in old(pendingReady) && old(due)[t] <= now
    {
      hide Timed, Members;
      woken := [];
      depth := depth - 1;
      if depth == 0 {
        MovePendingReady();
        ghost var left := due;
        var counts := pended;
        NobodyYet(due);
        assert forall t :: t in left ==> left[t] > now by {
          TimedParts(tickCount);
          NobodyLeft(delayed, overflowDelayed, due, now);
        }
        while counts > 0
          invariant Timed(tickCount) && Alert() && depth == 0 && pendingReady == []
          invariant arrived == now + counts && arrived == old(arrived)
          invariant due == left - Members(woken)
          invariant forall t :: t in woken <==> t in left && left[t] <= now
        {
          var more := ProcessTick();
          WokenSoFar(left, woken, more, now);
          woken := woken + more;
          counts := counts - 1;
        }
        pended := 0;
        LeftAndWoken(old(due), old(pendingReady), left, woken, now);
      }
    }

    /** Ticks that were missed are pended and then processed as if they came while the scheduler was
        suspended. */
    method CatchUpTicks(ticks: nat) returns (woken: seq<nat>)
      requires Valid() && depth == 0
      modifies this
      ensures Valid() && depth == 0 && now == old(now) + ticks && arrived == old(arrived) + ticks
      ensures due == old(due) - Members(woken)
      ensures forall t :: t in woken <==> t in old(due) && old(due)[t] <= now
    {
      hide Timed, Members;
      SuspendAll();
      pended := pended + ticks;
      arrived := arrived + ticks;
      NobodyYet(due);
      woken := ResumeAll();
    }

    // ----- Delays -----

    /** Blocks task `t` for `ticks`; it wakes when the clock has advanced by as much. */
    method Delay(t: nat, ticks: nat) returns (woken: seq<nat>)
      requires Valid() && depth == 0 && t !in due && ticks < WRAP
      modifies this
      ensures Valid() && depth == 0 && now == old(now) && woken == []
      ensures due == if ticks > 0 then old(due)[t := now + ticks] else old(due)
    {
      hide Timed, Members;
      woken := [];
      if ticks > 0 {
        assert forall u :: u in due ==>
               due[u] > now by { TimedParts(tickCount); NobodyLeft(delayed, overflowDelayed, due, now); }
        SuspendAll();
        AddCurrentTaskToDelayedList(t, ticks, false);
        NobodyYet(due);
        woken := ResumeAll();
        NobodyWoken(due, woken, now);
      }
    }

    /** Sleeping through tick interrupts: however the count wraps meanwhile, `ticks` of them pass. */
    method SleepThrough(t: nat, ticks: nat) returns (slept: nat)
      requires Valid() && depth == 0 && t !in due && 0 < ticks < WRAP
      modifies this
      ensures Valid() && depth == 0 && slept == ticks && now == old(now) + ticks && t !in due
    {
      hide Timed, Members;
      var woken := Delay(t, ticks);
      slept := 0;
      while t !in woken
        invariant Valid() && depth == 0 && slept <= ticks && now == old(now) + slept
        invariant t in woken ==> slept == ticks && t !in due
        invariant t !in woken ==> slept < ticks && t in due && due[t] == old(now) + ticks
        decreases ticks - slept, t !in woken
      {
        ghost var before := due;
        woken := IncrementTick();
        WokenOrStill(before, woken, t);
        slept := slept + 1;
      }
    }

    /** Blocks task `t` until `increment` ticks after `previous`, the time it was last to wake, unless
        that has passed. `last` is `previous` on the clock that does not wrap. */
    method DelayUntil(t: nat, previous: nat, increment: nat, ghost last: nat) returns (delayed_: bool, next: nat,
        woken: seq<nat>)
      requires Valid() && depth == 0 && t !in due && 0 < increment < WRAP
      requires last <= now < last + WRAP && previous == last % WRAP
      modifies this
      ensures Valid() && depth == 0 && now == old(now) && woken == []
      ensures delayed_ <==> last + increment > now
      ensures due == if delayed_ then old(due)[t := last + increment] else old(due)
      ensures next == (last + increment) % WRAP
    {
      hide Timed, Members;
      woken := [];
      DelayWindow(last, now, increment);
      next := (previous + increment) % WRAP;
      delayed_ := false;
      if tickCount < previous {
        if next < previous && next > tickCount {
          delayed_ := true;
        }
      } else if next < previous || next > tickCount {
        delayed_ := true;
      }
      if delayed_ {
        woken := Delay(t, (next + WRAP - tickCount) % WRAP);
      }
    }

    // ----- Timeouts -----

    method SetTimeOutState() returns (o: TimeOut)
      requires Valid()
      ensures o == Entered(now)
    {
      hide Scheduled, Partition, Epoch;
      o := TimeOut(overflows, tickCount);
    }

    method CheckForTimeOut(o: TimeOut, ticks: nat) returns (v: Verdict)
      requires Valid() && o.entered < WRAP && ticks < WRAP
      ensures v == Check(now, o, ticks)
    {
      hide Scheduled, Partition, Epoch;
      var elapsed := (tickCount + WRAP - o.entered) % WRAP;
      if ticks == MAX_DELAY {
        v := Verdict(false, o, ticks);
      } else if overflows != o.overflows && tickCount >= o.entered {
        v := Verdict(true, o, 0);
      } else if elapsed < ticks {
        var state := SetTimeOutState();
        v := Verdict(false, state, ticks - elapsed);
      } else {
        v := Verdict(true, o, 0);
      }
    }
  }

  lemma {:induction false} WokenOrStill(before: map<nat, nat>, woken: seq<nat>, t: nat)
    requires t in before
    ensures t in woken <==> t !in before - Members(woken)
    ensures t !in woken ==> (before - Members(woken))[t] == before[t]
  {
  }

  /** Where the next wake time lies, as stored, when less than a whole wrap has passed. */
  lemma {:induction false} DelayWindow(last: nat, now: nat, increment: nat)
    requires 0 < increment < WRAP && last <= now < last + WRAP
    ensures var previous, tick, next := last % WRAP, now % WRAP, (last % WRAP + increment) % WRAP;
            && next == (last + increment) % WRAP
            && ((if tick < previous then next < previous && next > tick else next < previous || next > tick) <==>
                last + increment > now)
            && (last + increment > now ==>
                now + (next + WRAP - tick) % WRAP == last + increment && 0 < (next + WRAP - tick) % WRAP)
  {
    var e, f, g := Epoch(last), Epoch(now), Epoch(last + increment);
    EpochSteps(last, now);
    EpochSteps(last, last + increment);
    hide Epoch;
  }

  /** Two times less than a wrap apart lie in the same epoch or in consecutive ones. */
  lemma {:induction false} EpochSteps(a: nat, b: nat)
    requires a <= b < a + WRAP
    ensures Epoch(b) == Epoch(a) || Epoch(b) == Epoch(a) + WRAP
  {
  }

  // ----- Timeouts that span several waits -----

  datatype TimeOut = TimeOut(overflows: nat, entered: nat)

  datatype Verdict = Verdict(expired: bool, state: TimeOut, left: nat)

  function Entered(now: nat): TimeOut {
    TimeOut(now / WRAP, now % WRAP)
  }

  /** What a check at time `now` finds for a wait of `ticks` entered in state `o`. */
  function Check(now: nat, o: TimeOut, ticks: nat): Verdict
    requires o.entered < WRAP && ticks < WRAP
  {
    var tick := now % WRAP;
    var elapsed := (tick + WRAP - o.entered) % WRAP;
    if ticks == MAX_DELAY then Verdict(false, o, ticks)
    else if now / WRAP != o.overflows && tick >= o.entered then Verdict(true, o, 0)
    else if elapsed < ticks then Verdict(false, Entered(now), ticks - elapsed)
    else Verdict(true, o, 0)
  }

  /** The wait outlived two overflows of the count without a check, and the count looks young. */
  predicate LooksYoung(entered: nat, now: nat, ticks: nat) {
    now / WRAP >= entered / WRAP + 2 && now % WRAP < entered % WRAP && (now - entered) % WRAP < ticks
  }

  /** A check is right about the time that has passed exactly when the wait does not look young. */
  lemma {:induction false} CheckIsRight(entered: nat, now: nat, ticks: nat)
    requires entered <= now && 0 < ticks < MAX_DELAY
    ensures (Check(now, Entered(entered), ticks).expired <==> now - entered >= ticks) <==>
            !LooksYoung(entered, now, ticks)
  {
    var a, b := entered / WRAP, now / WRAP;
    assert entered == a * WRAP + entered % WRAP && now == b * WRAP + now % WRAP;
    ElapsedModulo(entered, now);
  }

  /** A wait of any length can look young: entered at the last tick of one epoch and first checked
      a whole wrap and one tick later, it has long passed, and the check says that it has not. */
  lemma {:induction false} LateCheckMisses(ticks: nat)
    requires 1 < ticks < MAX_DELAY
    ensures var v, passed := Check(2 * WRAP, Entered(WRAP - 1), ticks), 2 * WRAP - (WRAP - 1);
            passed == WRAP + 1 > ticks && v == Verdict(false, Entered(2 * WRAP), ticks - 1)
  {
    ElapsedModulo(WRAP - 1, 2 * WRAP);
  }

  lemma {:induction false} ElapsedModulo(entered: nat, now: nat)
    requires entered <= now
    ensures (now % WRAP + WRAP - entered % WRAP) % WRAP == (now - entered) % WRAP
    ensures now / WRAP == entered / WRAP && now % WRAP >= entered % WRAP ==>
            now - entered == now % WRAP - entered % WRAP
    ensures now / WRAP == entered / WRAP ==> now % WRAP >= entered % WRAP
    ensures now / WRAP == entered / WRAP + 1 ==> now - entered == now % WRAP + WRAP - entered % WRAP
    ensures now / WRAP >= entered / WRAP + 2 ==> now - entered >= now % WRAP + WRAP + WRAP - entered % WRAP
    ensures now / WRAP >= entered / WRAP
  {
  }

  /** The check repeated over a wait: the verdict after the checks at `times[1..]`, entered at
      `times[0]`. */
  ghost function Checks(times: seq<nat>, ticks: nat): (v: Verdict)
    requires times != [] && ticks < WRAP
    ensures v.state.entered < WRAP && v.left < WRAP
  {
    if |times| == 1 then Verdict(false, Entered(times[0]), ticks)
    else
      var v := Checks(times[..|times| - 1], ticks);
      if v.expired then v else Check(times[|times| - 1], v.state, v.left)
  }

  /** The times go up, with at most one overflow of the count from one to the next. */
  ghost predicate Often(times: seq<nat>) {
    forall i :: 0 <= i < |times| - 1 ==> times[i] <= times[i + 1] && times[i + 1] / WRAP <= times[i] / WRAP + 1
  }

  lemma {:induction false} OneCheck(entered: nat, now: nat, ticks: nat)
    requires entered <= now && now / WRAP <= entered / WRAP + 1 && 0 < ticks < MAX_DELAY
    ensures var v := Check(now, Entered(entered), ticks);
            && (v.expired <==> now - entered >= ticks)
            && (!v.expired ==> v.left + (now - entered) == ticks && v.state == Entered(now))
  {
    CheckIsRight(entered, now, ticks);
    ElapsedModulo(entered, now);
  }

  /** Over any number of checks the remaining wait and the time passed add up to the wait asked
      for; a timeout is reported if and only if that much time has passed. */
  lemma {:induction false} WaitsAddUp(times: seq<nat>, ticks: nat)
    requires times != [] && Often(times) && 0 < ticks < MAX_DELAY
    ensures times[0] <= times[|times| - 1]
    ensures var v, passed := Checks(times, ticks), times[|times| - 1] - times[0];
            && (v.expired <==> passed >= ticks)
            && (!v.expired ==> v.left + passed == ticks && v.state == Entered(times[|times| - 1]))
  {
    if |times| > 1 {
      var n := |times| - 1;
      var before := times[..n];
      assert forall i :: 0 <= i < n ==> before[i] == times[i];
      WaitsAddUp(before, ticks);
      assert times[n - 1] <= times[n] && times[n] / WRAP <= times[n - 1] / WRAP + 1;
      if !Checks(before, ticks).expired {
        OneCheck(times[n - 1], times[n], Checks(before, ticks).left);
      }
    }
  }

  /** A wait without a limit never times out. */
  lemma {:induction false} ForeverNeverExpires(times: seq<nat>)
    requires times != []
    ensures !Checks(times, MAX_DELAY).expired
    ensures Checks(times, MAX_DELAY).left == MAX_DELAY
  {
    if |times| > 1 {
      ForeverNeverExpires(times[..|times| - 1]);
    }
  }

  lemma {:induction false} OneLess(all: map<nat, nat>, moved: seq<nat>, t: nat)
    ensures all - Members(moved) - {t} == all - Members(moved + [t])
  {
  }

  lemma {:induction false} WokenSoFar(left: map<nat, nat>, woken: seq<nat>, more: seq<nat>, now: nat)
    requires now > 0 && forall t :: t in woken <==> t in left && left[t] <= now - 1
    requires forall t :: t in more <==> t in left - Members(woken) && left[t] == now
    ensures left - Members(woken) - Members(more) == left - Members(woken + more)
    ensures forall t :: t in woken + more <==> t in left && left[t] <= now
  {
  }

  lemma {:induction false} LeftAndWoken(all: map<nat, nat>, ready: seq<nat>, left: map<nat, nat>, woken: seq<nat>,
                                        now: nat)
    requires left == all - Members(ready) && forall t :: t in woken <==> t in left && left[t] <= now
    ensures forall t :: t in woken <==> t in all && t !in ready && all[t] <= now
  {
  }

  lemma {:induction false} NobodyWoken(due: map<nat, nat>, woken: seq<nat>, now: nat)
    requires (forall t :: t in due ==> due[t] > now) && forall t :: t in woken ==> t in due && due[t] <= now
    ensures woken == [] && due - Members(woken) == due
  {
    FirstIsMember(woken);
    NobodyYet(due);
  }
}
