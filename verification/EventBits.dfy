/** Event groups: bits that tasks wait for, any or all of them, and the rendezvous built on them.

    Modelled code: nimble/os/freertos/event_groups.c:194-310 (sync), 317-468 (wait), 472-495 (clear),
    533-626 (set), 693-727 (the test); nimble/os/freertos/tasks.c:3116-3139, 3245-3291, 4691-4702.
    A set of bits is the set of the numbers of the bits that are one; what a task waits for is kept
    in the fields of a waiter instead of in the control bits of its list item. */
module EventBits {
  import opened Sequences

  type Bits = set<nat>

  const BITS: nat := 24

  /** A task that waits for `bits`, for all or any of them, and clears them when released if asked to. */
  datatype Waiter = Waiter(task: nat, bits: Bits, all: bool, clear: bool)

  /** The test of the wait condition. */
  predicate Met(current: Bits, bits: Bits, all: bool) {
    if all then bits <= current else bits * current != {}
  }

  predicate Released(current: Bits, w: Waiter) {
    Met(current, w.bits, w.all)
  }

  /** The test bit by bit. */
  lemma {:induction false} MetBits(current: Bits, bits: Bits, all: bool)
    ensures Met(current, bits, all) <==>
            if all then forall b :: b in bits ==> b in current else exists b :: b in bits && b in current
  {
    if !all && exists b :: b in bits && b in current {
      var b :| b in bits && b in current;
      assert b in bits * current;
    }
  }

  /** A condition that fails keeps failing when bits are cleared. */
  lemma {:induction false} FewerBits(current: Bits, fewer: Bits, bits: Bits, all: bool)
    requires fewer <= current && bits != {} && !Met(current, bits, all)
    ensures !Met(fewer, bits, all)
  {
  }

  // ----- What setting bits does -----

  /** The waiters a value of the bits releases, and those it leaves, in order. */
  function Freed(current: Bits, waiting: seq<Waiter>): (r: seq<Waiter>)
    ensures forall w :: w in r <==> w in waiting && Released(current, w)
  {
    if waiting == [] then []
    else if Released(current, waiting[0]) then [waiting[0]] + Freed(current, waiting[1..])
    else Freed(current, waiting[1..])
  }

  function Left(current: Bits, waiting: seq<Waiter>): (r: seq<Waiter>)
    ensures forall w :: w in r <==> w in waiting && !Released(current, w)
  {
    if waiting == [] then []
    else if Released(current, waiting[0]) then Left(current, waiting[1..])
    else [waiting[0]] + Left(current, waiting[1..])
  }

  /** The bits that released waiters asked to have cleared. */
  function Cleared(freed: seq<Waiter>): Bits {
    if freed == [] then {} else (if freed[0].clear then freed[0].bits else {}) + Cleared(freed[1..])
  }

  lemma {:induction false} ClearedBit(freed: seq<Waiter>, b: nat)
    ensures b in Cleared(freed) <==> exists w :: w in freed && w.clear && b in w.bits
  {
    if freed != [] {
      ClearedBit(freed[1..], b);
      assert freed == [freed[0]] + freed[1..];
    }
  }

  /** An event group. A task that was released has the value of the bits that released it in
      `results` until it goes on. */
  class EventGroup {
    var bits: Bits
    var waiting: seq<Waiter>
    var results: map<nat, Bits>

    /** Nobody waits whose condition holds, nobody waits twice or has a result, and everyone waits
        for something. */
    ghost predicate Valid()
      reads this
    {
      && (forall w :: w in waiting ==> w.bits != {} && !Released(bits, w) && w.task !in results)
      && Single(waiting)
    }

    constructor ()
      ensures Valid() && bits == {} && waiting == [] && results == map[]
    {
      bits, waiting, results := {}, [], map[];
    }

    /** Sets bits. Every waiter is judged on the bits as they are then, and bits are cleared only
        when all have been judged. */
    method SetBits(toSet: Bits) returns (left: Bits)
      requires Valid()
      modifies this
      ensures var now, was := old(bits) + toSet, old(waiting);
              && Valid() && waiting == Left(now, was) && bits == now - Cleared(Freed(now, was))
              && results == Noted(now, was, old(results)) && left == bits
      ensures forall w :: w in old(waiting) ==>
                && (w.task in results <==>
                    if w.all then forall b :: b in w.bits ==> b in old(bits) || b in toSet
                    else exists b :: b in w.bits && (b in old(bits) || b in toSet))
                && (w.task in results ==> results[w.task] == old(bits) + toSet)
                && (w in waiting <==> w.task !in results)
      ensures forall t :: t in old(results) ==> t in results && results[t] == old(results)[t]
      ensures forall w :: w in waiting ==>
                w in old(waiting) && if w.all then exists b :: b in w.bits && b !in bits
                                     else forall b :: b in w.bits ==> b !in bits
      ensures forall b :: b in bits <==>
                && (b in old(bits) || b in toSet)
                && !exists w :: w in old(waiting) && w.task in results && w.clear && b in w.bits
    {
      ghost var before, was := results, waiting;
      ValidParts();
      hide *;
      var toClear: Bits := {};
      bits := bits + toSet;
      ghost var k := 0;
      var i := 0;
      NobodyJudged(bits, was, before);
      while i < |waiting|
        invariant bits == old(bits) + toSet && Judged(bits, was, before, k, waiting, i, toClear, results)
        decreases |waiting| - i
      {
        NextToJudge(bits, was, before, k, waiting, i, toClear, results);
        var w := waiting[i];
        if Released(bits, w) {
          if w.clear {
            toClear := toClear + w.bits;
          }
          results := results[w.task := bits];
          waiting := Removed(waiting, i);
        } else {
          i := i + 1;
        }
        k := k + 1;
      }
      AllJudged(bits, was, before, k, waiting, i, toClear, results);
      LeftIsValid(bits, was, before, bits - toClear);
      SetOutcome(bits, was, before);
      LeftFail(waiting, bits - toClear);
      bits := bits - toClear;
      ValidParts();
      left := bits;
    }

    method ClearBits(toClear: Bits) returns (was: Bits)
      requires Valid()
      modifies this`bits
      ensures Valid() && was == old(bits) && bits == old(bits) - toClear
    {
      was := bits;
      bits := bits - toClear;
      forall w | w in waiting
        ensures !Released(bits, w)
      {
        FewerBits(was, bits, w.bits, w.all);
      }
    }

    /** A task whose condition does not hold joins the list. */
    method Block(t: nat, waitFor: Bits, all: bool, clear: bool)
      requires Valid() && waitFor != {} && !Met(bits, waitFor, all)
      requires t !in results && forall w :: w in waiting ==> w.task != t
      modifies this`waiting
      ensures Valid() && waiting == old(waiting) + [Waiter(t, waitFor, all, clear)]
    {
      waiting := waiting + [Waiter(t, waitFor, all, clear)];
    }

    /** Waits for bits: goes on at once if they are there, or if it may not block; else joins the
        list. */
    method WaitBits(t: nat, waitFor: Bits, all: bool, clear: bool, mayBlock: bool) returns (value: Option<Bits>)
      requires Valid() && waitFor != {} && t !in results && forall w :: w in waiting ==> w.task != t
      modifies this`bits, this`waiting
      ensures Valid() && (value.Some? <==> Met(old(bits), waitFor, all) || !mayBlock)
              && (value.Some? ==> value.value == old(bits))
      ensures bits == if Met(old(bits), waitFor, all) && clear then old(bits) - waitFor else old(bits)
      ensures Met(old(bits), waitFor, all) <==>
              if all then forall b :: b in waitFor ==> b in old(bits) else exists b :: b in waitFor && b in old(bits)
      ensures waiting == if value.Some? then old(waiting) else old(waiting) + [Waiter(t, waitFor, all, clear)]
    {
      MetBits(bits, waitFor, all);
      value := None;
      if Met(bits, waitFor, all) {
        value := Some(bits);
        if clear {
          var was := ClearBits(waitFor);
        }
      } else if !mayBlock {
        value := Some(bits);
      } else {
        Block(t, waitFor, all, clear);
      }
    }

    /** Sets bits and waits for all of others, in one piece. */
    method Sync(t: nat, toSet: Bits, waitFor: Bits, mayBlock: bool) returns (value: Option<Bits>)
      requires Valid() && waitFor != {} && t !in results && forall w :: w in waiting ==> w.task != t
      modifies this
      ensures Valid()
      ensures var now, was := old(bits) + toSet, old(waiting);
              var after := now - Cleared(Freed(now, was));
              && (value.Some? <==> waitFor <= now || !mayBlock) && results == Noted(now, was, old(results))
              && (value.Some? ==> value.value == if waitFor <= now then now else after)
              && bits == (if waitFor <= now then after - waitFor else after)
              && waiting == Left(now, was) + if value.Some? then [] else [Waiter(t, waitFor, true, true)]
    {
      var original := bits;
      var left := SetBits(toSet);
      Returned(original + toSet, old(waiting), old(results), t);
      LeftMembers(original + toSet, old(waiting));
      FewerStillFail(original + toSet, Cleared(Freed(original + toSet, old(waiting))), waitFor);
      hide *;
      value := None;
      if waitFor <= original + toSet {
        value := Some(original + toSet);
        var was := ClearBits(waitFor);
      } else if mayBlock {
        Block(t, waitFor, true, true);
      } else {
        value := Some(bits);
      }
    }

    /** The block time of a waiter runs out. */
    method TimeOut(t: nat)
      requires Valid()
      modifies this`waiting
      ensures Valid() && waiting == Others(old(waiting), t)
    {
      OthersWait(waiting, t);
      waiting := Others(waiting, t);
    }

    /** A task that blocked goes on: with the value that released it, or, after a timeout, with the
        value of now, which it clears if its condition happens to hold. */
    method GoOn(t: nat, waitFor: Bits, all: bool, clear: bool) returns (value: Bits)
      requires Valid()
      modifies this`bits, this`results
      ensures Valid() && results == old(results) - {t}
              && value == if t in old(results) then old(results)[t] else old(bits)
      ensures bits == if t !in old(results) && Met(old(bits), waitFor, all)
              && clear then old(bits) - waitFor else old(bits)
      ensures Met(old(bits), waitFor, all) <==>
              if all then forall b :: b in waitFor ==> b in old(bits) else exists b :: b in waitFor && b in old(bits)
    {
      MetBits(bits, waitFor, all);
      if t in results {
        value := results[t];
        results := results - {t};
      } else {
        value := bits;
        if Met(bits, waitFor, all) && clear {
          var was := ClearBits(waitFor);
        }
      }
    }

    lemma ValidParts()
      ensures Valid() <==> Waiting(waiting, results) && forall w :: w in waiting ==> !Released(bits, w)
    {
    }
  }

  function Others(waiting: seq<Waiter>, t: nat): (r: seq<Waiter>)
    ensures forall w :: w in r <==> w in waiting && w.task != t
  {
    if waiting == [] then []
    else if waiting[0].task == t then Others(waiting[1..], t)
    else [waiting[0]] + Others(waiting[1..], t)
  }

  lemma {:induction false} OthersWait(waiting: seq<Waiter>, t: nat)
    requires Single(waiting)
    ensures Single(Others(waiting, t))
  {
    if waiting != [] {
      RestSingle(waiting);
      OthersWait(waiting[1..], t);
      OneInFront(waiting[0], Others(waiting[1..], t));
    }
  }

  /** No task waits twice. */
  ghost predicate Single(waiting: seq<Waiter>) {
    forall i, j :: 0 <= i < j < |waiting| ==> waiting[i].task != waiting[j].task
  }

  lemma {:induction false} RestSingle(waiting: seq<Waiter>)
    requires Single(waiting) && waiting != []
    ensures Single(waiting[1..]) && forall w :: w in waiting[1..] ==> w.task != waiting[0].task
  {
    var rest := waiting[1..];
    assert forall i :: 0 <= i < |rest| ==> rest[i] == waiting[i + 1];
  }

  lemma {:induction false} OneInFront(w: Waiter, rest: seq<Waiter>)
    requires Single(rest)
    ensures (forall v :: v in rest ==> v.task != w.task) ==> Single([w] + rest)
  {
    var all := [w] + rest;
    assert forall i :: 0 <= i < |all| ==> all[i] == if i == 0 then w else rest[i - 1];
  }

  /** Setting bits gives no result to a task that is not waiting. */
  lemma {:induction false} Returned(now: Bits, was: seq<Waiter>, before: map<nat, Bits>, t: nat)
    requires t !in before && forall w :: w in was ==> w.task != t
    ensures t !in Noted(now, was, before)
  {
    NotedTasks(now, was, before, t);
  }

  lemma {:induction false} FewerStillFail(now: Bits, cleared: Bits, waitFor: Bits)
    ensures !(waitFor <= now) ==> !Met(now - cleared, waitFor, true)
  {
    if waitFor <= now - cleared {
      assert waitFor <= now;
    }
  }

  lemma {:induction false} LeftMembers(now: Bits, was: seq<Waiter>)
    ensures forall w :: w in Left(now, was) ==> w in was
  {
  }

  /** What a group keeps between calls, as far as the waiters go. */
  ghost predicate Waiting(waiting: seq<Waiter>, results: map<nat, Bits>) {
    && (forall w :: w in waiting ==> w.bits != {} && w.task !in results)
    && Single(waiting)
  }

  /** The results once the waiters are judged. */
  function Noted(now: Bits, was: seq<Waiter>, results: map<nat, Bits>): map<nat, Bits> {
    if was == [] then results
    else
      var r := Noted(now, was[..|was| - 1], results);
      if Released(now, was[|was| - 1]) then r[was[|was| - 1].task := now] else r
  }

  /** The first `k` waiters are judged: those left come first in the list, then the others. */
  ghost predicate Judged(now: Bits, was: seq<Waiter>, before: map<nat, Bits>, k: nat, waiting: seq<Waiter>, i: nat,
                         toClear: Bits, results: map<nat, Bits>)
    ensures Judged(now, was, before, k, waiting, i, toClear, results) ==> i <= |waiting|
  {
    && k <= |was| && waiting == Left(now, was[..k]) + was[k..] && i == |Left(now, was[..k])|
    && toClear == Cleared(Freed(now, was[..k])) && results == Noted(now, was[..k], before)
  }

  lemma {:induction false} NobodyJudged(now: Bits, was: seq<Waiter>, before: map<nat, Bits>)
    ensures Judged(now, was, before, 0, was, 0, {}, before)
  {
  }

  lemma {:induction false} JudgedParts(now: Bits, was: seq<Waiter>, before: map<nat, Bits>, k: nat,
                                       waiting: seq<Waiter>, i: nat,
                                       toClear: Bits, results: map<nat, Bits>)
    ensures Judged(now, was, before, k, waiting, i, toClear, results) <==>
            (&& k <= |was| && waiting == Left(now, was[..k]) + was[k..] && i == |Left(now, was[..k])|
             && toClear == Cleared(Freed(now, was[..k])) && results == Noted(now, was[..k], before))
  {
    hide Left, Freed, Cleared, Noted;
  }

  lemma {:induction false} NotedMore(now: Bits, was: seq<Waiter>, before: map<nat, Bits>, k: nat)
    requires k < |was|
    ensures Noted(now, was[..k + 1], before)
            == if Released(now, was[k]) then Noted(now, was[..k], before)[was[k].task := now]
                else Noted(now, was[..k], before)
  {
    assert was[..k + 1][..k] == was[..k];
  }

  lemma {:induction false} TakeOut<T>(a: seq<T>, b: seq<T>, k: nat)
    requires k < |b|
    ensures |a| < |a + b[k..]| && (a + b[k..])[|a|] == b[k]
    ensures Removed(a + b[k..], |a|) == a + b[k + 1..]
    ensures a + b[k..] == a + [b[k]] + b[k + 1..]
  {
  }

  /** Judging the next waiter. */
  lemma {:induction false} NextToJudge(now: Bits, was: seq<Waiter>, before: map<nat, Bits>, k: nat,
                                       waiting: seq<Waiter>, i: nat,
                                       toClear: Bits, results: map<nat, Bits>)
    requires Judged(now, was, before, k, waiting, i, toClear, results) && i < |waiting|
    ensures var w := waiting[i];
            if Released(now, w) then Judged(now, was, before, k + 1, Removed(waiting, i), i,
                                            if w.clear then toClear + w.bits else toClear, results[w.task := now])
            else Judged(now, was, before, k + 1, waiting, i + 1, toClear, results)
  {
    hide *;
    JudgedParts(now, was, before, k, waiting, i, toClear, results);
    TakeOut(Left(now, was[..k]), was, k);
    Split(now, was, k);
    NotedMore(now, was, before, k);
    var w := was[k];
    if Released(now, w) {
      JudgedParts(now, was, before, k + 1, Removed(waiting, i), i, if w.clear then toClear + w.bits else toClear,
                  results[w.task := now]);
    } else {
      JudgedParts(now, was, before, k + 1, waiting, i + 1, toClear, results);
    }
  }

  lemma {:induction false} AllJudged(now: Bits, was: seq<Waiter>, before: map<nat, Bits>, k: nat, waiting: seq<Waiter>,
                                     i: nat,
                                     toClear: Bits, results: map<nat, Bits>)
    requires Judged(now, was, before, k, waiting, i, toClear, results) && i == |waiting|
    ensures waiting == Left(now, was) && toClear == Cleared(Freed(now, was)) && results == Noted(now, was, before)
  {
    assert was[..|was|] == was;
  }

  lemma {:induction false} NotedTasks(now: Bits, was: seq<Waiter>, before: map<nat, Bits>, t: nat)
    ensures t in Noted(now, was, before) <==> t in before || exists w :: w in was && Released(now, w) && w.task == t
    ensures (exists w :: w in was && Released(now, w) && w.task == t) ==> Noted(now, was, before)[t] == now
    ensures t in before && !(exists w :: w in was && Released(now, w) && w.task == t) ==>
            Noted(now, was, before)[t] == before[t]
  {
    if was != [] {
      var n := |was| - 1;
      NotedTasks(now, was[..n], before, t);
      assert was == was[..n] + [was[n]];
    }
  }

  /** One more waiter judged. */
  lemma {:induction false} Split(now: Bits, was: seq<Waiter>, k: nat)
    requires k <= |was|
    ensures k < |was| && Released(now, was[k]) ==>
              && Left(now, was[..k + 1]) == Left(now, was[..k])
                  && Freed(now, was[..k + 1]) == Freed(now, was[..k]) + [was[k]]
              && Cleared(Freed(now, was[..k + 1])) == Cleared(Freed(now, was[..k])) + (if was[k].clear then was[k].bits
                  else {})
    ensures k < |was| && !Released(now, was[k]) ==>
              Left(now, was[..k + 1]) == Left(now, was[..k]) + [was[k]]
                  && Freed(now, was[..k + 1]) == Freed(now, was[..k])
    ensures Left(now, was[..0]) == [] && Freed(now, was[..0]) == []
  {
    if k < |was| {
      assert was[..k + 1] == was[..k] + [was[k]];
      Append(now, was[..k], was[k]);
      ClearedMore(Freed(now, was[..k]), was[k]);
    }
  }

  lemma {:induction false} Unfolded(now: Bits, w: Waiter, rest: seq<Waiter>)
    ensures Left(now, [w] + rest) == (if Released(now, w) then [] else [w]) + Left(now, rest)
    ensures Freed(now, [w] + rest) == (if Released(now, w) then [w] else []) + Freed(now, rest)
  {
    assert ([w] + rest)[1..] == rest;
    hide Released;
  }

  lemma {:induction false} Regrouped(a: seq<Waiter>, b: seq<Waiter>, c: seq<Waiter>)
    ensures (a + b) + c == a + (b + c)
  {
  }

  lemma {:induction false} AppendLeft(now: Bits, before: seq<Waiter>, w: Waiter)
    ensures Left(now, before + [w]) == Left(now, before) + (if Released(now, w) then [] else [w])
  {
    hide Released;
    if before == [] {
      assert before + [w] == [w] + [];
      Unfolded(now, w, []);
    } else {
      var first, rest := [before[0]], before[1..];
      AppendLeft(now, rest, w);
      Unfolded(now, before[0], rest);
      Unfolded(now, before[0], rest + [w]);
      assert before == first + rest;
      Regrouped(first, rest, [w]);
      hide Left;
      Regrouped(if Released(now, before[0]) then [] else first, Left(now, rest), if Released(now, w) then [] else [w]);
    }
  }

  lemma {:induction false} AppendFreed(now: Bits, before: seq<Waiter>, w: Waiter)
    ensures Freed(now, before + [w]) == Freed(now, before) + (if Released(now, w) then [w] else [])
  {
    hide Released;
    if before == [] {
      assert before + [w] == [w] + [];
      Unfolded(now, w, []);
    } else {
      var first, rest := [before[0]], before[1..];
      AppendFreed(now, rest, w);
      Unfolded(now, before[0], rest);
      Unfolded(now, before[0], rest + [w]);
      assert before == first + rest;
      Regrouped(first, rest, [w]);
      hide Freed;
      Regrouped(if Released(now, before[0]) then first else [], Freed(now, rest), if Released(now, w) then [w] else []);
    }
  }

  lemma {:induction false} Append(now: Bits, before: seq<Waiter>, w: Waiter)
    ensures Left(now, before + [w]) == Left(now, before) + (if Released(now, w) then [] else [w])
    ensures Freed(now, before + [w]) == Freed(now, before) + (if Released(now, w) then [w] else [])
  {
    AppendLeft(now, before, w);
    AppendFreed(now, before, w);
    hide *;
  }

  lemma {:induction false} ClearedMore(freed: seq<Waiter>, w: Waiter)
    ensures Cleared(freed + [w]) == Cleared(freed) + (if w.clear then w.bits else {})
  {
    if freed != [] {
      ClearedMore(freed[1..], w);
      assert (freed + [w])[1..] == freed[1..] + [w];
    } else {
      assert [w][1..] == [];
    }
  }

  /** The waiters that are left keep waiting rightly. */
  lemma {:induction false} LeftIsValid(now: Bits, was: seq<Waiter>, before: map<nat, Bits>, after: Bits)
    requires after <= now && Waiting(was, before)
    ensures Waiting(Left(now, was), Noted(now, was, before))
    ensures forall w :: w in Left(now, was) ==> !Released(after, w)
  {
    var left := Left(now, was);
    LeftSingle(now, was);
    forall w | w in left
      ensures !Released(after, w) && w.task !in Noted(now, was, before)
    {
      FewerBits(now, after, w.bits, w.all);
      NotedTasks(now, was, before, w.task);
      forall v | v in was && Released(now, v)
        ensures v.task != w.task
      {
        var i :| 0 <= i < |was| && was[i] == v;
        var j :| 0 <= j < |was| && was[j] == w;
      }
    }
  }

  lemma {:induction false} LeftSingle(now: Bits, was: seq<Waiter>)
    requires Single(was)
    ensures Single(Left(now, was))
  {
    if was != [] {
      RestSingle(was);
      LeftSingle(now, was[1..]);
      OneInFront(was[0], Left(now, was[1..]));
    }
  }

  /** What setting bits comes to, bit by bit. */
  lemma {:induction false} SetOutcome(now: Bits, was: seq<Waiter>, before: map<nat, Bits>)
    requires Waiting(was, before)
    ensures forall w :: w in was ==>
              && (w.task in Noted(now, was, before) <==>
                  if w.all then forall b :: b in w.bits ==> b in now else exists b :: b in w.bits && b in now)
              && (w.task in Noted(now, was, before) ==> Noted(now, was, before)[w.task] == now)
              && (w in Left(now, was) <==> w.task !in Noted(now, was, before))
    ensures forall t :: t in before ==> t in Noted(now, was, before) && Noted(now, was, before)[t] == before[t]
    ensures forall b :: b in Cleared(Freed(now, was)) <==>
              exists w :: w in was && w.task in Noted(now, was, before) && w.clear && b in w.bits
  {
    forall w | w in was
      ensures w.task in Noted(now, was, before) <==> Released(now, w)
      ensures w.task in Noted(now, was, before) ==> Noted(now, was, before)[w.task] == now
    {
      NotedTasks(now, was, before, w.task);
      OneWaiter(was, w);
    }
    forall w | w in was
      ensures Released(now, w) <==>
              if w.all then forall b :: b in w.bits ==> b in now else exists b :: b in w.bits && b in now
    {
      MetBits(now, w.bits, w.all);
    }
    forall t | t in before
      ensures t in Noted(now, was, before) && Noted(now, was, before)[t] == before[t]
    {
      NotedTasks(now, was, before, t);
    }
    forall b: nat
      ensures b in Cleared(Freed(now, was)) <==>
              exists w :: w in was && w.task in Noted(now, was, before) && w.clear && b in w.bits
    {
      ClearedBit(Freed(now, was), b);
    }
  }

  lemma {:induction false} OneWaiter(was: seq<Waiter>, w: Waiter)
    requires Single(was) && w in was
    ensures forall v :: v in was && v.task == w.task ==> v == w
  {
  }

  lemma {:induction false} LeftFail(left: seq<Waiter>, bits: Bits)
    requires forall w :: w in left ==> !Released(bits, w)
    ensures forall w :: w in left ==>
              if w.all then exists b :: b in w.bits && b !in bits else forall b :: b in w.bits ==> b !in bits
  {
    forall w | w in left
      ensures if w.all then exists b :: b in w.bits && b !in bits else forall b :: b in w.bits ==> b !in bits
    {
      MetBits(bits, w.bits, w.all);
    }
  }
}
