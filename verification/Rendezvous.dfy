/** The barrier built on an event group: tasks that each set a bit of their own and wait for all.

    Modelled code: nimble/os/freertos/event_groups.c:194-310. */
module Rendezvous {
  import opened Sequences
  import opened EventBits

  /** The bits of all `n` tasks. */
  function All(n: nat): (b: Bits)
    ensures forall t: nat :: t in b <==> t < n
  {
    if n == 0 then {} else All(n - 1) + {n - 1}
  }

  function Comer(t: nat, n: nat): Waiter {
    Waiter(t, All(n), true, true)
  }

  ghost predicate Comers(waiting: seq<Waiter>, n: nat) {
    forall w :: w in waiting ==> w.task < n && w == Comer(w.task, n)
  }

  /** Whether `t` is on the list. */
  ghost predicate Waits(waiting: seq<Waiter>, t: nat) {
    exists w :: w in waiting && w.task == t
  }

  /** Setting bits short of all releases nobody. */
  lemma {:induction false} NotYet(now: Bits, was: seq<Waiter>, n: nat, before: map<nat, Bits>)
    requires Comers(was, n) && !(All(n) <= now)
    ensures Freed(now, was) == [] && Left(now, was) == was && Noted(now, was, before) == before
  {
    if was != [] {
      assert was[0] in was;
      NotYet(now, was[1..], n, before);
      NothingNoted(now, was, n, before);
    }
  }

  lemma {:induction false} NothingNoted(now: Bits, was: seq<Waiter>, n: nat, before: map<nat, Bits>)
    requires Comers(was, n) && !(All(n) <= now)
    ensures Noted(now, was, before) == before
  {
    if was != [] {
      assert was[|was| - 1] in was;
      NothingNoted(now, was[..|was| - 1], n, before);
    }
  }

  /** The last bit releases everybody, with the bits of all, and the bits are cleared. */
  lemma {:induction false} AllAtOnce(now: Bits, was: seq<Waiter>, n: nat)
    requires Comers(was, n) && All(n) <= now
    ensures Freed(now, was) == was && Left(now, was) == [] && Cleared(was) <= All(n)
  {
    if was != [] {
      assert was[0] in was;
      AllAtOnce(now, was[1..], n);
      assert was == [was[0]] + was[1..];
    }
  }

  lemma {:induction false} AllNoted(now: Bits, was: seq<Waiter>, n: nat, t: nat)
    requires Comers(was, n) && All(n) <= now
    ensures t in Noted(now, was, map[]) <==> Waits(was, t)
    ensures t in Noted(now, was, map[]) ==> Noted(now, was, map[])[t] == now
  {
    NotedTasks(now, was, map[], t);
    forall w | w in was
      ensures Released(now, w)
    {
    }
  }

  /** Task `t` in round `rounds`, having made `calls` calls and returned from `exits`: it has called
      in this round if and only if its bit is set, and then it waits; a result it has yet to fetch
      is from the round before. */
  ghost predicate Party(n: nat, bits: Bits, waiting: seq<Waiter>, results: map<nat, Bits>, rounds: nat, t: nat,
                        calls: nat, exits: nat) {
    && calls == (if t in bits then rounds + 1 else rounds)
    && (t in bits <==> Waits(waiting, t))
    && exits + (if t in bits || t in results then 1 else 0) == calls
    && (t in results ==> t !in bits && results[t] == All(n))
  }

  /** Task `t` joins a round that others still have to join. */
  lemma {:induction false} JoinedEarly(n: nat, bits: Bits, waiting: seq<Waiter>, results: map<nat, Bits>, rounds: nat,
                                       t: nat, u: nat, calls: nat, exits: nat)
    requires Party(n, bits, waiting, results, rounds, u, calls, exits) && t !in results && t !in bits
    ensures Party(n, bits + {t}, waiting + [Comer(t, n)], results, rounds, u, if u == t then calls + 1 else calls,
                  exits)
  {
    hide All;
    WaitsToo(waiting, Comer(t, n), u);
  }

  /** Task `t` is the last to join: a round ends and the next begins. */
  lemma {:induction false} JoinedLast(n: nat, bits: Bits, waiting: seq<Waiter>, t: nat, u: nat, rounds: nat,
                                      calls: nat, exits: nat)
    requires Comers(waiting, n) && bits + {t} == All(n) && t !in bits && u < n
    requires Party(n, bits, waiting, map[], rounds, u, calls, exits)
    ensures Party(n, {}, [], Noted(All(n), waiting, map[]), rounds + 1, u,
                  if u == t then calls + 1 else calls, if u == t then exits + 1 else exits)
  {
    AllNoted(All(n), waiting, n, u);
    assert u in All(n);
    hide Noted, All;
  }

  /** Task `t` fetches its result. */
  lemma {:induction false} FetchedResult(n: nat, bits: Bits, waiting: seq<Waiter>, results: map<nat, Bits>,
                                         rounds: nat, t: nat, u: nat, calls: nat, exits: nat)
    requires Party(n, bits, waiting, results, rounds, u, calls, exits) && t in results
    ensures Party(n, bits, waiting, results - {t}, rounds, u, calls, if u == t then exits + 1 else exits)
  {
    hide All;
  }

  lemma {:induction false} WaitsToo(waiting: seq<Waiter>, w: Waiter, u: nat)
    ensures Waits(waiting + [w], u) <==> Waits(waiting, u) || w.task == u
  {
    var all := waiting + [w];
    if Waits(waiting, u) {
      var v :| v in waiting && v.task == u;
      assert v in all;
    }
    assert w in all;
  }

  lemma {:induction false} NothingToClear()
    ensures Cleared([]) == {}
  {
  }

  /** Only tasks of the barrier get results. */
  lemma {:induction false} NotedComers(waiting: seq<Waiter>, n: nat)
    requires Comers(waiting, n)
    ensures forall t :: t in Noted(All(n), waiting, map[]) ==> t < n
  {
    forall t | t in Noted(All(n), waiting, map[])
      ensures t < n
    {
      AllNoted(All(n), waiting, n, t);
    }
  }

  ghost predicate AllParties(n: nat, bits: Bits, waiting: seq<Waiter>, results: map<nat, Bits>, rounds: nat,
                             calls: seq<nat>, exits: seq<nat>)
    ensures AllParties(n, bits, waiting, results, rounds, calls, exits) ==> |calls| == |exits| == n
  {
    && |calls| == |exits| == n
    && forall t :: 0 <= t < n ==> Party(n, bits, waiting, results, rounds, t, calls[t], exits[t])
  }

  lemma {:induction false} AllJoinedEarly(n: nat, bits: Bits, waiting: seq<Waiter>, results: map<nat, Bits>,
                                          rounds: nat,
                                          t: nat, calls: seq<nat>, exits: seq<nat>)
    requires AllParties(n, bits, waiting, results, rounds, calls, exits) && t < n && t !in results && t !in bits
    ensures AllParties(n, bits + {t}, waiting + [Comer(t, n)], results, rounds, calls[t := calls[t] + 1], exits)
  {
    hide Party, Comer;
    var called := calls[t := calls[t] + 1];
    forall u | 0 <= u < n
      ensures Party(n, bits + {t}, waiting + [Comer(t, n)], results, rounds, u, called[u], exits[u])
    {
      JoinedEarly(n, bits, waiting, results, rounds, t, u, calls[u], exits[u]);
    }
  }

  lemma {:induction false} AllJoinedLast(n: nat, bits: Bits, waiting: seq<Waiter>, rounds: nat,
                                         t: nat, calls: seq<nat>, exits: seq<nat>)
    requires AllParties(n, bits, waiting, map[], rounds, calls, exits) && t < n && t !in bits
    requires Comers(waiting, n) && bits + {t} == All(n)
    ensures AllParties(n, {}, [], Noted(All(n), waiting, map[]), rounds + 1, calls[t := calls[t] + 1],
                       exits[t := exits[t] + 1])
  {
    hide Party, All, Noted, Comers;
    var called, left := calls[t := calls[t] + 1], exits[t := exits[t] + 1];
    forall u | 0 <= u < n
      ensures Party(n, {}, [], Noted(All(n), waiting, map[]), rounds + 1, u, called[u], left[u])
    {
      JoinedLast(n, bits, waiting, t, u, rounds, calls[u], exits[u]);
    }
  }

  lemma {:induction false} OneMoreHere(bits: Bits, was: seq<Waiter>, t: nat, n: nat)
    requires Comers(was, n) && bits < All(n) && t < n && bits + {t} != All(n)
    ensures Comers(was + [Comer(t, n)], n) && bits + {t} < All(n)
  {
    assert t in All(n);
  }

  lemma {:induction false} NobodyHere(n: nat)
    requires 0 < n
    ensures Comers([], n) && {} < All(n)
  {
    assert 0 in All(n);
  }

  class Barrier {
    const n: nat
    const group: EventGroup
    ghost var rounds: nat           // rounds that are complete
    ghost var calls: seq<nat>       // how often each task has called
    ghost var exits: seq<nat>       // how often it has returned

    ghost predicate Parties()
      reads this, group
    {
      AllParties(n, group.bits, group.waiting, group.results, rounds, calls, exits)
    }

    ghost predicate Valid()
      reads this, group
    {
      && group.Valid() && 0 < n <= BITS && Comers(group.waiting, n) && group.bits < All(n)
      && (forall t :: t in group.results ==> t < n) && Parties()
    }

    constructor (n: nat)
      requires 0 < n <= BITS
      ensures Valid() && this.n == n && fresh(group) && rounds == 0 && calls == exits == seq(n, _ => 0)
      ensures group.bits == {} && group.results == map[]
    {
      this.n := n;
      group := new EventGroup();
      rounds, calls, exits := 0, seq(n, _ => 0), seq(n, _ => 0);
      new;
      assert 0 in All(n);
    }

    /** Nobody leaves a round before everybody has joined it: each task's exits are at most each
        task's calls. */
    lemma NobodyLeavesEarly(t: nat, u: nat)
      requires Valid() && t < n && u < n
      ensures exits[t] <= rounds <= calls[u]
    {
      hide All;
    }

    lemma MayArrive(t: nat)
      requires Valid() && t < n && calls[t] == exits[t]
      ensures t !in group.bits && t !in group.results && forall w :: w in group.waiting ==> w.task != t
      ensures All(n) != {}
    {
      assert Party(n, group.bits, group.waiting, group.results, rounds, t, calls[t], exits[t]);
      assert t in All(n);
    }

    /** Task `t` is the last of the round: nobody has an old result any more. */
    lemma LastComes(t: nat)
      requires Valid() && t < n && calls[t] == exits[t] && All(n) <= group.bits + {t}
      ensures group.results == map[] && group.bits + {t} == All(n)
    {
      MayArrive(t);
      forall u | 0 <= u < n
        ensures u !in group.results
      {
        assert Party(n, group.bits, group.waiting, group.results, rounds, u, calls[u], exits[u]) && u in All(n);
      }
    }

    /** The tasks that wait are those whose bits are set. */
    lemma NotedAre(was: seq<Waiter>, bits: Bits)
      requires Comers(was, n) && bits <= All(n) && forall u :: 0 <= u < n ==> (u in bits <==> Waits(was, u))
      ensures Noted(All(n), was, map[]).Keys == bits
    {
      hide Noted;
      NotedComers(was, n);
      forall u | 0 <= u < n
        ensures u in Noted(All(n), was, map[]) <==> u in bits
      {
        AllNoted(All(n), was, n, u);
      }
    }

    lemma WaitersAreBits()
      requires Valid()
      ensures forall u :: 0 <= u < n ==> (u in group.bits <==> Waits(group.waiting, u))
    {
      forall u | 0 <= u < n
        ensures u in group.bits <==> Waits(group.waiting, u)
      {
        assert Party(n, group.bits, group.waiting, group.results, rounds, u, calls[u], exits[u]);
      }
    }

    /** The call as it changes the event group. */
    method Meet(t: nat) returns (value: Option<Bits>)
      requires Valid() && t < n && calls[t] == exits[t]
      modifies group
      ensures group.Valid() && (value.Some? ==> value.value == All(n))
      ensures if value.Some? then group.bits == {} && group.waiting == []
              && group.results == Noted(All(n), old(group.waiting), map[])
              else group.bits == old(group.bits) + {t} && group.waiting == old(group.waiting) + [Comer(t, n)]
                   && group.results == old(group.results)
      ensures value.Some? <==> old(group.bits) + {t} == All(n)
      ensures value.Some? ==> group.results.Keys == old(group.bits) && old(group.results) == map[]
    {
      ghost var now, was, before := group.bits + {t}, group.waiting, group.results;
      MayArrive(t);
      if All(n) <= now {
        WaitersAreBits();
        NotedAre(was, group.bits);
        LastComes(t);
        AllAtOnce(now, was, n);
      } else {
        NotYet(now, was, n, before);
        NothingToClear();
      }
      hide Noted, Left, Freed, Cleared, All, Party, Comers, Parties;
      value := group.Sync(t, {t}, All(n), true);
    }

    lemma ValidParts()
      ensures Valid() <==> (&& group.Valid() && 0 < n <= BITS && Comers(group.waiting, n) && group.bits < All(n)
                            && (forall t :: t in group.results ==> t < n)
                            && AllParties(n, group.bits, group.waiting, group.results, rounds, calls, exits))
    {
      hide Comers, All, AllParties, EventGroup.Valid;
    }

    /** Task `t` calls. The last one of a round goes on at once and opens the next round; the others
        block. */
    method Arrive(t: nat) returns (value: Option<Bits>)
      requires Valid() && t < n && calls[t] == exits[t]
      modifies this, group
      ensures Valid() && calls == old(calls)[t := old(calls[t]) + 1]
      ensures rounds == if value.Some? then old(rounds) + 1 else old(rounds)
      ensures value.Some? ==> value.value == All(n) && group.bits == {} && group.waiting == []
      ensures exits == if value.Some? then old(exits)[t := old(exits[t]) + 1] else old(exits)
      ensures value.Some? <==> old(group.bits) + {t} == All(n)
      ensures value.Some? ==> group.results.Keys == old(group.bits)
      ensures value == None ==> group.bits == old(group.bits) + {t} && group.results == old(group.results)
    {
      hide *;
      ghost var bits, was, before := group.bits, group.waiting, group.results;
      MayArrive(t);
      ValidParts();
      value := Meet(t);
      if value.Some? {
        AllJoinedLast(n, bits, was, rounds, t, calls, exits);
        NotedComers(was, n);
        NobodyHere(n);
        exits := exits[t := exits[t] + 1];
        rounds := rounds + 1;
      } else {
        AllJoinedEarly(n, bits, was, before, rounds, t, calls, exits);
        OneMoreHere(bits, was, t, n);
      }
      calls := calls[t := calls[t] + 1];
      ValidParts();
    }

    /** A task that was released goes on. */
    method Depart(t: nat) returns (value: Bits)
      requires Valid() && t in group.results
      modifies this`exits, group
      ensures Valid() && value == All(n) && group.results == old(group.results) - {t} && group.bits == old(group.bits)
      ensures exits == old(exits)[t := old(exits[t]) + 1]
    {
      ghost var before := group.results;
      assert Party(n, group.bits, group.waiting, group.results, rounds, t, calls[t], exits[t]);
      hide All;
      value := group.GoOn(t, All(n), true, true);
      forall u | 0 <= u < n
        ensures Party(n, group.bits, group.waiting, group.results, rounds, u, calls[u],
                      if u == t then exits[u] + 1 else exits[u])
      {
        FetchedResult(n, group.bits, group.waiting, before, rounds, t, u, calls[u], exits[u]);
      }
      exits := exits[t := exits[t] + 1];
    }
  }

  // ----- Whole runs -----

  /** What is seen of a run: tasks calling and returning, with the value they get. */
  datatype Event = Entry(task: nat) | Exit(task: nat, value: Bits)

  function Calls(log: seq<Event>, t: nat): nat {
    if log == [] then 0 else Calls(log[..|log| - 1], t) + if log[|log| - 1] == Entry(t) then 1 else 0
  }

  function Returns(log: seq<Event>, t: nat): nat {
    if log == [] then 0
    else Returns(log[..|log| - 1], t) + if log[|log| - 1].Exit? && log[|log| - 1].task == t then 1 else 0
  }

  lemma {:induction false} OneMoreEvent(log: seq<Event>, e: Event, t: nat)
    ensures Calls(log + [e], t) == Calls(log, t) + if e == Entry(t) then 1 else 0
    ensures Returns(log + [e], t) == Returns(log, t) + if e.Exit? && e.task == t then 1 else 0
  {
    assert (log + [e])[..|log|] == log;
  }

  /** The barrier told without its bits: who has joined the round, who may go on, what was seen. */
  datatype Meeting = Meeting(here: set<nat>, free: set<nat>, log: seq<Event>) {
    /** Task `t` moves if it can: a free one returns, one outside joins, and the last of all to join
        returns at once and sets the others free. */
    function Move(n: nat, t: nat): Meeting {
      if t >= n then this
      else if t in free then Meeting(here, free - {t}, log + [Exit(t, All(n))])
      else if t in here then this
      else if here + {t} == All(n) then Meeting({}, here, log + [Entry(t)] + [Exit(t, All(n))])
      else Meeting(here + {t}, free, log + [Entry(t)])
    }
  }

  function Assembled(n: nat, schedule: seq<nat>): Meeting {
    if schedule == [] then Meeting({}, {}, [])
        else Assembled(n, schedule[..|schedule| - 1]).Move(n, schedule[|schedule| - 1])
  }

  /** At the end of this log no task has returned more often than any other has called. */
  ghost predicate InStep(log: seq<Event>, n: nat) {
    forall t, u :: 0 <= t < n && 0 <= u < n ==> Returns(log, t) <= Calls(log, u)
  }

  /** At every point of the log. */
  ghost predicate AlwaysInStep(log: seq<Event>, n: nat) {
    forall k :: 0 <= k <= |log| ==> InStep(log[..k], n)
  }

  ghost predicate GotAllBits(log: seq<Event>, n: nat) {
    forall i :: 0 <= i < |log| && log[i].Exit? ==> log[i].value == All(n)
  }

  lemma {:induction false} StillInStep(log: seq<Event>, e: Event, n: nat)
    requires AlwaysInStep(log, n) && InStep(log + [e], n)
    ensures AlwaysInStep(log + [e], n)
  {
    hide InStep;
    var more := log + [e];
    forall k | 0 <= k <= |more|
      ensures InStep(more[..k], n)
    {
      if k <= |log| {
        assert more[..k] == log[..k];
      } else {
        assert more[..k] == more;
      }
    }
  }

  /** A call alone never breaks the step. */
  lemma {:induction false} CallInStep(log: seq<Event>, c: nat, n: nat)
    requires InStep(log, n)
    ensures InStep(log + [Entry(c)], n)
  {
    forall t, u | 0 <= t < n && 0 <= u < n
      ensures Returns(log + [Entry(c)], t) <= Calls(log + [Entry(c)], u)
    {
      OneMoreEvent(log, Entry(c), t);
      OneMoreEvent(log, Entry(c), u);
    }
  }

  /** The counts of the log are those of the barrier. */
  ghost predicate Counted(log: seq<Event>, calls: seq<nat>, exits: seq<nat>) {
    |calls| == |exits| && forall t :: 0 <= t < |calls| ==> calls[t] == Calls(log, t) && exits[t] == Returns(log, t)
  }

  lemma {:induction false} CountedMore(log: seq<Event>, calls: seq<nat>, exits: seq<nat>, e: Event)
    requires Counted(log, calls, exits) && e.task < |calls|
    ensures Counted(log + [e], if e.Entry? then calls[e.task := calls[e.task] + 1] else calls,
                    if e.Exit? then exits[e.task := exits[e.task] + 1] else exits)
  {
    hide Calls, Returns;
    forall t | 0 <= t < |calls|
      ensures Calls(log + [e], t) == calls[t] + (if e == Entry(t) then 1 else 0)
      ensures Returns(log + [e], t) == exits[t] + (if e.Exit? && e.task == t then 1 else 0)
    {
      OneMoreEvent(log, e, t);
    }
  }

  lemma CountsInStep(barrier: Barrier, log: seq<Event>)
    requires barrier.Valid() && Counted(log, barrier.calls, barrier.exits)
    ensures InStep(log, barrier.n)
  {
    forall t, u | 0 <= t < barrier.n && 0 <= u < barrier.n
      ensures Returns(log, t) <= Calls(log, u)
    {
      barrier.NobodyLeavesEarly(t, u);
    }
  }

  lemma {:induction false} CountedAtFirst(n: nat)
    ensures Counted([], seq(n, _ => 0), seq(n, _ => 0)) && AlwaysInStep([], n)
  {
  }

  lemma {:induction false} LogGrows(log: seq<Event>, e: Event, n: nat)
    requires AlwaysInStep(log, n) && GotAllBits(log, n) && InStep(log + [e], n) && (e.Exit? ==> e.value == All(n))
    ensures AlwaysInStep(log + [e], n) && GotAllBits(log + [e], n)
  {
    hide InStep, AlwaysInStep, All;
    StillInStep(log, e, n);
  }

  lemma {:induction false} NowInStep(log: seq<Event>, n: nat)
    requires AlwaysInStep(log, n)
    ensures InStep(log, n)
  {
    hide InStep;
    assert log[..|log|] == log;
  }

  /** The barrier as a meeting. */
  ghost function Seen(barrier: Barrier, log: seq<Event>): Meeting
    reads barrier.group
  {
    Meeting(barrier.group.bits, barrier.group.results.Keys, log)
  }

  lemma SeenIs(barrier: Barrier, log: seq<Event>)
    ensures Seen(barrier, log) == Meeting(barrier.group.bits, barrier.group.results.Keys, log)
  {
  }

  lemma {:induction false} MoveJoins(m: Meeting, n: nat, t: nat)
    requires t < n && t !in m.free && t !in m.here
    ensures m.Move(n, t) == if m.here + {t} == All(n) then Meeting({}, m.here, m.log + [Entry(t)] + [Exit(t, All(n))])
                            else Meeting(m.here + {t}, m.free, m.log + [Entry(t)])
  {
  }

  /** A task that may not call yet has joined and waits. */
  lemma MayCall(barrier: Barrier, t: nat)
    requires barrier.Valid() && t < barrier.n
    ensures barrier.calls[t] == barrier.exits[t] <==> t !in barrier.group.bits && t !in barrier.group.results
  {
    assert Party(barrier.n, barrier.group.bits, barrier.group.waiting, barrier.group.results, barrier.rounds, t,
                 barrier.calls[t], barrier.exits[t]);
    hide All;
  }

  lemma {:induction false} AssembledMore(n: nat, schedule: seq<nat>, i: nat)
    requires i < |schedule|
    ensures Assembled(n, schedule[..i + 1]) == Assembled(n, schedule[..i]).Move(n, schedule[i])
  {
    assert schedule[..i + 1][..i] == schedule[..i];
  }

  // ----- A round -----

  /** What each task has done when those in `entered` have called and those in `left` have returned,
      once each. */
  ghost predicate Tally(log: seq<Event>, entered: set<nat>, left: set<nat>) {
    forall t :: Calls(log, t) == (if t in entered then 1 else 0) && Returns(log, t) == (if t in left then 1 else 0)
  }

  lemma {:induction false} TallyEnters(log: seq<Event>, entered: set<nat>, left: set<nat>, t: nat)
    requires Tally(log, entered, left) && t !in entered
    ensures Tally(log + [Entry(t)], entered + {t}, left)
  {
    hide Calls, Returns;
    forall u
      ensures Calls(log + [Entry(t)], u) == (if u in entered + {t} then 1 else 0)
              && Returns(log + [Entry(t)], u) == (if u in left then 1 else 0)
    {
      OneMoreEvent(log, Entry(t), u);
    }
  }

  lemma {:induction false} TallyLeaves(log: seq<Event>, entered: set<nat>, left: set<nat>, t: nat, value: Bits)
    requires Tally(log, entered, left) && t !in left
    ensures Tally(log + [Exit(t, value)], entered, left + {t})
  {
    hide Calls, Returns;
    forall u
      ensures Calls(log + [Exit(t, value)], u) == (if u in entered then 1 else 0)
              && Returns(log + [Exit(t, value)], u) == (if u in left + {t} then 1 else 0)
    {
      OneMoreEvent(log, Exit(t, value), u);
    }
  }

  function Members(s: seq<nat>): set<nat> {
    set x | x in s
  }

  lemma {:induction false} MembersMore(order: seq<nat>, k: nat)
    requires k < |order| && NoRepeats(order)
    ensures Members(order[..k + 1]) == Members(order[..k]) + {order[k]} && order[k] !in Members(order[..k])
  {
    assert order[..k + 1] == order[..k] + [order[k]];
  }

  lemma {:induction false} MembersBetween(order: seq<nat>, a: nat, b: nat)
    requires a < b <= |order| && NoRepeats(order)
    ensures Members(order[a..b]) == {order[a]} + Members(order[a + 1..b]) && order[a] !in Members(order[a + 1..b])
  {
    assert order[a..b] == [order[a]] + order[a + 1..b];
  }

  /** Fewer than all have called. */
  lemma {:induction false} NotAllHere(n: nat, order: seq<nat>, k: nat)
    requires k < |order| == n && NoRepeats(order) && forall t :: t in order ==> t < n
    ensures Members(order[..k + 1]) == All(n) <==> k + 1 == n
  {
    NoRepeatsCount(order, Members(order));
    NoRepeatsFirst(order, k + 1);
    NoRepeatsCount(order[..k + 1], Members(order[..k + 1]));
    AllSize(n);
    if k + 1 == n {
      assert order[..k + 1] == order;
      SubsetOfSameSize(Members(order), All(n));
    }
  }

  lemma {:induction false} NoRepeatsFirst(order: seq<nat>, k: nat)
    requires k <= |order| && NoRepeats(order)
    ensures NoRepeats(order[..k])
  {
  }

  lemma {:induction false} OneLarger(a: set<nat>, x: nat)
    requires x !in a
    ensures |a + {x}| == |a| + 1
  {
  }

  lemma {:induction false} AllSize(n: nat)
    ensures |All(n)| == n
  {
    if n > 0 {
      AllSize(n - 1);
      OneLarger(All(n - 1), n - 1);
    }
  }

  lemma {:induction false} SubsetOfSameSize(a: set<nat>, b: set<nat>)
    requires a <= b && |a| == |b|
    ensures a == b
  {
    if a != b {
      var x :| x in b && x !in a;
      assert a <= b - {x};
      SubsetIsSmaller(a, b - {x});
    }
  }

  lemma {:induction false} SubsetIsSmaller(a: set<nat>, b: set<nat>)
    requires a <= b
    ensures |a| <= |b|
  {
    if a != {} {
      var x :| x in a;
      SubsetIsSmaller(a - {x}, b - {x});
    }
  }

  /** The first `k` tasks of `order` have called, but not all. */
  lemma {:induction false} SomeHere(n: nat, order: seq<nat>, k: nat)
    requires k < |order| == n && NoRepeats(order) && forall t :: t in order ==> t < n
    ensures var m := Assembled(n, order[..k]);
            m.here == Members(order[..k]) && m.free == {} && Tally(m.log, m.here, {})
  {
    if k == 0 {
      assert order[..0] == [];
    } else {
      hide Calls, Returns, All, Tally;
      var m, t := Assembled(n, order[..k - 1]), order[k - 1];
      SomeHere(n, order, k - 1);
      AssembledMore(n, order, k - 1);
      MembersMore(order, k - 1);
      NotAllHere(n, order, k - 1);
      TallyEnters(m.log, m.here, {}, t);
      hide Members, Assembled, Meeting.Move;
      assert t in order;
      MoveJoins(m, n, t);
    }
  }

  lemma {:induction false} MoveLeaves(m: Meeting, n: nat, t: nat)
    requires t < n && t in m.free
    ensures m.Move(n, t) == Meeting(m.here, m.free - {t}, m.log + [Exit(t, All(n))])
  {
  }

  /** All have called, and the first `k` of those set free have returned. */
  lemma {:induction false} SomeGone(n: nat, order: seq<nat>, k: nat)
    requires k < |order| == n && NoRepeats(order) && forall t :: t in order ==> t < n
    ensures var m, last := Assembled(n, order + order[..k]), order[n - 1];
            && m.here == {} && m.free == Members(order[k..n - 1])
            && Tally(m.log, All(n), {last} + Members(order[..k]))
  {
    hide Calls, Returns, All, Tally;
    if k == 0 {
      LastOfRound(n, order);
    } else {
      var before, t, left := order + order[..k - 1], order[k - 1], {order[n - 1]} + Members(order[..k - 1]);
      SomeGone(n, order, k - 1);
      assert before + [t] == order + order[..k];
      AssembledThen(n, before, t);
      MembersMore(order, k - 1);
      MembersBetween(order, k - 1, n - 1);
      var m := Assembled(n, before);
      TallyLeaves(m.log, All(n), left, t, All(n));
      hide Members, Assembled, Meeting.Move;
      assert t in order && t in m.free;
      MoveLeaves(m, n, t);
      assert left + {t} == {order[n - 1]} + Members(order[..k]);
    }
  }

  lemma {:induction false} AssembledThen(n: nat, schedule: seq<nat>, t: nat)
    ensures Assembled(n, schedule + [t]) == Assembled(n, schedule).Move(n, t)
  {
    assert (schedule + [t])[..|schedule|] == schedule;
  }

  lemma {:induction false} LastOfRound(n: nat, order: seq<nat>)
    requires 0 < |order| == n && NoRepeats(order) && forall t :: t in order ==> t < n
    ensures var m := Assembled(n, order + order[..0]);
            && m.here == {} && m.free == Members(order[0..n - 1])
            && Tally(m.log, All(n), {order[n - 1]} + Members(order[..0]))
  {
    hide Calls, Returns, All, Tally;
    var k, last := n - 1, order[n - 1];
    var m := Assembled(n, order[..k]);
    SomeHere(n, order, k);
    AssembledThen(n, order[..k], last);
    MembersMore(order, k);
    NotAllHere(n, order, k);
    TallyEnters(m.log, m.here, {}, last);
    TallyLeaves(m.log + [Entry(last)], m.here + {last}, {}, last, All(n));
    assert order[..k] + [last] == order[..k + 1] == order == order + order[..0] && order[0..n - 1] == order[..k];
    assert {} + {last} == {last} + Members(order[..0]);
    hide Members, Assembled, Meeting.Move;
    assert last in order;
    MoveJoins(m, n, last);
  }

  /** A round comes to its end: whatever the order in which the tasks call, once all have called and
      those that waited go on, each has called once and returned once, and nobody is left behind. */
  lemma {:induction false} RoundCompletes(n: nat, order: seq<nat>, t: nat)
    requires 0 < |order| == n && NoRepeats(order) && (forall u :: u in order ==> u < n) && t < n
    ensures var m := Assembled(n, order + order[..n - 1]);
            m.here == {} && m.free == {} && Calls(m.log, t) == 1 && Returns(m.log, t) == 1
  {
    SomeGone(n, order, n - 1);
    MembersMore(order, n - 1);
    NotAllHere(n, order, n - 1);
    assert order[..n - 1 + 1] == order && order[n - 1..n - 1] == [];
    var m := Assembled(n, order + order[..n - 1]);
    assert t in All(n);
    hide Assembled, Calls, Returns, All;
  }

  /** Task `t` goes on. */
  method GoOn(barrier: Barrier, log: seq<Event>, t: nat) returns (more: seq<Event>)
    requires barrier.Valid() && t < barrier.n && t in barrier.group.results
    requires Counted(log, barrier.calls, barrier.exits) && AlwaysInStep(log, barrier.n) && GotAllBits(log, barrier.n)
    modifies barrier, barrier.group
    ensures barrier.Valid() && Counted(more, barrier.calls, barrier.exits)
    ensures AlwaysInStep(more, barrier.n) && GotAllBits(more, barrier.n)
    ensures Seen(barrier, more) == old(Seen(barrier, log)).Move(barrier.n, t)
  {
    hide All, InStep, AlwaysInStep, GotAllBits, Calls, Returns, Party;
    ghost var calls, exits := barrier.calls, barrier.exits;
    var value := barrier.Depart(t);
    more := log + [Exit(t, value)];
    CountedMore(log, calls, exits, Exit(t, value));
    CountsInStep(barrier, more);
    LogGrows(log, Exit(t, value), barrier.n);
  }

  /** Task `t` calls. */
  method Call(barrier: Barrier, log: seq<Event>, t: nat) returns (more: seq<Event>)
    requires barrier.Valid() && t < barrier.n && barrier.calls[t] == barrier.exits[t]
    requires Counted(log, barrier.calls, barrier.exits) && AlwaysInStep(log, barrier.n) && GotAllBits(log, barrier.n)
    modifies barrier, barrier.group
    ensures barrier.Valid() && Counted(more, barrier.calls, barrier.exits)
    ensures AlwaysInStep(more, barrier.n) && GotAllBits(more, barrier.n)
    ensures Seen(barrier, more) == old(Seen(barrier, log)).Move(barrier.n, t)
  {
    barrier.MayArrive(t);
    MoveJoins(Seen(barrier, log), barrier.n, t);
    hide *;
    SeenIs(barrier, log);
    ghost var calls, exits := barrier.calls, barrier.exits;
    var value := barrier.Arrive(t);
    more := log + [Entry(t)];
    CountedMore(log, calls, exits, Entry(t));
    NowInStep(log, barrier.n);
    CallInStep(log, t, barrier.n);
    LogGrows(log, Entry(t), barrier.n);
    if value.Some? {
      var last := Exit(t, value.value);
      CountedMore(more, calls[t := calls[t] + 1], exits, last);
      CountsInStep(barrier, more + [last]);
      LogGrows(more, last, barrier.n);
      more := more + [last];
    }
    SeenIs(barrier, more);
  }

  /** Any schedule of tasks calling and going on; moves that are not possible are skipped. What is
      seen is what the meeting says, and in it nobody
      returns from its r-th call before everybody has made its r-th call, and everybody gets all
      bits. */
  method Run(n: nat, schedule: seq<nat>) returns (log: seq<Event>)
    requires 0 < n <= BITS
    ensures AlwaysInStep(log, n) && GotAllBits(log, n)
    ensures log == Assembled(n, schedule).log
  {
    var barrier := new Barrier(n);
    log := [];
    CountedAtFirst(n);
    assert schedule[..0] == [];
    hide All, InStep, AlwaysInStep, Calls, Returns;
    for i := 0 to |schedule|
      invariant barrier.Valid() && barrier.n == n && fresh(barrier) && fresh(barrier.group)
      invariant Counted(log, barrier.calls, barrier.exits) && AlwaysInStep(log, n) && GotAllBits(log, n)
      invariant Seen(barrier, log) == Assembled(n, schedule[..i])
    {
      var t := schedule[i];
      AssembledMore(n, schedule, i);
      if t < n {
        MayCall(barrier, t);
      }
      if t < n && t in barrier.group.results {
        log := GoOn(barrier, log, t);
      } else if t < n && Calls(log, t) == Returns(log, t) {
        log := Call(barrier, log, t);
      }
    }
    assert schedule[..|schedule|] == schedule;
  }
}
