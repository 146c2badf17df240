/** What becomes of the inheritance bound when a task takes two mutexes: for any two there are runs
    in which a holder runs below a task that waits for it.

    Modelled code: nimble/os/freertos/tasks.c:4100-4183, nimble/os/freertos/queue.c:904-926. */
module Outranking {
  import opened Sequences
  import opened Mutexes

  /** Some waiter has a higher priority than the holder of its mutex. */
  ghost predicate Outranked(s: System) {
    exists m, h, w :: OutrankedBy(s, m, h, w)
  }

  ghost predicate OutrankedBy(s: System, m: nat, h: nat, w: nat) {
    && m in s.mutexes && s.mutexes[m].holder == Some(h) && w in s.mutexes[m].waiters
    && h in s.tasks && w in s.tasks && s.tasks[h].prio < s.tasks[w].prio
  }

  // ----- Runs, piece by piece -----

  /** A run from `from` to `to`. Unless it is `nested` no task begins to take a mutex while it holds
      one. */
  ghost predicate RunTo(nested: bool, states: seq<System>, steps: seq<Step>, from: System, to: System) {
    && Path(states, steps) && states[0] == from && states[|steps|] == to
    && forall i :: 0 <= i < |steps| ==> Orderly(nested, states[i], steps[i])
  }

  ghost predicate Orderly(nested: bool, s: System, step: Step) {
    step.Begin? && !nested ==> s.current in s.tasks && s.Now().held == 0
  }

  /** `to` is reached by a run that starts in `from`. */
  ghost predicate Reached(nested: bool, from: System, to: System) {
    Start(from) && exists states, steps :: RunTo(nested, states, steps, from, to)
  }

  lemma {:induction false} AtStart(nested: bool, s: System)
    requires Start(s)
    ensures Reached(nested, s, s)
  {
    hide Start;
    assert RunTo(nested, [s], [], s, s);
  }

  lemma {:induction false} ReachedKept(nested: bool, from: System, s: System)
    requires Reached(nested, from, s)
    ensures Kept(s)
  {
    hide Start, Kept, Path;
    var states, steps :| RunTo(nested, states, steps, from, s);
    AccountsAlways(states, steps, |steps|);
  }

  /** One step more. */
  lemma {:induction false} Onward(nested: bool, from: System, s: System, step: Step, a: System)
    requires Reached(nested, from, s) && Moves(s, step, a) && Orderly(nested, s, step)
    ensures Reached(nested, from, a)
  {
    hide Start, Moves, Orderly;
    var states, steps :| RunTo(nested, states, steps, from, s);
    var more, next := states + [a], steps + [step];
    forall i | 0 <= i < |next|
      ensures Moves(more[i], next[i], more[i + 1]) && Orderly(nested, more[i], next[i])
    {
      if i < |steps| {
        assert Moves(states[i], steps[i], states[i + 1]) && Orderly(nested, states[i], steps[i]);
      }
    }
    assert RunTo(nested, more, next, from, a);
  }

  lemma {:induction false} Onto(nested: bool, from: System, s: System, step: Step) returns (a: System)
    requires Reached(nested, from, s) && (Sane(s) ==> Enabled(s, step)) && Orderly(nested, s, step)
    ensures Sane(s) && a == After(s, step) && Reached(nested, from, a)
  {
    ReachedKept(nested, from, s);
    a := After(s, step);
    hide Reached, Enabled, Accounts, Queued;
    Onward(nested, from, s, step, a);
  }

  /** The current task takes a free mutex. */
  function Taken(s: System, m: nat): System
    requires s.current in s.tasks && m in s.mutexes
  {
    s.SetMutex(m, s.mutexes[m].(count := 0, holder := Some(s.current)))
     .Set(s.current, s.Now().(held := s.Now().held + 1, inherited := false))
  }

  lemma {:induction false} Takes(nested: bool, from: System, s: System, m: nat)
    requires Reached(nested, from, s) && !s.yielding && s.current in s.tasks && s.Now().doing.Working?
    requires m in s.mutexes && s.mutexes[m].count == 1 && (nested || s.Now().held == 0)
    ensures Reached(nested, from, Taken(s, m))
  {
    hide Reached, Sane;
    var b := Onto(nested, from, s, Begin(m, true));
    var a := Onto(nested, from, b, Try);
    assert a.tasks == Taken(s, m).tasks && a.mutexes == Taken(s, m).mutexes;
  }

  /** The current task finds a mutex taken: it raises the holder if need be and waits. */
  function Blocked(s: System, m: nat, h: nat, at: nat): System
    requires s.current in s.tasks && m in s.mutexes && h in s.tasks && at <= |s.mutexes[m].waiters|
  {
    var raised := s.tasks[h].prio < s.Now().prio;
    var r := if raised then s.Set(h, s.tasks[h].At(s.Now().prio)) else s;
    r.Set(s.current, r.Now().(doing := Waiting(m), inherited := raised || s.tasks[h].base < s.Now().prio))
     .SetMutex(m, s.mutexes[m].(waiters := Inserted(s.mutexes[m].waiters, at, s.current)))
     .(yielding := true)
  }

  /** The current task is about to check its timeout on `m`. */
  function Found(s: System, m: nat): System
    requires s.current in s.tasks
  {
    s.Set(s.current, s.Now().(doing := Deciding(m), inherited := false))
  }

  lemma {:induction false} Finds(nested: bool, from: System, s: System, m: nat)
    requires Reached(nested, from, s) && !s.yielding && s.current in s.tasks && s.Now().doing.Working?
             && (nested || s.Now().held == 0)
    requires m in s.mutexes && s.mutexes[m].count == 0
    ensures Reached(nested, from, Found(s, m))
  {
    hide Reached, Sane;
    var b := Onto(nested, from, s, Begin(m, true));
    var d := Onto(nested, from, b, Try);
    assert d.tasks == Found(s, m).tasks;
  }

  lemma {:induction false} BlockedIs(s: System, m: nat, h: nat)
    requires s.current in s.tasks && s.Now().doing.Working? && Sane(Found(s, m))
    requires m in s.mutexes && s.mutexes[m].holder == Some(h) && h in s.tasks && h != s.current
    requires forall w :: w in s.mutexes[m].waiters ==>
             w in s.tasks && w != s.current && w != h && s.tasks[w].prio < s.Now().prio
    requires forall w :: w in s.mutexes[m].waiters + [s.current] ==>
             s.tasks[w].prio < MAX_PRIORITIES && s.tasks[w].item == MAX_PRIORITIES - s.tasks[w].prio
    ensures AfterBlock(Found(s, m), m) == Blocked(s, m, h, 0)
  {
    hide Sane, Inserted, Place;
    var d := Found(s, m);
    var a, i := AfterBlock(d, m), Inherit(d, m);
    var tasks := i.Set(s.current, i.Now().(doing := Waiting(m), inherited := Inherits(d, m))).tasks;
    assert a.tasks == tasks == Blocked(s, m, h, 0).tasks;
    FirstPlace(tasks, s.mutexes[m].waiters, tasks[s.current].item);
    assert a.mutexes == Blocked(s, m, h, 0).mutexes;
  }

  lemma {:induction false} FirstPlace(tasks: map<nat, Task>, waiters: seq<nat>, item: nat)
    requires forall w :: w in waiters ==> w in tasks && tasks[w].item > item
    ensures Place(tasks, waiters, item) == 0
  {
  }

  lemma {:induction false} Blocks(nested: bool, from: System, s: System, m: nat, h: nat)
    requires Reached(nested, from, s) && !s.yielding && s.current in s.tasks && s.Now().doing.Working?
             && (nested || s.Now().held == 0)
    requires m in s.mutexes && s.mutexes[m].count == 0 && s.mutexes[m].holder == Some(h) && h in s.tasks
             && h != s.current
    requires forall w :: w in s.mutexes[m].waiters ==>
             w in s.tasks && w != s.current && w != h && s.tasks[w].prio < s.Now().prio
    requires forall w :: w in s.mutexes[m].waiters + [s.current] ==>
             s.tasks[w].prio < MAX_PRIORITIES && s.tasks[w].item == MAX_PRIORITIES - s.tasks[w].prio
    ensures Reached(nested, from, Blocked(s, m, h, 0))
  {
    hide Reached, Sane, Inserted, Place, AfterBlock, Blocked;
    Finds(nested, from, s, m);
    var a := Onto(nested, from, Found(s, m), Decide(false));
    BlockedIs(s, m, h);
  }

  /** A sleeping task wakes and is switched to. */
  function Arrived(s: System, t: nat): System
    requires t in s.tasks
  {
    s.Set(t, s.tasks[t].(doing := Working)).(current := t, yielding := false)
  }

  lemma {:induction false} Arrives(nested: bool, from: System, s: System, t: nat)
    requires Reached(nested, from, s) && t in s.tasks && s.tasks[t].doing.Sleeping?
    requires forall u :: u in s.tasks && s.tasks[u].Ready() ==> s.tasks[u].prio <= s.tasks[t].prio
    ensures Reached(nested, from, Arrived(s, t))
  {
    hide Reached, Sane;
    var w := Onto(nested, from, s, Wake(t));
    var a := Onto(nested, from, w, Switch(t));
    assert a.tasks == Arrived(s, t).tasks;
  }

  lemma {:induction false} Switches(nested: bool, from: System, s: System, t: nat)
    requires Reached(nested, from, s) && t in s.tasks && s.tasks[t].Ready()
    requires forall u :: u in s.tasks && s.tasks[u].Ready() ==> s.tasks[u].prio <= s.tasks[t].prio
    ensures Reached(nested, from, s.(current := t, yielding := false))
  {
    hide Reached, Sane;
    var a := Onto(nested, from, s, Switch(t));
  }

  /** The current task gives a mutex and wakes the first of its waiters. */
  function Gave(s: System, m: nat): System
    requires s.current in s.tasks && s.Now().held > 0 && m in s.mutexes && s.mutexes[m].waiters != []
             && s.mutexes[m].waiters[0] in s.tasks
  {
    var w, giver := s.mutexes[m].waiters[0], Disinherited(s.Now());
    System(s.tasks[s.current := giver][w := s.tasks[w].(doing := Trying(m, true))],
           s.mutexes[m := Mutex(s.mutexes[m].count + 1, None, s.mutexes[m].waiters[1..])], s.current,
               s.tasks[w].prio > giver.prio)
  }

  lemma {:induction false} Gives(nested: bool, from: System, s: System, m: nat)
    requires Reached(nested, from, s) && !s.yielding && s.current in s.tasks && s.Now().doing.Working?
             && s.Now().held > 0
    requires m in s.mutexes && s.mutexes[m].holder == Some(s.current) && s.mutexes[m].waiters != []
    requires s.mutexes[m].waiters[0] in s.tasks && s.mutexes[m].waiters[0] != s.current
    ensures Reached(nested, from, Gave(s, m))
  {
    hide Reached, Sane, Disinherited;
    var a := Onto(nested, from, s, Give(m));
    assert a.tasks == Gave(s, m).tasks && a.mutexes == Gave(s, m).mutexes;
  }

  /** The first of the waiters gives up. */
  function GaveUp(s: System, m: nat, t: nat): System
    requires s.current in s.tasks && t in s.tasks && m in s.mutexes && s.mutexes[m].waiters != []
  {
    System(s.tasks[t := s.tasks[t].(doing := Trying(m, true))],
           s.mutexes[m := s.mutexes[m].(waiters := s.mutexes[m].waiters[1..])],
           s.current, s.yielding || s.tasks[t].prio > s.Now().prio)
  }

  lemma {:induction false} GivesUp(nested: bool, from: System, s: System, m: nat, t: nat)
    requires Reached(nested, from, s) && s.current in s.tasks && t in s.tasks && s.tasks[t].doing == Waiting(m)
             && m in s.mutexes
    requires NoRepeats(s.mutexes[m].waiters) && s.mutexes[m].waiters != [] && s.mutexes[m].waiters[0] == t
    ensures Reached(nested, from, GaveUp(s, m, t))
  {
    hide Reached, Sane, Without;
    var a := Onto(nested, from, s, Wake(t));
    WithoutFirst(s.mutexes[m].waiters);
    assert a.tasks == GaveUp(s, m, t).tasks && a.mutexes == GaveUp(s, m, t).mutexes;
  }

  lemma {:induction false} WithoutFirst(q: seq<nat>)
    requires NoRepeats(q) && q != []
    ensures Without(q, q[0]) == q[1..]
  {
    assert q[0] !in q[1..];
    WithoutAbsent(q[1..], q[0]);
  }

  lemma {:induction false} WithoutAbsent(q: seq<nat>, t: nat)
    requires t !in q
    ensures Without(q, t) == q
  {
    if q != [] {
      assert q[0] in q && forall u :: u in q[1..] ==> u in q;
      WithoutAbsent(q[1..], t);
      assert q == [q[0]] + q[1..];
    }
  }

  /** A sleeping task wakes, wants a mutex that is taken, and waits in front of those before it. */
  lemma {:induction false} Comes(nested: bool, from: System, s: System, t: nat, m: nat, h: nat)
    requires Reached(nested, from, s) && t in s.tasks && s.tasks[t].doing.Sleeping? && (nested || s.tasks[t].held == 0)
    requires forall u :: u in s.tasks && s.tasks[u].Ready() ==> s.tasks[u].prio <= s.tasks[t].prio
    requires m in s.mutexes && s.mutexes[m].count == 0 && s.mutexes[m].holder == Some(h) && h in s.tasks && h != t
    requires forall w :: w in s.mutexes[m].waiters ==>
             w in s.tasks && w != t && w != h && s.tasks[w].prio < s.tasks[t].prio
    requires forall w :: w in s.mutexes[m].waiters + [t] ==>
             s.tasks[w].prio < MAX_PRIORITIES && s.tasks[w].item == MAX_PRIORITIES - s.tasks[w].prio
    ensures Reached(nested, from, Blocked(Arrived(s, t), m, h, 0))
  {
    hide Reached, Inserted;
    Arrives(nested, from, s, t);
    Blocks(nested, from, Arrived(s, t), m, h);
  }

  // ----- Inheritance stops at a holder that itself waits -----

  /** A task of priority `prio` and base priority `base` that holds `held` mutexes. */
  function Person(base: nat, prio: nat, held: nat, doing: Doing): Task
    requires prio < MAX_PRIORITIES
  {
    Task(base, prio, MAX_PRIORITIES - prio, held, doing, false)
  }

  function Pair(tasks: map<nat, Task>, a: nat, first: Mutex, b: nat, second: Mutex, current: nat,
                yielding: bool): System {
    System(tasks, map[a := first, b := second], current, yielding)
  }

  const FREE: Mutex := Mutex(1, None, [])

  function AtFirst(a: nat, b: nat): System {
    Pair(map[1 := Person(1, 1, 0, Working), 2 := Person(2, 2, 0, Sleeping), 3 := Person(3, 3, 0, Sleeping)], a, FREE,
         b, FREE, 1, false)
  }

  /** Task 1 holds `a`. */
  function First(a: nat, b: nat): System {
    Pair(map[1 := Person(1, 1, 1, Working), 2 := Person(2, 2, 0, Sleeping), 3 := Person(3, 3, 0, Sleeping)],
         a, Mutex(0, Some(1), []), b, FREE, 1, false)
  }

  lemma {:induction false} ToFirst(a: nat, b: nat)
    requires a != b
    ensures Reached(true, AtFirst(a, b), First(a, b))
  {
    var s0 := AtFirst(a, b);
    AtStart(true, s0);
    hide Reached;
    Takes(true, s0, s0, a);
    var s := Taken(s0, a);
    assert s.mutexes == First(a, b).mutexes && s.tasks == First(a, b).tasks;
  }

  /** Task 1 holds `a`, and task 2 holds `b`. */
  function Both(a: nat, b: nat): System {
    Pair(map[1 := Person(1, 1, 1, Working), 2 := Person(2, 2, 1, Working), 3 := Person(3, 3, 0, Sleeping)],
         a, Mutex(0, Some(1), []), b, Mutex(0, Some(2), []), 2, false)
  }

  lemma {:induction false} BothIs(a: nat, b: nat)
    requires a != b
    ensures Taken(Arrived(First(a, b), 2), b) == Both(a, b)
  {
    var s := Taken(Arrived(First(a, b), 2), b);
    assert s.mutexes == Both(a, b).mutexes && s.tasks == Both(a, b).tasks;
  }

  lemma {:induction false} ToBoth(a: nat, b: nat)
    requires a != b
    ensures Reached(true, AtFirst(a, b), Both(a, b))
  {
    ToFirst(a, b);
    hide Reached, AtFirst, Taken, Both;
    Arrives(true, AtFirst(a, b), First(a, b), 2);
    Takes(true, AtFirst(a, b), Arrived(First(a, b), 2), b);
    BothIs(a, b);
  }

  /** Task 2 waits for `a` now and has raised task 1. */
  function Chained(a: nat, b: nat): System {
    Pair(map[1 := Person(1, 2, 1, Working), 2 := Person(2, 2, 1, Waiting(a)).(inherited := true),
             3 := Person(3, 3, 0, Sleeping)],
         a, Mutex(0, Some(1), [2]), b, Mutex(0, Some(2), []), 2, true)
  }

  lemma {:induction false} ChainedIs(a: nat, b: nat)
    requires a != b
    ensures Blocked(Both(a, b), a, 1, 0) == Chained(a, b)
  {
    var s := Blocked(Both(a, b), a, 1, 0);
    assert s.mutexes[a].waiters == [2];
    assert s.mutexes == Chained(a, b).mutexes && s.tasks == Chained(a, b).tasks;
  }

  lemma {:induction false} ToChained(a: nat, b: nat)
    requires a != b
    ensures Reached(true, AtFirst(a, b), Chained(a, b))
  {
    hide Reached, Blocked, AtFirst, Chained;
    ToBoth(a, b);
    Blocks(true, AtFirst(a, b), Both(a, b), a, 1);
    ChainedIs(a, b);
  }

  /** Task 1 takes `a`; task 2 takes `b` and waits for `a`; task 3 waits for `b` and raises task 2
      above task 1. */
  lemma {:induction false} NotPassedOn(a: nat, b: nat)
    requires a != b
    ensures exists from, to :: Reached(true, from, to) && from.mutexes.Keys == {a, b} && Outranked(to)
  {
    ToChained(a, b);
    assert AtFirst(a, b).mutexes.Keys == {a, b};
    hide Reached, AtFirst;
    Comes(true, AtFirst(a, b), Chained(a, b), 3, b, 2);
    assert OutrankedBy(Blocked(Arrived(Chained(a, b), 3), b, 2, 0), a, 1, 2);
  }

  // ----- A holder that drops while a mutex is on its way to somebody else -----

  /** The six tasks of the other run, of which 1, 6 and 10 have base priority 1. */
  function Six(one: Task, three: Task, four: Task, five: Task, six: Task, ten: Task): map<nat, Task> {
    map[1 := one, 3 := three, 4 := four, 5 := five, 6 := six, 10 := ten]
  }

  function Low(prio: nat, held: nat, doing: Doing): Task
    requires prio < MAX_PRIORITIES
  {
    Person(1, prio, held, doing)
  }

  function High(prio: nat, doing: Doing, inherited: bool): Task
    requires prio < MAX_PRIORITIES
  {
    Person(prio, prio, 0, doing).(inherited := inherited)
  }

  function Before(a: nat, b: nat): System {
    Pair(Six(Low(1, 0, Working), High(3, Sleeping, false), High(4, Sleeping, false), High(5, Sleeping, false),
             Low(1, 0, Working), Low(1, 0, Working)),
         a, FREE, b, FREE, 10, false)
  }

  /** Task 10 holds `b`. */
  function Begun(a: nat, b: nat): System {
    Pair(Six(Low(1, 0, Working), High(3, Sleeping, false), High(4, Sleeping, false), High(5, Sleeping, false),
             Low(1, 0, Working),
             Low(1, 1, Working)),
         a, FREE, b, Mutex(0, Some(10), []), 10, false)
  }

  lemma {:induction false} ToBegun(a: nat, b: nat)
    requires a != b
    ensures Reached(false, Before(a, b), Begun(a, b))
  {
    var s0 := Before(a, b);
    AtStart(false, s0);
    hide Reached;
    Takes(false, s0, s0, b);
    var s := Taken(s0, b);
    assert s.mutexes == Begun(a, b).mutexes && s.tasks == Begun(a, b).tasks;
  }

  /** Task 10 holds `b`, and task 1 holds `a`. */
  function Apart(a: nat, b: nat): System {
    Pair(Six(Low(1, 1, Working), High(3, Sleeping, false), High(4, Sleeping, false), High(5, Sleeping, false),
             Low(1, 0, Working),
             Low(1, 1, Working)),
         a, Mutex(0, Some(1), []), b, Mutex(0, Some(10), []), 6, false)
  }

  lemma {:induction false} ApartIs(a: nat, b: nat)
    requires a != b
    ensures Taken(Begun(a, b).(current := 1), a).(current := 6) == Apart(a, b)
  {
    var s := Taken(Begun(a, b).(current := 1), a);
    assert s.mutexes == Apart(a, b).mutexes && s.tasks == Apart(a, b).tasks;
  }

  lemma {:induction false} ToApart(a: nat, b: nat)
    requires a != b
    ensures Reached(false, Before(a, b), Apart(a, b))
  {
    ToBegun(a, b);
    hide Reached, Before;
    Switches(false, Before(a, b), Begun(a, b), 1);
    Takes(false, Before(a, b), Begun(a, b).(current := 1), a);
    ApartIs(a, b);
    hide Taken;
    Switches(false, Before(a, b), Apart(a, b).(current := 1), 6);
  }

  /** Task 6 waits for `b` now. */
  function Occupied(a: nat, b: nat): System {
    Pair(Six(Low(1, 1, Working), High(3, Sleeping, false), High(4, Sleeping, false), High(5, Sleeping, false),
             Low(1, 0, Waiting(b)), Low(1, 1, Working)),
         a, Mutex(0, Some(1), []), b, Mutex(0, Some(10), [6]), 6, true)
  }

  lemma {:induction false} OccupiedIs(a: nat, b: nat)
    requires a != b
    ensures Blocked(Apart(a, b), b, 10, 0) == Occupied(a, b)
  {
    var s := Blocked(Apart(a, b), b, 10, 0);
    assert s.mutexes[b].waiters == [6];
    assert s.mutexes == Occupied(a, b).mutexes && s.tasks == Occupied(a, b).tasks;
  }

  lemma {:induction false} ToOccupied(a: nat, b: nat)
    requires a != b
    ensures Reached(false, Before(a, b), Occupied(a, b))
  {
    hide Reached, Blocked, Before, Occupied;
    ToApart(a, b);
    Blocks(false, Before(a, b), Apart(a, b), b, 10);
    OccupiedIs(a, b);
  }

  /** Tasks 3 and 4 wait for `a`, and task 1 was raised by both. */
  function Raised(a: nat, b: nat): System {
    Pair(Six(Low(4, 1, Working), High(3, Waiting(a), true), High(4, Waiting(a), true), High(5, Sleeping, false),
             Low(1, 0, Waiting(b)), Low(1, 1, Working)),
         a, Mutex(0, Some(1), [4, 3]), b, Mutex(0, Some(10), [6]), 4, true)
  }

  function RaisedOnce(a: nat, b: nat): System {
    Pair(Six(Low(3, 1, Working), High(3, Waiting(a), true), High(4, Sleeping, false), High(5, Sleeping, false),
             Low(1, 0, Waiting(b)), Low(1, 1, Working)),
         a, Mutex(0, Some(1), [3]), b, Mutex(0, Some(10), [6]), 3, true)
  }

  lemma {:induction false} RaisedOnceIs(a: nat, b: nat)
    requires a != b
    ensures Blocked(Arrived(Occupied(a, b), 3), a, 1, 0) == RaisedOnce(a, b)
  {
    var s := Blocked(Arrived(Occupied(a, b), 3), a, 1, 0);
    assert s.mutexes[a].waiters == [3];
    assert s.mutexes == RaisedOnce(a, b).mutexes && s.tasks == RaisedOnce(a, b).tasks;
  }

  lemma {:induction false} ToRaisedOnce(a: nat, b: nat)
    requires a != b && Reached(false, Before(a, b), Occupied(a, b))
    ensures Reached(false, Before(a, b), RaisedOnce(a, b))
  {
    hide Reached, Blocked, Arrived, RaisedOnce, Before;
    Comes(false, Before(a, b), Occupied(a, b), 3, a, 1);
    RaisedOnceIs(a, b);
  }

  /** Task 4 is awake. */
  function Awake(a: nat, b: nat): System {
    Pair(Six(Low(3, 1, Working), High(3, Waiting(a), true), High(4, Working, false), High(5, Sleeping, false),
             Low(1, 0, Waiting(b)),
             Low(1, 1, Working)),
         a, Mutex(0, Some(1), [3]), b, Mutex(0, Some(10), [6]), 4, false)
  }

  lemma {:induction false} AwakeIs(a: nat, b: nat)
    requires a != b
    ensures Arrived(RaisedOnce(a, b), 4) == Awake(a, b)
  {
    assert Arrived(RaisedOnce(a, b), 4).tasks == Awake(a, b).tasks;
  }

  lemma {:induction false} RaisedTasks(a: nat, b: nat)
    requires a != b
    ensures Blocked(Awake(a, b), a, 1, 0).tasks == Raised(a, b).tasks
  {
  }

  lemma {:induction false} RaisedIs(a: nat, b: nat)
    requires a != b
    ensures Blocked(Awake(a, b), a, 1, 0) == Raised(a, b)
  {
    RaisedTasks(a, b);
    hide Six;
    var s := Blocked(Awake(a, b), a, 1, 0);
    assert s.mutexes[a].waiters == [4, 3];
    assert s.mutexes == Raised(a, b).mutexes;
  }

  lemma {:induction false} ToRaised(a: nat, b: nat)
    requires a != b && Reached(false, Before(a, b), RaisedOnce(a, b))
    ensures Reached(false, Before(a, b), Raised(a, b))
  {
    hide Reached, Blocked, Arrived, Raised, Before;
    Comes(false, Before(a, b), RaisedOnce(a, b), 4, a, 1);
    AwakeIs(a, b);
    RaisedIs(a, b);
  }

  /** Task 1 has given `a`, which task 4 is to take. */
  function Freed(a: nat, b: nat): System {
    Pair(Six(Low(1, 0, Working), High(3, Waiting(a), true), High(4, Trying(a, true), true), High(5, Sleeping, false),
             Low(1, 0, Waiting(b)), Low(1, 1, Working)),
         a, Mutex(1, None, [3]), b, Mutex(0, Some(10), [6]), 1, true)
  }

  lemma {:induction false} FreedIs(a: nat, b: nat)
    requires a != b
    ensures Gave(Raised(a, b).(current := 1, yielding := false), a) == Freed(a, b)
  {
    var s := Gave(Raised(a, b).(current := 1, yielding := false), a);
    assert s.mutexes[a].waiters == [3];
    assert s.mutexes == Freed(a, b).mutexes && s.tasks == Freed(a, b).tasks;
  }

  lemma {:induction false} ToFreed(a: nat, b: nat)
    requires a != b && Reached(false, Before(a, b), Raised(a, b))
    ensures Reached(false, Before(a, b), Freed(a, b))
  {
    hide Reached, Gave, Freed, Before;
    Switches(false, Before(a, b), Raised(a, b), 1);
    Gives(false, Before(a, b), Raised(a, b).(current := 1, yielding := false), a);
    FreedIs(a, b);
  }

  /** Task 5 waits for `b` and has raised task 10. */
  function Given(a: nat, b: nat): System {
    Pair(Six(Low(1, 0, Working), High(3, Waiting(a), true), High(4, Trying(a, true), true), High(5, Waiting(b), true),
             Low(1, 0, Waiting(b)), Low(5, 1, Working)),
         a, Mutex(1, None, [3]), b, Mutex(0, Some(10), [5, 6]), 5, true)
  }

  lemma {:induction false} GivenIs(a: nat, b: nat)
    requires a != b
    ensures Blocked(Arrived(Freed(a, b), 5), b, 10, 0) == Given(a, b)
  {
    var s := Blocked(Arrived(Freed(a, b), 5), b, 10, 0);
    assert s.mutexes[b].waiters == [5, 6];
    assert s.mutexes == Given(a, b).mutexes && s.tasks == Given(a, b).tasks;
  }

  lemma {:induction false} ToGiven(a: nat, b: nat)
    requires a != b && Reached(false, Before(a, b), Freed(a, b))
    ensures Reached(false, Before(a, b), Given(a, b))
  {
    hide Reached, Blocked, Arrived, Given, Before;
    Comes(false, Before(a, b), Freed(a, b), 5, b, 10);
    GivenIs(a, b);
  }

  /** Task 5 has given up. */
  function Remaining(a: nat, b: nat): System {
    Pair(Six(Low(1, 0, Working), High(3, Waiting(a), true), High(4, Trying(a, true), true),
             High(5, Trying(b, true), true), Low(1, 0, Waiting(b)), Low(5, 1, Working)),
         a, Mutex(1, None, [3]), b, Mutex(0, Some(10), [6]), 10, false)
  }

  lemma {:induction false} RemainingIs(a: nat, b: nat)
    requires a != b
    ensures GaveUp(Given(a, b).(current := 10, yielding := false), b, 5) == Remaining(a, b)
  {
    var s := GaveUp(Given(a, b).(current := 10, yielding := false), b, 5);
    assert s.mutexes[b].waiters == [6];
    assert s.mutexes == Remaining(a, b).mutexes && s.tasks == Remaining(a, b).tasks;
  }

  lemma {:induction false} ToRemaining(a: nat, b: nat)
    requires a != b && Reached(false, Before(a, b), Given(a, b))
    ensures Reached(false, Before(a, b), Remaining(a, b))
  {
    hide Reached, GaveUp, Remaining, Before;
    Switches(false, Before(a, b), Given(a, b), 10);
    GivesUp(false, Before(a, b), Given(a, b).(current := 10, yielding := false), b, 5);
    RemainingIs(a, b);
  }

  /** Task 10 has given `b` and dropped to its base priority; task 6, which it woke, is no higher, so
      task 10 goes on. */
  function Dropped(a: nat, b: nat): System {
    Pair(Six(Low(1, 0, Working), High(3, Waiting(a), true), High(4, Trying(a, true), true),
             High(5, Trying(b, true), true), Low(1, 0, Trying(b, true)), Low(1, 0, Working)),
         a, Mutex(1, None, [3]), b, FREE, 10, false)
  }

  lemma {:induction false} DroppedIs(a: nat, b: nat)
    requires a != b
    ensures Gave(Remaining(a, b), b) == Dropped(a, b)
  {
    var s := Gave(Remaining(a, b), b);
    assert s.mutexes[b].waiters == [];
    assert s.mutexes == Dropped(a, b).mutexes && s.tasks == Dropped(a, b).tasks;
  }

  lemma {:induction false} ToDropped(a: nat, b: nat)
    requires a != b && Reached(false, Before(a, b), Remaining(a, b))
    ensures Reached(false, Before(a, b), Dropped(a, b))
  {
    hide Reached, Gave, Dropped, Before;
    Gives(false, Before(a, b), Remaining(a, b), b);
    DroppedIs(a, b);
  }

  lemma {:induction false} LastOutranked(a: nat, b: nat)
    requires a != b
    ensures Outranked(Taken(Dropped(a, b), a))
  {
    assert OutrankedBy(Taken(Dropped(a, b), a), a, 10, 3);
  }

  /** For any two mutexes there is a run in which no task ever takes a mutex while it holds one, and
      yet a holder runs below a waiter: task 10 may take `a` in the place of task 4, which was woken
      for it, and then runs below task 3. */
  lemma {:induction false} TakenByTheLower(a: nat, b: nat)
    requires a != b
    ensures exists from, to :: Reached(false, from, to) && from.mutexes.Keys == {a, b} && Outranked(to)
  {
    ToOccupied(a, b);
    ToRaisedOnce(a, b);
    ToRaised(a, b);
    ToFreed(a, b);
    ToGiven(a, b);
    ToRemaining(a, b);
    ToDropped(a, b);
    Takes(false, Before(a, b), Dropped(a, b), a);
    hide Reached, Taken;
    LastOutranked(a, b);
    assert Before(a, b).mutexes.Keys == {a, b};
  }
}
