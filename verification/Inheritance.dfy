/** The priority inheritance bound: the holder of a mutex runs at no less than the priority of every
    task that waits for it, as long as the tasks that take this mutex take no other one. */
module Inheritance {
  import opened Sequences
  import opened Mutexes

  type Priorities = map<nat, nat>

  /** The priorities of the tasks that take the mutex in question. */
  function Priority(s: System, users: set<nat>): (p: Priorities)
    ensures forall t :: t in p <==> t in s.tasks && t in users
    ensures forall t :: t in p ==> p[t] == s.tasks[t].prio
  {
    map t | t in s.tasks && t in users :: s.tasks[t].prio
  }

  // ----- Waiting lists as lists of priorities -----

  ghost predicate Known(p: Priorities, q: seq<nat>) {
    forall i :: 0 <= i < |q| ==> q[i] in p
  }

  /** Nobody in the list has a higher priority than `top`. */
  ghost predicate AtMost(p: Priorities, q: seq<nat>, top: nat) {
    Known(p, q) && forall i :: 0 <= i < |q| ==> p[q[i]] <= top
  }

  /** The list falls in priority. The holder may be out of place in the list for its own mutex,
      because inheritance changes its list item where it is. */
  ghost predicate Falls(p: Priorities, q: seq<nat>, h: Option<nat>) {
    Known(p, q) && forall i, j :: 0 <= i < j < |q| && h != Some(q[i]) && h != Some(q[j]) ==> p[q[i]] >= p[q[j]]
  }

  lemma {:induction false} JoinFalls(p: Priorities, q: seq<nat>, h: Option<nat>, t: nat, at: nat)
    requires Falls(p, q, h) && t in p && at <= |q|
    requires forall k :: 0 <= k < at ==> p[q[k]] >= p[t]
    requires at < |q| ==> p[q[at]] < p[t]
    requires at < |q| ==> h != Some(q[at])
    ensures Falls(p, q[..at] + [t] + q[at..], h)
  {
    var rest := q[..at] + [t] + q[at..];
    assert forall k :: 0 <= k < |rest| ==> rest[k] == if k < at then q[k] else if k == at then t else q[k - 1];
  }

  /** Raising the holder leaves the order of the others. */
  lemma {:induction false} RaiseFalls(p: Priorities, q: seq<nat>, h: nat, to: nat)
    requires Falls(p, q, Some(h)) && h in p
    ensures Falls(p[h := to], q, Some(h))
  {
  }

  lemma {:induction false} WithoutFalls(p: Priorities, q: seq<nat>, h: Option<nat>, t: nat)
    requires Falls(p, q, h)
    ensures Falls(p, Without(q, t), h)
  {
    if q != [] {
      WithoutFalls(p, q[1..], h, t);
      if q[0] != t {
        var r := Without(q[1..], t);
        forall j | 0 <= j < |r| && h != Some(q[0]) && h != Some(r[j])
          ensures r[j] in p && p[q[0]] >= p[r[j]]
        {
          assert r[j] in q[1..];
        }
      }
    }
  }

  lemma {:induction false} WithoutAtMost(p: Priorities, q: seq<nat>, top: nat, t: nat)
    requires AtMost(p, q, top)
    ensures AtMost(p, Without(q, t), top)
  {
    var r := Without(q, t);
    forall j | 0 <= j < |r|
      ensures r[j] in p && p[r[j]] <= top
    {
      assert r[j] in r && r[j] in q;
    }
  }

  // ----- The invariant -----

  /** The bound itself. */
  ghost predicate Bounded(p: Priorities, mutex: Mutex) {
    mutex.holder.Some? ==> mutex.holder.value in p && AtMost(p, mutex.waiters, p[mutex.holder.value])
  }

  /** `u` was woken and will try the mutex, and nobody still waiting outranks it. */
  ghost predicate Woken(s: System, p: Priorities, mutex: Mutex, u: nat) {
    u in p && u in s.tasks && s.tasks[u].doing.Trying? && AtMost(p, mutex.waiters, p[u])
  }

  /** While the mutex is free and tasks still wait, one that was woken is about to run, and until
      it does no task of lower priority that may take the mutex runs. */
  ghost predicate Handed(s: System, p: Priorities, mutex: Mutex) {
    mutex.holder == None && mutex.waiters != [] ==>
      && (s.yielding || (s.current in p ==> AtMost(p, mutex.waiters, p[s.current])))
      && exists u :: Woken(s, p, mutex, u)
  }

  ghost predicate Fair(s: System, users: set<nat>, m: nat) {
    && m in s.mutexes
    && Bounded(Priority(s, users), s.mutexes[m]) && Falls(Priority(s, users), s.mutexes[m].waiters, s.mutexes[m].holder)
    && Handed(s, Priority(s, users), s.mutexes[m])
  }

  predicate Busy(task: Task) {
    !task.doing.Working? && !task.doing.Sleeping?
  }

  /** The tasks that take `m` are busy with no other mutex, and no other tasks are busy with it. */
  ghost predicate BusyApart(s: System, users: set<nat>, m: nat) {
    forall t :: t in s.tasks && Busy(s.tasks[t]) ==> (t in users <==> s.tasks[t].doing.mutex == m)
  }

  /** They hold no other mutex. */
  ghost predicate HeldApart(s: System, users: set<nat>, m: nat) {
    forall n :: n in s.mutexes && n != m && s.mutexes[n].holder.Some? ==> s.mutexes[n].holder.value !in users
  }

  ghost predicate Ruled(s: System, users: set<nat>, m: nat) {
    BusyApart(s, users, m) && HeldApart(s, users, m) && Fair(s, users, m)
  }

  lemma {:induction false} RuledParts(s: System, users: set<nat>, m: nat)
    ensures Ruled(s, users, m) <==> BusyApart(s, users, m) && HeldApart(s, users, m) && Fair(s, users, m)
  {
    hide BusyApart, HeldApart, Fair;
  }

  /** A mutex that is not `m` is held by none of the tasks in question. */
  lemma {:induction false} OtherHolder(s: System, users: set<nat>, m: nat, n: nat)
    requires Ruled(s, users, m) && n in s.mutexes && n != m && s.mutexes[n].holder.Some?
    ensures s.mutexes[n].holder.value !in users
  {
    hide Fair, BusyApart;
  }

  /** A task that is busy with another mutex is none of them. */
  lemma {:induction false} OtherBusy(s: System, users: set<nat>, m: nat, t: nat)
    requires Ruled(s, users, m) && t in s.tasks && Busy(s.tasks[t])
    ensures t in users <==> s.tasks[t].doing.mutex == m
  {
    hide Fair, HeldApart;
  }

  lemma {:induction false} FairParts(s: System, users: set<nat>, m: nat)
    ensures Fair(s, users, m) <==> (&& m in s.mutexes
                                  && Bounded(Priority(s, users), s.mutexes[m])
                                  && Falls(Priority(s, users), s.mutexes[m].waiters, s.mutexes[m].holder)
                                  && Handed(s, Priority(s, users), s.mutexes[m]))
  {
    hide Bounded, Falls, Handed, Priority;
  }

  /** The holder of a mutex is one that may take it. */
  lemma {:induction false} HolderUses(s: System, users: set<nat>, m: nat, h: nat)
    requires Fair(s, users, m) && m in s.mutexes && s.mutexes[m].holder == Some(h)
    ensures h in users
  {
    hide Falls, Handed, AtMost;
  }

  /** A task that takes `m` holds nothing else, and runs above its base priority only while it holds
      `m`. */
  lemma {:induction false} OnlyHolder(s: System, users: set<nat>, m: nat, t: nat)
    requires Kept(s) && Ruled(s, users, m) && m in s.mutexes && t in s.tasks && t in users
    ensures s.tasks[t].held == if s.mutexes[m].holder == Some(t) then 1 else 0
    ensures s.mutexes[m].holder != Some(t) ==> s.tasks[t].prio == s.tasks[t].base
  {
    assert Accounted(s, t);
    hide Fair;
    forall n | n in Holding(s, t)
      ensures n == m
    {
      if n != m {
        OtherHolder(s, users, m, n);
      }
    }
    if s.mutexes[m].holder == Some(t) {
      assert Holding(s, t) == {m};
    } else {
      assert Holding(s, t) == {};
    }
  }

  // ----- Steps that leave the mutex alone -----

  /** A step that leaves `m` alone, and the priorities of the tasks that may take it. */
  ghost predicate Unmoved(s: System, a: System, users: set<nat>, m: nat)
    requires m in s.mutexes
  {
    && m in a.mutexes && a.mutexes[m] == s.mutexes[m] && a.current == s.current && (s.yielding ==> a.yielding)
    && Priority(a, users) == Priority(s, users)
    && (s.mutexes[m].holder == None ==>
          forall t :: t in s.tasks && t in users && s.tasks[t].doing.Trying? ==>
              t in a.tasks && a.tasks[t].doing == s.tasks[t].doing)
  }

  lemma {:induction false} UnmovedIsFair(s: System, a: System, users: set<nat>, m: nat)
    requires Fair(s, users, m) && Unmoved(s, a, users, m)
    ensures Fair(a, users, m)
  {
    hide AtMost, Falls, Bounded;
    var p := Priority(s, users);
    if s.mutexes[m].holder == None && s.mutexes[m].waiters != [] {
      var u :| Woken(s, p, s.mutexes[m], u);
      assert Woken(a, p, s.mutexes[m], u);
    }
  }

  lemma {:induction false} SetPriority(s: System, users: set<nat>, m: nat, t: nat, task: Task)
    requires t in s.tasks
    ensures Priority(s.Set(t, task), users) == if t in users then Priority(s, users)[t := task.prio]
            else Priority(s, users)
  {
  }

  lemma {:induction false} SameTasksSamePriority(s: System, a: System, users: set<nat>, m: nat)
    requires a.tasks == s.tasks
    ensures Priority(a, users) == Priority(s, users)
  {
  }

  lemma {:induction false} PriorityOf(s: System, users: set<nat>, m: nat, t: nat)
    requires t in s.tasks && t in users
    ensures t in Priority(s, users) && Priority(s, users)[t] == s.tasks[t].prio
    ensures Priority(s, users)[t := s.tasks[t].prio] == Priority(s, users)
  {
  }

  /** A change of a task that may not take `m`. */
  lemma {:induction false} OtherTask(s: System, users: set<nat>, m: nat, t: nat, task: Task)
    requires Fair(s, users, m) && t in s.tasks && t !in users
    ensures Fair(s.Set(t, task), users, m)
  {
    FairMutex(s, users, m);
    SetPriority(s, users, m, t, task);
    hide Fair, Priority;
    UnmovedIsFair(s, s.Set(t, task), users, m);
  }

  /** A change of another mutex. */
  lemma {:induction false} OtherMutex(s: System, users: set<nat>, m: nat, n: nat, mutex: Mutex)
    requires Fair(s, users, m) && n != m
    ensures Fair(s.SetMutex(n, mutex), users, m)
  {
    FairMutex(s, users, m);
    SameTasksSamePriority(s, s.SetMutex(n, mutex), users, m);
    hide Fair, Priority;
    UnmovedIsFair(s, s.SetMutex(n, mutex), users, m);
  }

  lemma {:induction false} YieldIsFair(s: System, users: set<nat>, m: nat, yielding: bool)
    requires Fair(s, users, m) && (s.yielding ==> yielding)
    ensures Fair(s.(yielding := yielding), users, m)
  {
    FairMutex(s, users, m);
    SameTasksSamePriority(s, s.(yielding := yielding), users, m);
    hide Fair, Priority;
    UnmovedIsFair(s, s.(yielding := yielding), users, m);
  }

  lemma {:induction false} FairMutex(s: System, users: set<nat>, m: nat)
    requires Fair(s, users, m)
    ensures m in s.mutexes
  {
  }

  /** A task going on in its code. */
  lemma {:induction false} GoesOn(s: System, users: set<nat>, m: nat, task: Task)
    requires Fair(s, users, m) && s.current in s.tasks && task.prio == s.Now().prio
    requires m in s.mutexes && s.mutexes[m].holder == None && s.current in users ==> !s.Now().doing.Trying?
    ensures Fair(s.Set(s.current, task), users, m)
  {
    FairMutex(s, users, m);
    SetPriority(s, users, m, s.current, task);
    if s.current in users {
      PriorityOf(s, users, m, s.current);
    }
    hide Fair, Priority;
    UnmovedIsFair(s, s.Set(s.current, task), users, m);
  }

  lemma {:induction false} DoIsFair(s: System, users: set<nat>, m: nat, doing: Doing)
    requires Fair(s, users, m) && s.current in s.tasks
    requires m in s.mutexes && s.mutexes[m].holder == None && s.current in users ==> !s.Now().doing.Trying?
    ensures Fair(s.Do(doing), users, m)
  {
    hide Fair;
    GoesOn(s, users, m, s.Now().(doing := doing));
  }

  // ----- Taking -----

  /** Taking a free mutex: whoever runs is entitled to it. */
  lemma {:induction false} TakeIsFair(s: System, users: set<nat>, m: nat)
    requires Kept(s) && Fair(s, users, m) && Enabled(s, Try) && s.Now().doing.mutex == m && s.current in users
    requires s.mutexes[m].count > 0
    ensures Fair(AfterTry(s), users, m)
  {
    assert KnownMutex(s, s.current);
    Account(s, s.current, m);
    FairParts(s, users, m);
    PriorityOf(s, users, m, s.current);
    var a, p, q := AfterTry(s), Priority(s, users), s.mutexes[m].waiters;
    var taker := s.Now().(held := s.Now().held + 1, doing := Working);
    SetPriority(s, users, m, s.current, taker);
    SameTasksSamePriority(s.Set(s.current, taker), a, users, m);
    hide Kept, AtMost, Falls, Sane, Fair, Priority;
    if q == [] {
      NobodyAbove(p, s.Now().prio);
    }
    SameFalls(p, q, s.current);
    BoundedBy(p, a.mutexes[m]);
    HeldIsHanded(a, p, a.mutexes[m]);
    FairParts(a, users, m);
  }

  lemma {:induction false} NobodyAbove(p: Priorities, top: nat)
    ensures AtMost(p, [], top)
  {
  }

  lemma {:induction false} SameFalls(p: Priorities, q: seq<nat>, h: nat)
    requires Falls(p, q, None)
    ensures Falls(p, q, Some(h))
  {
  }

  lemma {:induction false} BoundedBy(p: Priorities, mutex: Mutex)
    requires mutex.holder.Some? && mutex.holder.value in p && AtMost(p, mutex.waiters, p[mutex.holder.value])
    ensures Bounded(p, mutex)
  {
    hide AtMost;
  }

  lemma {:induction false} BoundOf(p: Priorities, mutex: Mutex)
    requires mutex.holder.Some? && Bounded(p, mutex)
    ensures mutex.holder.value in p && AtMost(p, mutex.waiters, p[mutex.holder.value])
  {
    hide AtMost;
  }

  lemma {:induction false} HeldIsHanded(s: System, p: Priorities, mutex: Mutex)
    requires mutex.holder.Some?
    ensures Handed(s, p, mutex)
  {
  }

  // ----- Blocking -----

  /** What a held mutex and its holder look like. */
  lemma {:induction false} HeldParts(s: System, users: set<nat>, m: nat)
    requires Kept(s) && Fair(s, users, m) && m in s.mutexes && s.mutexes[m].count == 0
    ensures s.mutexes[m].holder.Some? && s.mutexes[m].holder.value in s.tasks && s.current in s.tasks
    ensures s.mutexes[m].holder.value in users && forall w :: w in s.mutexes[m].waiters ==> w in s.tasks
  {
    Account(s, s.current, m);
    hide Falls, Handed, Listed, Accounted, AtMost;
  }

  /** A raised holder bounds the task that raised it, too. */
  lemma {:induction false} InheritIsFair(s: System, users: set<nat>, m: nat)
    requires Kept(s) && Fair(s, users, m) && m in s.mutexes && s.mutexes[m].count == 0 && s.current in users
    ensures Fair(Inherit(s, m), users, m)
    ensures var i := Inherit(s, m);
            && i.mutexes == s.mutexes && i.current == s.current && s.mutexes[m].holder.Some?
            && s.mutexes[m].holder.value in i.tasks && s.current in i.tasks
            && i.tasks[s.mutexes[m].holder.value].prio >= i.Now().prio
  {
    HeldParts(s, users, m);
    FairParts(s, users, m);
    var h, i, p := s.mutexes[m].holder.value, Inherit(s, m), Priority(s, users);
    PriorityOf(s, users, m, h);
    PriorityOf(s, users, m, s.current);
    hide Kept, Fair, Bounded, Falls, Handed, Priority;
    BoundOf(p, s.mutexes[m]);
    if p[h] < p[s.current] {
      SetPriority(s, users, m, h, s.tasks[h].At(p[s.current]));
      RaiseFalls(p, s.mutexes[m].waiters, h, p[s.current]);
      RaiseAtMost(p, s.mutexes[m].waiters, h, p[s.current]);
      BoundedBy(p[h := p[s.current]], s.mutexes[m]);
      HeldIsHanded(i, p[h := p[s.current]], s.mutexes[m]);
    }
    FairParts(i, users, m);
  }

  lemma {:induction false} RaiseAtMost(p: Priorities, q: seq<nat>, h: nat, to: nat)
    requires h in p && AtMost(p, q, p[h]) && p[h] <= to
    ensures AtMost(p[h := to], q, to)
  {
  }

  /** Joining the list by list item keeps it in order. */
  lemma {:induction false} JoinIsFair(i: System, users: set<nat>, m: nat, task: Task)
    requires Kept(i) && Fair(i, users, m) && m in i.mutexes && i.current in users
    requires i.mutexes[m].holder.Some? && i.mutexes[m].holder.value in i.tasks && i.current in i.tasks
    requires i.tasks[i.mutexes[m].holder.value].prio >= i.Now().prio
    requires task == i.Now().(doing := Waiting(m), inherited := task.inherited)
    requires forall w :: w in i.mutexes[m].waiters ==> w in i.tasks
    ensures var q := Joined(i.tasks[i.current := task], i.mutexes[m].waiters, i.current);
            Fair(i.Set(i.current, task).SetMutex(m, i.mutexes[m].(waiters := q)).(yielding := true), users, m)
  {
    HolderUses(i, users, m, i.mutexes[m].holder.value);
    PriorityOf(i, users, m, i.mutexes[m].holder.value);
    PlacedByPriority(i, users, m, task);
    FairParts(i, users, m);
    PriorityOf(i, users, m, i.current);
    hide *;
    var tasks, q, c, p := i.tasks[i.current := task], i.mutexes[m].waiters, i.current, Priority(i, users);
    var at, h := Place(tasks, q, task.item), i.mutexes[m].holder;
    var mutex := i.mutexes[m].(waiters := Joined(tasks, q, c));
    JoinedAt(tasks, q, c);
    SetPriority(i, users, m, c, task);
    BoundOf(p, i.mutexes[m]);
    JoinFalls(p, q, h, c, at);
    JoinAtMost(p, q, c, at, p[h.value]);
    BoundedBy(p, mutex);
    JoinedSystem(i, users, c, task, m, mutex, p);
  }

  lemma {:induction false} JoinedAt(tasks: map<nat, Task>, q: seq<nat>, c: nat)
    requires c in tasks && forall w :: w in q ==> w in tasks
    ensures var at := Place(tasks, q, tasks[c].item); Joined(tasks, q, c) == q[..at] + [c] + q[at..]
  {
    hide Place;
  }

  lemma {:induction false} JoinedSystem(i: System, users: set<nat>, c: nat, task: Task, m: nat, mutex: Mutex,
                                        p: Priorities)
    requires Priority(i.Set(c, task), users) == p && mutex.holder.Some?
    requires Bounded(p, mutex) && Falls(p, mutex.waiters, mutex.holder)
    ensures Fair(i.Set(c, task).SetMutex(m, mutex).(yielding := true), users, m)
  {
    var a := i.Set(c, task).SetMutex(m, mutex).(yielding := true);
    SameTasksSamePriority(i.Set(c, task), a, users, m);
    hide Bounded, Falls, Handed, Priority;
    HeldIsHanded(a, p, mutex);
  }

  /** Where the list is cut for the new item, in terms of priorities. */
  lemma {:induction false} PlacedByPriority(i: System, users: set<nat>, m: nat, task: Task)
    requires Kept(i) && Fair(i, users, m) && m in i.mutexes && i.current in users
    requires i.mutexes[m].holder.Some? && i.mutexes[m].holder.value in i.tasks && i.current in i.tasks
    requires i.tasks[i.mutexes[m].holder.value].prio >= i.Now().prio
    requires task == i.Now().(doing := Waiting(m), inherited := task.inherited)
    requires forall w :: w in i.mutexes[m].waiters ==> w in i.tasks
    ensures var q, p, at := i.mutexes[m].waiters, Priority(i, users),
            Place(i.tasks[i.current := task], i.mutexes[m].waiters, task.item);
            && i.current in p
            && (forall k :: 0 <= k < |q| ==> q[k] in p)
            && (forall k :: 0 <= k < at ==> p[q[k]] >= p[i.current])
            && (at < |q| ==> p[q[at]] < p[i.current] && i.mutexes[m].holder != Some(q[at]))
  {
    ItemsShowPriorities(i, m);
    Account(i, i.current, m);
    FairParts(i, users, m);
    hide Kept, Fair, Place, Bounded, Handed;
    var tasks, q := i.tasks[i.current := task], i.mutexes[m].waiters;
    assert forall k :: 0 <= k < |q| ==> tasks[q[k]].item == i.tasks[q[k]].item;
  }

  lemma {:induction false} JoinAtMost(p: Priorities, q: seq<nat>, t: nat, at: nat, top: nat)
    requires AtMost(p, q, top) && t in p && p[t] <= top && at <= |q|
    ensures AtMost(p, q[..at] + [t] + q[at..], top)
  {
    var rest := q[..at] + [t] + q[at..];
    assert forall k :: 0 <= k < |rest| ==> rest[k] == if k < at then q[k] else if k == at then t else q[k - 1];
  }

  lemma {:induction false} ItemsShowPriorities(s: System, m: nat)
    requires Kept(s) && m in s.mutexes
    ensures forall k :: 0 <= k < |s.mutexes[m].waiters| ==>
              var w := s.mutexes[m].waiters[k];
              w in s.tasks && s.tasks[w].item == MAX_PRIORITIES - s.tasks[w].prio && s.tasks[w].prio < MAX_PRIORITIES
  {
    forall k | 0 <= k < |s.mutexes[m].waiters|
      ensures var w := s.mutexes[m].waiters[k];
              w in s.tasks && s.tasks[w].item == MAX_PRIORITIES - s.tasks[w].prio && s.tasks[w].prio < MAX_PRIORITIES
    {
      assert KnownTasks(s, m);
      assert Accounted(s, s.mutexes[m].waiters[k]);
    }
  }

  lemma {:induction false} BlockIsFair(s: System, users: set<nat>, m: nat)
    requires Kept(s) && Fair(s, users, m) && m in s.mutexes && s.mutexes[m].count == 0 && !s.Now().doing.Waiting?
    requires s.current in users
    ensures Fair(AfterBlock(s, m), users, m)
  {
    var i := Inherit(s, m);
    InheritKeeps(s, m);
    InheritShape(s, m);
    InheritIsFair(s, users, m);
    hide Kept, Inherit, Joined, Fair;
    var task := i.Now().(doing := Waiting(m), inherited := Inherits(s, m));
    Blocking(i, task, m);
    JoinIsFair(i, users, m, task);
  }

  /** Blocking on another mutex raises only tasks that may take that one. */
  lemma {:induction false} BlockElsewhere(s: System, users: set<nat>, m: nat, n: nat)
    requires Kept(s) && Ruled(s, users, m) && m in s.mutexes && n in s.mutexes && m != n && s.current !in users
    requires s.mutexes[n].count == 0 && !s.Now().doing.Waiting?
    ensures Fair(AfterBlock(s, n), users, m)
  {
    HeldElsewhere(s, users, m, n);
    InheritShape(s, n);
    var h, i := s.mutexes[n].holder.value, Inherit(s, n);
    RuledParts(s, users, m);
    hide Kept, Ruled, Fair, BusyApart, HeldApart, Joined, Sane;
    if i != s {
      OtherTask(s, users, m, h, s.tasks[h].At(s.Now().prio));
    }
    var task := i.Now().(doing := Waiting(n), inherited := Inherits(s, n));
    OtherTask(i, users, m, s.current, task);
    var b := i.Set(s.current, task);
    var mutex := b.mutexes[n].(waiters := Joined(b.tasks, b.mutexes[n].waiters, s.current));
    OtherMutex(b, users, m, n, mutex);
    YieldIsFair(b.SetMutex(n, mutex), users, m, true);
  }

  /** What another held mutex looks like. */
  lemma {:induction false} HeldElsewhere(s: System, users: set<nat>, m: nat, n: nat)
    requires Kept(s) && Ruled(s, users, m) && n in s.mutexes && n != m && s.mutexes[n].count == 0
    ensures s.mutexes[n].holder.Some? && s.mutexes[n].holder.value in s.tasks && s.current in s.tasks
    ensures s.mutexes[n].holder.value !in users && forall w :: w in s.mutexes[n].waiters ==> w in s.tasks
  {
    Account(s, s.current, n);
    hide Ruled, Listed, Accounted;
    OtherHolder(s, users, m, n);
  }

  // ----- Giving -----

  /** Giving: the first waiter is the highest, and it or the giver is at least as high as the rest. */
  lemma {:induction false} GiveIsFair(s: System, users: set<nat>, m: nat)
    requires Kept(s) && Fair(s, users, m) && Enabled(s, Give(m))
    ensures Fair(AfterGive(s, m), users, m)
  {
    GiveParts(s, users, m);
    FairParts(s, users, m);
    var q, a, p, c := s.mutexes[m].waiters, AfterGive(s, m), Priority(s, users), s.current;
    var giver := Disinherited(s.Now());
    hide Kept, Fair, Enabled, Bounded, Falls, Priority, AtMost;
    if q == [] {
      FreeAndAlone(a, users, m);
    } else {
      var w := q[0];
      assert m in a.mutexes && a.mutexes[m].waiters == q[1..] && a.mutexes[m].holder == None;
      assert a.tasks == s.tasks[c := giver][w := s.tasks[w].(doing := Trying(m, true))];
      GivenPriority(s, a, users, m, giver, w, Trying(m, true));
      GiverIsNotWaiting(p, q, c, giver.prio);
      var after := Priority(a, users);
      if !a.yielding {
        AtMostMore(after, q[1..], p[w], giver.prio);
      }
      WokenBy(a, after, a.mutexes[m], w);
      FreeIsBounded(after, a.mutexes[m]);
      FairParts(a, users, m);
    }
  }

  lemma {:induction false} FreeIsBounded(p: Priorities, mutex: Mutex)
    requires mutex.holder == None
    ensures Bounded(p, mutex)
  {
  }

  lemma {:induction false} WokenBy(s: System, p: Priorities, mutex: Mutex, u: nat)
    requires u in p && u in s.tasks && s.tasks[u].doing.Trying? && AtMost(p, mutex.waiters, p[u])
    requires s.yielding || (s.current in p ==> AtMost(p, mutex.waiters, p[s.current]))
    ensures Handed(s, p, mutex)
  {
    hide AtMost;
    assert Woken(s, p, mutex, u);
  }

  lemma {:induction false} GivenPriority(s: System, a: System, users: set<nat>, m: nat, giver: Task, w: nat,
                                         doing: Doing)
    requires s.current in s.tasks && w in s.tasks && w != s.current && s.current in users
    requires a.tasks == s.tasks[s.current := giver][w := s.tasks[w].(doing := doing)]
    ensures Priority(a, users) == Priority(s, users)[s.current := giver.prio]
  {
  }

  /** The giver is not in its own list, and the list is as the accounts say. */
  lemma {:induction false} GiveParts(s: System, users: set<nat>, m: nat)
    requires Kept(s) && Fair(s, users, m) && Enabled(s, Give(m))
    ensures m in s.mutexes && s.current in s.tasks && s.Now().held > 0 && s.mutexes[m].holder == Some(s.current)
    ensures s.current in users && s.current in Priority(s, users) && !s.yielding
    ensures forall k :: 0 <= k < |s.mutexes[m].waiters| ==>
              var w := s.mutexes[m].waiters[k];
              w in s.tasks && w != s.current && w in Priority(s, users) && Priority(s, users)[w] == s.tasks[w].prio
  {
    HolderUses(s, users, m, s.current);
    PriorityOf(s, users, m, s.current);
    FairParts(s, users, m);
    hide Fair, Accounted, Bounded, Handed;
    Account(s, s.current, m);
    forall k | 0 <= k < |s.mutexes[m].waiters|
      ensures var w := s.mutexes[m].waiters[k];
              w in s.tasks && w != s.current && w in Priority(s, users) && Priority(s, users)[w] == s.tasks[w].prio
    {
      assert s.mutexes[m].waiters[k] in s.mutexes[m].waiters;
    }
  }

  lemma {:induction false} AtMostMore(p: Priorities, q: seq<nat>, top: nat, more: nat)
    requires AtMost(p, q, top) && top <= more
    ensures AtMost(p, q, more)
  {
  }

  lemma {:induction false} FreeAndAlone(a: System, users: set<nat>, m: nat)
    requires m in a.mutexes && a.mutexes[m].holder == None && a.mutexes[m].waiters == []
    ensures Fair(a, users, m)
  {
  }

  lemma {:induction false} GiverIsNotWaiting(p: Priorities, q: seq<nat>, g: nat, to: nat)
    requires Falls(p, q, Some(g)) && q != [] && forall k :: 0 <= k < |q| ==> q[k] != g
    ensures Falls(p[g := to], q[1..], None) && AtMost(p[g := to], q[1..], p[q[0]])
  {
  }

  /** A mutex being freed by the current task, elsewhere. */
  lemma {:induction false} FreedElsewhere(s: System, users: set<nat>, m: nat, n: nat, giver: Task, mutex: Mutex)
    requires Fair(s, users, m) && n != m && s.current in s.tasks && s.current !in users
    ensures Fair(s.Set(s.current, giver).SetMutex(n, mutex), users, m)
  {
    hide Fair;
    OtherTask(s, users, m, s.current, giver);
    OtherMutex(s.Set(s.current, giver), users, m, n, mutex);
  }

  /** A waiter being woken elsewhere. */
  lemma {:induction false} WokenElsewhere(g: System, users: set<nat>, m: nat, n: nat, w: nat, rest: Mutex,
                                          yielding: bool)
    requires Fair(g, users, m) && n != m && w in g.tasks && w !in users && !g.yielding
    ensures Fair(g.SetMutex(n, rest).Set(w, g.tasks[w].(doing := Trying(n, true))).(yielding := yielding), users, m)
  {
    hide Fair;
    OtherMutex(g, users, m, n, rest);
    OtherTask(g.SetMutex(n, rest), users, m, w, g.tasks[w].(doing := Trying(n, true)));
    YieldIsFair(g.SetMutex(n, rest).Set(w, g.tasks[w].(doing := Trying(n, true))), users, m, yielding);
  }

  lemma {:induction false} GivesFrom(s: System, users: set<nat>, m: nat, n: nat)
    requires Kept(s) && Ruled(s, users, m) && n != m && Enabled(s, Give(n))
    ensures n in s.mutexes && s.current in s.tasks && !s.yielding && s.current !in users && s.Now().held > 0
    ensures s.mutexes[n].holder == Some(s.current)
    ensures s.mutexes[n].waiters != [] ==>
      var w := s.mutexes[n].waiters[0]; w in s.tasks && w != s.current && w !in users
  {
    GiveFacts(s, n);
    hide Ruled, Accounts;
    OtherHolder(s, users, m, n);
    if s.mutexes[n].waiters != [] {
      var w := s.mutexes[n].waiters[0];
      assert Listed(s, n) && w in s.mutexes[n].waiters;
      OtherBusy(s, users, m, w);
    }
  }

  lemma {:induction false} GiveFacts(s: System, n: nat)
    requires Kept(s) && Enabled(s, Give(n))
    ensures n in s.mutexes && s.current in s.tasks && s.Now().held > 0 && s.mutexes[n].holder == Some(s.current)
    ensures s.mutexes[n].waiters != [] ==>
      var w := s.mutexes[n].waiters[0]; w in s.tasks && w != s.current
  {
    Account(s, s.current, n);
    FirstIsMember(s.mutexes[n].waiters);
    hide Holding, Accounts;
  }

  /** Giving another mutex changes only tasks that may take that one. */
  lemma {:induction false} GiveElsewhere(s: System, users: set<nat>, m: nat, n: nat)
    requires Kept(s) && Ruled(s, users, m) && m != n && Enabled(s, Give(n))
    ensures Fair(AfterGive(s, n), users, m)
  {
    RuledParts(s, users, m);
    hide Kept, Sane, Ruled, Fair, BusyApart, HeldApart, Enabled, Disinherited;
    GivesFrom(s, users, m, n);
    var q, giver := s.mutexes[n].waiters, Disinherited(s.Now());
    var mutex := s.mutexes[n].(count := s.mutexes[n].count + 1, holder := None);
    var g := s.Set(s.current, giver).SetMutex(n, mutex);
    FreedElsewhere(s, users, m, n, giver, mutex);
    if q == [] {
      YieldIsFair(g, users, m, giver.prio != s.Now().prio);
    } else {
      WokenElsewhere(g, users, m, n, q[0], mutex.(waiters := q[1..]), g.tasks[q[0]].prio > giver.prio);
    }
  }

  // ----- Leaving after a timeout -----

  /** Leaving after a timeout: the holder drops to the first waiter's priority at the least. */
  lemma {:induction false} DisinheritIsFair(s: System, users: set<nat>, m: nat)
    requires Kept(s) && Ruled(s, users, m) && m in s.mutexes
    ensures KnownTasks(s, m) && (s.mutexes[m].holder.Some? ==> s.mutexes[m].holder.value in s.tasks)
    ensures Fair(DisinheritAfterTimeout(s, m), users, m)
  {
    RuledParts(s, users, m);
    FairParts(s, users, m);
    HighestIsPriority(s, m);
    var d, p, q := DisinheritAfterTimeout(s, m), Priority(s, users), s.mutexes[m].waiters;
    if s.mutexes[m].holder.Some? && d != s {
      var h := s.mutexes[m].holder.value;
      HolderUses(s, users, m, h);
      OnlyHolder(s, users, m, h);
      PriorityOf(s, users, m, h);
      assert q != [] ==> q[0] in p && p[q[0]] == s.tasks[q[0]].prio by { FirstKnown(p, q, s.mutexes[m].holder); }
      hide Kept, Fair, Ruled, BusyApart, HeldApart, HighestWaiting, Falls, AtMost, Bounded, Priority;
      var to := d.tasks[h].prio;
      BoundOf(p, s.mutexes[m]);
      SetPriority(s, users, m, h, d.tasks[h]);
      RaiseFalls(p, q, h, to);
      LoweredAtMost(p, q, h, to);
      BoundedBy(p[h := to], s.mutexes[m]);
      HeldIsHanded(d, p[h := to], s.mutexes[m]);
      FairParts(d, users, m);
    }
  }

  lemma {:induction false} FirstKnown(p: Priorities, q: seq<nat>, h: Option<nat>)
    requires Falls(p, q, h)
    ensures q != [] ==> q[0] in p
  {
  }

  /** If the holder itself is first in the list its own item keeps it where it is; else the first
      is the highest of the others. */
  lemma {:induction false} LoweredAtMost(p: Priorities, q: seq<nat>, h: nat, to: nat)
    requires Falls(p, q, Some(h)) && h in p && AtMost(p, q, p[h])
    requires q != [] ==> to >= p[q[0]]
    ensures AtMost(p[h := to], q, to)
  {
  }

  lemma {:induction false} DisinheritElsewhere(s: System, users: set<nat>, m: nat, n: nat)
    requires Kept(s) && Ruled(s, users, m) && m in s.mutexes && n in s.mutexes && m != n
    ensures KnownTasks(s, n) && (s.mutexes[n].holder.Some? ==> s.mutexes[n].holder.value in s.tasks)
    ensures Fair(DisinheritAfterTimeout(s, n), users, m)
  {
    RuledParts(s, users, m);
    HighestIsPriority(s, n);
    var d := DisinheritAfterTimeout(s, n);
    hide Ruled, Fair, BusyApart, HeldApart, HighestWaiting;
    assert KnownTasks(s, n);
    if s.mutexes[n].holder.Some? && d != s {
      var h := s.mutexes[n].holder.value;
      OtherHolder(s, users, m, n);
      OtherTask(s, users, m, h, d.tasks[h]);
    }
  }

  lemma {:induction false} LeaveIsFair(s: System, users: set<nat>, m: nat)
    requires Kept(s) && Ruled(s, users, m) && Enabled(s, Leave) && m in s.mutexes
    ensures Fair(AfterLeave(s), users, m)
  {
    CurrentMutex(s, users, m);
    RuledParts(s, users, m);
    var n := s.Now().doing.mutex;
    if n == m {
      DisinheritIsFair(s, users, m);
    } else {
      DisinheritElsewhere(s, users, m, n);
    }
    var d := if s.Now().inherited then DisinheritAfterTimeout(s, n) else s;
    DisinheritShape(s, n);
    hide Kept, Fair, Ruled, BusyApart, HeldApart, DisinheritAfterTimeout, Enabled;
    DoIsFair(d, users, m, Working);
  }

  lemma {:induction false} DisinheritShape(s: System, n: nat)
    requires n in s.mutexes && KnownTasks(s, n) && s.current in s.tasks
    ensures var d := DisinheritAfterTimeout(s, n);
      && d.mutexes == s.mutexes && d.current == s.current && d.yielding == s.yielding && d.tasks.Keys == s.tasks.Keys
      && forall t :: t in s.tasks ==> d.tasks[t].doing == s.tasks[t].doing
  {
    hide HighestWaiting;
  }

  /** The current task, when it is busy with a mutex. */
  lemma {:induction false} CurrentMutex(s: System, users: set<nat>, m: nat)
    requires Kept(s) && Ruled(s, users, m) && Busy(s.Now())
    ensures s.Now().doing.mutex in s.mutexes && (s.current in users <==> s.Now().doing.mutex == m)
  {
    assert KnownMutex(s, s.current);
    hide Ruled;
    OtherBusy(s, users, m, s.current);
  }

  // ----- Waking and switching -----

  lemma {:induction false} WakeParts(s: System, t: nat)
    requires Kept(s) && Enabled(s, Wake(t))
    ensures t in s.tasks && !s.tasks[t].Ready() && Sane(s) && s.current in s.tasks
  {
    hide Accounts, Queued;
  }

  lemma {:induction false} WakeShape(s: System, t: nat)
    requires Sane(s) && t in s.tasks && !s.tasks[t].Ready()
    ensures var a := AfterWake(s, t);
            && t in a.tasks && a.tasks == s.tasks[t := a.tasks[t]] && a.tasks[t].prio == s.tasks[t].prio
            && a.current == s.current && (s.yielding ==> a.yielding)
            && (s.tasks[t].doing.Waiting? ==> s.tasks[t].doing.mutex in s.mutexes)
            && a.mutexes == if s.tasks[t].doing.Waiting?
                            then var k := s.tasks[t].doing.mutex; s.mutexes[k :=
                                s.mutexes[k].(waiters := Without(s.mutexes[k].waiters, t))]
                            else s.mutexes
  {
    assert KnownMutex(s, t);
    hide Sane, Without;
  }

  lemma {:induction false} WakeIsFair(s: System, users: set<nat>, m: nat, t: nat)
    requires Kept(s) && Ruled(s, users, m) && Enabled(s, Wake(t)) && m in s.mutexes
    ensures Fair(AfterWake(s, t), users, m)
  {
    hide *;
    RuledParts(s, users, m);
    WakeParts(s, t);
    WakeShape(s, t);
    ReadyOrNot(s.tasks[t]);
    var a := AfterWake(s, t);
    SamePriority(s, a, users, m, t);
    if s.tasks[t].doing.Waiting? && s.tasks[t].doing.mutex == m {
      WakeFromList(s, a, users, m, t);
    } else {
      WakeSleeper(s, a, users, m, t);
    }
  }

  lemma {:induction false} ReadyOrNot(task: Task)
    ensures task.Ready() <==> !task.doing.Sleeping? && !task.doing.Waiting?
  {
  }

  lemma {:induction false} WakeSleeper(s: System, a: System, users: set<nat>, m: nat, t: nat)
    requires Fair(s, users, m) && m in s.mutexes && Priority(a, users) == Priority(s, users) && t in s.tasks
             && !s.tasks[t].doing.Trying?
    requires t in a.tasks && a.tasks == s.tasks[t := a.tasks[t]] && a.current == s.current
             && (s.yielding ==> a.yielding)
    requires m in a.mutexes && a.mutexes[m] == s.mutexes[m]
    ensures Fair(a, users, m)
  {
    hide Fair, Priority;
    UnmovedIsFair(s, a, users, m);
  }

  lemma {:induction false} SamePriority(s: System, a: System, users: set<nat>, m: nat, t: nat)
    requires t in s.tasks && t in a.tasks && a.tasks == s.tasks[t := a.tasks[t]] && a.tasks[t].prio == s.tasks[t].prio
    ensures Priority(a, users) == Priority(s, users)
  {
  }

  lemma {:induction false} WakeFromList(s: System, a: System, users: set<nat>, m: nat, t: nat)
    requires Fair(s, users, m) && m in s.mutexes && Priority(a, users) == Priority(s, users) && t in s.tasks
             && !s.tasks[t].doing.Trying?
    requires a.current == s.current && (s.yielding ==> a.yielding)
    requires a.mutexes == s.mutexes[m := s.mutexes[m].(waiters := Without(s.mutexes[m].waiters, t))]
    requires t in a.tasks && a.tasks == s.tasks[t := a.tasks[t]]
    ensures Fair(a, users, m)
  {
    FairParts(s, users, m);
    var p, q, mutex := Priority(s, users), s.mutexes[m].waiters, a.mutexes[m];
    hide Fair, Falls, Priority, Without, AtMost;
    WithoutFalls(p, q, mutex.holder, t);
    if mutex.holder.Some? {
      WithoutAtMost(p, q, p[mutex.holder.value], t);
    } else if q != [] {
      var u :| Woken(s, p, s.mutexes[m], u);
      WithoutAtMost(p, q, p[u], t);
      if !a.yielding && s.current in p {
        WithoutAtMost(p, q, p[s.current], t);
      }
      WokenBy(a, p, mutex, u);
    } else {
      NobodyIsHanded(a, p, mutex, t);
    }
    FairParts(a, users, m);
  }

  lemma {:induction false} NobodyIsHanded(s: System, p: Priorities, mutex: Mutex, t: nat)
    requires mutex.waiters == Without([], t)
    ensures Handed(s, p, mutex)
  {
  }

  /** The task switched to is at least as high as every woken one. */
  lemma {:induction false} SwitchedTo(s: System, p: Priorities, mutex: Mutex, t: nat)
    requires Handed(s, p, mutex)
    requires forall u :: u in p && u in s.tasks && s.tasks[u].doing.Trying? ==> t in p ==> p[u] <= p[t]
    ensures Handed(s.(current := t, yielding := false), p, mutex)
  {
    hide AtMost;
    if mutex.holder == None && mutex.waiters != [] {
      var u: nat :| Woken(s, p, mutex, u);
      if t in p {
        AtMostMore(p, mutex.waiters, p[u], p[t]);
      }
      assert Woken(s.(current := t, yielding := false), p, mutex, u);
    }
  }

  lemma {:induction false} SwitchRule(s: System, t: nat)
    requires Sane(s) && Enabled(s, Switch(t))
    ensures t in s.tasks && forall u :: u in s.tasks && s.tasks[u].doing.Trying? ==> s.tasks[u].prio <= s.tasks[t].prio
  {
    hide Sane;
  }

  lemma {:induction false} SwitchIsFair(s: System, users: set<nat>, m: nat, t: nat)
    requires Sane(s) && Fair(s, users, m) && Enabled(s, Switch(t))
    ensures Fair(s.(current := t, yielding := false), users, m)
  {
    var a, p := s.(current := t, yielding := false), Priority(s, users);
    SwitchRule(s, t);
    SameTasksSamePriority(s, a, users, m);
    FairParts(s, users, m);
    hide Sane, Enabled, Fair, Bounded, Falls, Handed, AtMost;
    SwitchedTo(s, p, s.mutexes[m], t);
    FairParts(a, users, m);
  }

  // ----- Every step -----

  /** The current task begins a take of `m` if it is one of those that take it, and of another mutex
      if it is not. */
  ghost predicate Follows(s: System, step: Step, users: set<nat>, m: nat) {
    step.Begin? ==> (s.current in users <==> step.mutex == m)
  }

  lemma {:induction false} TriedInVain(s: System, users: set<nat>, m: nat)
    requires Kept(s) && Ruled(s, users, m) && Enabled(s, Try) && s.Now().doing.mutex in s.mutexes
    requires s.mutexes[s.Now().doing.mutex].count == 0
    ensures Fair(AfterTry(s), users, m)
  {
    var n := s.Now().doing.mutex;
    CurrentMutex(s, users, m);
    RuledParts(s, users, m);
    Account(s, s.current, n);
    hide Kept, Sane, Ruled, Fair, BusyApart, HeldApart, Enabled;
    DoIsFair(s, users, m, Deciding(n));
    DoIsFair(s, users, m, Working);
  }

  lemma {:induction false} TakenElsewhere(s: System, users: set<nat>, m: nat, n: nat)
    requires Fair(s, users, m) && m != n && s.current in s.tasks && s.Now().doing.Trying?
    requires s.Now().doing.mutex == n && n in s.mutexes && s.mutexes[n].count > 0 && s.current !in users
    ensures Fair(AfterTry(s), users, m)
  {
    hide Fair;
    var mutex := s.mutexes[n].(count := s.mutexes[n].count - 1, holder := Some(s.current));
    OtherMutex(s, users, m, n, mutex);
    OtherTask(s.SetMutex(n, mutex), users, m, s.current, s.Now().(held := s.Now().held + 1, doing := Working));
  }

  lemma {:induction false} TryIsFair(s: System, users: set<nat>, m: nat)
    requires Kept(s) && Ruled(s, users, m) && Enabled(s, Try) && m in s.mutexes
    ensures Fair(AfterTry(s), users, m)
  {
    CurrentMutex(s, users, m);
    RuledParts(s, users, m);
    var n := s.Now().doing.mutex;
    hide Kept, Sane, Ruled, Fair, BusyApart, HeldApart, AfterTry;
    if s.mutexes[n].count == 0 {
      TriedInVain(s, users, m);
    } else if n == m {
      TakeIsFair(s, users, m);
    } else {
      TakenElsewhere(s, users, m, n);
    }
  }

  lemma {:induction false} DecideIsFair(s: System, users: set<nat>, m: nat, expired: bool)
    requires Kept(s) && Ruled(s, users, m) && Enabled(s, Decide(expired)) && m in s.mutexes
    ensures Fair(AfterDecide(s, expired), users, m)
  {
    CurrentMutex(s, users, m);
    RuledParts(s, users, m);
    var n := s.Now().doing.mutex;
    hide Kept, Sane, Ruled, Fair, BusyApart, HeldApart, AfterBlock;
    if !expired && s.mutexes[n].count == 0 {
      if n == m {
        BlockIsFair(s, users, m);
      } else {
        BlockElsewhere(s, users, m, n);
      }
    } else {
      DoIsFair(s, users, m, if expired then Expired(n) else Trying(n, true));
    }
  }

  lemma {:induction false} RecheckIsFair(s: System, users: set<nat>, m: nat)
    requires Kept(s) && Ruled(s, users, m) && Enabled(s, Recheck) && m in s.mutexes
    ensures Fair(AfterRecheck(s), users, m)
  {
    CurrentMutex(s, users, m);
    RuledParts(s, users, m);
    var n := s.Now().doing.mutex;
    hide Kept, Sane, Ruled, Fair, BusyApart, HeldApart;
    DoIsFair(s, users, m, if s.mutexes[n].count == 0 then Leaving(n) else Trying(n, false));
  }

  lemma {:induction false} GivingIsFair(s: System, users: set<nat>, m: nat, n: nat)
    requires Kept(s) && Ruled(s, users, m) && Enabled(s, Give(n)) && m in s.mutexes
    ensures Fair(AfterGive(s, n), users, m)
  {
    RuledParts(s, users, m);
    hide Kept, Sane, Ruled, Fair, BusyApart, HeldApart, AfterGive, Enabled;
    if n == m {
      GiveIsFair(s, users, m);
    } else {
      GiveElsewhere(s, users, m, n);
    }
  }

  lemma {:induction false} BeginIsFair(s: System, users: set<nat>, m: nat, n: nat, patient: bool)
    requires Sane(s) && Fair(s, users, m) && Enabled(s, Begin(n, patient))
    ensures Fair(After(s, Begin(n, patient)), users, m)
  {
    hide Fair;
    GoesOn(s, users, m, s.Now().(doing := Trying(n, patient), inherited := false));
  }

  lemma {:induction false} SleepIsFair(s: System, users: set<nat>, m: nat)
    requires Sane(s) && Fair(s, users, m) && Enabled(s, Sleep)
    ensures Fair(After(s, Sleep), users, m)
  {
    hide Fair;
    DoIsFair(s, users, m, Sleeping);
    YieldIsFair(s.Do(Sleeping), users, m, true);
  }

  /** Every step keeps the invariant. */
  lemma {:induction false} StepIsFair(s: System, users: set<nat>, m: nat, step: Step)
    requires Kept(s) && Ruled(s, users, m) && Enabled(s, step) && Follows(s, step, users, m) && m in s.mutexes
    ensures Fair(After(s, step), users, m)
  {
    RuledParts(s, users, m);
    hide Sane, Accounts, Queued, Ruled, Fair, BusyApart, HeldApart;
    hide AfterTry, AfterBlock, AfterLeave, AfterGive, AfterWake, AfterDecide, AfterRecheck;
    match step {
      case Begin(n, patient) => BeginIsFair(s, users, m, n, patient);
      case Try => TryIsFair(s, users, m);
      case Decide(expired) => DecideIsFair(s, users, m, expired);
      case Recheck => RecheckIsFair(s, users, m);
      case Leave => LeaveIsFair(s, users, m);
      case Give(n) => GivingIsFair(s, users, m, n);
      case Sleep => SleepIsFair(s, users, m);
      case Wake(t) => WakeIsFair(s, users, m, t);
      case Switch(t) => SwitchIsFair(s, users, m, t);
    }
  }

  /** A step that at most changes what task `t` is busy with. */
  ghost predicate BusyAs(s: System, a: System, t: nat, doing: Doing) {
    && a.mutexes.Keys == s.mutexes.Keys && a.tasks.Keys == s.tasks.Keys
    && forall u :: u in s.tasks ==> a.tasks[u].doing == if u == t then doing else s.tasks[u].doing
  }

  lemma {:induction false} BusyStaysApart(s: System, a: System, users: set<nat>, m: nat, t: nat, doing: Doing)
    requires BusyApart(s, users, m) && BusyAs(s, a, t, doing)
    requires doing.Working? || doing.Sleeping? || (t in users <==> doing.mutex == m)
    ensures BusyApart(a, users, m)
  {
  }

  lemma {:induction false} BlockBusy(s: System, n: nat)
    requires Kept(s) && n in s.mutexes && s.current in s.tasks
    ensures BusyAs(s, AfterBlock(s, n), s.current, Waiting(n))
  {
    InheritShape(s, n);
    BlockedIs(s, n);
    hide *;
    var i := Inherit(s, n);
    BlockedBusy(i, i.Now().(doing := Waiting(n), inherited := Inherits(s, n)), n, AfterBlock(s, n).mutexes[n]);
    AlsoBusy(s, i, AfterBlock(s, n), s.current, Waiting(n));
  }

  /** Blocking, as a change of the current task and of the mutex. */
  lemma {:induction false} BlockedIs(s: System, n: nat)
    requires Kept(s) && n in s.mutexes
    ensures s.current in Inherit(s, n).tasks && n in AfterBlock(s, n).mutexes && Inherit(s, n).current == s.current
    ensures var i := Inherit(s, n);
            var task := i.Now().(doing := Waiting(n), inherited := Inherits(s, n));
            AfterBlock(s, n) == i.Set(i.current, task).SetMutex(n, AfterBlock(s, n).mutexes[n]).(yielding := true)
  {
    InheritShape(s, n);
    hide Accounts, Queued, Joined, Inherit;
  }

  lemma {:induction false} BlockedBusy(i: System, task: Task, n: nat, mutex: Mutex)
    requires i.current in i.tasks && n in i.mutexes
    ensures BusyAs(i, i.Set(i.current, task).SetMutex(n, mutex).(yielding := true), i.current, task.doing)
  {
  }

  lemma {:induction false} LeaveBusy(s: System)
    requires Kept(s) && Enabled(s, Leave)
    ensures BusyAs(s, AfterLeave(s), s.current, Working)
  {
    assert KnownMutex(s, s.current) && KnownTasks(s, s.Now().doing.mutex);
    DisinheritShape(s, s.Now().doing.mutex);
    var d := if s.Now().inherited then DisinheritAfterTimeout(s, s.Now().doing.mutex) else s;
    hide Kept, Sane, DisinheritAfterTimeout, BusyAs;
    SetBusy(d, d.Now().(doing := Working), d.current, d.yielding);
    AlsoBusy(s, d, AfterLeave(s), s.current, Working);
  }

  /** What every task is busy with may be told from an earlier state. */
  lemma {:induction false} AlsoBusy(s: System, d: System, a: System, t: nat, doing: Doing)
    requires d.mutexes.Keys == s.mutexes.Keys && d.tasks.Keys == s.tasks.Keys
    requires forall u :: u in s.tasks ==> d.tasks[u].doing == s.tasks[u].doing
    requires BusyAs(d, a, t, doing)
    ensures BusyAs(s, a, t, doing)
  {
  }

  lemma {:induction false} DisinheritedBusy(task: Task)
    requires task.held > 0
    ensures Disinherited(task).doing == task.doing
  {
  }

  lemma {:induction false} GiveBusy(s: System, n: nat)
    requires Kept(s) && Enabled(s, Give(n))
    ensures var q := s.mutexes[n].waiters;
      if q == [] then BusyAs(s, AfterGive(s, n), s.current, s.Now().doing)
          else BusyAs(s, AfterGive(s, n), q[0], Trying(n, true))
  {
    hide Kept, Sane, Enabled, Disinherited;
    GiveFacts(s, n);
    DisinheritedBusy(s.Now());
  }

  lemma {:induction false} WakeBusy(s: System, t: nat)
    requires Kept(s) && Enabled(s, Wake(t))
    ensures BusyAs(s, AfterWake(s, t), t,
                   if s.tasks[t].doing.Waiting? then Trying(s.tasks[t].doing.mutex, true) else Working)
  {
    WakeShape(s, t);
    hide Kept, Sane, Without;
  }

  lemma {:induction false} TryBusy(s: System) returns (doing: Doing)
    requires Kept(s) && Enabled(s, Try)
    ensures BusyAs(s, AfterTry(s), s.current, doing) && (doing.Working? || doing == Deciding(s.Now().doing.mutex))
  {
    assert KnownMutex(s, s.current);
    hide Kept, Sane;
    doing := AfterTry(s).Now().doing;
  }

  /** The task and the business a step changes. */
  function Mover(s: System, step: Step): nat
    requires Sane(s) && Enabled(s, step)
  {
    match step
    case Wake(t) => t
    case Give(n) => if s.mutexes[n].waiters == [] then s.current else s.mutexes[n].waiters[0]
    case _ => s.current
  }

  lemma {:induction false} KnownNow(s: System)
    requires Kept(s)
    ensures s.current in s.tasks
    ensures !s.Now().doing.Working? && !s.Now().doing.Sleeping? ==> s.Now().doing.mutex in s.mutexes
  {
    assert KnownMutex(s, s.current);
  }

  lemma {:induction false} SetBusy(s: System, task: Task, current: nat, yielding: bool)
    requires s.current in s.tasks
    ensures BusyAs(s, s.Set(s.current, task).(current := current, yielding := yielding), s.current, task.doing)
  {
  }

  lemma {:induction false} SwitchBusy(s: System, t: nat)
    requires s.current in s.tasks
    ensures BusyAs(s, s.(current := t, yielding := false), s.current, s.Now().doing)
  {
  }

  /** Whether a task may come to be busy like this by a step. */
  ghost predicate MayBe(s: System, step: Step, t: nat, doing: Doing) {
    || doing.Working? || doing.Sleeping? || (step.Begin? && t == s.current && doing.mutex == step.mutex)
    || (t in s.tasks && Busy(s.tasks[t]) && s.tasks[t].doing.mutex == doing.mutex)
  }

  lemma {:induction false} DecideBusy(s: System, expired: bool) returns (doing: Doing)
    requires Kept(s) && Enabled(s, Decide(expired))
    ensures BusyAs(s, AfterDecide(s, expired), s.current, doing) && MayBe(s, Decide(expired), s.current, doing)
  {
    KnownNow(s);
    hide Accounts, Queued, AfterBlock, BusyAs;
    var n := s.Now().doing.mutex;
    if !expired && s.mutexes[n].count == 0 {
      doing := Waiting(n);
      BlockBusy(s, n);
    } else {
      doing := if expired then Expired(n) else Trying(n, true);
      SetBusy(s, s.Now().(doing := doing), s.current, s.yielding);
    }
  }

  lemma {:induction false} RecheckBusy(s: System) returns (doing: Doing)
    requires Kept(s) && Enabled(s, Recheck)
    ensures BusyAs(s, AfterRecheck(s), s.current, doing) && MayBe(s, Recheck, s.current, doing)
  {
    KnownNow(s);
    hide Accounts, Queued, BusyAs;
    var n := s.Now().doing.mutex;
    doing := if s.mutexes[n].count == 0 then Leaving(n) else Trying(n, false);
    SetBusy(s, s.Now().(doing := doing), s.current, s.yielding);
  }

  lemma {:induction false} BeginBusy(s: System, n: nat, patient: bool)
    requires Kept(s) && Enabled(s, Begin(n, patient))
    ensures BusyAs(s, After(s, Begin(n, patient)), s.current, Trying(n, patient))
    ensures MayBe(s, Begin(n, patient), s.current, Trying(n, patient))
  {
    hide Accounts, Queued, BusyAs;
    SetBusy(s, s.Now().(doing := Trying(n, patient), inherited := false), s.current, s.yielding);
  }

  lemma {:induction false} SleepBusy(s: System)
    requires Kept(s) && Enabled(s, Sleep)
    ensures BusyAs(s, After(s, Sleep), s.current, Sleeping)
  {
    hide Accounts, Queued, BusyAs;
    SetBusy(s, s.Now().(doing := Sleeping), s.current, true);
  }

  /** The waiter that a give wakes was busy with that mutex. */
  lemma {:induction false} GivenMayBe(s: System, n: nat) returns (doing: Doing)
    requires Kept(s) && Enabled(s, Give(n))
    ensures BusyAs(s, AfterGive(s, n), Mover(s, Give(n)), doing) && MayBe(s, Give(n), Mover(s, Give(n)), doing)
  {
    GiveBusy(s, n);
    GiveFacts(s, n);
    assert Listed(s, n);
    doing := if s.mutexes[n].waiters == [] then Working else Trying(n, true);
    hide Accounts, AfterGive, BusyAs;
  }

  lemma {:induction false} WokenMayBe(s: System, t: nat) returns (doing: Doing)
    requires Kept(s) && Enabled(s, Wake(t))
    ensures BusyAs(s, AfterWake(s, t), t, doing) && MayBe(s, Wake(t), t, doing)
  {
    hide Accounts, Queued, AfterWake, BusyAs;
    WakeBusy(s, t);
    doing := if s.tasks[t].doing.Waiting? then Trying(s.tasks[t].doing.mutex, true) else Working;
  }

  lemma {:induction false} SameMayBe(s: System, step: Step)
    requires s.current in s.tasks
    ensures MayBe(s, step, s.current, s.Now().doing)
    ensures MayBe(s, step, s.current, Working) && MayBe(s, step, s.current, Sleeping)
  {
  }

  lemma {:induction false} TryMayBe(s: System, doing: Doing)
    requires s.current in s.tasks && s.Now().doing.Trying?
    requires doing.Working? || doing == Deciding(s.Now().doing.mutex)
    ensures MayBe(s, Try, s.current, doing)
  {
  }

  lemma {:induction false} Running(s: System, step: Step)
    requires Sane(s) && Enabled(s, step)
    ensures s.current in s.tasks && (step.Try? ==> s.Now().doing.Trying?)
  {
  }

  lemma {:induction false} StepBusy(s: System, step: Step) returns (doing: Doing)
    requires Kept(s) && Enabled(s, step)
    ensures BusyAs(s, After(s, step), Mover(s, step), doing) && MayBe(s, step, Mover(s, step), doing)
  {
    Running(s, step);
    SameMayBe(s, step);
    hide Kept, Sane, Enabled, AfterTry, AfterBlock, AfterLeave, AfterGive, AfterWake, AfterDecide, AfterRecheck,
         BusyAs, MayBe;
    match step {
      case Begin(n, patient) =>
        doing := Trying(n, patient);
        BeginBusy(s, n, patient);
      case Try =>
        doing := TryBusy(s);
        TryMayBe(s, doing);
      case Decide(expired) => doing := DecideBusy(s, expired);
      case Recheck => doing := RecheckBusy(s);
      case Leave =>
        LeaveBusy(s);
        doing := Working;
      case Give(n) => doing := GivenMayBe(s, n);
      case Sleep =>
        doing := Sleeping;
        SleepBusy(s);
      case Wake(t) => doing := WokenMayBe(s, t);
      case Switch(t) =>
        doing := s.Now().doing;
        SwitchBusy(s, t);
    }
  }

  /** Every step leaves the tasks that take `m` busy with that one only. */
  lemma {:induction false} StepBusyApart(s: System, users: set<nat>, m: nat, step: Step)
    requires Kept(s) && Ruled(s, users, m) && Enabled(s, step) && Follows(s, step, users, m)
    ensures BusyApart(After(s, step), users, m)
    ensures After(s, step).mutexes.Keys == s.mutexes.Keys && After(s, step).tasks.Keys == s.tasks.Keys
  {
    var doing := StepBusy(s, step);
    var t := Mover(s, step);
    assert doing.Working? || doing.Sleeping? || (t in users <==> doing.mutex == m) by {
      hide Kept, Sane, After, BusyAs, Ruled, Mover, Enabled;
      if t in s.tasks && Busy(s.tasks[t]) {
        OtherBusy(s, users, m, t);
      }
    }
    RuledParts(s, users, m);
    hide Kept, Sane, Enabled, Ruled, BusyApart, HeldApart, Fair, BusyAs, After, Mover, MayBe, Follows;
    BusyStaysApart(s, After(s, step), users, m, t, doing);
    BusyKeys(s, After(s, step), t, doing);
  }

  lemma {:induction false} BusyKeys(s: System, a: System, t: nat, doing: Doing)
    requires BusyAs(s, a, t, doing)
    ensures a.mutexes.Keys == s.mutexes.Keys && a.tasks.Keys == s.tasks.Keys
  {
  }

  // ----- Holders -----

  /** A holder stays, or goes, or is the current task, which was trying the mutex. */
  ghost predicate SameHolder(s: System, a: System, n: nat) {
    n in s.mutexes && n in a.mutexes ==>
      || a.mutexes[n].holder == s.mutexes[n].holder || a.mutexes[n].holder == None
      || (a.mutexes[n].holder == Some(s.current) && s.current in s.tasks && s.Now().doing.Trying?
          && s.Now().doing.mutex == n)
  }

  lemma {:induction false} BlockHolder(s: System, m: nat, n: nat)
    requires Kept(s) && m in s.mutexes
    ensures SameHolder(s, AfterBlock(s, m), n)
  {
    InheritShape(s, m);
    hide Accounts, Queued, Joined, Inherit;
  }

  lemma {:induction false} LeaveHolder(s: System, n: nat)
    requires Kept(s) && Enabled(s, Leave)
    ensures SameHolder(s, AfterLeave(s), n)
  {
    KnownNow(s);
    assert KnownTasks(s, s.Now().doing.mutex);
    DisinheritShape(s, s.Now().doing.mutex);
    hide Accounts, Queued, DisinheritAfterTimeout;
  }

  lemma {:induction false} GiveHolder(s: System, m: nat, n: nat)
    requires Kept(s) && Enabled(s, Give(m))
    ensures SameHolder(s, AfterGive(s, m), n)
  {
    hide Accounts, Queued, Disinherited;
    assert KnownTasks(s, m);
  }

  lemma {:induction false} WakeHolder(s: System, t: nat, n: nat)
    requires Kept(s) && Enabled(s, Wake(t))
    ensures SameHolder(s, AfterWake(s, t), n)
  {
    assert KnownMutex(s, t);
    hide Accounts, Queued, Without;
  }

  lemma {:induction false} TryHolder(s: System, n: nat)
    requires Kept(s) && Enabled(s, Try)
    ensures SameHolder(s, AfterTry(s), n)
  {
    KnownNow(s);
    hide Accounts, Queued;
  }

  lemma {:induction false} DecideHolder(s: System, expired: bool, n: nat)
    requires Kept(s) && Enabled(s, Decide(expired))
    ensures SameHolder(s, AfterDecide(s, expired), n)
  {
    KnownNow(s);
    if !expired && s.mutexes[s.Now().doing.mutex].count == 0 {
      BlockHolder(s, s.Now().doing.mutex, n);
    }
    hide Accounts, Queued, AfterBlock;
  }

  lemma {:induction false} StepHolder(s: System, step: Step, n: nat)
    requires Kept(s) && Enabled(s, step)
    ensures SameHolder(s, After(s, step), n)
  {
    KnownNow(s);
    hide Accounts, Queued, AfterTry, AfterBlock, AfterLeave, AfterGive, AfterWake, AfterDecide;
    match step
    case Try => TryHolder(s, n);
    case Decide(expired) => DecideHolder(s, expired, n);
    case Leave => LeaveHolder(s, n);
    case Give(m) => GiveHolder(s, m, n);
    case Wake(t) => WakeHolder(s, t, n);
    case _ =>
  }

  /** Every step leaves the tasks that take `m` without any other mutex. */
  lemma {:induction false} StepHeldApart(s: System, users: set<nat>, m: nat, step: Step)
    requires Kept(s) && Ruled(s, users, m) && Enabled(s, step) && After(s, step).mutexes.Keys == s.mutexes.Keys
    ensures HeldApart(After(s, step), users, m)
  {
    var a := After(s, step);
    KnownNow(s);
    hide Kept, Sane, Enabled, Ruled, After;
    forall n | n in a.mutexes && n != m && a.mutexes[n].holder.Some?
      ensures a.mutexes[n].holder.value !in users
    {
      StepHolder(s, step, n);
      if a.mutexes[n].holder == s.mutexes[n].holder {
        OtherHolder(s, users, m, n);
      } else {
        OtherBusy(s, users, m, s.current);
      }
    }
  }

  // ----- Runs -----

  /** Every task that begins a take of `m` in this run begins takes of no other mutex. */
  ghost predicate Exclusive(states: seq<System>, steps: seq<Step>, m: nat)
    requires |states| > |steps|
  {
    forall i, j :: 0 <= i < |steps| && 0 <= j < |steps| && states[i].current == states[j].current ==>
      (Begins(steps[i], m) && steps[j].Begin? ==> Begins(steps[j], m))
  }

  predicate Begins(step: Step, m: nat) {
    step.Begin? && step.mutex == m
  }

  /** The tasks that begin a take of `m`. */
  function Takers(states: seq<System>, steps: seq<Step>, m: nat): (users: set<nat>)
    requires |states| > |steps|
  {
    set i | 0 <= i < |steps| && Begins(steps[i], m) :: states[i].current
  }

  lemma {:induction false} ExclusiveFollows(states: seq<System>, steps: seq<Step>, m: nat, j: nat)
    requires |states| > |steps| && Exclusive(states, steps, m) && j < |steps|
    ensures Follows(states[j], steps[j], Takers(states, steps, m), m)
  {
    var t := states[j].current;
    if steps[j].Begin? && t in Takers(states, steps, m) {
      var i :| 0 <= i < |steps| && Begins(steps[i], m) && states[i].current == t;
    }
  }

  lemma {:induction false} StartIsRuled(s: System, users: set<nat>, m: nat)
    requires Start(s) && m in s.mutexes
    ensures Ruled(s, users, m)
  {
  }

  lemma {:induction false} RuledAlways(states: seq<System>, steps: seq<Step>, m: nat, i: nat)
    requires Path(states, steps) && Start(states[0]) && Exclusive(states, steps, m) && i <= |steps|
             && m in states[0].mutexes
    ensures Kept(states[i]) && Ruled(states[i], Takers(states, steps, m), m) && m in states[i].mutexes
  {
    hide Kept, Enabled, After, Start, Ruled, Follows, Exclusive, Takers;
    AccountsAlways(states, steps, i);
    var users := Takers(states, steps, m);
    if i == 0 {
      StartIsRuled(states[0], users, m);
    } else {
      var s, step := states[i - 1], steps[i - 1];
      RuledAlways(states, steps, m, i - 1);
      assert Moves(s, step, states[i]);
      ExclusiveFollows(states, steps, m, i - 1);
      StepBusyApart(s, users, m, step);
      StepHeldApart(s, users, m, step);
      StepIsFair(s, users, m, step);
      RuledParts(states[i], users, m);
    }
  }

  lemma {:induction false} MutexesStay(states: seq<System>, steps: seq<Step>, i: nat)
    requires Path(states, steps) && Start(states[0]) && i <= |steps|
    ensures Kept(states[i]) && states[i].mutexes.Keys == states[0].mutexes.Keys
  {
    hide Kept, Enabled, After, Start, BusyAs, MayBe, Mover;
    AccountsAlways(states, steps, i);
    if i > 0 {
      MutexesStay(states, steps, i - 1);
      assert Moves(states[i - 1], steps[i - 1], states[i]);
      var doing := StepBusy(states[i - 1], steps[i - 1]);
      BusyKeys(states[i - 1], states[i], Mover(states[i - 1], steps[i - 1]), doing);
    }
  }

  /** The inheritance bound: in every reachable state, whatever the tasks and the mutexes, the holder
      of a mutex runs at no less than the priority of any task in its waiting list, as long as the
      tasks that take this mutex take no other. What the other tasks take does not matter. */
  lemma {:induction false} HolderOutranksWaiters(states: seq<System>, steps: seq<Step>, m: nat, i: nat, h: nat, w: nat)
    requires Path(states, steps) && Start(states[0]) && Exclusive(states, steps, m) && i <= |steps|
    requires m in states[i].mutexes && states[i].mutexes[m].holder == Some(h) && w in states[i].mutexes[m].waiters
    ensures h in states[i].tasks && w in states[i].tasks && states[i].tasks[h].prio >= states[i].tasks[w].prio
  {
    hide Kept, Start, Exclusive, Ruled;
    MutexesStay(states, steps, i);
    RuledAlways(states, steps, m, i);
    var users := Takers(states, steps, m);
    RuledParts(states[i], users, m);
    FairParts(states[i], users, m);
    hide Fair, BusyApart, HeldApart, Falls, Handed, Takers;
  }

  /** A free mutex goes to a task that outranks everyone still waiting, also when it is not the one
      that was woken for it. */
  lemma {:induction false} TakerOutranksWaiters(states: seq<System>, steps: seq<Step>, m: nat, i: nat, w: nat)
    requires Path(states, steps) && Start(states[0]) && Exclusive(states, steps, m) && i < |steps| && steps[i] == Try
    requires states[i].current in states[i].tasks && states[i].Now().doing.Trying? && states[i].Now().doing.mutex == m
    requires m in states[i].mutexes && states[i].mutexes[m].count > 0 && w in states[i].mutexes[m].waiters
    ensures w in states[i].tasks && states[i].Now().prio >= states[i].tasks[w].prio
  {
    assert Moves(states[i], steps[i], states[i + 1]);
    hide Start, Exclusive, Path, Ruled, After, Accounts, Queued;
    MutexesStay(states, steps, i);
    RuledAlways(states, steps, m, i);
    var s, users := states[i], Takers(states, steps, m);
    CurrentMutex(s, users, m);
    RuledParts(s, users, m);
    FairParts(s, users, m);
    Account(s, s.current, m);
    PriorityOf(s, users, m, s.current);
    hide Fair, BusyApart, HeldApart, Falls, Bounded, Takers;
  }

  /** With a single mutex the bound holds on every run. */
  lemma {:induction false} OneMutexIsEnough(states: seq<System>, steps: seq<Step>, m: nat)
    requires Path(states, steps) && Start(states[0]) && states[0].mutexes.Keys == {m}
    ensures Exclusive(states, steps, m)
  {
    forall j | 0 <= j < |steps| && steps[j].Begin?
      ensures steps[j].mutex == m
    {
      MutexesStay(states, steps, j);
      assert Moves(states[j], steps[j], states[j + 1]);
      hide Kept, Sane, Start, Path, After;
    }
  }
}
