/** Mutexes with priority inheritance: taking, waiting, timing out, giving.

    Modelled code: nimble/os/freertos/queue.c:542-565 (a new mutex), 835-930 (giving),
    1518-1727 (taking), 2150-2201 (who is highest, data copy);
    nimble/os/freertos/tasks.c:2763-2829 (a block time runs out), 3170-3240 (leaving an event list),
    4100-4369 (inheriting and disinheriting), 4691-4717.

    A step is a critical section, a stretch of code that runs with the scheduler suspended, or a
    switch of tasks; interrupts act between steps. Priorities are changed by inheritance only. */
module Mutexes {
  import opened Sequences

  const MAX_PRIORITIES: nat := 8
  const IDLE_PRIORITY: nat := 0

  /** Where a task is in its code. */
  datatype Doing =
    | Working                                // outside the kernel
    | Sleeping                               // blocked on something that is not a mutex
    | Trying(mutex: nat, patient: bool)      // about to look at the count; `patient` may block
    | Deciding(mutex: nat)                   // it was taken; about to check the timeout
    | Waiting(mutex: nat)                    // on the list of tasks waiting for the mutex
    | Expired(mutex: nat)                    // the timeout expired; about to look at the count again
    | Leaving(mutex: nat)                    // it was still taken; about to undo the inheritance

  /** `item` is the value of the event list item, by which waiting lists are ordered;
      `inherited` is the local flag of a take. */
  datatype Task = Task(base: nat, prio: nat, item: nat, held: nat, doing: Doing, inherited: bool) {
    predicate Ready() {
      !doing.Sleeping? && !doing.Waiting?
    }

    function At(priority: nat): Task {
      this.(prio := priority, item := if priority <= MAX_PRIORITIES then MAX_PRIORITIES - priority else 0)
    }
  }

  datatype Mutex = Mutex(count: nat, holder: Option<nat>, waiters: seq<nat>)

  /** `yielding`: a switch was requested and happens before the current task goes on. */
  datatype System = System(tasks: map<nat, Task>, mutexes: map<nat, Mutex>, current: nat, yielding: bool) {
    function Now(): Task
      requires current in tasks
    {
      tasks[current]
    }

    function Set(t: nat, task: Task): System {
      this.(tasks := tasks[t := task])
    }

    function SetMutex(m: nat, mutex: Mutex): System {
      this.(mutexes := mutexes[m := mutex])
    }

    function Do(doing: Doing): System
      requires current in tasks
    {
      Set(current, Now().(doing := doing))
    }
  }

  // ----- Inheriting and disinheriting -----

  /** The holder of `m` gets the priority of the current task, if that is higher. */
  function Inherit(s: System, m: nat): System
    requires m in s.mutexes && s.current in s.tasks
    requires s.mutexes[m].holder.Some? ==> s.mutexes[m].holder.value in s.tasks
  {
    match s.mutexes[m].holder
    case None => s
    case Some(h) => if s.tasks[h].prio < s.Now().prio then s.Set(h, s.tasks[h].At(s.Now().prio)) else s
  }

  /** Whether taking `m` counts as having caused an inheritance. */
  predicate Inherits(s: System, m: nat)
    requires m in s.mutexes && s.current in s.tasks
    requires s.mutexes[m].holder.Some? ==> s.mutexes[m].holder.value in s.tasks
  {
    match s.mutexes[m].holder
    case None => false
    case Some(h) => s.tasks[h].prio < s.Now().prio || s.tasks[h].base < s.Now().prio
  }

  /** The current task gives a mutex: it drops to its base priority if it holds no other. */
  function Disinherited(task: Task): Task
    requires task.held > 0
  {
    var t := task.(held := task.held - 1);
    if t.prio != t.base && t.held == 0 then t.At(t.base) else t
  }

  /** The priority of the first waiting task, read from its list item. */
  function HighestWaiting(s: System, m: nat): nat
    requires m in s.mutexes && forall w :: w in s.mutexes[m].waiters ==> w in s.tasks
  {
    if s.mutexes[m].waiters == [] then IDLE_PRIORITY
    else
      var item := s.tasks[s.mutexes[m].waiters[0]].item;
      if item <= MAX_PRIORITIES then MAX_PRIORITIES - item else 0
  }

  /** A waiter of `m` gave up: its holder keeps only what the remaining waiters warrant. */
  function DisinheritAfterTimeout(s: System, m: nat): System
    requires m in s.mutexes && forall w :: w in s.mutexes[m].waiters ==> w in s.tasks
    requires s.mutexes[m].holder.Some? ==> s.mutexes[m].holder.value in s.tasks
  {
    match s.mutexes[m].holder
    case None => s
    case Some(h) =>
      var task, highest := s.tasks[h], HighestWaiting(s, m);
      var use := if task.base < highest then highest else task.base;
      if task.prio != use && task.held == 1 then s.Set(h, task.At(use)) else s
  }

  // ----- Waiting lists -----

  /** Where a sorted insertion by item value puts `item`: after every item that is not greater. */
  function Place(tasks: map<nat, Task>, waiters: seq<nat>, item: nat): (at: nat)
    requires forall w :: w in waiters ==> w in tasks
    ensures at <= |waiters|
    ensures forall i :: 0 <= i < at ==> tasks[waiters[i]].item <= item
    ensures at < |waiters| ==> tasks[waiters[at]].item > item
  {
    if waiters == [] || tasks[waiters[0]].item > item then 0 else 1 + Place(tasks, waiters[1..], item)
  }

  function Joined(tasks: map<nat, Task>, waiters: seq<nat>, t: nat): seq<nat>
    requires t in tasks && forall w :: w in waiters ==> w in tasks
  {
    Inserted(waiters, Place(tasks, waiters, tasks[t].item), t)
  }

  // ----- Steps -----

  datatype Step =
    | Begin(mutex: nat, patient: bool)    // call take
    | Try                                 // look at the count
    | Decide(expired: bool)               // check the timeout, block if it has not expired
    | Recheck                             // look at the count once more after a timeout
    | Leave                               // undo the inheritance and return
    | Give(mutex: nat)
    | Sleep
    | Wake(task: nat)                     // its block time ran out, or what it slept on came
    | Switch(task: nat)

  /** Everything a step relies on to be well-formed. */
  ghost predicate Sane(s: System) {
    && s.current in s.tasks
    && (forall m :: m in s.mutexes ==> KnownTasks(s, m))
    && (forall t :: t in s.tasks ==> KnownMutex(s, t))
  }

  ghost predicate KnownTasks(s: System, m: nat)
    requires m in s.mutexes
  {
    && (s.mutexes[m].holder.Some? ==> s.mutexes[m].holder.value in s.tasks)
    && (forall w :: w in s.mutexes[m].waiters ==> w in s.tasks)
  }

  ghost predicate KnownMutex(s: System, t: nat)
    requires t in s.tasks
  {
    !s.tasks[t].doing.Working? && !s.tasks[t].doing.Sleeping? ==> s.tasks[t].doing.mutex in s.mutexes
  }

  ghost predicate Enabled(s: System, step: Step)
    requires Sane(s)
  {
    var running := !s.yielding && s.Now().Ready();
    match step
    case Begin(m, _) => running && s.Now().doing.Working? && m in s.mutexes
    case Try => running && s.Now().doing.Trying?
    case Decide(_) => running && s.Now().doing.Deciding?
    case Recheck => running && s.Now().doing.Expired?
    case Leave => running && s.Now().doing.Leaving?
    case Give(m) => running && s.Now().doing.Working? && m in s.mutexes && s.mutexes[m].holder == Some(s.current)
        && s.Now().held > 0
    case Sleep => running && s.Now().doing.Working?
    case Wake(t) => t in s.tasks && !s.tasks[t].Ready()
    case Switch(t) =>
      t in s.tasks && s.tasks[t].Ready() && forall u :: u in s.tasks && s.tasks[u].Ready() ==>
          s.tasks[u].prio <= s.tasks[t].prio
  }

  function AfterTry(s: System): System
    requires s.current in s.tasks && s.Now().doing.Trying? && s.Now().doing.mutex in s.mutexes
  {
    var m := s.Now().doing.mutex;
    if s.mutexes[m].count > 0 then
      s.SetMutex(m, s.mutexes[m].(count := s.mutexes[m].count - 1, holder := Some(s.current)))
       .Set(s.current, s.Now().(held := s.Now().held + 1, doing := Working))
    else if s.Now().doing.patient then s.Do(Deciding(m)) else s.Do(Working)
  }

  /** Inherit, then join the waiting list. */
  function AfterBlock(s: System, m: nat): System
    requires Sane(s) && m in s.mutexes
  {
    var i := Inherit(s, m);
    var b := i.Set(s.current, i.Now().(doing := Waiting(m), inherited := Inherits(s, m)));
    b.SetMutex(m, b.mutexes[m].(waiters := Joined(b.tasks, b.mutexes[m].waiters, s.current))).(yielding := true)
  }

  function AfterDecide(s: System, expired: bool): System
    requires Sane(s) && s.Now().doing.Deciding?
  {
    var m := s.Now().doing.mutex;
    if expired then s.Do(Expired(m))
    else if s.mutexes[m].count == 0 then AfterBlock(s, m)
    else s.Do(Trying(m, true))
  }

  /** The timeout is used up, so a task that tries again does not block again. */
  function AfterRecheck(s: System): System
    requires Sane(s) && s.Now().doing.Expired?
  {
    var m := s.Now().doing.mutex;
    if s.mutexes[m].count == 0 then s.Do(Leaving(m)) else s.Do(Trying(m, false))
  }

  function AfterLeave(s: System): System
    requires Sane(s) && s.Now().doing.Leaving?
  {
    var m := s.Now().doing.mutex;
    (if s.Now().inherited then DisinheritAfterTimeout(s, m) else s).Do(Working)
  }

  function AfterGive(s: System, m: nat): System
    requires Sane(s) && m in s.mutexes && s.mutexes[m].holder == Some(s.current) && s.Now().held > 0
  {
    var giver := Disinherited(s.Now());
    var g := s.Set(s.current, giver).SetMutex(m, s.mutexes[m].(count := s.mutexes[m].count + 1, holder := None));
    var waiters := s.mutexes[m].waiters;
    if waiters == [] then
      g.(yielding := giver.prio != s.Now().prio)  // a switch is needed only if the giver disinherited
    else
      var w := waiters[0];
      g.SetMutex(m, g.mutexes[m].(waiters := waiters[1..])).Set(w, g.tasks[w].(doing := Trying(m, true)))
       .(yielding := g.tasks[w].prio > giver.prio)
  }

  function AfterWake(s: System, t: nat): System
    requires Sane(s) && t in s.tasks && !s.tasks[t].Ready()
  {
    var doing := s.tasks[t].doing;
    var w := if doing.Waiting?
             then s.SetMutex(doing.mutex,
                             s.mutexes[doing.mutex].(waiters := Without(s.mutexes[doing.mutex].waiters, t)))
                   .Set(t, s.tasks[t].(doing := Trying(doing.mutex, true)))
             else s.Set(t, s.tasks[t].(doing := Working));
    w.(yielding := s.yielding || s.tasks[t].prio > s.Now().prio)
  }

  function After(s: System, step: Step): System
    requires Sane(s) && Enabled(s, step)
  {
    match step
    case Begin(m, patient) => s.Set(s.current, s.Now().(doing := Trying(m, patient), inherited := false))
    case Try => AfterTry(s)
    case Decide(expired) => AfterDecide(s, expired)
    case Recheck => AfterRecheck(s)
    case Leave => AfterLeave(s)
    case Give(m) => AfterGive(s, m)
    case Sleep => s.Do(Sleeping).(yielding := true)
    case Wake(t) => AfterWake(s, t)
    case Switch(t) => s.(current := t, yielding := false)
  }

  /** Blocking puts the task on the waiting list, and the holder runs at least as high. */
  lemma {:induction false} BlockDoes(s: System, m: nat)
    requires Sane(s) && m in s.mutexes
    ensures var a := AfterBlock(s, m);
            && a.current == s.current && s.current in a.tasks && a.tasks[s.current].doing == Waiting(m) && a.yielding
            && a.mutexes.Keys == s.mutexes.Keys && s.current in a.mutexes[m].waiters
            && a.mutexes[m].holder == s.mutexes[m].holder
            && (a.mutexes[m].holder.Some? ==>
                && a.mutexes[m].holder.value in a.tasks
                && a.tasks[a.mutexes[m].holder.value].prio >= s.Now().prio)
  {
    var a := AfterBlock(s, m);
    var i := Inherit(s, m);
    var b := i.Set(s.current, i.Now().(doing := Waiting(m), inherited := Inherits(s, m)));
    assert a.mutexes[m].waiters == Joined(b.tasks, s.mutexes[m].waiters, s.current);
    hide Place;
  }

  // ----- Accounting, for any set of mutexes -----

  ghost function Holding(s: System, t: nat): set<nat> {
    set m | m in s.mutexes && s.mutexes[m].holder == Some(t)
  }

  /** A mutex is free exactly when its count is one and it has no holder. */
  ghost predicate Counted(s: System) {
    forall m :: m in s.mutexes ==>
      s.mutexes[m].count <= 1 && (s.mutexes[m].count == 1 <==> s.mutexes[m].holder == None)
  }

  /** A task counts the mutexes that name it as holder, and runs at its base priority if there
      are none; its list item shows its priority. */
  ghost predicate Accounted(s: System, t: nat)
    requires t in s.tasks
  {
    var task := s.tasks[t];
    && task.base <= task.prio < MAX_PRIORITIES && task.item == MAX_PRIORITIES - task.prio
    && task.held == |Holding(s, t)| && (task.held == 0 ==> task.prio == task.base)
  }

  ghost predicate Accounts(s: System) {
    Counted(s) && forall t :: t in s.tasks ==> Accounted(s, t)
  }

  /** The waiting list of `m` holds exactly the tasks that wait for it, once each. */
  ghost predicate Listed(s: System, m: nat)
    requires m in s.mutexes
  {
    && NoRepeats(s.mutexes[m].waiters)
    && forall w :: w in s.mutexes[m].waiters <==> w in s.tasks && s.tasks[w].doing == Waiting(m)
  }

  ghost predicate Queued(s: System) {
    forall m :: m in s.mutexes ==> Listed(s, m)
  }

  ghost predicate Kept(s: System) {
    Sane(s) && Accounts(s) && Queued(s)
  }

  /** A change of one task and of one mutex in which each fits the other. */
  ghost predicate Fits(s: System, t: nat, task: Task, m: nat, mutex: Mutex) {
    && t in s.tasks && m in s.mutexes
    && FitsCounts(s.tasks[t], t, task, s.mutexes[m], mutex) && FitsLists(s.tasks[t], t, task, m, s.mutexes[m], mutex)
    && (task.doing.Working? || task.doing.Sleeping? || task.doing.mutex in s.mutexes)
  }

  ghost predicate FitsCounts(before: Task, t: nat, task: Task, mutexBefore: Mutex, mutex: Mutex) {
    && task.base <= task.prio < MAX_PRIORITIES && task.item == MAX_PRIORITIES - task.prio
    && (task.held == 0 ==> task.prio == task.base)
    && mutex.count <= 1 && (mutex.count == 1 <==> mutex.holder == None)
    && (mutex.holder == mutexBefore.holder || (mutexBefore.holder in {None, Some(t)}
        && mutex.holder in {None, Some(t)}))
    && task.held + (if mutexBefore.holder == Some(t) then 1 else 0) == before.held + (if mutex.holder == Some(t) then 1
        else 0)
  }

  ghost predicate FitsLists(before: Task, t: nat, task: Task, m: nat, mutexBefore: Mutex, mutex: Mutex) {
    && NoRepeats(mutex.waiters)
    && (forall w :: w in mutex.waiters <==>
        (w in mutexBefore.waiters && w != t) || (w == t && task.doing == Waiting(m)))
    && (task.doing.Waiting? ==> task.doing.mutex == m) && (before.doing.Waiting? ==> before.doing.mutex == m)
  }

  lemma {:induction false} HoldingAfter(s: System, t: nat, task: Task, m: nat, mutex: Mutex, u: nat)
    requires m in s.mutexes
    ensures |Holding(s.Set(t, task).SetMutex(m, mutex), u)| + (if s.mutexes[m].holder == Some(u) then 1 else 0)
            == |Holding(s, u)| + (if mutex.holder == Some(u) then 1 else 0)
  {
    var a := s.Set(t, task).SetMutex(m, mutex);
    if mutex.holder == Some(u) {
      assert Holding(a, u) == Holding(s, u) - {m} + {m};
    } else {
      assert Holding(a, u) == Holding(s, u) - {m};
    }
    assert s.mutexes[m].holder == Some(u) <==> m in Holding(s, u);
  }

  lemma {:induction false} AccountedAfter(s: System, t: nat, task: Task, m: nat, mutex: Mutex, u: nat)
    requires Accounts(s) && Fits(s, t, task, m, mutex) && u in s.tasks
    ensures Accounted(s.Set(t, task).SetMutex(m, mutex), u)
  {
    hide FitsLists, Holding;
    assert Accounted(s, u);
    hide Accounts;
    HoldingAfter(s, t, task, m, mutex, u);
  }

  lemma {:induction false} ListedAfter(s: System, t: nat, task: Task, m: nat, mutex: Mutex, n: nat)
    requires Queued(s) && Fits(s, t, task, m, mutex) && n in s.mutexes
    ensures Listed(s.Set(t, task).SetMutex(m, mutex), n)
  {
    hide FitsCounts;
    assert Listed(s, n) && Listed(s, m);
    hide Queued;
    var a := s.Set(t, task).SetMutex(m, mutex);
    forall w
      ensures w in a.mutexes[n].waiters <==> w in a.tasks && a.tasks[w].doing == Waiting(n)
    {
    }
  }

  lemma {:induction false} SaneAfter(s: System, t: nat, task: Task, m: nat, mutex: Mutex)
    requires Sane(s) && Fits(s, t, task, m, mutex)
    ensures Sane(s.Set(t, task).SetMutex(m, mutex))
  {
    var a := s.Set(t, task).SetMutex(m, mutex);
    forall n | n in a.mutexes
      ensures KnownTasks(a, n)
    {
      assert KnownTasks(s, n);
    }
    forall u | u in a.tasks
      ensures KnownMutex(a, u)
    {
      assert KnownMutex(s, u);
    }
  }

  lemma {:induction false} CountedAfter(s: System, t: nat, task: Task, m: nat, mutex: Mutex)
    requires Counted(s) && Fits(s, t, task, m, mutex)
    ensures Counted(s.Set(t, task).SetMutex(m, mutex))
  {
    hide FitsLists;
  }

  /** Such a change keeps all the accounts. */
  lemma {:induction false} FittingKeeps(s: System, t: nat, task: Task, m: nat, mutex: Mutex)
    requires Kept(s) && Fits(s, t, task, m, mutex)
    ensures Kept(s.Set(t, task).SetMutex(m, mutex))
  {
    hide Sane, Counted, Accounted, Listed, Fits;
    var a := s.Set(t, task).SetMutex(m, mutex);
    assert m in s.mutexes && t in s.tasks by { FitsKeys(s, t, task, m, mutex); }
    SaneAfter(s, t, task, m, mutex);
    CountedAfter(s, t, task, m, mutex);
    forall u | u in a.tasks
      ensures Accounted(a, u)
    {
      AccountedAfter(s, t, task, m, mutex, u);
    }
    forall n | n in a.mutexes
      ensures Listed(a, n)
    {
      ListedAfter(s, t, task, m, mutex, n);
    }
  }

  lemma {:induction false} FitsKeys(s: System, t: nat, task: Task, m: nat, mutex: Mutex)
    requires Fits(s, t, task, m, mutex)
    ensures t in s.tasks && m in s.mutexes
  {
    hide FitsCounts, FitsLists;
  }

  /** A change of one task that touches neither its mutexes nor its place on a list keeps them too. */
  ghost predicate Alone(s: System, t: nat, task: Task) {
    && t in s.tasks && task.held == s.tasks[t].held
    && task.base <= task.prio < MAX_PRIORITIES && task.item == MAX_PRIORITIES - task.prio
    && (task.held == 0 ==> task.prio == task.base)
    && (task.doing == s.tasks[t].doing
        || (!task.doing.Waiting? && !s.tasks[t].doing.Waiting?
            && (task.doing.Working? || task.doing.Sleeping? || task.doing.mutex in s.mutexes)))
  }

  lemma {:induction false} AloneKeeps(s: System, t: nat, task: Task)
    requires Kept(s) && Alone(s, t, task)
    ensures Kept(s.Set(t, task))
  {
    var a := s.Set(t, task);
    forall n | n in a.mutexes
      ensures KnownTasks(a, n) && Listed(a, n)
    {
      assert KnownTasks(s, n) && Listed(s, n);
    }
    forall u | u in a.tasks
      ensures KnownMutex(a, u) && Accounted(a, u)
    {
      assert KnownMutex(s, u) && Accounted(s, u);
      assert Holding(a, u) == Holding(s, u);
    }
  }

  lemma {:induction false} YieldingKeeps(s: System, current: nat, yielding: bool)
    requires Kept(s) && current in s.tasks
    ensures Kept(s.(current := current, yielding := yielding))
  {
    var a := s.(current := current, yielding := yielding);
    forall n | n in a.mutexes
      ensures KnownTasks(a, n) && Listed(a, n)
    {
      assert KnownTasks(s, n) && Listed(s, n);
    }
    forall u | u in a.tasks
      ensures KnownMutex(a, u) && Accounted(a, u)
    {
      assert KnownMutex(s, u) && Accounted(s, u);
      assert Holding(a, u) == Holding(s, u);
    }
  }

  // ----- Every step keeps the accounts -----

  /** What the accounts say of one task and one mutex. */
  lemma {:induction false} Account(s: System, t: nat, m: nat)
    requires Kept(s) && t in s.tasks && m in s.mutexes
    ensures Accounted(s, t) && Listed(s, m) && KnownTasks(s, m) && KnownMutex(s, t)
    ensures s.mutexes[m].count <= 1 && (s.mutexes[m].count == 1 <==> s.mutexes[m].holder == None)
    ensures s.mutexes[m].holder == Some(t) ==> s.tasks[t].held > 0
  {
    hide Listed, KnownTasks, KnownMutex, NoRepeats;
    if s.mutexes[m].holder == Some(t) {
      assert m in Holding(s, t);
    }
  }

  lemma {:induction false} TryKeeps(s: System)
    requires Kept(s) && Enabled(s, Try)
    ensures Kept(AfterTry(s))
  {
    var m := s.Now().doing.mutex;
    assert m in s.mutexes by { assert KnownMutex(s, s.current); }
    Account(s, s.current, m);
    if s.mutexes[m].count > 0 {
      var task := s.Now().(held := s.Now().held + 1, doing := Working);
      var mutex := s.mutexes[m].(count := s.mutexes[m].count - 1, holder := Some(s.current));
      hide Sane, Accounts, Queued, Holding;
      FittingKeeps(s, s.current, task, m, mutex);
    } else {
      hide Sane, Accounts, Queued, Holding, Listed;
      AloneKeeps(s, s.current, s.Now().(doing := Deciding(m)));
      AloneKeeps(s, s.current, s.Now().(doing := Working));
    }
  }

  lemma {:induction false} InheritKeeps(s: System, m: nat)
    requires Kept(s) && m in s.mutexes
    ensures Kept(Inherit(s, m))
  {
    hide Listed, Holding;
    Account(s, s.current, m);
    match s.mutexes[m].holder {
      case None =>
      case Some(h) =>
        Account(s, h, m);
        if s.tasks[h].prio < s.Now().prio {
          AloneKeeps(s, h, s.tasks[h].At(s.Now().prio));
        }
    }
  }

  lemma {:induction false} JoinedSame(tasks: map<nat, Task>, waiters: seq<nat>, t: nat)
    requires t in tasks && t !in waiters && NoRepeats(waiters) && forall w :: w in waiters ==> w in tasks
    ensures NoRepeats(Joined(tasks, waiters, t))
    ensures forall w :: w in Joined(tasks, waiters, t) <==> w in waiters || w == t
  {
    hide Place, Inserted, NoRepeats;
    InsertedNoRepeats(waiters, Place(tasks, waiters, tasks[t].item), t);
    InsertedMembers(waiters, Place(tasks, waiters, tasks[t].item), t);
  }

  /** Inheriting changes at most the holder, and that only upwards. */
  lemma {:induction false} InheritShape(s: System, m: nat)
    requires Kept(s) && m in s.mutexes
    ensures var i := Inherit(s, m);
            && i.mutexes == s.mutexes && i.current == s.current && i.tasks.Keys == s.tasks.Keys
            && forall t :: t in s.tasks ==>
                 i.tasks[t] == if s.mutexes[m].holder == Some(t)
                     && s.tasks[t].prio < s.Now().prio then s.tasks[t].At(s.Now().prio)
                               else s.tasks[t]
  {
    hide Accounts, Queued;
    assert KnownTasks(s, m);
  }

  lemma {:induction false} Blocking(i: System, task: Task, m: nat)
    requires Kept(i) && m in i.mutexes && !i.Now().doing.Waiting?
    requires task == i.Now().(doing := Waiting(m), inherited := task.inherited)
    ensures i.current !in i.mutexes[m].waiters && i.current in i.tasks
    ensures forall w :: w in i.mutexes[m].waiters ==> w in i.tasks
    ensures Fits(i, i.current, task, m,
                 i.mutexes[m].(waiters := Joined(i.tasks[i.current := task], i.mutexes[m].waiters, i.current)))
  {
    hide Holding, Joined;
    Account(i, i.current, m);
    JoinedSame(i.tasks[i.current := task], i.mutexes[m].waiters, i.current);
  }

  lemma {:induction false} BlockKeeps(s: System, m: nat)
    requires Kept(s) && m in s.mutexes && !s.Now().doing.Waiting?
    ensures Kept(AfterBlock(s, m))
  {
    var i := Inherit(s, m);
    InheritKeeps(s, m);
    InheritShape(s, m);
    hide Kept, Inherit, Joined;
    var task := i.Now().(doing := Waiting(m), inherited := Inherits(s, m));
    Blocking(i, task, m);
    var mutex := i.mutexes[m].(waiters := Joined(i.tasks[i.current := task], i.mutexes[m].waiters, i.current));
    FittingKeeps(i, i.current, task, m, mutex);
    YieldingKeeps(i.Set(i.current, task).SetMutex(m, mutex), i.current, true);
  }

  lemma {:induction false} LeaveKeeps(s: System)
    requires Kept(s) && Enabled(s, Leave)
    ensures Kept(AfterLeave(s))
  {
    hide Listed, Holding;
    assert KnownMutex(s, s.current);
    var m := s.Now().doing.mutex;
    Account(s, s.current, m);
    var d := if s.Now().inherited then DisinheritAfterTimeout(s, m) else s;
    if s.mutexes[m].holder.Some? && d != s {
      var h := s.mutexes[m].holder.value;
      Account(s, h, m);
      HighestIsPriority(s, m);
      AloneKeeps(s, h, d.tasks[h]);
    }
    Account(d, d.current, m);
    AloneKeeps(d, s.current, d.Now().(doing := Working));
  }

  /** The first item of a waiting list shows the priority of its task. */
  lemma {:induction false} HighestIsPriority(s: System, m: nat)
    requires Kept(s) && m in s.mutexes
    ensures KnownTasks(s, m)
    ensures HighestWaiting(s, m) == if s.mutexes[m].waiters == [] then IDLE_PRIORITY
            else s.tasks[s.mutexes[m].waiters[0]].prio
    ensures HighestWaiting(s, m) < MAX_PRIORITIES
  {
    hide Listed, Holding;
    assert KnownTasks(s, m);
    if s.mutexes[m].waiters != [] {
      Account(s, s.mutexes[m].waiters[0], m);
    }
  }

  lemma {:induction false} GiveKeeps(s: System, m: nat)
    requires Kept(s) && Enabled(s, Give(m))
    ensures Kept(AfterGive(s, m))
  {
    hide Holding;
    Account(s, s.current, m);
    var giver := Disinherited(s.Now());
    var mutex := s.mutexes[m].(count := s.mutexes[m].count + 1, holder := None);
    FittingKeeps(s, s.current, giver, m, mutex);
    var g := s.Set(s.current, giver).SetMutex(m, mutex);
    if mutex.waiters == [] {
      YieldingKeeps(g, g.current, giver.prio != s.Now().prio);
    } else {
      GiveWakesKeeps(g, m, g.tasks[mutex.waiters[0]].prio > giver.prio);
    }
  }

  /** The part of a give that wakes the first waiter. */
  lemma {:induction false} GiveWakesKeeps(g: System, m: nat, yielding: bool)
    requires Kept(g) && m in g.mutexes && g.mutexes[m].waiters != []
    ensures var mutex, w := g.mutexes[m], g.mutexes[m].waiters[0];
      w in g.tasks && Kept(g.SetMutex(m, mutex.(waiters := mutex.waiters[1..])).Set(w,
          g.tasks[w].(doing := Trying(m, true))).(yielding := yielding))
  {
    hide Holding;
    var mutex := g.mutexes[m];
    var w := mutex.waiters[0];
    Account(g, w, m);
    FirstRemoved(mutex.waiters);
    var woken, rest := g.tasks[w].(doing := Trying(m, true)), mutex.(waiters := mutex.waiters[1..]);
    hide Kept, Listed;
    FittingKeeps(g, w, woken, m, rest);
    YieldingKeeps(g.Set(w, woken).SetMutex(m, rest), g.current, yielding);
  }

  lemma {:induction false} WakeKeeps(s: System, t: nat)
    requires Kept(s) && Enabled(s, Wake(t))
    ensures Kept(AfterWake(s, t))
  {
    hide Holding;
    var doing := s.tasks[t].doing;
    if doing.Waiting? {
      assert KnownMutex(s, t);
      Account(s, t, doing.mutex);
      WithoutNoRepeats(s.mutexes[doing.mutex].waiters, t);
      var mutex := s.mutexes[doing.mutex].(waiters := Without(s.mutexes[doing.mutex].waiters, t));
      var task := s.tasks[t].(doing := Trying(doing.mutex, true));
      hide Kept, Listed, Without;
      FittingKeeps(s, t, task, doing.mutex, mutex);
      YieldingKeeps(s.Set(t, task).SetMutex(doing.mutex, mutex), s.current,
                    s.yielding || s.tasks[t].prio > s.Now().prio);
    } else {
      var task := s.tasks[t].(doing := Working);
      assert Accounted(s, t);
      AloneKeeps(s, t, task);
      YieldingKeeps(s.Set(t, task), s.current, s.yielding || s.tasks[t].prio > s.Now().prio);
    }
  }

  /** The accounts hold in every reachable state, whatever the set of mutexes. */
  lemma {:induction false} StepKeeps(s: System, step: Step)
    requires Kept(s) && Enabled(s, step)
    ensures Kept(After(s, step))
  {
    hide Accounts, Queued, AfterTry, AfterBlock, AfterLeave, AfterGive, AfterWake;
    match step {
      case Begin(m, patient) =>
        BeginAlone(s, Trying(m, patient), false);
        AloneKeeps(s, s.current, s.Now().(doing := Trying(m, patient), inherited := false));
      case Try => TryKeeps(s);
      case Decide(expired) =>
        var m := s.Now().doing.mutex;
        assert KnownMutex(s, s.current);
        DoKeeps(s, Expired(m));
        DoKeeps(s, Trying(m, true));
        BlockKeeps(s, m);
      case Recheck =>
        var m := s.Now().doing.mutex;
        assert KnownMutex(s, s.current);
        DoKeeps(s, Leaving(m));
        DoKeeps(s, Trying(m, false));
      case Leave => LeaveKeeps(s);
      case Give(m) => GiveKeeps(s, m);
      case Sleep =>
        DoKeeps(s, Sleeping);
        YieldingKeeps(s.Do(Sleeping), s.current, true);
      case Wake(t) => WakeKeeps(s, t);
      case Switch(t) => YieldingKeeps(s, t, false);
    }
  }

  lemma {:induction false} BeginAlone(s: System, doing: Doing, inherited: bool)
    requires Kept(s) && !s.Now().doing.Waiting? && !doing.Waiting?
    requires doing.Working? || doing.Sleeping? || doing.mutex in s.mutexes
    ensures Alone(s, s.current, s.Now().(doing := doing, inherited := inherited))
  {
    hide Holding;
    assert Accounted(s, s.current);
  }

  lemma {:induction false} DoKeeps(s: System, doing: Doing)
    requires Kept(s) && !s.Now().doing.Waiting? && !doing.Waiting?
    requires doing.Working? || doing.Sleeping? || doing.mutex in s.mutexes
    ensures Kept(s.Do(doing))
  {
    BeginAlone(s, doing, s.Now().inherited);
    AloneKeeps(s, s.current, s.Now().(doing := doing));
  }

  // ----- Runs -----

  /** Mutexes just created, and tasks that hold none. */
  ghost predicate Start(s: System) {
    && s.current in s.tasks
    && (forall m :: m in s.mutexes ==> s.mutexes[m] == Mutex(1, None, []))
    && (forall t :: t in s.tasks ==>
          && s.tasks[t].prio == s.tasks[t].base < MAX_PRIORITIES && s.tasks[t].item == MAX_PRIORITIES - s.tasks[t].prio
          && s.tasks[t].held == 0 && (s.tasks[t].doing.Working? || s.tasks[t].doing.Sleeping?))
  }

  lemma {:induction false} StartIsKept(s: System)
    requires Start(s)
    ensures Kept(s)
  {
    forall t | t in s.tasks
      ensures Accounted(s, t)
    {
      assert Holding(s, t) == {};
    }
  }

  ghost predicate Moves(s: System, step: Step, a: System) {
    Sane(s) && Enabled(s, step) && a == After(s, step)
  }

  /** The states a sequence of steps passes through. */
  ghost predicate Path(states: seq<System>, steps: seq<Step>) {
    |states| == |steps| + 1 && forall i :: 0 <= i < |steps| ==> Moves(states[i], steps[i], states[i + 1])
  }

  /** In every reachable state a mutex is free exactly when its count is one and it has no holder,
      every task counts the mutexes that name it, and one that holds none runs at its base priority. */
  lemma {:induction false} AccountsAlways(states: seq<System>, steps: seq<Step>, i: nat)
    requires Path(states, steps) && Start(states[0]) && i <= |steps|
    ensures Kept(states[i])
  {
    hide Kept, Enabled, After, Start;
    if i == 0 {
      StartIsKept(states[0]);
    } else {
      AccountsAlways(states, steps, i - 1);
      assert Moves(states[i - 1], steps[i - 1], states[i]);
      StepKeeps(states[i - 1], steps[i - 1]);
    }
  }
}
