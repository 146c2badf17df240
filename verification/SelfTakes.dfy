/** When a task that leaves a take without the mutex can find itself as the holder, which the code
    asserts it cannot.

    Modelled code: nimble/os/freertos/tasks.c:4266-4310, nimble/os/freertos/queue.c:1632-1713. */
module SelfTakes {
  import opened Sequences
  import opened Mutexes
  import opened Outranking

  predicate Busy(task: Task) {
    !task.doing.Working? && !task.doing.Sleeping?
  }

  /** A task that is busy with a mutex does not hold it. */
  ghost predicate Distinct(s: System, t: nat) {
    t in s.tasks && Busy(s.tasks[t]) ==>
        s.tasks[t].doing.mutex in s.mutexes && s.mutexes[s.tasks[t].doing.mutex].holder != Some(t)
  }

  ghost predicate AllDistinct(s: System) {
    forall t :: t in s.tasks ==> Distinct(s, t)
  }

  /** A step begins a take of a mutex that the task already holds. */
  ghost predicate TakesAgain(s: System, step: Step) {
    step.Begin? && step.mutex in s.mutexes && s.mutexes[step.mutex].holder == Some(s.current)
  }

  /** The code compares the holder with the current task, and finds them the same. */
  ghost predicate FindsItself(s: System, step: Step)
    requires Sane(s) && Enabled(s, step)
  {
    && step.Leave? && s.Now().inherited && s.mutexes[s.Now().doing.mutex].holder == Some(s.current)
    && s.Now().held == 1 && DisinheritAfterTimeout(s, s.Now().doing.mutex) != s
  }

  lemma {:induction false} InheritingStaysDistinct(s: System, u: nat)
    requires Sane(s) && s.Now().doing.Deciding? && Distinct(s, u) && s.mutexes[s.Now().doing.mutex].count == 0
    ensures Distinct(AfterBlock(s, s.Now().doing.mutex), u)
  {
    hide Joined;
  }

  lemma {:induction false} LeavingStaysDistinct(s: System, u: nat)
    requires Sane(s) && s.Now().doing.Leaving? && Distinct(s, u)
    ensures Distinct(AfterLeave(s), u)
  {
    hide HighestWaiting;
  }

  lemma {:induction false} GivingStaysDistinct(s: System, m: nat, u: nat)
    requires Kept(s) && Enabled(s, Give(m)) && Distinct(s, u)
    ensures Distinct(AfterGive(s, m), u)
  {
    hide Accounts, Queued;
  }

  lemma {:induction false} TryingStaysDistinct(s: System, u: nat)
    requires Sane(s) && s.Now().doing.Trying? && Distinct(s, u)
    ensures Distinct(AfterTry(s), u)
  {
  }

  lemma {:induction false} WakingStaysDistinct(s: System, t: nat, u: nat)
    requires Sane(s) && t in s.tasks && !s.tasks[t].Ready() && Distinct(s, u)
    ensures Distinct(AfterWake(s, t), u)
  {
    hide Without;
  }

  lemma {:induction false} StaysDistinct(s: System, step: Step, u: nat)
    requires Kept(s) && Enabled(s, step) && !TakesAgain(s, step) && Distinct(s, u)
    ensures Distinct(After(s, step), u)
  {
    hide Accounts, Queued, AfterTry, AfterBlock, AfterLeave, AfterGive, AfterWake, Inherit, Joined;
    match step
    case Try => TryingStaysDistinct(s, u);
    case Wake(t) => WakingStaysDistinct(s, t, u);
    case Decide(expired) =>
      if !expired && s.mutexes[s.Now().doing.mutex].count == 0 {
        InheritingStaysDistinct(s, u);
      }
    case Leave => LeavingStaysDistinct(s, u);
    case Give(m) => GivingStaysDistinct(s, m, u);
    case _ =>
  }

  lemma {:induction false} DistinctAlways(states: seq<System>, steps: seq<Step>, i: nat)
    requires Path(states, steps) && Start(states[0]) && i <= |steps|
    requires forall j :: 0 <= j < |steps| ==> !TakesAgain(states[j], steps[j])
    ensures Kept(states[i]) && AllDistinct(states[i])
  {
    hide Kept, Enabled, After, TakesAgain;
    AccountsAlways(states, steps, i);
    if i == 0 {
    } else {
      hide Distinct, Start;
      DistinctAlways(states, steps, i - 1);
      assert Moves(states[i - 1], steps[i - 1], states[i]);
      forall u | u in states[i].tasks
        ensures Distinct(states[i], u)
      {
        TasksStay(states[i - 1], steps[i - 1]);
        StaysDistinct(states[i - 1], steps[i - 1], u);
      }
    }
  }

  lemma {:induction false} TasksStay(s: System, step: Step)
    requires Sane(s) && Enabled(s, step)
    ensures After(s, step).tasks.Keys == s.tasks.Keys
  {
    hide Joined, HighestWaiting, Without, Disinherited;
  }

  /** As long as no task begins to take a mutex that it holds, a task that leaves without the mutex is
      never the holder, and the holder counts at least one mutex: neither assertion fails. */
  lemma {:induction false} LeavesAnotherHolder(states: seq<System>, steps: seq<Step>, i: nat, h: nat)
    requires Path(states, steps) && Start(states[0]) && i < |steps| && steps[i] == Leave
    requires forall j :: 0 <= j < |steps| ==> !TakesAgain(states[j], steps[j])
    requires Sane(states[i]) && Enabled(states[i], Leave)
             && states[i].mutexes[states[i].Now().doing.mutex].holder == Some(h)
    ensures h != states[i].current && h in states[i].tasks && states[i].tasks[h].held > 0
    ensures !FindsItself(states[i], Leave)
  {
    var s := states[i];
    hide Path, Start, Kept, TakesAgain, Accounts;
    DistinctAlways(states, steps, i);
    assert Distinct(s, s.current);
    HolderCounts(s, s.Now().doing.mutex, h);
  }

  lemma {:induction false} HolderCounts(s: System, m: nat, h: nat)
    requires Kept(s) && m in s.mutexes && s.mutexes[m].holder == Some(h)
    ensures h in s.tasks && s.tasks[h].held > 0
  {
    assert Accounted(s, h) && m in Holding(s, h);
  }

  // ----- A run in which the assertion fails -----

  function Two(m: nat, one: Task, two: Task, mutex: Mutex, current: nat, yielding: bool): System {
    System(map[1 := one, 2 := two], map[m := mutex], current, yielding)
  }

  function Fresh(m: nat): System {
    Two(m, Person(1, 1, 0, Working), Person(2, 2, 0, Sleeping), FREE, 1, false)
  }

  /** The holder, raised to priority 2. */
  function Lifted(doing: Doing, inherited: bool): Task {
    Person(1, 2, 1, doing).(inherited := inherited)
  }

  function Other(doing: Doing): Task {
    Person(2, 2, 0, doing).(inherited := true)
  }

  /** Task 1 holds the mutex, and task 2 waits for it. */
  function Wanted(m: nat): System {
    Two(m, Lifted(Working, false), Other(Waiting(m)), Mutex(0, Some(1), [2]), 2, true)
  }

  lemma {:induction false} ToWanted(m: nat)
    ensures Reached(true, Fresh(m), Wanted(m))
  {
    var s0 := Fresh(m);
    AtStart(true, s0);
    hide Reached;
    Takes(true, s0, s0, m);
    var s1 := Taken(s0, m);
    Comes(true, s0, s1, 2, m, 1);
    var s2 := Blocked(Arrived(s1, 2), m, 1, 0);
    assert s2.mutexes[m].waiters == [2];
    assert s2.mutexes == Wanted(m).mutexes && s2.tasks == Wanted(m).tasks;
  }

  /** Task 1 waits for the mutex it holds, behind task 2. */
  function Selfish(m: nat): System {
    Two(m, Lifted(Waiting(m), true), Other(Waiting(m)), Mutex(0, Some(1), [2, 1]), 1, true)
  }

  lemma {:induction false} SelfishIs(m: nat)
    requires Sane(Found(Wanted(m).(current := 1, yielding := false), m))
    ensures AfterBlock(Found(Wanted(m).(current := 1, yielding := false), m), m) == Selfish(m)
  {
    hide Sane;
    var s := AfterBlock(Found(Wanted(m).(current := 1, yielding := false), m), m);
    assert s.mutexes[m].waiters == [2, 1];
    assert s.mutexes == Selfish(m).mutexes && s.tasks == Selfish(m).tasks;
  }

  lemma {:induction false} ToSelfish(m: nat)
    requires Reached(true, Fresh(m), Wanted(m))
    ensures Reached(true, Fresh(m), Selfish(m))
  {
    hide Reached, Fresh, Sane, AfterBlock;
    Switches(true, Fresh(m), Wanted(m), 1);
    var s := Wanted(m).(current := 1, yielding := false);
    Finds(true, Fresh(m), s, m);
    var a := Onto(true, Fresh(m), Found(s, m), Decide(false));
    SelfishIs(m);
  }

  /** Both have given up, and task 1 looks first. */
  function GivenUp(m: nat): System {
    Two(m, Lifted(Trying(m, true), true), Other(Trying(m, true)), Mutex(0, Some(1), []), 1, false)
  }

  lemma {:induction false} ToGivenUp(m: nat)
    requires Reached(true, Fresh(m), Selfish(m))
    ensures Reached(true, Fresh(m), GivenUp(m))
  {
    hide Reached, Fresh;
    GivesUp(true, Fresh(m), Selfish(m), m, 2);
    var s := GaveUp(Selfish(m), m, 2);
    assert s.mutexes[m].waiters == [1];
    GivesUp(true, Fresh(m), s, m, 1);
    var u := GaveUp(s, m, 1);
    assert u.mutexes[m].waiters == [];
    Switches(true, Fresh(m), u, 1);
    assert u.mutexes == GivenUp(m).mutexes && u.tasks == GivenUp(m).tasks;
  }

  function Last(m: nat): System {
    Two(m, Lifted(Leaving(m), true), Other(Trying(m, true)), Mutex(0, Some(1), []), 1, false)
  }

  lemma {:induction false} ToLast(m: nat)
    requires Reached(true, Fresh(m), GivenUp(m))
    ensures Reached(true, Fresh(m), Last(m))
  {
    hide Reached, Fresh, Sane;
    var a := Onto(true, Fresh(m), GivenUp(m), Try);
    var b := Onto(true, Fresh(m), a, Decide(true));
    var c := Onto(true, Fresh(m), b, Recheck);
    assert c.tasks == Last(m).tasks;
  }

  lemma {:induction false} LastFindsItself(m: nat)
    ensures Sane(Last(m)) && Enabled(Last(m), Leave) && FindsItself(Last(m), Leave)
  {
    assert DisinheritAfterTimeout(Last(m), m).tasks[1].prio == 1;
  }

  /** A task that takes a mutex twice can get to the comparison with itself as the holder: it was
      raised by another, took the mutex again, and both gave up. */
  lemma {:induction false} LeavesItself(m: nat)
    ensures exists from, to :: Reached(true, from, to) && from.mutexes.Keys == {m} && Sane(to) && Enabled(to, Leave)
                               && FindsItself(to, Leave)
  {
    ToWanted(m);
    ToSelfish(m);
    ToGivenUp(m);
    ToLast(m);
    assert Fresh(m).mutexes.Keys == {m};
    hide Reached, Fresh, Last, FindsItself;
    LastFindsItself(m);
  }
}
