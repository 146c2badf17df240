/** What a take of a mutex comes to, from its call to its return, over whole runs: it ends with the
    mutex, or because it may not wait, or because its time is up.

    Modelled code: nimble/os/freertos/queue.c:1518-1727. */
module Takes {
  import opened Sequences
  import opened Mutexes

  predicate Calling(doing: Doing) {
    !doing.Working? && !doing.Sleeping?
  }

  /** How far one step takes a task in its code. */
  ghost predicate Onward(s: System, step: Step, t: nat, to: Doing)
    requires Sane(s) && Enabled(s, step) && t in s.tasks
  {
    var from := s.tasks[t].doing;
    if t == s.current && (step.Begin? || step.Try? || step.Decide? || step.Recheck? || step.Leave? || step.Sleep?) then
      match step
      case Begin(m, patient) => to == Trying(m, patient)
      case Try => to == if s.mutexes[from.mutex].count > 0 || !from.patient then Working else Deciding(from.mutex)
      case Decide(expired) =>
        to == if expired then Expired(from.mutex) else if s.mutexes[from.mutex].count == 0 then Waiting(from.mutex) else
            Trying(from.mutex, true)
      case Recheck => to == if s.mutexes[from.mutex].count == 0 then Leaving(from.mutex) else Trying(from.mutex, false)
      case Leave => to == Working
      case _ => to == Sleeping
    else
      to == from || (from.Sleeping? && to == Working) || (from.Waiting? && to == Trying(from.mutex, true))
  }

  lemma {:induction false} BlockOnward(s: System, m: nat, t: nat)
    requires Sane(s) && m in s.mutexes && t in s.tasks
    ensures t in AfterBlock(s, m).tasks
    ensures AfterBlock(s, m).tasks[t].doing == if t == s.current then Waiting(m) else s.tasks[t].doing
  {
    hide Joined;
  }

  lemma {:induction false} LeaveOnward(s: System, t: nat)
    requires Sane(s) && s.Now().doing.Leaving? && t in s.tasks
    ensures t in AfterLeave(s).tasks
    ensures AfterLeave(s).tasks[t].doing == if t == s.current then Working else s.tasks[t].doing
  {
    hide HighestWaiting;
  }

  lemma {:induction false} GiveOnward(s: System, m: nat, t: nat)
    requires Kept(s) && Enabled(s, Give(m)) && t in s.tasks
    ensures t in AfterGive(s, m).tasks
    ensures Onward(s, Give(m), t, AfterGive(s, m).tasks[t].doing)
  {
    Account(s, s.current, m);
    assert s.mutexes[m].waiters != [] ==> s.mutexes[m].waiters[0] in s.mutexes[m].waiters;
    hide Accounts, Queued;
  }

  lemma {:induction false} WakeOnward(s: System, u: nat, t: nat)
    requires Sane(s) && Enabled(s, Wake(u)) && t in s.tasks
    ensures t in AfterWake(s, u).tasks
    ensures Onward(s, Wake(u), t, AfterWake(s, u).tasks[t].doing)
  {
    hide Without;
  }

  lemma {:induction false} StepOnward(s: System, step: Step, t: nat)
    requires Kept(s) && Enabled(s, step) && t in s.tasks
    ensures t in After(s, step).tasks && Onward(s, step, t, After(s, step).tasks[t].doing)
  {
    hide AfterBlock, AfterLeave, AfterGive, AfterWake, Accounts, Queued;
    match step
    case Decide(expired) => BlockOnward(s, s.Now().doing.mutex, t);
    case Leave => LeaveOnward(s, t);
    case Give(m) => GiveOnward(s, m, t);
    case Wake(u) => WakeOnward(s, u, t);
    case _ =>
  }

  // ----- A call, from its beginning -----

  /** Step `b` is the last among the first `n` at which `t` began a take. */
  ghost predicate BeganAt(states: seq<System>, steps: seq<Step>, n: nat, t: nat, b: nat) {
    && b < n <= |steps| < |states| && steps[b].Begin? && states[b].current == t
    && forall j :: b < j < n ==> steps[j].Begin? ==> states[j].current != t
  }

  /** Between steps `b` and `n` the timeout of `t` had expired when it was checked. */
  ghost predicate TimedOut(states: seq<System>, steps: seq<Step>, b: nat, n: nat, t: nat) {
    exists j :: b < j < n <= |steps| < |states| && steps[j] == Decide(true) && states[j].current == t
  }

  /** Between them `t`, whose time was up, found the mutex taken once more. */
  ghost predicate SeenTaken(states: seq<System>, steps: seq<Step>, b: nat, n: nat, t: nat, m: nat) {
    exists j :: b < j < n <= |steps| < |states| && steps[j] == Recheck && states[j].current == t
        && m in states[j].mutexes && states[j].mutexes[m].count == 0
  }

  /** What is known of a task that is in the call `call`. */
  predicate InCall(doing: Doing, call: Step, timedOut: bool, seenTaken: bool) {
    && call.Begin?
    && match doing
       case Trying(m, patient) =>
         m == call.mutex && (patient ==> call.patient) && (call.patient ==> patient || timedOut)
       case Deciding(m) => m == call.mutex && call.patient
       case Waiting(m) => m == call.mutex && call.patient
       case Expired(m) => m == call.mutex && call.patient && timedOut
       case Leaving(m) => m == call.mutex && call.patient && timedOut && seenTaken
       case _ => false
  }

  /** Task `t` is in the call that began at step `b`. */
  ghost predicate CallFrom(states: seq<System>, steps: seq<Step>, n: nat, t: nat, b: nat) {
    && BeganAt(states, steps, n, t, b) && t in states[n].tasks
    && InCall(states[n].tasks[t].doing, steps[b], TimedOut(states, steps, b, n, t),
              SeenTaken(states, steps, b, n, t, steps[b].mutex))
  }

  lemma {:induction false} TimeGoesOn(states: seq<System>, steps: seq<Step>, b: nat, n: nat, t: nat)
    requires Path(states, steps) && n < |steps|
    ensures TimedOut(states, steps, b, n, t) ==> TimedOut(states, steps, b, n + 1, t)
    ensures b < n && steps[n] == Decide(true) && states[n].current == t ==> TimedOut(states, steps, b, n + 1, t)
  {
    hide Moves;
  }

  lemma {:induction false} SightGoesOn(states: seq<System>, steps: seq<Step>, b: nat, n: nat, t: nat, m: nat)
    requires Path(states, steps) && n < |steps|
    ensures SeenTaken(states, steps, b, n, t, m) ==> SeenTaken(states, steps, b, n + 1, t, m)
    ensures b < n && steps[n] == Recheck && states[n].current == t ==>
              m in states[n].mutexes && states[n].mutexes[m].count == 0 ==> SeenTaken(states, steps, b, n + 1, t, m)
  {
    hide Moves;
  }

  /** One step of a task that is in a call. */
  lemma {:induction false} CallStep(s: System, step: Step, t: nat, to: Doing, call: Step, timedOut: bool,
                                    seenTaken: bool)
    requires Sane(s) && Enabled(s, step) && t in s.tasks && Onward(s, step, t, to) && Calling(to)
    requires Calling(s.tasks[t].doing) && InCall(s.tasks[t].doing, call, timedOut, seenTaken)
    ensures s.tasks[t].doing.mutex in s.mutexes
    ensures InCall(to, call, timedOut || (t == s.current && step == Decide(true)),
                   seenTaken || (t == s.current && step == Recheck && s.mutexes[call.mutex].count == 0))
    ensures t == s.current ==> !step.Begin?
  {
    assert KnownMutex(s, t);
  }

  lemma {:induction false} StillFrom(states: seq<System>, steps: seq<Step>, n: nat, t: nat, b: nat)
    requires Path(states, steps) && n < |steps| && BeganAt(states, steps, n, t, b)
    requires states[n].current == t ==> !steps[n].Begin?
    ensures BeganAt(states, steps, n + 1, t, b)
  {
    hide Moves;
  }

  /** A task that is in a call is in one that it began. */
  lemma {:induction false} CallsBegin(states: seq<System>, steps: seq<Step>, n: nat, t: nat) returns (b: nat)
    requires Path(states, steps) && Start(states[0]) && n <= |steps|
    requires t in states[n].tasks && Calling(states[n].tasks[t].doing)
    ensures CallFrom(states, steps, n, t, b)
  {
    hide Kept, Onward, Enabled, After, InCall, TimedOut, SeenTaken, BeganAt, Sane;
    if n == 0 {
      assert false;
    } else {
      hide Start;
      var s, step := states[n - 1], steps[n - 1];
      assert Moves(s, step, states[n]);
      AccountsAlways(states, steps, n - 1);
      TasksCome(s, step, t);
      StepOnward(s, step, t);
      if step.Begin? && s.current == t {
        b := n - 1;
        JustBegun(states, steps, n, t);
      } else {
        StillCalling(s, step, t, states[n].tasks[t].doing);
        b := CallsBegin(states, steps, n - 1, t);
        CallGoesOn(states, steps, n - 1, t, b);
      }
    }
  }

  lemma {:induction false} TasksCome(s: System, step: Step, t: nat)
    requires Sane(s) && Enabled(s, step) && t in After(s, step).tasks
    ensures t in s.tasks
  {
    hide Joined, HighestWaiting, Without, Disinherited;
  }

  lemma {:induction false} StillCalling(s: System, step: Step, t: nat, to: Doing)
    requires Sane(s) && Enabled(s, step) && t in s.tasks && Onward(s, step, t, to) && Calling(to)
    requires !(step.Begin? && s.current == t)
    ensures Calling(s.tasks[t].doing)
  {
  }

  lemma {:induction false} JustBegun(states: seq<System>, steps: seq<Step>, n: nat, t: nat)
    requires Path(states, steps) && 0 < n <= |steps| && steps[n - 1].Begin? && states[n - 1].current == t
    requires Sane(states[n - 1]) && Enabled(states[n - 1], steps[n - 1]) && t in states[n - 1].tasks
    requires t in states[n].tasks && Onward(states[n - 1], steps[n - 1], t, states[n].tasks[t].doing)
    ensures CallFrom(states, steps, n, t, n - 1)
  {
    hide TimedOut, SeenTaken, Moves;
  }

  lemma {:induction false} CallGoesOn(states: seq<System>, steps: seq<Step>, n: nat, t: nat, b: nat)
    requires Path(states, steps) && n < |steps| && CallFrom(states, steps, n, t, b)
    requires Sane(states[n]) && Enabled(states[n], steps[n]) && t in states[n + 1].tasks
    requires t in states[n].tasks && Onward(states[n], steps[n], t, states[n + 1].tasks[t].doing)
    requires Calling(states[n].tasks[t].doing) && Calling(states[n + 1].tasks[t].doing)
    ensures CallFrom(states, steps, n + 1, t, b)
  {
    var m := steps[b].mutex;
    CallStep(states[n], steps[n], t, states[n + 1].tasks[t].doing, steps[b], TimedOut(states, steps, b, n, t),
             SeenTaken(states, steps, b, n, t, m));
    hide Onward, Enabled, Sane, TimedOut, SeenTaken, Path;
    StillFrom(states, steps, n, t, b);
    TimeGoesOn(states, steps, b, n, t);
    SightGoesOn(states, steps, b, n, t, m);
    var to := states[n + 1].tasks[t].doing;
    assert InCall(to, steps[b], TimedOut(states, steps, b, n + 1, t), SeenTaken(states, steps, b, n + 1, t, m));
  }

  // ----- What a take comes to -----

  /** In every reachable state, whoever looks at a mutex that is free takes it, whether it may block or
      not; if the mutex is taken nothing changes but that a patient task goes on to check its timeout
      and an impatient one has returned. */
  lemma {:induction false} FreeIsTaken(states: seq<System>, steps: seq<Step>, i: nat)
    requires Path(states, steps) && Start(states[0]) && i < |steps| && steps[i] == Try
    ensures states[i].current in states[i].tasks && states[i].Now().doing.Trying?
    ensures var s, a, task, m := states[i], states[i + 1], states[i].Now(), states[i].Now().doing.mutex;
            && m in s.mutexes
            && (s.mutexes[m].count == 1 ==>
                && a == System(s.tasks[s.current := task.(held := task.held + 1, doing := Working)],
                               s.mutexes[m := Mutex(0, Some(s.current), s.mutexes[m].waiters)], s.current, s.yielding))
            && (s.mutexes[m].count != 1 ==>
                && s.mutexes[m].count == 0 && s.mutexes[m].holder.Some?
                && a == s.(tasks := s.tasks[s.current :=
                             task.(doing := if task.doing.patient then Deciding(m) else Working)]))
  {
    var s := states[i];
    hide Kept, Start;
    AccountsAlways(states, steps, i);
    assert Moves(s, steps[i], states[i + 1]);
    hide Path;
    assert KnownMutex(s, s.current);
    Account(s, s.current, s.Now().doing.mutex);
  }

  /** How a call ends: with the mutex, which was free; or without it, because it may not wait, or
      because its time was up when that was checked, and the mutex was taken when it looked last. */
  lemma {:induction false} TakeEnds(states: seq<System>, steps: seq<Step>, i: nat, t: nat) returns (b: nat)
    requires Path(states, steps) && Start(states[0]) && i < |steps|
    requires t in states[i].tasks && Calling(states[i].tasks[t].doing)
    requires t in states[i + 1].tasks && !Calling(states[i + 1].tasks[t].doing)
    ensures BeganAt(states, steps, i, t, b) && states[i].current == t
    ensures var s, a, m := states[i], states[i + 1], steps[b].mutex;
            && m in s.mutexes && m in a.mutexes
            && (|| (s.mutexes[m].count == 1 && a.mutexes[m].count == 0 && a.mutexes[m].holder == Some(t)
                    && a.tasks[t].held == s.tasks[t].held + 1)
                || (s.mutexes[m].count == 0 && steps[i] == Try && a.mutexes == s.mutexes
                    && (!steps[b].patient || TimedOut(states, steps, b, i, t)))
                || (steps[i] == Leave && a.mutexes == s.mutexes && TimedOut(states, steps, b, i, t)
                    && SeenTaken(states, steps, b, i, t, m)))
  {
    var s, step, a := states[i], steps[i], states[i + 1];
    b := CallsBegin(states, steps, i, t);
    AccountsAlways(states, steps, i);
    assert Moves(s, step, a);
    StepOnward(s, step, t);
    Ends(s, step, t, a.tasks[t].doing);
    if step == Try {
      FreeIsTaken(states, steps, i);
    } else {
      LeaveSameMutexes(s);
    }
    hide Path, Start, Kept, TimedOut, SeenTaken, BeganAt, Moves, Onward;
    assert KnownMutex(s, t);
  }

  lemma {:induction false} Ends(s: System, step: Step, t: nat, to: Doing)
    requires Kept(s) && Enabled(s, step) && t in s.tasks && Onward(s, step, t, to)
    requires Calling(s.tasks[t].doing) && !Calling(to)
    ensures t == s.current && (step == Try || step == Leave)
  {
    hide Accounts, Queued;
  }

  lemma {:induction false} LeaveSameMutexes(s: System)
    requires Sane(s) && Enabled(s, Leave)
    ensures AfterLeave(s).mutexes == s.mutexes
  {
    hide HighestWaiting;
  }

  /** A call that may not block never does: until it returns it has only to look at the count. */
  lemma {:induction false} ImpatientOnlyLooks(states: seq<System>, steps: seq<Step>, i: nat, t: nat, b: nat)
    requires Path(states, steps) && Start(states[0]) && i <= |steps|
    requires t in states[i].tasks && Calling(states[i].tasks[t].doing)
    requires BeganAt(states, steps, i, t, b) && !steps[b].patient
    ensures states[i].tasks[t].doing == Trying(steps[b].mutex, false)
  {
    var c := CallsBegin(states, steps, i, t);
    hide Path, Start, TimedOut, SeenTaken;
    assert c == b;
  }

  /** A task whose time is not up and that finds the mutex taken goes on the waiting list, and the
      holder runs at least as high as it from then on. */
  lemma {:induction false} TakenIsAwaited(states: seq<System>, steps: seq<Step>, i: nat)
    requires Path(states, steps) && Start(states[0]) && i < |steps| && steps[i] == Decide(false)
    ensures states[i].current in states[i].tasks && states[i].Now().doing.Deciding?
    ensures var s, a, m := states[i], states[i + 1], states[i].Now().doing.mutex;
            && m in s.mutexes && s.current in a.tasks && m in a.mutexes
            && (s.mutexes[m].count == 0 ==>
                && a.tasks[s.current].doing == Waiting(m) && s.current in a.mutexes[m].waiters && a.yielding
                && a.mutexes[m].holder.Some? && a.mutexes[m].holder == s.mutexes[m].holder
                && a.mutexes[m].holder.value in a.tasks
                && a.tasks[a.mutexes[m].holder.value].prio >= s.Now().prio)
            && (s.mutexes[m].count != 0 ==>
                a == s.(tasks := s.tasks[s.current := s.Now().(doing := Trying(m, true))]))
  {
    var s := states[i];
    hide Kept, Start;
    AccountsAlways(states, steps, i);
    assert Moves(s, steps[i], states[i + 1]);
    hide Path;
    assert KnownMutex(s, s.current);
    Account(s, s.current, s.Now().doing.mutex);
    BlockDoes(s, s.Now().doing.mutex);
    hide AfterBlock;
  }

  /** A task that gives up after it has raised the holder leaves it, if the mutex is the only one it
      holds, at its base priority or that of the first task still waiting, whichever is higher. */
  lemma {:induction false} LeaveDrops(states: seq<System>, steps: seq<Step>, i: nat, h: nat)
    requires Path(states, steps) && Start(states[0]) && i < |steps| && steps[i] == Leave
    requires states[i].current in states[i].tasks && states[i].Now().doing.Leaving? && states[i].Now().inherited
    requires states[i].Now().doing.mutex in states[i].mutexes
    requires states[i].mutexes[states[i].Now().doing.mutex].holder == Some(h)
    ensures h in states[i].tasks && h in states[i + 1].tasks
    ensures forall w :: w in states[i].mutexes[states[i].Now().doing.mutex].waiters ==> w in states[i].tasks
    ensures var before, q := states[i].tasks[h], states[i].mutexes[states[i].Now().doing.mutex].waiters;
            states[i + 1].tasks[h].prio ==
              if before.held != 1 then before.prio
              else if q != [] && states[i].tasks[q[0]].prio > before.base then states[i].tasks[q[0]].prio
              else before.base
  {
    var s, m := states[i], states[i].Now().doing.mutex;
    hide Kept, Start;
    AccountsAlways(states, steps, i);
    assert Moves(s, steps[i], states[i + 1]);
    hide Path;
    Account(s, s.current, m);
    HighestIsPriority(s, m);
    hide HighestWaiting;
  }
}
