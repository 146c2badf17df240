/** The code of the mutex operations as it changes the kernel's state in place; each method is
    proved to make the step the state machine of module Mutexes makes.

    Modelled code: nimble/os/freertos/queue.c:835-930, 1518-1727, 2150-2201;
    nimble/os/freertos/tasks.c:3087-3110, 3170-3240, 4100-4369, 4707-4717;
    nimble/os/freertos/list.c:128-196. */
module MutexKernel {
  import opened Sequences
  import opened Mutexes

  /** The same tasks, of which those in `some` may run at another priority that their list items show. */
  ghost predicate OnlyPriorities(before: map<nat, Task>, after: map<nat, Task>, some: set<nat>) {
    && after.Keys == before.Keys
    && forall t :: t in before ==>
        && after[t] == before[t].(prio := after[t].prio, item := after[t].item)
        && (after[t] != before[t] ==> t in some && after[t].prio != before[t].prio)
        && (after[t] != before[t] && after[t].prio <= MAX_PRIORITIES ==>
            after[t].item == MAX_PRIORITIES - after[t].prio)
  }

  function Max(a: nat, b: nat): (r: nat)
    ensures r >= a && r >= b && (r == a || r == b)
  {
    if a < b then b else a
  }

  /** One step of the search for a place. */
  lemma {:induction false} PlaceOnward(tasks: map<nat, Task>, q: seq<nat>, at: nat, item: nat)
    requires at <= |q| && forall w :: w in q ==> w in tasks
    ensures Place(tasks, q[at..], item) ==
            if at < |q| && tasks[q[at]].item <= item then 1 + Place(tasks, q[at + 1..], item) else 0
  {
    if at < |q| {
      assert q[at..][0] == q[at] && q[at..][1..] == q[at + 1..];
    }
  }

  /** The mutex is free again, and its first waiter, if there is one, is off the list. */
  lemma {:induction false} GiveDoes(s: System, m: nat)
    requires Sane(s) && Enabled(s, Give(m))
    ensures m in s.mutexes && s.current in s.tasks
    ensures var a, was, giver := AfterGive(s, m), s.mutexes[m], s.Now();
            && a.current == s.current && s.current in a.tasks
            && a.mutexes == s.mutexes[m := Mutex(was.count + 1, None,
                                                 if was.waiters == [] then [] else was.waiters[1..])]
            && a.tasks[s.current].held == giver.held - 1
            && a.tasks[s.current].prio == (if giver.held == 1 then giver.base else giver.prio)
            && (was.waiters == [] ==> (a.yielding <==> a.tasks[s.current].prio != giver.prio))
            && (was.waiters != [] ==>
                && was.waiters[0] in a.tasks && a.tasks[was.waiters[0]].doing == Trying(m, true)
                && (a.yielding <==> a.tasks[was.waiters[0]].prio > a.tasks[s.current].prio))
  {
    assert KnownTasks(s, m);
  }

  class Kernel {
    var tasks: map<nat, Task>
    var mutexes: map<nat, Mutex>
    var current: nat
    var yielding: bool

    ghost function State(): System
      reads this
    {
      System(tasks, mutexes, current, yielding)
    }

    constructor (s: System)
      ensures State() == s
    {
      tasks, mutexes, current, yielding := s.tasks, s.mutexes, s.current, s.yielding;
    }

    /** Raises the holder of `m` to the current task's priority, if it is lower. */
    method PriorityInherit(m: nat) returns (occurred: bool)
      requires Sane(State()) && m in mutexes
      modifies this`tasks
      ensures State() == Inherit(old(State()), m) && occurred == Inherits(old(State()), m)
      ensures OnlyPriorities(old(tasks), tasks, if mutexes[m].holder.Some? then {mutexes[m].holder.value} else {})
      ensures mutexes[m].holder.Some? ==>
                var h, top := mutexes[m].holder.value, old(tasks[current].prio);
                && h in old(tasks) && tasks[h].prio == Max(old(tasks)[h].prio, top)
                && (occurred <==> old(tasks)[h].prio < top || old(tasks)[h].base < top)
      ensures mutexes[m].holder == None ==> !occurred
    {
      assert KnownTasks(State(), m);
      occurred := false;
      if mutexes[m].holder.Some? {
        var h := mutexes[m].holder.value;
        if tasks[h].prio < tasks[current].prio {
          tasks := tasks[h := tasks[h].At(tasks[current].prio)];
          occurred := true;
        } else if tasks[h].base < tasks[current].prio {
          occurred := true;
        }
      }
    }

    /** The current task gives up one mutex; with the last one it returns to its base priority. */
    method PriorityDisinherit() returns (yield_: bool)
      requires current in tasks && tasks[current].held > 0
      modifies this`tasks
      ensures State() == old(State()).Set(current, Disinherited(old(State()).Now()))
      ensures yield_ <==> tasks[current].prio != old(tasks[current].prio)
      ensures current in tasks && tasks[current].held == old(tasks[current].held) - 1
      ensures tasks[current].prio == if tasks[current].held == 0 then old(tasks[current].base) else
                old(tasks[current].prio)
      ensures OnlyPriorities(old(tasks)[current := old(tasks[current]).(held := tasks[current].held)], tasks, {current})
    {
      yield_ := false;
      var task := tasks[current];
      tasks := tasks[current := task.(held := task.held - 1)];
      if task.prio != task.base {
        if tasks[current].held == 0 {
          tasks := tasks[current := tasks[current].At(task.base)];
          yield_ := true;
        }
      }
    }

    method GetDisinheritPriorityAfterTimeout(m: nat) returns (highest: nat)
      requires Sane(State()) && m in mutexes
      ensures KnownTasks(State(), m) && highest == HighestWaiting(State(), m)
      ensures mutexes[m].waiters == [] ==> highest == 0
      ensures mutexes[m].waiters != [] && tasks[mutexes[m].waiters[0]].item <= MAX_PRIORITIES ==>
                tasks[mutexes[m].waiters[0]].item == MAX_PRIORITIES - highest
    {
      assert KnownTasks(State(), m);
      if |mutexes[m].waiters| > 0 {
        var item := tasks[mutexes[m].waiters[0]].item;
        highest := if item <= MAX_PRIORITIES then MAX_PRIORITIES - item else 0;
      } else {
        highest := IDLE_PRIORITY;
      }
    }

    method PriorityDisinheritAfterTimeout(m: nat, highest: nat)
      requires Sane(State()) && m in mutexes && KnownTasks(State(), m) && highest == HighestWaiting(State(), m)
      modifies this`tasks
      ensures State() == DisinheritAfterTimeout(old(State()), m)
      ensures OnlyPriorities(old(tasks), tasks, if mutexes[m].holder.Some? then {mutexes[m].holder.value} else {})
      ensures mutexes[m].holder.Some? ==>
                var h := mutexes[m].holder.value;
                && h in old(tasks)
                && tasks[h].prio == if old(tasks)[h].held == 1 then Max(old(tasks)[h].base, highest) else
                     old(tasks)[h].prio
    {
      hide HighestWaiting;
      if mutexes[m].holder.Some? {
        var h := mutexes[m].holder.value;
        var use;
        if tasks[h].base < highest {
          use := highest;
        } else {
          use := tasks[h].base;
        }
        if tasks[h].prio != use {
          if tasks[h].held == 1 {
            tasks := tasks[h := tasks[h].At(use)];
          }
        }
      }
    }

    /** Inserts the current task into the waiting list: past every item whose value is not greater. */
    method PlaceOnEventList(m: nat)
      requires m in mutexes && current in tasks && forall w :: w in mutexes[m].waiters ==> w in tasks
      modifies this`mutexes, this`yielding
      ensures State() == old(State()).SetMutex(m,
                                               old(mutexes[m]).(waiters :=
                                                   Joined(tasks, old(mutexes[m].waiters), current)))
                                     .(yielding := true)
    {
      hide Place;
      var ts, q, item := tasks, mutexes[m].waiters, tasks[current].item;
      var at := 0;
      assert q[at..] == q;
      while at < |q| && ts[q[at]].item <= item
        invariant State() == old(State())
        invariant at <= |q| && at + Place(ts, q[at..], item) == Place(ts, q, item)
      {
        PlaceOnward(ts, q, at, item);
        at := at + 1;
      }
      PlaceOnward(ts, q, at, item);
      mutexes := mutexes[m := mutexes[m].(waiters := Inserted(q, at, current))];
      yielding := true;
    }

    /** Makes the first waiter ready; tells whether it outranks the current task. */
    method RemoveFromEventList(m: nat) returns (higher: bool)
      requires m in mutexes && current in tasks && mutexes[m].waiters != [] && mutexes[m].waiters[0] in tasks
      modifies this`tasks, this`mutexes
      ensures var w := old(mutexes[m].waiters[0]);
              && mutexes == old(mutexes)[m := old(mutexes[m]).(waiters := old(mutexes[m].waiters)[1..])]
              && tasks == old(tasks)[w := old(tasks[w]).(doing := Trying(m, true))]
              && higher == (old(tasks[w].prio) > old(tasks[current].prio))
    {
      var w := mutexes[m].waiters[0];
      mutexes := mutexes[m := mutexes[m].(waiters := mutexes[m].waiters[1..])];
      tasks := tasks[w := tasks[w].(doing := Trying(m, true))];
      higher := tasks[w].prio > tasks[current].prio;
    }

    // ----- Taking -----

    /** The critical section at the top of the take loop: a mutex that is free is taken, patient or
        not; otherwise a patient task goes on to check its timeout and an impatient one returns. */
    method TakeOrGoOn()
      requires Sane(State()) && Enabled(State(), Try)
      modifies this`tasks, this`mutexes
      ensures State() == AfterTry(old(State()))
      ensures var c, m, task := current, old(tasks[current].doing.mutex), old(tasks[current]);
              && m in old(mutexes)
              && (old(mutexes)[m].count > 0 ==>
                  && tasks == old(tasks)[c := task.(held := task.held + 1, doing := Working)]
                  && mutexes == old(mutexes)[m := Mutex(old(mutexes)[m].count - 1, Some(c), old(mutexes)[m].waiters)])
              && (old(mutexes)[m].count == 0 ==>
                  && mutexes == old(mutexes)
                  && tasks == old(tasks)[c := task.(doing := if task.doing.patient then Deciding(m) else Working)])
    {
      assert KnownMutex(State(), current);
      var m := tasks[current].doing.mutex;
      if mutexes[m].count > 0 {
        mutexes := mutexes[m := mutexes[m].(count := mutexes[m].count - 1)];
        tasks := tasks[current := tasks[current].(held := tasks[current].held + 1)];
        mutexes := mutexes[m := mutexes[m].(holder := Some(current))];
        tasks := tasks[current := tasks[current].(doing := Working)];
      } else if !tasks[current].doing.patient {
        tasks := tasks[current := tasks[current].(doing := Working)];
      } else {
        tasks := tasks[current := tasks[current].(doing := Deciding(m))];
      }
    }

    /** The part of the take loop that runs with the scheduler suspended. */
    method BlockOrRetry(expired: bool)
      requires Sane(State()) && Enabled(State(), Decide(expired))
      modifies this
      ensures State() == AfterDecide(old(State()), expired)
      ensures current == old(current) && current in tasks
      ensures var m := old(tasks[current].doing.mutex);
              var waits := !expired && old(mutexes)[m].count == 0;
              && m in old(mutexes) && mutexes.Keys == old(mutexes).Keys
              && tasks[current].doing == (if expired then Expired(m) else if waits then Waiting(m) else Trying(m, true))
              && (waits ==> current in mutexes[m].waiters && yielding)
              && (waits && mutexes[m].holder.Some? ==>
                  && mutexes[m].holder.value in tasks
                  && tasks[mutexes[m].holder.value].prio >= old(tasks[current].prio))
              && (!waits ==> mutexes == old(mutexes) && yielding == old(yielding)
                             && tasks == old(tasks)[current := tasks[current]])
    {
      hide AfterBlock;
      assert KnownMutex(State(), current);
      var m := tasks[current].doing.mutex;
      assert KnownTasks(State(), m);
      if expired {
        tasks := tasks[current := tasks[current].(doing := Expired(m))];
      } else if mutexes[m].count == 0 {
        BlockDoes(State(), m);
        InheritAndBlock(m);
      } else {
        tasks := tasks[current := tasks[current].(doing := Trying(m, true))];
      }
    }

    method InheritAndBlock(m: nat)
      requires Sane(State()) && m in mutexes
      modifies this
      ensures State() == AfterBlock(old(State()), m)
    {
      assert KnownTasks(State(), m);
      var occurred := PriorityInherit(m);
      tasks := tasks[current := tasks[current].(doing := Waiting(m), inherited := occurred)];
      PlaceOnEventList(m);
    }

    /** After the timeout: one more look at the count. Only the place of the current task in its code
        changes: no priority, no list and no mutex does; it tries again exactly if the mutex is free,
        and then it cannot block any more. */
    method RetryOrLeave()
      requires Sane(State()) && Enabled(State(), Recheck)
      modifies this`tasks
      ensures current in tasks && tasks == old(tasks)[current := old(tasks[current]).(doing := tasks[current].doing)]
      ensures tasks[current].doing.Trying? || tasks[current].doing.Leaving?
      ensures tasks[current].doing.mutex == old(tasks[current].doing.mutex) && tasks[current].doing.mutex in mutexes
      ensures tasks[current].doing.Trying? <==> mutexes[tasks[current].doing.mutex].count > 0
      ensures tasks[current].doing.Trying? ==> !tasks[current].doing.patient
    {
      assert KnownMutex(State(), current);
      var m := tasks[current].doing.mutex;
      tasks := tasks[current :=
          tasks[current].(doing := if mutexes[m].count == 0 then Leaving(m) else Trying(m, false))];
    }

    /** The take fails: inheritance it caused is undone as far as the other waiters allow. */
    method FailToTake()
      requires Sane(State()) && Enabled(State(), Leave)
      modifies this`tasks
      ensures State() == AfterLeave(old(State()))
      ensures current in tasks && tasks[current].doing == Working
      ensures var m := old(tasks[current].doing.mutex);
              && m in mutexes
              && (mutexes[m].holder.Some? && old(tasks[current].inherited) ==>
                  var h := mutexes[m].holder.value;
                  && h in old(tasks) && KnownTasks(old(State()), m)
                  && tasks[h].prio == if old(tasks)[h].held != 1 then old(tasks)[h].prio else
                       Max(old(tasks)[h].base, HighestWaiting(old(State()), m)))
              && (mutexes[m].holder == None || !old(tasks[current].inherited) ==>
                  tasks == old(tasks)[current := tasks[current]])
    {
      assert KnownMutex(State(), current);
      var m := tasks[current].doing.mutex;
      assert KnownTasks(State(), m);
      if tasks[current].inherited {
        var highest := GetDisinheritPriorityAfterTimeout(m);
        PriorityDisinheritAfterTimeout(m, highest);
      }
      tasks := tasks[current := tasks[current].(doing := Working)];
    }

    // ----- Giving -----

    /** The mutex is free again, its first waiter, if there is one, is off the list and about to try
        it, and a switch is due if that task is higher, or, without a waiter, if the giver dropped. */
    method GiveMutex(m: nat)
      requires Sane(State()) && Enabled(State(), Give(m))
      modifies this
      ensures State() == AfterGive(old(State()), m)
      ensures current == old(current) && current in tasks && m in old(mutexes)
      ensures var was, giver := old(mutexes)[m], old(tasks[current]);
              && mutexes == old(mutexes)[m := Mutex(was.count + 1, None,
                                                    if was.waiters == [] then [] else was.waiters[1..])]
              && tasks[current].held == giver.held - 1
              && tasks[current].prio == (if giver.held == 1 then giver.base else giver.prio)
              && (was.waiters == [] ==> (yielding <==> tasks[current].prio != giver.prio))
              && (was.waiters != [] ==>
                  && was.waiters[0] in tasks && tasks[was.waiters[0]].doing == Trying(m, true)
                  && (yielding <==> tasks[was.waiters[0]].prio > tasks[current].prio))
    {
      assert KnownTasks(State(), m);
      GiveDoes(State(), m);
      var yieldRequired := PriorityDisinherit();
      mutexes := mutexes[m := mutexes[m].(holder := None)];
      mutexes := mutexes[m := mutexes[m].(count := mutexes[m].count + 1)];
      if mutexes[m].waiters != [] {
        var higher := RemoveFromEventList(m);
        yielding := higher;
      } else {
        yielding := yieldRequired;
      }
    }

    // ----- The rest of the kernel -----

    /** One step of the kernel. */
    method Do(step: Step)
      requires Kept(State()) && Enabled(State(), step)
      modifies this
      ensures State() == After(old(State()), step) && Kept(State())
    {
      hide AfterTry, AfterDecide, AfterLeave, AfterGive, AfterWake, Accounts, Queued;
      StepKeeps(State(), step);
      match step {
        case Begin(m, patient) =>
          tasks := tasks[current := tasks[current].(doing := Trying(m, patient), inherited := false)];
        case Try => TakeOrGoOn();
        case Decide(expired) => BlockOrRetry(expired);
        case Recheck => RetryOrLeave();
        case Leave => FailToTake();
        case Give(m) => GiveMutex(m);
        case Sleep =>
          tasks := tasks[current := tasks[current].(doing := Sleeping)];
          yielding := true;
        case Wake(t) =>
          EndBlockTime(t);
        case Switch(t) =>
          current, yielding := t, false;
      }
    }

    /** The block time of `t` ran out, or what it slept on came. */
    method EndBlockTime(t: nat)
      requires Sane(State()) && Enabled(State(), Wake(t))
      modifies this
      ensures State() == AfterWake(old(State()), t)
      ensures t in old(tasks) && current in old(tasks) && current == old(current)
      ensures var doing := old(tasks)[t].doing;
              && tasks == old(tasks)[t := old(tasks)[t].(doing := if doing.Waiting? then Trying(doing.mutex, true) else
                   Working)]
              && (doing.Waiting? ==> doing.mutex in old(mutexes) && doing.mutex in mutexes
                                     && t !in mutexes[doing.mutex].waiters)
              && (doing.Sleeping? ==> mutexes == old(mutexes))
              && (yielding <==> old(yielding) || old(tasks)[t].prio > old(tasks)[current].prio)
    {
      assert KnownMutex(State(), t);
      yielding := yielding || tasks[t].prio > tasks[current].prio;
      if tasks[t].doing.Waiting? {
        var m := tasks[t].doing.mutex;
        mutexes := mutexes[m := mutexes[m].(waiters := Without(mutexes[m].waiters, t))];
        tasks := tasks[t := tasks[t].(doing := Trying(m, true))];
      } else {
        tasks := tasks[t := tasks[t].(doing := Working)];
      }
    }
  }
}
