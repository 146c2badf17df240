/** What a call to send, receive or peek comes to, from its beginning to its return, over whole runs:
    it is served, or it may not wait, or its time is up.

    Modelled code: nimble/os/freertos/queue.c:835-1044 (send), 1376-1510 (receive), 1729-1868 (peek). */
module Calls {
  import opened Sequences
  import opened Wakeups

  /** The first waiting task of a list at most becomes a woken one. */
  predicate SameOrWoken(from: Place, to: Place) {
    to == from || (from.Waiting? && to == Woken(from.call))
  }

  /** How far one step takes a task in its call. */
  ghost predicate Onward(q: Queue, step: Step, t: nat, to: Place)
    requires Enabled(q, step) && t in q.tasks
  {
    var from := q.tasks[t];
    match step
    case Begin(u, call, patient) => to == if u == t then Trying(call, patient) else from
    case Attempt(u) =>
      if u != t then SameOrWoken(from, to)
      else if (if from.call.Receive? || from.call.Peek? then q.messages != [] else
        |q.messages| < q.length || from.call.Overwrite?) then to == Away
      else to == if from == Trying(from.call, false) then Away else Pausing(from.call)
    case Suspend(u) => to == if u == t then Busy(from.call) else from
    case Join(_) => to == if q.holder.value.task == t then Waiting(from.call) else from
    case UnlockRx =>
      if q.holder.value.task == t && from.Busy? then
        to == if !q.holder.value.expired then Trying(from.call, true)
              else if from.call.Receive? || from.call.Peek? then Expired(from.call) else Away
      else SameOrWoken(from, to)
    case Recheck(u) => to == if u != t then from else if q.messages == [] then Away else Trying(from.call, false)
    case TimeOut(u) => to == if u == t then Trying(from.call, true) else from
    case _ => SameOrWoken(from, to)
  }

  /** The task that has the scheduler suspended has found its time to be up. */
  predicate Late(q: Queue, t: nat) {
    q.holder.Some? && q.holder.value.task == t && q.holder.value.expired
  }

  lemma {:induction false} WakeOnward(q: Queue, side: Side, t: nat)
    requires q.List(side) != [] ==> q.List(side)[0] in q.tasks && q.tasks[q.List(side)[0]].Waiting?
    requires t in q.tasks
    ensures var a := WakeFirst(q, side);
            t in a.tasks && SameOrWoken(q.tasks[t], a.tasks[t]) && a.holder == q.holder && a.messages == q.messages
  {
  }

  lemma {:induction false} SignalOnward(q: Queue, side: Side, t: nat)
    requires q.List(side) != [] ==> q.List(side)[0] in q.tasks && q.tasks[q.List(side)[0]].Waiting?
    requires t in q.tasks
    ensures var a := Signal(q, side); t in a.tasks && SameOrWoken(q.tasks[t], a.tasks[t]) && a.holder == q.holder
  {
    WakeOnward(q, side, t);
  }

  lemma {:induction false} PayOffOnward(q: Queue, side: Side, owed: nat, t: nat)
    requires Listed(q, side) && t in q.tasks
    ensures var a := PayOff(q, side, owed);
            t in a.tasks && SameOrWoken(q.tasks[t], a.tasks[t]) && a.holder == q.holder
    decreases owed
  {
    if owed > 0 && q.List(side) != [] {
      FirstIsListed(q, side);
      WakeKeepsListed(q, side, side);
      WakeOnward(q, side, t);
      PayOffOnward(WakeFirst(q, side), side, owed - 1, t);
    }
  }

  lemma {:induction false} AttemptOnward(q: Queue, u: nat, t: nat)
    requires Enabled(q, Attempt(u)) && Listed(q, Receiving) && Listed(q, Sending) && t in q.tasks
    ensures var a := AfterAttempt(q, u);
            t in a.tasks && Onward(q, Attempt(u), t, a.tasks[t]) && (Late(a, t) ==> Late(q, t))
  {
    hide Listed, WakeFirst;
    var call := q.tasks[u].call;
    if Possible(q, call) {
      NotListed(q, u, Away);
      var c := q.Put(u, Away);
      WakeKeepsListed(c, Receiving, Receiving);
      WakeKeepsListed(c, Sending, Sending);
      WakeOnward(c.(messages := if call.Receive? then c.messages[1..] else c.messages), Sending, t);
      WakeOnward(c, Receiving, t);
      if call.Side().Sending? {
        WakeOnward(c.(messages := Added(c, call)), Receiving, t);
      }
    }
  }

  lemma {:induction false} InterruptOnward(q: Queue, step: Step, t: nat)
    requires Enabled(q, step) && Listed(q, Receiving) && Listed(q, Sending) && t in q.tasks
    requires step.InterruptSend? || step.InterruptReceive?
    ensures var a := After(q, step); t in a.tasks && Onward(q, step, t, a.tasks[t]) && (Late(a, t) ==> Late(q, t))
  {
    WakeKeepsListed(q, Receiving, Receiving);
    WakeKeepsListed(q, Sending, Sending);
    hide Listed, Signal;
    if step.InterruptSend? {
      SignalOnward(q.(messages := Added(q, step.call)), Receiving, t);
    } else if q.messages != [] {
      SignalOnward(q.(messages := q.messages[1..]), Sending, t);
    }
  }

  lemma {:induction false} UnlockOnward(q: Queue, step: Step, t: nat)
    requires Enabled(q, step) && Listed(q, Receiving) && Listed(q, Sending) && t in q.tasks
    requires step.UnlockTx? || step.UnlockRx?
    ensures var a := After(q, step); t in a.tasks && Onward(q, step, t, a.tasks[t]) && (Late(a, t) ==> Late(q, t))
  {
    PayOffOnward(q, Receiving, Owed(q, Receiving), t);
    PayOffOnward(q, Sending, Owed(q, Sending), t);
    PayOffOnward(q, Sending, Owed(q, Sending), q.holder.value.task);
    hide Listed, PayOff;
  }

  lemma {:induction false} StepOnward(q: Queue, step: Step, t: nat)
    requires Enabled(q, step) && Listed(q, Receiving) && Listed(q, Sending) && t in q.tasks
    ensures t in After(q, step).tasks && Onward(q, step, t, After(q, step).tasks[t])
    ensures Late(After(q, step), t) ==>
              Late(q, t) || (step == Check(true) && q.holder.Some? && q.holder.value.task == t)
  {
    match step
    case Attempt(u) => AttemptOnward(q, u, t);
    case InterruptSend(_) => InterruptOnward(q, step, t);
    case InterruptReceive => InterruptOnward(q, step, t);
    case UnlockTx => UnlockOnward(q, step, t);
    case UnlockRx => UnlockOnward(q, step, t);
    case _ =>
      hide Listed, PayOff, AfterAttempt, AfterUnlockTx, AfterUnlockRx, AfterInterruptSend, AfterInterruptReceive,
           Without;
  }

  // ----- A call, from its beginning -----

  /** Step `b` is the last among the first `n` at which `t` began a call. */
  ghost predicate BeganAt(steps: seq<Step>, n: nat, t: nat, b: nat) {
    && b < n <= |steps| && steps[b].Begin? && steps[b].task == t
    && forall j :: b < j < n ==> steps[j].Begin? ==> steps[j].task != t
  }

  /** Between steps `b` and `n` the time of `t` was up when it was checked. */
  ghost predicate TimedOut(states: seq<Queue>, steps: seq<Step>, b: nat, n: nat, t: nat) {
    exists j :: b < j < n <= |steps| < |states| && steps[j] == Check(true) && states[j].holder.Some?
        && states[j].holder.value.task == t
  }

  /** What is known of a task that is in the call that `begin` began. */
  predicate InCall(place: Place, late: bool, begin: Step, timedOut: bool) {
    && begin.Begin? && !place.Away? && place.call == begin.call
    && match place
       case Trying(_, patient) => (patient ==> begin.patient) && (begin.patient ==> patient || timedOut)
       case Busy(_) => begin.patient && (late ==> timedOut)
       case Expired(call) => begin.patient && timedOut && (call.Receive? || call.Peek?)
       case _ => begin.patient
  }

  /** Task `t` is in the call that began at step `b`. */
  ghost predicate CallFrom(states: seq<Queue>, steps: seq<Step>, n: nat, t: nat, b: nat) {
    && BeganAt(steps, n, t, b) && n < |states| && t in states[n].tasks
    && InCall(states[n].tasks[t], Late(states[n], t), steps[b], TimedOut(states, steps, b, n, t))
  }

  /** One step of a task that is in a call. */
  lemma {:induction false} CallStep(q: Queue, step: Step, t: nat, to: Place, late: bool, begin: Step, timedOut: bool)
    requires Enabled(q, step) && t in q.tasks && Onward(q, step, t, to) && !to.Away?
    requires InCall(q.tasks[t], Late(q, t), begin, timedOut) && Locked(q)
    requires late ==> Late(q, t) || (step == Check(true) && q.holder.Some? && q.holder.value.task == t)
    ensures InCall(to, late, begin, timedOut || (step == Check(true) && q.holder.Some? && q.holder.value.task == t))
    ensures step.Begin? ==> step.task != t
  {
  }

  lemma {:induction false} CallGoesOn(states: seq<Queue>, steps: seq<Step>, n: nat, t: nat, b: nat)
    requires |states| == |steps| + 1 && n < |steps| && CallFrom(states, steps, n, t, b) && t in states[n].tasks
    requires Enabled(states[n], steps[n]) && t in states[n + 1].tasks && !states[n + 1].tasks[t].Away?
    requires Onward(states[n], steps[n], t, states[n + 1].tasks[t])
    requires Locked(states[n])
    requires Late(states[n + 1], t) ==>
               Late(states[n], t)
               || (steps[n] == Check(true) && states[n].holder.Some? && states[n].holder.value.task == t)
    ensures CallFrom(states, steps, n + 1, t, b)
  {
    var q, a, step := states[n], states[n + 1], steps[n];
    CallStep(q, step, t, a.tasks[t], Late(a, t), steps[b], TimedOut(states, steps, b, n, t));
    assert step == Check(true) && q.holder.Some? && q.holder.value.task == t ==> TimedOut(states, steps, b, n + 1, t);
    assert TimedOut(states, steps, b, n, t) ==> TimedOut(states, steps, b, n + 1, t);
    hide Onward, Enabled, TimedOut;
    assert BeganAt(steps, n + 1, t, b);
    assert InCall(a.tasks[t], Late(a, t), steps[b], TimedOut(states, steps, b, n + 1, t));
  }

  lemma {:induction false} JustBegun(states: seq<Queue>, steps: seq<Step>, n: nat, t: nat)
    requires |states| == |steps| + 1 && n < |steps| && steps[n].Begin? && steps[n].task == t && t in states[n].tasks
    requires Enabled(states[n], steps[n]) && t in states[n + 1].tasks
    requires Onward(states[n], steps[n], t, states[n + 1].tasks[t])
    ensures CallFrom(states, steps, n + 1, t, n)
  {
    hide TimedOut;
  }

  lemma {:induction false} AttemptTasks(q: Queue, u: nat)
    requires Enabled(q, Attempt(u)) && Listed(q, Receiving) && Listed(q, Sending)
    ensures AfterAttempt(q, u).tasks.Keys == q.tasks.Keys
  {
    if Possible(q, q.tasks[u].call) {
      NotListed(q, u, Away);
      var c := q.Put(u, Away);
      WakeKeepsListed(c, Receiving, Receiving);
      WakeKeepsListed(c, Sending, Sending);
      hide Listed;
    }
  }

  lemma {:induction false} PayOffTasks(q: Queue, side: Side, owed: nat)
    requires Listed(q, side)
    ensures PayOff(q, side, owed).tasks.Keys == q.tasks.Keys && PayOff(q, side, owed).holder == q.holder
    decreases owed
  {
    if owed > 0 && q.List(side) != [] {
      FirstIsListed(q, side);
      WakeKeepsListed(q, side, side);
      PayOffTasks(WakeFirst(q, side), side, owed - 1);
    }
  }

  lemma {:induction false} UnlockTasks(q: Queue, step: Step)
    requires Enabled(q, step) && Listed(q, Receiving) && Listed(q, Sending) && (step.UnlockTx? || step.UnlockRx?)
    ensures After(q, step).tasks.Keys == q.tasks.Keys
  {
    PayOffTasks(q, Receiving, Owed(q, Receiving));
    PayOffTasks(q, Sending, Owed(q, Sending));
    hide Listed, PayOff;
  }

  lemma {:induction false} InterruptTasks(q: Queue, step: Step)
    requires Enabled(q, step) && Listed(q, Receiving) && Listed(q, Sending)
    requires step.InterruptSend? || step.InterruptReceive?
    ensures After(q, step).tasks.Keys == q.tasks.Keys
  {
    WakeKeepsListed(q, Receiving, Receiving);
    WakeKeepsListed(q, Sending, Sending);
    hide Listed, Signal;
    if step.InterruptSend? {
      SignalTasks(q.(messages := Added(q, step.call)), Receiving);
    } else if q.messages != [] {
      SignalTasks(q.(messages := q.messages[1..]), Sending);
    }
  }

  lemma {:induction false} SignalTasks(q: Queue, side: Side)
    requires q.List(side) != [] ==> q.List(side)[0] in q.tasks && q.tasks[q.List(side)[0]].Waiting?
    ensures Signal(q, side).tasks.Keys == q.tasks.Keys
  {
  }

  lemma {:induction false} SameTasks(q: Queue, step: Step)
    requires Enabled(q, step) && Listed(q, Receiving) && Listed(q, Sending) && !step.Create?
    ensures After(q, step).tasks.Keys == q.tasks.Keys
  {
    hide Listed, AfterAttempt, AfterUnlockTx, AfterUnlockRx, AfterInterruptSend, AfterInterruptReceive, Without;
    match step
    case Attempt(u) => AttemptTasks(q, u);
    case UnlockTx => UnlockTasks(q, step);
    case UnlockRx => UnlockTasks(q, step);
    case InterruptSend(_) => InterruptTasks(q, step);
    case InterruptReceive => InterruptTasks(q, step);
    case _ =>
  }

  /** A task that is in a call is in one that it began. */
  lemma {:induction false} CallsBegin(states: seq<Queue>, steps: seq<Step>, n: nat, t: nat) returns (b: nat)
    requires Path(states, steps) && Start(states[0]) && n <= |steps|
    requires t in states[n].tasks && !states[n].tasks[t].Away?
    ensures CallFrom(states, steps, n, t, b)
  {
    hide Inv, Onward, Enabled, After, Listed, Locked, InCall, TimedOut, BeganAt, Late;
    if n == 0 {
      assert false;
    } else {
      hide Start;
      var q, step := states[n - 1], steps[n - 1];
      assert Leads(q, step, states[n]);
      InvAlways(states, steps, n - 1);
      InvParts(q);
      if t !in q.tasks {
        ArrivesAway(q, step, t);
        assert false;
      } else {
        StepOnward(q, step, t);
        if step.Begin? && step.task == t {
          b := n - 1;
          JustBegun(states, steps, n - 1, t);
        } else {
          StillCalling(q, step, t, states[n].tasks[t]);
          b := CallsBegin(states, steps, n - 1, t);
          CallGoesOn(states, steps, n - 1, t, b);
        }
      }
    }
  }

  lemma {:induction false} ArrivesAway(q: Queue, step: Step, t: nat)
    requires Enabled(q, step) && Listed(q, Receiving) && Listed(q, Sending)
    requires t in After(q, step).tasks && t !in q.tasks
    ensures After(q, step).tasks[t] == Away
  {
    if step.Create? {
      hide Listed;
    } else {
      SameTasks(q, step);
      hide *;
    }
  }

  lemma {:induction false} StillCalling(q: Queue, step: Step, t: nat, to: Place)
    requires Enabled(q, step) && t in q.tasks && Onward(q, step, t, to) && !to.Away?
    requires !(step.Begin? && step.task == t)
    ensures !q.tasks[t].Away?
  {
  }

  // ----- What a call comes to -----

  /** What a call that is served does to the messages. */
  predicate ServedWith(call: Call, before: seq<int>, after: seq<int>) {
    match call
    case Receive => before != [] && after == before[1..]
    case Peek => before != [] && after == before
    case SendBack(x) => after == before + [x]
    case SendFront(x) => after == [x] + before
    case Overwrite(x) => after == [x]
  }

  /** There is a message, or room, for the call. */
  predicate CanGoOn(q: Queue, call: Call) {
    if call.Receive? || call.Peek? then q.messages != [] else |q.messages| < q.length || call.Overwrite?
  }

  lemma {:induction false} AttemptEnds(q: Queue, t: nat)
    requires Inv(q) && Enabled(q, Attempt(t))
    ensures var a, call := AfterAttempt(q, t), q.tasks[t].call;
            && t in a.tasks && (a.tasks[t].Away? <==> CanGoOn(q, call) || q.tasks[t] == Trying(call, false))
            && (CanGoOn(q, call) ==> ServedWith(call, q.messages, a.messages))
            && (!CanGoOn(q, call) ==>
                a == q.(tasks := q.tasks[t := if q.tasks[t] == Trying(call, false) then Away else Pausing(call)]))
  {
    InvParts(q);
    AttemptOnward(q, t, t);
    hide Inv, Listed, Locked, Minded, WakeFirst;
    var call := q.tasks[t].call;
    if Possible(q, call) {
      NotListed(q, t, Away);
      var c := q.Put(t, Away);
      WakeKeepsListed(c, Receiving, Receiving);
      WakeKeepsListed(c, Sending, Sending);
      WakeOnward(c.(messages := if call.Receive? then c.messages[1..] else c.messages), Sending, t);
      WakeOnward(c, Receiving, t);
      if call.Side().Sending? {
        WakeOnward(c.(messages := Added(c, call)), Receiving, t);
      }
    }
  }

  lemma {:induction false} Ends(q: Queue, step: Step, t: nat, to: Place)
    requires Enabled(q, step) && t in q.tasks && Onward(q, step, t, to) && !q.tasks[t].Away? && to.Away?
    requires Locked(q)
    ensures step == Attempt(t)
            || (step == Recheck(t) && q.messages == [] && q.tasks[t].Expired?)
            || (step == UnlockRx && q.tasks[t].Busy? && Late(q, t) && q.tasks[t].call.Side().Sending?)
  {
  }

  /** How a call ends: served, with its message taken out or put in, because there was one, or room;
      or without that, because it may not wait and could not go on, or because its time was up when that
      was checked; and a receive whose time was up found the queue empty when it looked last. */
  lemma {:induction false} CallEnds(states: seq<Queue>, steps: seq<Step>, i: nat, t: nat) returns (b: nat)
    requires Path(states, steps) && Start(states[0]) && i < |steps|
    requires t in states[i].tasks && !states[i].tasks[t].Away?
    requires t in states[i + 1].tasks && states[i + 1].tasks[t].Away?
    ensures BeganAt(steps, i, t, b)
    ensures var q, a, call := states[i], states[i + 1], steps[b].call;
            || (steps[i] == Attempt(t) && CanGoOn(q, call) && ServedWith(call, q.messages, a.messages))
            || (steps[i] == Attempt(t) && !CanGoOn(q, call) && a == q.(tasks := q.tasks[t := Away])
                && (!steps[b].patient || TimedOut(states, steps, b, i, t)))
            || (steps[b].patient && TimedOut(states, steps, b, i, t)
                && if call.Receive? || call.Peek? then steps[i] == Recheck(t) && q.messages == [] && a.messages == []
                   else steps[i] == UnlockRx && a.messages == q.messages)
  {
    var q, step, a := states[i], steps[i], states[i + 1];
    b := CallsBegin(states, steps, i, t);
    hide Onward, Start, TimedOut, BeganAt, Locked, Listed, Minded;
    InvAlways(states, steps, i);
    InvParts(q);
    assert Leads(q, step, a);
    StepOnward(q, step, t);
    Ends(q, step, t, a.tasks[t]);
    hide Path, Inv, Leads;
    if step == Attempt(t) {
      AttemptEnds(q, t);
      hide AfterAttempt;
    } else if step == UnlockRx {
      PayOffMessages(q, Sending, Owed(q, Sending));
      hide PayOff;
    }
  }

  lemma {:induction false} PayOffMessages(q: Queue, side: Side, owed: nat)
    requires Listed(q, side)
    ensures PayOff(q, side, owed).messages == q.messages
    decreases owed
  {
    if owed > 0 && q.List(side) != [] {
      FirstIsListed(q, side);
      WakeKeepsListed(q, side, side);
      PayOffMessages(WakeFirst(q, side), side, owed - 1);
    }
  }

  /** A call that may not wait never does: until it returns, at its first look, it has only that to do. */
  lemma {:induction false} ImpatientOnlyLooks(states: seq<Queue>, steps: seq<Step>, i: nat, t: nat, b: nat)
    requires Path(states, steps) && Start(states[0]) && i < |steps|
    requires t in states[i].tasks && !states[i].tasks[t].Away? && BeganAt(steps, i, t, b) && !steps[b].patient
    ensures states[i].tasks[t] == Trying(steps[b].call, false)
    ensures steps[i] == Attempt(t) ==>
              && t in states[i + 1].tasks && states[i + 1].tasks[t].Away?
              && (CanGoOn(states[i], steps[b].call) ==>
                  ServedWith(steps[b].call, states[i].messages, states[i + 1].messages))
              && (!CanGoOn(states[i], steps[b].call) ==>
                  states[i + 1] == states[i].(tasks := states[i].tasks[t := Away]))
  {
    var c := CallsBegin(states, steps, i, t);
    InvAlways(states, steps, i);
    assert Leads(states[i], steps[i], states[i + 1]);
    hide Path, Start, TimedOut, Inv;
    assert c == b;
    if steps[i] == Attempt(t) {
      AttemptEnds(states[i], t);
      hide AfterAttempt;
    }
  }

  /** A call that may wait and cannot go on does wait: unless its time is up, it goes on the waiting
      list. */
  lemma {:induction false} StuckGoesOnList(states: seq<Queue>, steps: seq<Step>, i: nat, expired: bool)
    requires Path(states, steps) && Start(states[0]) && i < |steps|
    requires steps[i] == Check(expired) || steps[i].Join?
    ensures states[i].holder.Some? && states[i].holder.value.task in states[i].tasks
    ensures var q, a, t := states[i], states[i + 1], states[i].holder.value.task;
            && t in a.tasks && q.tasks[t].Busy?
            && (steps[i] == Check(expired) ==>
                var call := q.tasks[t].call;
                var full := if call.Receive? || call.Peek? then q.messages == [] else |q.messages| == q.length;
                a == q.(holder := Some(Holder(t, if !expired && full then Joining else UnlockingTx, expired))))
            && (steps[i].Join? ==>
                && a.tasks[t] == Waiting(q.tasks[t].call) && t in a.List(q.tasks[t].call.Side())
                && a.messages == q.messages)
  {
    InvAlways(states, steps, i);
    assert Leads(states[i], steps[i], states[i + 1]);
    InvParts(states[i]);
    hide Path, Start, Inv, Listed, Minded;
    if steps[i].Join? {
      var q, t := states[i], states[i].holder.value.task;
      InsertedMembers(q.List(q.tasks[t].call.Side()), steps[i].at, t);
      hide Inserted;
    }
  }

  // ----- A run in which a task waits -----

  /** A queue that task `t` alone uses. */
  function Alone(length: nat, messages: seq<int>, tx: int, rx: int, receivers: seq<nat>, t: nat, place: Place,
                 holder: Option<Holder>): Queue
  {
    Queue(length, messages, tx, rx, receivers, [], map[t := place], holder)
  }

  lemma {:induction false} AloneListed(q: Queue, t: nat, place: Place)
    requires q.tasks == map[t := place] && q.senders == []
    requires if place == Waiting(Receive) then q.receivers == [t] else !place.Waiting? && q.receivers == []
    ensures Listed(q, Receiving) && Listed(q, Sending)
  {
  }

  /** The states of the run, and its steps. */
  function Stage(length: nat, t: nat, x: int, i: nat): (q: Queue) {
    var held := (phase: Phase) => Some(Holder(t, phase, false));
    match i
    case 0 => Alone(length, [], UNLOCKED, UNLOCKED, [], t, Away, None)
    case 1 => Alone(length, [], UNLOCKED, UNLOCKED, [], t, Trying(Receive, true), None)
    case 2 => Alone(length, [], UNLOCKED, UNLOCKED, [], t, Pausing(Receive), None)
    case 3 => Alone(length, [], 0, 0, [], t, Busy(Receive), held(Checking))
    case 4 => Alone(length, [], 0, 0, [], t, Busy(Receive), held(Joining))
    case 5 => Alone(length, [], 0, 0, [t], t, Waiting(Receive), held(UnlockingTx))
    case 6 => Alone(length, [], UNLOCKED, 0, [t], t, Waiting(Receive), held(UnlockingRx))
    case 7 => Alone(length, [], UNLOCKED, UNLOCKED, [t], t, Waiting(Receive), None)
    case 8 => Alone(length, [x], UNLOCKED, UNLOCKED, [], t, Woken(Receive), None)
    case _ => Alone(length, [], UNLOCKED, UNLOCKED, [], t, Away, None)
  }

  function Move(t: nat, x: int, i: nat): Step {
    match i
    case 0 => Begin(t, Receive, true)
    case 1 => Attempt(t)
    case 2 => Suspend(t)
    case 3 => Check(false)
    case 4 => Join(0)
    case 5 => UnlockTx
    case 6 => UnlockRx
    case 7 => InterruptSend(SendBack(x))
    case _ => Attempt(t)
  }

  lemma {:induction false} StageListed(length: nat, t: nat, x: int, i: nat)
    ensures Listed(Stage(length, t, x, i), Receiving) && Listed(Stage(length, t, x, i), Sending)
  {
    AloneListed(Stage(length, t, x, i), t, Stage(length, t, x, i).tasks[t]);
  }

  lemma {:induction false} EarlyLeads(length: nat, t: nat, x: int, i: nat)
    requires length > 0 && i < 4
    ensures Leads(Stage(length, t, x, i), Move(t, x, i), Stage(length, t, x, i + 1))
  {
    StageListed(length, t, x, i);
    hide Listed, Served, AfterJoin, AfterUnlockTx, AfterUnlockRx, AfterInterruptSend, AfterInterruptReceive;
  }

  lemma {:induction false} MiddleLeads(length: nat, t: nat, x: int, i: nat)
    requires length > 0 && 4 <= i < 7
    ensures Leads(Stage(length, t, x, i), Move(t, x, i), Stage(length, t, x, i + 1))
  {
    StageListed(length, t, x, i);
    assert Inserted([], 0, t) == [t];
    hide Listed, AfterAttempt, AfterCheck, AfterSuspend, AfterInterruptSend, AfterInterruptReceive;
  }

  lemma {:induction false} LateLeads(length: nat, t: nat, x: int, i: nat)
    requires length > 0 && 7 <= i < 9
    ensures Leads(Stage(length, t, x, i), Move(t, x, i), Stage(length, t, x, i + 1))
  {
    StageListed(length, t, x, i);
    assert [] + [x] == [x] && [t][1..] == [];
    hide Listed, AfterCheck, AfterSuspend, AfterJoin, AfterUnlockTx, AfterUnlockRx, AfterInterruptReceive;
  }

  /** Task `t` finds the queue empty, waits, is woken when an interrupt sends, and gets that message. */
  lemma {:induction false} WaitsAndIsServed(length: nat, t: nat, x: int)
    returns (states: seq<Queue>, steps: seq<Step>)
    requires length > 0
    ensures Path(states, steps) && Start(states[0]) && |steps| == 9 && steps[0] == Begin(t, Receive, true)
    ensures states[7].tasks == map[t := Waiting(Receive)] && states[7].holder == None && states[7].receivers == [t]
    ensures steps[7] == InterruptSend(SendBack(x)) && states[8].tasks == map[t := Woken(Receive)]
    ensures states[8].messages == [x] && states[8].receivers == []
    ensures steps[8] == Attempt(t) && states[9].tasks == map[t := Away] && states[9].messages == []
  {
    states, steps := seq(10, i requires 0 <= i => Stage(length, t, x, i)), seq(9, i requires 0 <= i => Move(t, x, i));
    forall i | 0 <= i < |steps|
      ensures Leads(states[i], steps[i], states[i + 1])
    {
      hide Leads;
      if i < 4 {
        EarlyLeads(length, t, x, i);
      } else if i < 7 {
        MiddleLeads(length, t, x, i);
      } else {
        LateLeads(length, t, x, i);
      }
    }
    hide Leads;
    assert |map[t := Away]| == 1;
  }
}
