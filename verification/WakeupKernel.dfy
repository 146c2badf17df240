/** The code of the queue operations as it changes the queue in place, with its messages in the ring
    of module QueueStorage; each method is proved to make the step the state machine of module Wakeups
    makes.

    Modelled code: nimble/os/freertos/queue.c:251-293, 835-1044, 1046-1196, 1376-1510, 1729-1868,
    1870-1970, 2209-2275, 2279-2370. */
module WakeupKernel {
  import opened Sequences
  import opened Wakeups
  import opened MessageOrder
  import opened QueueStorage

  class Kernel {
    const storage: Storage
    var tx: int
    var rx: int
    var receivers: seq<nat>
    var senders: seq<nat>
    var tasks: map<nat, Place>
    var holder: Option<Holder>

    ghost predicate Valid()
      reads storage
    {
      storage.Valid()
    }

    ghost function State(): (q: Queue)
      requires Valid()
      reads this, storage, storage.data
      ensures q.messages == storage.Contents() && |q.messages| == storage.count && q.length == storage.data.Length > 0
    {
      Queue(storage.data.Length, storage.Contents(), tx, rx, receivers, senders, tasks, holder)
    }

    constructor (length: nat)
      requires length > 0
      ensures Valid() && fresh(storage) && fresh(storage.data)
      ensures State() == Queue(length, [], UNLOCKED, UNLOCKED, [], [], map[], None) && Start(State())
    {
      storage := new Storage(length);
      tx, rx, receivers, senders, tasks, holder := UNLOCKED, UNLOCKED, [], [], map[], None;
    }

    /** Takes the first task that waits for messages off its list. */
    method RemoveReceiver()
      requires Valid() && receivers != [] && receivers[0] in tasks && tasks[receivers[0]].Waiting?
      modifies this`receivers, this`tasks
      ensures State() == WakeFirst(old(State()), Receiving)
    {
      var w := receivers[0];
      receivers := receivers[1..];
      tasks := tasks[w := Woken(tasks[w].call)];
    }

    method RemoveSender()
      requires Valid() && senders != [] && senders[0] in tasks && tasks[senders[0]].Waiting?
      modifies this`senders, this`tasks
      ensures State() == WakeFirst(old(State()), Sending)
    {
      var w := senders[0];
      senders := senders[1..];
      tasks := tasks[w := Woken(tasks[w].call)];
    }

    /** Copies a message in: behind the others, in front of them, or in the place of the only one. */
    method CopyDataToQueue(call: Call)
      requires Valid() && call.Side().Sending?
      requires if call.Overwrite? then storage.data.Length == 1 else storage.count < storage.data.Length
      modifies storage, storage.data
      ensures Valid() && storage.count == old(storage.count) + if call.Overwrite?
              && old(storage.count) > 0 then 0 else 1
      ensures call.SendBack? ==> storage.Contents() == old(storage.Contents()) + [call.item]
      ensures call.SendFront? ==> storage.Contents() == [call.item] + old(storage.Contents())
      ensures call.Overwrite? ==> storage.Contents() == [call.item]
      ensures State() == old(State()).(messages := storage.Contents())
    {
      match call {
        case SendBack(x) => storage.CopyTo(x, Back);
        case SendFront(x) => storage.CopyTo(x, Front);
        case Overwrite(x) => storage.CopyTo(x, Over);
        case _ =>
      }
    }

    /** A receive or a peek that finds a message hands over the oldest one. */
    method HandOver(t: nat) returns (item: int)
      requires Valid() && Listed(State(), Receiving) && Listed(State(), Sending) && InLoop(State(), t)
      requires tasks[t].call.Side().Receiving? && storage.count > 0
      modifies storage, this`receivers, this`senders, this`tasks
      ensures Valid() && State() == AfterAttempt(old(State()), t) && item == old(storage.Contents())[0]
    {
      var call := tasks[t].call;
      ghost var q := State();
      AttemptServed(q, t);
      hide *;
      tasks := tasks[t := Away];
      if call.Receive? {
        item := storage.Receive();
        BeforeWaking(q, State(), t, call);
        if senders != [] {
          RemoveSender();
        } else {
          NobodyWakes(State(), Sending);
        }
      } else {
        item := storage.Peek();
        BeforeWaking(q, State(), t, call);
        if receivers != [] {
          RemoveReceiver();
        } else {
          NobodyWakes(State(), Receiving);
        }
      }
    }

    /** A send that finds room, or overwrites. */
    method TakeIn(t: nat)
      requires Valid() && Listed(State(), Receiving) && Listed(State(), Sending) && InLoop(State(), t)
      requires tasks[t].call.Side().Sending?
      requires if tasks[t].call.Overwrite? then storage.data.Length == 1 else storage.count < storage.data.Length
      modifies storage, storage.data, this`receivers, this`tasks
      ensures Valid() && State() == AfterAttempt(old(State()), t)
    {
      var call := tasks[t].call;
      ghost var q := State();
      AttemptServed(q, t);
      hide *;
      tasks := tasks[t := Away];
      CopyDataToQueue(call);
      CopiedIsAdded(q, call, storage.Contents());
      BeforeWaking(q, State(), t, call);
      if receivers != [] {
        RemoveReceiver();
      } else {
        NobodyWakes(State(), Receiving);
      }
    }

    /** The critical section at the top of the send, receive and peek loops. */
    method TopOfLoop(t: nat) returns (item: Option<int>)
      requires Valid() && Listed(State(), Receiving) && Listed(State(), Sending) && Enabled(State(), Attempt(t))
      modifies storage, storage.data, this`receivers, this`senders, this`tasks
      ensures Valid() && State() == AfterAttempt(old(State()), t)
      ensures item == if old(tasks[t]).call.Side().Receiving?
              && old(storage.count) > 0 then Some(old(storage.Contents())[0]) else None
      ensures t in old(tasks) && t in tasks
      ensures var call, n := old(tasks)[t].call, old(storage.count);
              var goesOn := if call.Receive? || call.Peek? then n > 0 else n < storage.data.Length || call.Overwrite?;
              && (goesOn ==> tasks[t] == Away && (call.Receive? ==> storage.count == n - 1)
                             && (call.SendBack? || call.SendFront? ==> storage.count == n + 1))
              && (!goesOn ==>
                  && tasks == old(tasks)[t := if old(tasks)[t] == Trying(call, false) then Away else Pausing(call)]
                  && storage.Contents() == old(storage.Contents())
                  && receivers == old(receivers) && senders == old(senders))
    {
      ghost var q := State();
      NotPossible(q, t);
      hide Listed;
      item := None;
      var call, impatient := tasks[t].call, tasks[t].Trying? && !tasks[t].patient;
      if call.Side().Receiving? {
        if storage.count > 0 {
          var first := HandOver(t);
          return Some(first);
        }
      } else if storage.count < storage.data.Length || call.Overwrite? {
        TakeIn(t);
        return;
      }
      tasks := tasks[t := if impatient then Away else Pausing(call)];
    }

    /** Suspends the scheduler and locks both sides of the queue. */
    method LockQueue(t: nat)
      requires Valid() && t in tasks && tasks[t].Pausing?
      modifies this`tx, this`rx, this`holder, this`tasks
      ensures State() == AfterSuspend(old(State()), t)
      ensures tx == (if old(tx) == -1 then 0 else old(tx)) && rx == (if old(rx) == -1 then 0 else old(rx))
      ensures holder == Some(Holder(t, Checking, false)) && tasks == old(tasks)[t := Busy(old(tasks)[t].call)]
    {
      holder := Some(Holder(t, Checking, false));
      tasks := tasks[t := Busy(tasks[t].call)];
      if rx == UNLOCKED {
        rx := 0;
      }
      if tx == UNLOCKED {
        tx := 0;
      }
    }

    method SendFromISR(call: Call) returns (sent: bool)
      requires Valid() && call.Side().Sending? && Listed(State(), Receiving) && Enabled(State(), InterruptSend(call))
      modifies storage, storage.data, this`tx, this`receivers, this`tasks
      ensures Valid() && State() == AfterInterruptSend(old(State()), call) && sent == Possible(old(State()), call)
      ensures sent <==> old(storage.count) < storage.data.Length || call.Overwrite?
      ensures !sent ==> State() == old(State())
      ensures sent && old(tx) == UNLOCKED && old(receivers) != [] ==>
                && tx == UNLOCKED && receivers == old(receivers)[1..]
                && old(receivers)[0] in tasks && tasks[old(receivers)[0]].Woken?
      ensures sent && old(tx) != UNLOCKED ==>
                receivers == old(receivers) && tasks == old(tasks)
                && tx == if old(tx) < |tasks| then old(tx) + 1 else old(tx)
    {
      sent := false;
      if storage.count < storage.data.Length || call.Overwrite? {
        ghost var q := State();
        SendServed(q, call);
        OverwritesOne(q, call);
        hide *;
        CopyDataToQueue(call);
        CopiedIsAdded(q, call, storage.Contents());
        SignalCases(State());
        if tx == UNLOCKED {
          if receivers != [] {
            RemoveReceiver();
          }
        } else if tx < |tasks| {
          tx := tx + 1;
        }
        sent := true;
      }
    }

    method ReceiveFromISR() returns (received: bool, item: Option<int>)
      requires Valid() && Listed(State(), Sending)
      modifies storage, this`rx, this`senders, this`tasks
      ensures Valid() && State() == AfterInterruptReceive(old(State())) && received == (old(storage.count) > 0)
      ensures item == if received then Some(old(storage.Contents())[0]) else None
      ensures received ==> storage.Contents() == old(storage.Contents())[1..]
      ensures !received ==> State() == old(State())
      ensures received && old(rx) == UNLOCKED && old(senders) != [] ==>
                && rx == UNLOCKED && senders == old(senders)[1..]
                && old(senders)[0] in tasks && tasks[old(senders)[0]].Woken?
      ensures received && old(rx) != UNLOCKED ==>
                senders == old(senders) && tasks == old(tasks)
                && rx == if old(rx) < |tasks| then old(rx) + 1 else old(rx)
    {
      received, item := false, None;
      if storage.count > 0 {
        FirstOf(State(), Sending);
        hide Listed;
        var first := storage.Receive();
        item := Some(first);
        if rx == UNLOCKED {
          if senders != [] {
            RemoveSender();
          }
        } else if rx < |tasks| {
          rx := rx + 1;
        }
        received := true;
      }
    }

    /** The first half of the unlock: receivers are woken for what interrupts have sent. */
    method UnlockSent()
      requires Valid() && Listed(State(), Receiving)
      modifies this`tx, this`receivers, this`tasks
      ensures State() == PayOff(old(State()), Receiving, Owed(old(State()), Receiving))
    {
      var owed := tx;
      ghost var goal := PayOff(State(), Receiving, Owed(State(), Receiving));
      while owed > 0
        invariant Listed(State(), Receiving)
        invariant PayOff(State(), Receiving, if owed > 0 then owed else 0) == goal
        decreases owed
      {
        if receivers == [] {
          break;
        }
        PayOffUnfolds(State(), Receiving, owed);
        WakeKeepsListed(State(), Receiving, Receiving);
        RemoveReceiver();
        owed := owed - 1;
      }
      tx := UNLOCKED;
    }

    /** The second half: senders are woken for what interrupts have received. */
    method UnlockReceived()
      requires Valid() && Listed(State(), Sending)
      modifies this`rx, this`senders, this`tasks
      ensures State() == PayOff(old(State()), Sending, Owed(old(State()), Sending))
    {
      var owed := rx;
      ghost var goal := PayOff(State(), Sending, Owed(State(), Sending));
      while owed > 0
        invariant Listed(State(), Sending)
        invariant PayOff(State(), Sending, if owed > 0 then owed else 0) == goal
        decreases owed
      {
        if senders == [] {
          break;
        }
        PayOffUnfolds(State(), Sending, owed);
        WakeKeepsListed(State(), Sending, Sending);
        RemoveSender();
        owed := owed - 1;
      }
      rx := UNLOCKED;
    }

    // ----- The rest of a call -----

    /** With the queue locked: go on the waiting list, or try again, or give up. */
    method CheckForTimeOut(expired: bool)
      requires Valid() && Holds(State(), Checking)
      modifies this`holder
      ensures State() == AfterCheck(old(State()), expired)
      ensures old(holder).Some? && old(holder).value.task in tasks
      ensures var h, call := old(holder).value, tasks[old(holder).value.task].call;
              var joins := && !expired
                           && storage.count == if call.Receive? || call.Peek? then 0 else storage.data.Length;
              holder == Some(Holder(h.task, if joins then Joining else UnlockingTx, expired))
    {
      var h := holder.value;
      var stuck := if tasks[h.task].call.Side().Receiving? then storage.count == 0
          else storage.count == storage.data.Length;
      holder := Some(h.(phase := if !expired && stuck then Joining else UnlockingTx, expired := expired));
    }

    method JoinList(at: nat)
      requires Valid() && Holds(State(), Joining) && at <= |State().List(tasks[holder.value.task].call.Side())|
      modifies this`receivers, this`senders, this`tasks, this`holder
      ensures State() == AfterJoin(old(State()), at)
      ensures old(holder).Some? && old(holder).value.task in tasks
      ensures var t := old(holder).value.task;
              && tasks == old(tasks)[t := Waiting(old(tasks)[t].call)]
              && (old(tasks)[t].call.Side().Receiving? ==>
                  receivers == Inserted(old(receivers), at, t) && senders == old(senders))
              && (old(tasks)[t].call.Side().Sending? ==>
                  senders == Inserted(old(senders), at, t) && receivers == old(receivers))
    {
      var h := holder.value;
      var call := tasks[h.task].call;
      if call.Side().Receiving? {
        receivers := Inserted(receivers, at, h.task);
      } else {
        senders := Inserted(senders, at, h.task);
      }
      tasks := tasks[h.task := Waiting(call)];
      holder := Some(h.(phase := UnlockingTx));
    }

    method UnlockFirst()
      requires Valid() && Holds(State(), UnlockingTx) && Listed(State(), Receiving)
      modifies this`tx, this`receivers, this`tasks, this`holder
      ensures State() == AfterUnlockTx(old(State()))
    {
      hide Listed, PayOff;
      var h := holder.value;
      UnlockSent();
      holder := Some(h.(phase := UnlockingRx));
    }

    /** The other half of the unlock, and the scheduler goes on. */
    method UnlockLast()
      requires Valid() && Holds(State(), UnlockingRx) && Listed(State(), Sending)
      modifies this`rx, this`senders, this`tasks, this`holder
      ensures State() == AfterUnlockRx(old(State()))
    {
      hide Listed, PayOff;
      var h := holder.value;
      UnlockReceived();
      holder := None;
      if h.task in tasks && tasks[h.task].Busy? {
        var call := tasks[h.task].call;
        tasks := tasks[h.task := if !h.expired then Trying(call, true) else if call.Side().Receiving? then
            Expired(call) else Away];
      }
    }

    /** The block time of a waiting task runs out. */
    method EndBlockTime(t: nat)
      requires Valid() && t in tasks && tasks[t].Waiting?
      modifies this`receivers, this`senders, this`tasks
      ensures State() == AfterTimeOut(old(State()), t)
    {
      if tasks[t].call.Side().Receiving? {
        receivers := Without(receivers, t);
      } else {
        senders := Without(senders, t);
      }
      tasks := tasks[t := Trying(tasks[t].call, true)];
    }

    /** A step that is a task's alone. */
    method MoveTask(t: nat, place: Place)
      requires Valid()
      modifies this`tasks
      ensures State() == old(State()).Put(t, place)
    {
      tasks := tasks[t := place];
    }

    /** One step of the tasks and interrupts that use the queue, and the message it hands over. */
    method Do(step: Step) returns (given: seq<int>)
      requires Valid() && Inv(State()) && Enabled(State(), step)
      modifies this, storage, storage.data
      ensures Valid() && State() == After(old(State()), step) && Inv(State()) && given == Delivered(old(State()), step)
    {
      InvParts(State());
      StepKeeps(State(), step);
      hide Inv, Listed, Locked, Minded, AfterAttempt, AfterSuspend, AfterCheck, AfterJoin, AfterUnlockTx, AfterUnlockRx,
           AfterTimeOut, AfterInterruptSend, AfterInterruptReceive, Possible;
      given := [];
      match step {
        case Begin(t, call, patient) => MoveTask(t, Trying(call, patient));
        case Attempt(t) =>
          var call := tasks[t].call;
          var item := TopOfLoop(t);
          given := if call.Receive? && item.Some? then [item.value] else [];
        case Suspend(t) => LockQueue(t);
        case Check(expired) => CheckForTimeOut(expired);
        case Join(at) => JoinList(at);
        case UnlockTx => UnlockFirst();
        case UnlockRx => UnlockLast();
        case Recheck(t) => MoveTask(t, if storage.count == 0 then Away else Trying(tasks[t].call, false));
        case TimeOut(t) => EndBlockTime(t);
        case InterruptSend(call) =>
          var sent := SendFromISR(call);
        case InterruptReceive =>
          var received, item := ReceiveFromISR();
          given := if item.Some? then [item.value] else [];
        case Create(t) => MoveTask(t, Away);
      }
    }
  }

  /** A whole run of the code on a new queue: it passes through the states of the machine, and hands
      over what was sent. Sent to the back, the messages come out in order, and the rest is in the
      ring; sent to either end, none is lost and none comes twice. */
  method Run(length: nat, ghost states: seq<Queue>, steps: seq<Step>) returns (kernel: Kernel, given: seq<int>)
    requires length > 0 && Path(states, steps)
    requires states[0] == Queue(length, [], UNLOCKED, UNLOCKED, [], [], map[], None)
    ensures kernel.Valid() && kernel.State() == states[|steps|]
    ensures RunFits(steps, true) ==> given + kernel.storage.Contents() == AllAccepted(states, steps, |steps|)
    ensures RunFits(steps, false) ==>
              multiset(given) + multiset(kernel.storage.Contents()) == multiset(AllAccepted(states, steps, |steps|))
  {
    kernel := new Kernel(length);
    given := [];
    hide After, Inv, Listed, Accepted, Delivered, StepFits;
    for i := 0 to |steps|
      invariant fresh(kernel) && fresh(kernel.storage) && fresh(kernel.storage.data)
      invariant kernel.Valid() && kernel.State() == states[i] && given == AllDelivered(states, steps, i)
    {
      InvAlways(states, steps, i);
      assert Leads(states[i], steps[i], states[i + 1]);
      var out := kernel.Do(steps[i]);
      given := given + out;
    }
    if RunFits(steps, true) {
      FirstInFirstOut(states, steps);
    }
    if RunFits(steps, false) {
      NoneLost(states, steps);
    }
  }

  lemma {:induction false} NotPossible(q: Queue, t: nat)
    requires InLoop(q, t) && Listed(q, Receiving) && Listed(q, Sending)
    ensures !Possible(q, q.tasks[t].call) ==>
              AfterAttempt(q, t) == q.Put(t, if q.tasks[t] == Trying(q.tasks[t].call, false) then Away else
                                               Pausing(q.tasks[t].call))
  {
    hide Listed, Served;
  }

  /** What the copying promises leaves one sequence of messages. */
  lemma {:induction false} CopiedIsAdded(q: Queue, call: Call, messages: seq<int>)
    requires call.Side().Sending? && (call.Overwrite? ==> |q.messages| <= 1)
    requires call.SendBack? ==> messages == q.messages + [call.item]
    requires call.SendFront? ==> messages == [call.item] + q.messages
    requires call.Overwrite? ==> messages == [call.item]
    ensures messages == Added(q, call)
  {
  }

  /** A call that can go on is served: its task is done and the first task of the other side, or of
      the next to receive, is woken. */
  lemma {:induction false} AttemptServed(q: Queue, t: nat)
    requires InLoop(q, t) && Listed(q, Receiving) && Listed(q, Sending) && Possible(q, q.tasks[t].call)
    ensures var call := q.tasks[t].call;
            var c := q.Put(t, Away).(messages := Left(q, call));
            && (forall side: Side :: c.List(side) != [] ==>
                c.List(side)[0] in c.tasks && c.tasks[c.List(side)[0]].Waiting?)
            && AfterAttempt(q, t) == WakeFirst(c, Wakes(call))
  {
    NotListed(q, t, Away);
    WaitersWait(q.Put(t, Away));
    ServedShape(q.Put(t, Away), q.tasks[t].call);
    hide Listed;
  }

  /** The state before the waking. */
  lemma {:induction false} BeforeWaking(q: Queue, c: Queue, t: nat, call: Call)
    requires Possible(q, call) && c == q.(tasks := q.tasks[t := Away], messages := c.messages)
    requires c.messages == if call.Receive? then q.messages[1..] else if call.Peek? then q.messages else Added(q, call)
    ensures c == q.Put(t, Away).(messages := Left(q, call))
    ensures Wakes(call) == if call.Receive? then Sending else Receiving
    ensures c.receivers == q.receivers && c.senders == q.senders && c.List(Receiving) == c.receivers
            && c.List(Sending) == c.senders
  {
  }

  lemma {:induction false} SendServed(q: Queue, call: Call)
    requires call.Side() == Sending && Possible(q, call) && Listed(q, Receiving)
    ensures var c := q.(messages := Added(q, call));
            && (c.receivers != [] ==> c.receivers[0] in c.tasks && c.tasks[c.receivers[0]].Waiting?)
                && c.List(Receiving) == c.receivers
            && AfterInterruptSend(q, call) == Signal(c, Receiving)
  {
    FirstOf(q, Receiving);
    hide Listed;
  }

  lemma {:induction false} OverwritesOne(q: Queue, call: Call)
    requires Enabled(q, InterruptSend(call))
    ensures call.Overwrite? ==> q.length == 1
  {
  }

  lemma {:induction false} SignalCases(c: Queue)
    requires c.List(Receiving) == c.receivers
    requires c.receivers != [] ==> c.receivers[0] in c.tasks && c.tasks[c.receivers[0]].Waiting?
    ensures Signal(c, Receiving) == if c.tx == UNLOCKED then (if c.receivers == [] then c else WakeFirst(c, Receiving))
                                    else if c.tx < |c.tasks| then c.(tx := c.tx + 1) else c
  {
  }

  lemma {:induction false} NobodyWakes(q: Queue, side: Side)
    requires q.List(side) == []
    ensures WakeFirst(q, side) == q
  {
  }

  lemma {:induction false} FirstOf(q: Queue, side: Side)
    requires Listed(q, side)
    ensures q.List(side) != [] ==> q.List(side)[0] in q.tasks && q.tasks[q.List(side)[0]].Waiting?
  {
    if q.List(side) != [] {
      FirstIsListed(q, side);
    }
  }

  lemma {:induction false} WaitersWait(q: Queue)
    requires Listed(q, Receiving) && Listed(q, Sending)
    ensures q.receivers != [] ==> q.receivers[0] in q.tasks && q.tasks[q.receivers[0]].Waiting?
    ensures q.senders != [] ==> q.senders[0] in q.tasks && q.tasks[q.senders[0]].Waiting?
  {
    FirstOf(q, Receiving);
    FirstOf(q, Sending);
  }
}
