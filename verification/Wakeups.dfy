/** Blocking on a queue: which waiting tasks are woken, and the lock counts that defer waking.

    Modelled code: nimble/os/freertos/queue.c:251-293 (lock macros), 835-1044 (send), 1046-1196 (send
    from an interrupt), 1376-1510 (receive), 1729-1868 (peek), 1870-1970 (receive from an interrupt),
    2279-2370 (unlock). Semaphores that are not mutexes run the same code with empty messages.

    A step is a critical section or an interrupt. While a task has the scheduler suspended only that
    task and interrupts act. Waiting lists are kept in any order: what is proved does not need the
    order by priority. */
module Wakeups {
  import opened Sequences

  /** The two sides of a queue: tasks that wait for messages, and tasks that wait for room. */
  datatype Side = Receiving | Sending {
    function Other(): Side {
      if Receiving? then Sending else Receiving
    }
  }

  datatype Call = Receive | Peek | SendBack(item: int) | SendFront(item: int) | Overwrite(item: int) {
    function Side(): Side {
      if Receive? || Peek? then Receiving else Sending
    }
  }

  /** Where a task is in its call. */
  datatype Place =
    | Away                                  // in no call
    | Trying(call: Call, patient: bool)     // about to enter the critical section at the top of the loop
    | Pausing(call: Call)                   // could not go on; about to suspend the scheduler and lock
    | Busy(call: Call)                      // has the scheduler suspended and the queue locked
    | Waiting(call: Call)                   // on a waiting list
    | Woken(call: Call)                     // taken off the list for an event; about to try again
    | Expired(call: Call)                   // timed out; about to look once more

  /** What the task that has the scheduler suspended does next. */
  datatype Phase = Checking | Joining | UnlockingTx | UnlockingRx

  datatype Holder = Holder(task: nat, phase: Phase, expired: bool)

  const UNLOCKED: int := -1

  /** `tx` and `rx` are the lock counts: messages added and removed by interrupts meanwhile. */
  datatype Queue = Queue(length: nat, messages: seq<int>, tx: int, rx: int, receivers: seq<nat>, senders: seq<nat>,
                         tasks: map<nat, Place>, holder: Option<Holder>)
  {
    /** What a side waits for, as it stands: messages, or free slots. */
    function Available(side: Side): int {
      if side.Receiving? then |messages| else length - |messages|
    }

    function List(side: Side): seq<nat> {
      if side.Receiving? then receivers else senders
    }

    /** The lock count that stands for wake-ups owed to a side. */
    function Lock(side: Side): int {
      if side.Receiving? then tx else rx
    }

    function WithList(side: Side, q: seq<nat>): Queue {
      if side.Receiving? then this.(receivers := q) else this.(senders := q)
    }

    function WithLock(side: Side, n: int): Queue {
      if side.Receiving? then this.(tx := n) else this.(rx := n)
    }

    function Put(t: nat, place: Place): Queue {
      this.(tasks := tasks[t := place])
    }
  }

  // ----- Events -----

  /** Takes the first task off a waiting list. */
  function WakeFirst(q: Queue, side: Side): Queue
    requires q.List(side) != [] ==> q.List(side)[0] in q.tasks && q.tasks[q.List(side)[0]].Waiting?
  {
    if q.List(side) == [] then q
    else
      var w := q.List(side)[0];
      q.WithList(side, q.List(side)[1..]).Put(w, Woken(q.tasks[w].call))
  }

  /** What an interrupt does about waiting tasks: wakes one, or counts one owed; the count stops at
      the number of tasks. */
  function Signal(q: Queue, side: Side): Queue
    requires q.List(side) != [] ==> q.List(side)[0] in q.tasks && q.tasks[q.List(side)[0]].Waiting?
  {
    if q.Lock(side) == UNLOCKED then WakeFirst(q, side)
    else if q.Lock(side) < |q.tasks| then q.WithLock(side, q.Lock(side) + 1)
    else q
  }

  /** Unlocking one side: wakes as many as are owed, as long as tasks wait. */
  function PayOff(q: Queue, side: Side, owed: nat): Queue
    requires Listed(q, side)
    decreases owed
  {
    if owed == 0 || q.List(side) == [] then q.WithLock(side, UNLOCKED)
    else
      FirstIsListed(q, side);
      WakeKeepsListed(q, side, side);
      PayOff(WakeFirst(q, side), side, owed - 1)
  }

  function Added(q: Queue, call: Call): seq<int>
    requires call.Side() == Sending
  {
    match call
    case SendBack(x) => q.messages + [x]
    case SendFront(x) => [x] + q.messages
    case Overwrite(x) => [x] + (if q.messages == [] then [] else q.messages[1..])
  }

  /** Whether the call can go on. A message is overwritten whether or not there is room. */
  predicate Possible(q: Queue, call: Call) {
    if call.Side().Receiving? then q.messages != [] else |q.messages| < q.length || call.Overwrite?
  }

  // ----- The lists hold the tasks that wait -----

  ghost predicate Listed(q: Queue, side: Side) {
    && NoRepeats(q.List(side))
    && forall t :: t in q.List(side) <==> t in q.tasks && q.tasks[t].Waiting? && q.tasks[t].call.Side() == side
  }

  lemma {:induction false} FirstIsListed(q: Queue, side: Side)
    requires Listed(q, side) && q.List(side) != []
    ensures var w := q.List(side)[0]; w in q.tasks && q.tasks[w].Waiting? && q.tasks[w].call.Side() == side
  {
    assert q.List(side)[0] in q.List(side);
  }

  lemma {:induction false} WakeKeepsListed(q: Queue, side: Side, other: Side)
    requires Listed(q, side) && Listed(q, other)
    ensures q.List(side) != [] ==> q.List(side)[0] in q.tasks && q.tasks[q.List(side)[0]].Waiting?
    ensures Listed(WakeFirst(q, side), other)
  {
    if q.List(side) != [] {
      FirstIsListed(q, side);
      FirstRemoved(q.List(side));
    }
  }

  // ----- Steps -----

  datatype Step =
    | Begin(task: nat, call: Call, patient: bool)
    | Attempt(task: nat)                // the critical section at the top of the loop
    | Suspend(task: nat)                // suspend the scheduler and lock the queue
    | Check(expired: bool)              // look at the timeout, then at the queue
    | Join(at: nat)                     // go on the waiting list
    | UnlockTx
    | UnlockRx                          // and resume the scheduler
    | Recheck(task: nat)
    | TimeOut(task: nat)
    | InterruptSend(call: Call)
    | InterruptReceive
    | Create(task: nat)

  predicate InLoop(q: Queue, t: nat) {
    t in q.tasks && (q.tasks[t].Trying? || q.tasks[t].Woken?)
  }

  predicate Holds(q: Queue, phase: Phase) {
    q.holder.Some? && q.holder.value.phase == phase && q.holder.value.task in q.tasks
        && !q.tasks[q.holder.value.task].Away?
  }

  ghost predicate Enabled(q: Queue, step: Step) {
    match step
    case Begin(t, call, _) => t in q.tasks && q.tasks[t].Away? && q.holder == None
        && (call.Overwrite? ==> q.length == 1)
    case Attempt(t) => InLoop(q, t) && q.holder == None && (q.tasks[t].call.Overwrite? ==> q.length == 1)
    case Suspend(t) => t in q.tasks && q.tasks[t].Pausing? && q.holder == None
    case Check(_) => Holds(q, Checking)
    case Join(at) => Holds(q, Joining) && at <= |q.List(q.tasks[q.holder.value.task].call.Side())|
    case UnlockTx => Holds(q, UnlockingTx)
    case UnlockRx => Holds(q, UnlockingRx)
    case Recheck(t) => t in q.tasks && q.tasks[t].Expired? && q.holder == None
    case TimeOut(t) => t in q.tasks && q.tasks[t].Waiting? && q.holder == None
    case InterruptSend(call) => call.Side() == Sending && (call.Overwrite? ==> q.length == 1)
    case InterruptReceive => true
    case Create(t) => t !in q.tasks && q.holder == None && |q.tasks| < MAX_TASKS
  }

  /** The lock counts are signed bytes; their increment asserts that they are not at the top. */
  const MAX_TASKS: nat := 127

  /** What a call that can go on does to the messages, and which side it has something for. */
  function Served(q: Queue, call: Call): Queue
    requires Possible(q, call) && Listed(q, Receiving) && Listed(q, Sending)
  {
    WakeKeepsListed(q, Receiving, Receiving);
    WakeKeepsListed(q, Sending, Sending);
    match call
    case Receive => WakeFirst(q.(messages := q.messages[1..]), Sending)
    case Peek => WakeFirst(q, Receiving)
    case _ => WakeFirst(q.(messages := Added(q, call)), Receiving)
  }

  function AfterAttempt(q: Queue, t: nat): Queue
    requires InLoop(q, t) && Listed(q, Receiving) && Listed(q, Sending)
  {
    var call := q.tasks[t].call;
    if Possible(q, call) then
      NotListed(q, t, Away);
      Served(q.Put(t, Away), call)
    else if q.tasks[t].Trying? && !q.tasks[t].patient then q.Put(t, Away)
    else q.Put(t, Pausing(call))
  }

  function AfterSuspend(q: Queue, t: nat): Queue
    requires t in q.tasks && q.tasks[t].Pausing?
  {
    q.(tx := if q.tx == UNLOCKED then 0 else q.tx, rx := if q.rx == UNLOCKED then 0 else q.rx,
       holder := Some(Holder(t, Checking, false))).Put(t, Busy(q.tasks[t].call))
  }

  function AfterCheck(q: Queue, expired: bool): Queue
    requires Holds(q, Checking)
  {
    var h := q.holder.value;
    var stuck := if q.tasks[h.task].call.Side().Receiving? then q.messages == [] else |q.messages| == q.length;
    q.(holder := Some(h.(phase := if !expired && stuck then Joining else UnlockingTx, expired := expired)))
  }

  function AfterJoin(q: Queue, at: nat): Queue
    requires Holds(q, Joining) && at <= |q.List(q.tasks[q.holder.value.task].call.Side())|
  {
    var h := q.holder.value;
    var call := q.tasks[h.task].call;
    var list := q.List(call.Side());
    q.WithList(call.Side(), Inserted(list, at, h.task)).Put(h.task,
                                                            Waiting(call)).(holder := Some(h.(phase := UnlockingTx)))
  }

  function Owed(q: Queue, side: Side): nat {
    if q.Lock(side) > 0 then q.Lock(side) else 0
  }

  function AfterUnlockTx(q: Queue): Queue
    requires Holds(q, UnlockingTx) && Listed(q, Receiving)
  {
    PayOff(q, Receiving, Owed(q, Receiving)).(holder := Some(q.holder.value.(phase := UnlockingRx)))
  }

  function AfterUnlockRx(q: Queue): Queue
    requires Holds(q, UnlockingRx) && Listed(q, Sending)
  {
    var p := PayOff(q, Sending, Owed(q, Sending)).(holder := None);
    var h := q.holder.value;
    if h.task in p.tasks && p.tasks[h.task].Busy? then
      var call := p.tasks[h.task].call;
      p.Put(h.task, if !h.expired then Trying(call, true) else if call.Side().Receiving? then Expired(call) else Away)
    else p
  }

  function AfterTimeOut(q: Queue, t: nat): Queue
    requires t in q.tasks && q.tasks[t].Waiting?
  {
    var side := q.tasks[t].call.Side();
    q.WithList(side, Without(q.List(side), t)).Put(t, Trying(q.tasks[t].call, true))
  }

  function AfterInterruptSend(q: Queue, call: Call): Queue
    requires call.Side() == Sending && Listed(q, Receiving)
  {
    if Possible(q, call) then
      WakeKeepsListed(q, Receiving, Receiving);
      Signal(q.(messages := Added(q, call)), Receiving)
    else q
  }

  function AfterInterruptReceive(q: Queue): Queue
    requires Listed(q, Sending)
  {
    if q.messages != [] then
      WakeKeepsListed(q, Sending, Sending);
      Signal(q.(messages := q.messages[1..]), Sending)
    else q
  }

  function After(q: Queue, step: Step): Queue
    requires Listed(q, Receiving) && Listed(q, Sending) && Enabled(q, step)
  {
    match step
    case Begin(t, call, patient) => q.Put(t, Trying(call, patient))
    case Attempt(t) => AfterAttempt(q, t)
    case Suspend(t) => AfterSuspend(q, t)
    case Check(expired) => AfterCheck(q, expired)
    case Join(at) => AfterJoin(q, at)
    case UnlockTx => AfterUnlockTx(q)
    case UnlockRx => AfterUnlockRx(q)
    case Recheck(t) => q.Put(t, if q.messages == [] then Away else Trying(q.tasks[t].call, false))
    case TimeOut(t) => AfterTimeOut(q, t)
    case InterruptSend(call) => AfterInterruptSend(q, call)
    case InterruptReceive => AfterInterruptReceive(q)
    case Create(t) => q.Put(t, Away)
  }

  lemma {:induction false} NotListed(q: Queue, t: nat, place: Place)
    requires Listed(q, Receiving) && Listed(q, Sending) && !place.Waiting? && (t in q.tasks ==> !q.tasks[t].Waiting?)
    ensures Listed(q.Put(t, place), Receiving) && Listed(q.Put(t, place), Sending)
  {
  }

  // ----- Nobody is forgotten -----

  ghost function WokenFor(q: Queue, side: Side): set<nat> {
    set t | t in q.tasks && q.tasks[t].Woken? && q.tasks[t].call.Side() == side
  }

  /** A task that found nothing is about to go on the list. */
  predicate AboutToJoin(q: Queue, side: Side) {
    Holds(q, Joining) && q.tasks[q.holder.value.task].call.Side() == side
  }

  /** While tasks wait on a side, everything available to it is spoken for: by tasks that were
      woken and have not tried again yet, or by wake-ups owed at the unlock; or as many are owed
      as there are tasks. */
  ghost predicate Minded(q: Queue, side: Side) {
    q.List(side) != [] || AboutToJoin(q, side) ==>
      q.Available(side) <= |WokenFor(q, side)| + Owed(q, side) || q.Lock(side) >= |q.tasks|
  }

  /** What the lock counts and the holder look like. */
  ghost predicate Locked(q: Queue) {
    && UNLOCKED <= q.tx <= |q.tasks| && UNLOCKED <= q.rx <= |q.tasks| <= MAX_TASKS
    && match q.holder
       case None => q.tx == UNLOCKED && q.rx == UNLOCKED && forall t :: t in q.tasks ==> !q.tasks[t].Busy?
       case Some(h) =>
         && h.task in q.tasks && (q.tasks[h.task].Busy? || q.tasks[h.task].Waiting? || q.tasks[h.task].Woken?)
         && (h.phase.Checking? || h.phase.Joining? ==> q.tasks[h.task].Busy?)
         && q.rx >= 0 && (q.tx == UNLOCKED <==> h.phase.UnlockingRx?)
         && forall t :: t in q.tasks && t != h.task ==> !q.tasks[t].Busy?
  }

  ghost predicate Sound(q: Queue) {
    && 0 < q.length && |q.messages| <= q.length && Listed(q, Receiving) && Listed(q, Sending) && Locked(q)
  }

  ghost predicate Inv(q: Queue) {
    Sound(q) && Minded(q, Receiving) && Minded(q, Sending)
  }

  // ----- Counting -----

  predicate WokenAs(place: Place, side: Side) {
    place.Woken? && place.call.Side() == side
  }

  lemma {:induction false} PutCounts(q: Queue, t: nat, place: Place, side: Side)
    requires t in q.tasks
    ensures |WokenFor(q.Put(t, place), side)| + (if WokenAs(q.tasks[t], side) then 1 else 0)
            == |WokenFor(q, side)| + (if WokenAs(place, side) then 1 else 0)
    ensures |q.Put(t, place).tasks| == |q.tasks|
  {
    PutWoken(q, t, place, side);
    SameSize(q, q.Put(t, place));
    assert t in WokenFor(q, side) <==> WokenAs(q.tasks[t], side);
    hide WokenFor, WokenAs;
  }

  lemma {:induction false} PutWoken(q: Queue, t: nat, place: Place, side: Side)
    ensures WokenFor(q.Put(t, place), side) == WokenFor(q, side) - {t} + if WokenAs(place, side) then {t} else {}
  {
  }

  lemma {:induction false} SameCounts(q: Queue, a: Queue, side: Side)
    requires a.tasks == q.tasks
    ensures WokenFor(a, side) == WokenFor(q, side)
  {
  }

  /** Waking moves one task from the list to the woken. */
  lemma {:induction false} WakeCounts(q: Queue, side: Side, of: Side)
    requires Listed(q, side)
    ensures q.List(side) != [] ==> q.List(side)[0] in q.tasks && q.tasks[q.List(side)[0]].Waiting?
    ensures var a := WakeFirst(q, side);
            && |WokenFor(a, of)| == |WokenFor(q, of)| + (if of == side && q.List(side) != [] then 1 else 0)
            && |a.tasks| == |q.tasks|
  {
    if q.List(side) != [] {
      FirstIsListed(q, side);
      var w := q.List(side)[0];
      var b := q.WithList(side, q.List(side)[1..]);
      SameCounts(q, b, of);
      PutCounts(b, w, Woken(q.tasks[w].call), of);
    }
  }

  /** There are no more tasks on a list than there are tasks. */
  lemma {:induction false} ListIsShort(q: Queue, side: Side)
    requires Listed(q, side)
    ensures |q.List(side)| <= |q.tasks|
  {
    NoRepeatsIsShort(q.List(side), q.tasks.Keys);
    assert |q.tasks.Keys| == |q.tasks|;
  }

  // ----- What waking leaves alone -----

  /** Tasks only go from waiting to woken. */
  ghost predicate OnlyWakes(q: Queue, a: Queue) {
    && a.tasks.Keys == q.tasks.Keys && a.messages == q.messages && a.length == q.length && a.holder == q.holder
    && forall t :: t in q.tasks ==>
        a.tasks[t] == q.tasks[t] || (q.tasks[t].Waiting? && a.tasks[t] == Woken(q.tasks[t].call))
  }

  lemma {:induction false} WakeOnlyWakes(q: Queue, side: Side)
    requires Listed(q, side)
    ensures q.List(side) != [] ==> q.List(side)[0] in q.tasks && q.tasks[q.List(side)[0]].Waiting?
    ensures OnlyWakes(q, WakeFirst(q, side)) && WakeFirst(q, side).List(side.Other()) == q.List(side.Other())
    ensures WakeFirst(q, side).tx == q.tx && WakeFirst(q, side).rx == q.rx
    ensures WakeFirst(q, side).List(side) == if q.List(side) == [] then [] else q.List(side)[1..]
  {
    if q.List(side) != [] {
      FirstIsListed(q, side);
    }
  }

  /** `a` is `q` after its first `n` waiters of `side` were woken and the side unlocked. */
  ghost predicate PaidOff(q: Queue, a: Queue, side: Side, n: nat) {
    && Listed(a, Receiving) && Listed(a, Sending) && OnlyWakes(q, a)
    && a.Lock(side) == UNLOCKED && a.Lock(side.Other()) == q.Lock(side.Other())
    && n <= |q.List(side)| && a.List(side) == q.List(side)[n..] && a.List(side.Other()) == q.List(side.Other())
    && |WokenFor(a, side)| == |WokenFor(q, side)| + n
    && |WokenFor(a, side.Other())| == |WokenFor(q, side.Other())|
  }

  /** Everything an unlock does to one side, and that it does nothing to the other. */
  lemma {:induction false} PayOffEffect(q: Queue, side: Side, owed: nat)
    requires Listed(q, Receiving) && Listed(q, Sending)
    ensures PaidOff(q, PayOff(q, side, owed), side, if owed < |q.List(side)| then owed else |q.List(side)|)
    decreases owed
  {
    hide *;
    if owed == 0 || q.List(side) == [] {
      NothingOwed(q, side, owed);
    } else {
      WakeKeepsListed(q, side, Receiving);
      WakeKeepsListed(q, side, Sending);
      PayOffUnfolds(q, side, owed);
      var b := WakeFirst(q, side);
      PayOffEffect(b, side, owed - 1);
      WakeOnlyWakes(q, side);
      ThenPaidOff(q, PayOff(b, side, owed - 1), side, if owed - 1 < |b.List(side)| then owed - 1 else |b.List(side)|);
    }
  }

  lemma {:induction false} NothingOwed(q: Queue, side: Side, owed: nat)
    requires Listed(q, Receiving) && Listed(q, Sending) && (owed == 0 || q.List(side) == [])
    ensures PaidOff(q, PayOff(q, side, owed), side, 0)
  {
    var a := q.WithLock(side, UNLOCKED);
    SameCounts(q, a, side);
    SameCounts(q, a, side.Other());
    hide WokenFor;
  }

  lemma {:induction false} ThenPaidOff(q: Queue, a: Queue, side: Side, n: nat)
    requires Listed(q, side) && q.List(side) != [] && q.List(side)[0] in q.tasks && q.tasks[q.List(side)[0]].Waiting?
    requires PaidOff(WakeFirst(q, side), a, side, n)
    ensures PaidOff(q, a, side, n + 1)
  {
    WakeOnlyWakes(q, side);
    WakeCounts(q, side, side);
    WakeCounts(q, side, side.Other());
    hide Listed, WakeFirst, WokenFor;
  }

  lemma {:induction false} PayOffUnfolds(q: Queue, side: Side, owed: nat)
    requires Listed(q, side) && owed > 0 && q.List(side) != []
    ensures q.List(side)[0] in q.tasks && q.tasks[q.List(side)[0]].Waiting? && Listed(WakeFirst(q, side), side)
    ensures PayOff(q, side, owed) == PayOff(WakeFirst(q, side), side, owed - 1)
  {
    FirstIsListed(q, side);
    WakeKeepsListed(q, side, side);
    hide Listed, WakeFirst;
  }

  // ----- Every step keeps the invariant -----

  /** A step that frees no more than it wakes. */
  lemma {:induction false} Carry(q: Queue, a: Queue, side: Side)
    requires Minded(q, side)
    requires a.List(side) != [] || AboutToJoin(a, side) ==> q.List(side) != [] || AboutToJoin(q, side)
    requires a.Available(side) + |WokenFor(q, side)| + Owed(q, side) <= q.Available(side) + |WokenFor(a,
             side)| + Owed(a, side)
    requires q.Lock(side) >= |q.tasks| ==> a.Lock(side) >= |a.tasks|
    ensures Minded(a, side)
  {
    hide WokenFor;
  }

  lemma {:induction false} Satisfied(a: Queue, side: Side)
    requires (a.List(side) == [] && !AboutToJoin(a, side)) || a.Available(side) <= 0
    ensures Minded(a, side)
  {
    hide WokenFor;
  }

  lemma {:induction false} InvParts(q: Queue)
    ensures Inv(q) <==> 0 < q.length && |q.messages| <= q.length && Listed(q, Receiving) && Listed(q, Sending)
                        && Locked(q)
                        && Minded(q, Receiving) && Minded(q, Sending)
  {
    hide Listed, Locked, Minded;
  }

  /** One task moves on; if it was woken, then in vain. */
  ghost predicate Moves(q: Queue, t: nat, place: Place) {
    && t in q.tasks && !q.tasks[t].Waiting? && !q.tasks[t].Busy? && !place.Waiting? && !place.Woken? && !place.Busy?
    && (q.tasks[t].Woken? ==> q.Available(q.tasks[t].call.Side()) <= 0)
    && q.holder == None
  }

  lemma {:induction false} MoveIsMinded(q: Queue, t: nat, place: Place, side: Side)
    requires Minded(q, side) && Moves(q, t, place)
    ensures Minded(q.Put(t, place), side)
  {
    hide WokenFor, Minded;
    PutCounts(q, t, place, side);
    if q.Available(side) <= 0 {
      Satisfied(q.Put(t, place), side);
    } else {
      Carry(q, q.Put(t, place), side);
    }
  }

  lemma {:induction false} MoveKeeps(q: Queue, t: nat, place: Place)
    requires Inv(q) && Moves(q, t, place)
    ensures Inv(q.Put(t, place))
  {
    hide Minded, Listed;
    NotListed(q, t, place);
    MoveIsMinded(q, t, place, Receiving);
    MoveIsMinded(q, t, place, Sending);
    PutCounts(q, t, place, Receiving);
  }

  lemma {:induction false} CreateKeeps(q: Queue, t: nat)
    requires Inv(q) && Enabled(q, Create(t))
    ensures Inv(q.Put(t, Away))
  {
    var a := q.Put(t, Away);
    NotListed(q, t, Away);
    assert a.tasks.Keys == q.tasks.Keys + {t};
    assert |a.tasks| == |q.tasks| + 1;
    assert WokenFor(a, Receiving) == WokenFor(q, Receiving) && WokenFor(a, Sending) == WokenFor(q, Sending);
    hide Listed, WokenFor;
  }

  lemma {:induction false} SuspendKeeps(q: Queue, t: nat)
    requires Inv(q) && Enabled(q, Suspend(t))
    ensures Inv(AfterSuspend(q, t))
  {
    var a, b := AfterSuspend(q, t), q.Put(t, Busy(q.tasks[t].call));
    NotListed(q, t, Busy(q.tasks[t].call));
    PutCounts(q, t, Busy(q.tasks[t].call), Receiving);
    PutCounts(q, t, Busy(q.tasks[t].call), Sending);
    SameCounts(b, a, Receiving);
    SameCounts(b, a, Sending);
    assert Listed(a, Receiving) && Listed(a, Sending);
    hide Listed, WokenFor, Minded;
    Carry(q, a, Receiving);
    Carry(q, a, Sending);
  }

  lemma {:induction false} CheckKeeps(q: Queue, expired: bool)
    requires Inv(q) && Enabled(q, Check(expired))
    ensures Inv(AfterCheck(q, expired))
  {
    var a := AfterCheck(q, expired);
    SameCounts(q, a, Receiving);
    SameCounts(q, a, Sending);
    assert Listed(a, Receiving) && Listed(a, Sending);
    hide Listed, WokenFor, Minded;
    forall side: Side
      ensures Minded(a, side)
    {
      assert side == Receiving || side == Sending;
      if AboutToJoin(a, side) {
        Satisfied(a, side);
      } else {
        Carry(q, a, side);
      }
    }
  }

  lemma {:induction false} JoinListed(q: Queue, at: nat, side: Side)
    requires Inv(q) && Enabled(q, Join(at))
    ensures Listed(AfterJoin(q, at), side)
  {
    var h := q.holder.value;
    var call := q.tasks[h.task].call;
    var a, list := AfterJoin(q, at), q.List(call.Side());
    assert h.task !in list;
    if side == call.Side() {
      InsertedNoRepeats(list, at, h.task);
      InsertedMembers(list, at, h.task);
    }
  }

  /** The counts and the rest of the state after a task joined a list. */
  lemma {:induction false} JoinShape(q: Queue, at: nat, side: Side)
    requires Inv(q) && Enabled(q, Join(at))
    ensures var a := AfterJoin(q, at);
            && |WokenFor(a, side)| == |WokenFor(q, side)| && |a.tasks| == |q.tasks| && Owed(a, side) == Owed(q, side)
            && a.Lock(side) == q.Lock(side) && a.Available(side) == q.Available(side) && !AboutToJoin(a, side)
            && (a.List(side) != [] ==> q.List(side) != [] || AboutToJoin(q, side))
  {
    var a, h := AfterJoin(q, at), q.holder.value;
    var call := q.tasks[h.task].call;
    hide Listed, WokenFor, Minded;
    PutCounts(q, h.task, Waiting(call), side);
    SameCounts(q.Put(h.task, Waiting(call)), a, side);
  }

  lemma {:induction false} JoinReady(q: Queue, at: nat)
    requires Enabled(q, Join(at))
    ensures Holds(q, Joining) && at <= |q.List(q.tasks[q.holder.value.task].call.Side())|
  {
  }

  /** What a task joining a list leaves alone. */
  lemma {:induction false} JoinRest(q: Queue, at: nat)
    requires Locked(q) && Holds(q, Joining) && at <= |q.List(q.tasks[q.holder.value.task].call.Side())|
    ensures var a := AfterJoin(q, at); Locked(a) && a.messages == q.messages && a.length == q.length
  {
    hide Inserted;
    SameSize(q, AfterJoin(q, at));
  }

  lemma {:induction false} JoinKeeps(q: Queue, at: nat)
    requires Inv(q) && Enabled(q, Join(at))
    ensures Inv(AfterJoin(q, at))
  {
    hide *;
    JoinReady(q, at);
    var a := AfterJoin(q, at);
    InvParts(q);
    JoinListed(q, at, Receiving);
    JoinListed(q, at, Sending);
    JoinShape(q, at, Receiving);
    JoinShape(q, at, Sending);
    JoinRest(q, at);
    Carry(q, a, Receiving);
    Carry(q, a, Sending);
    InvParts(a);
  }

  /** Paying off a side leaves nobody on it who is owed something. */
  lemma {:induction false} PaidOffIsMinded(q: Queue, a: Queue, side: Side, n: nat)
    requires Listed(q, side) && Minded(q, side) && 0 <= q.Lock(side) && !AboutToJoin(a, side)
    requires n == if Owed(q, side) < |q.List(side)| then Owed(q, side) else |q.List(side)|
    requires PaidOff(q, a, side, n)
    ensures Minded(a, side)
  {
    ListIsShort(q, side);
    hide Listed, WokenFor;
  }

  /** Paying off one side keeps both sides minded. */
  lemma {:induction false} PayOffIsMinded(q: Queue, side: Side)
    requires Inv(q) && 0 <= q.Lock(side) && !AboutToJoin(q, Receiving) && !AboutToJoin(q, Sending)
    ensures var p := PayOff(q, side, Owed(q, side));
            Minded(p, Receiving) && Minded(p, Sending) && OnlyWakes(q, p) && Listed(p, Receiving) && Listed(p, Sending)
            && p.Lock(side) == UNLOCKED && p.Lock(side.Other()) == q.Lock(side.Other())
  {
    PayOffEffect(q, side, Owed(q, side));
    var p := PayOff(q, side, Owed(q, side));
    hide Listed, WokenFor, Minded, PayOff, Locked;
    SameSize(q, p);
    StillNobodyJoins(q, p);
    PaidOffIsMinded(q, p, side, if Owed(q, side) < |q.List(side)| then Owed(q, side) else |q.List(side)|);
    Carry(q, p, side.Other());
  }

  lemma {:induction false} StillNobodyJoins(q: Queue, p: Queue)
    requires OnlyWakes(q, p) && !AboutToJoin(q, Receiving) && !AboutToJoin(q, Sending)
    ensures !AboutToJoin(p, Receiving) && !AboutToJoin(p, Sending)
  {
  }

  /** A change of the holder only. */
  lemma {:induction false} HolderIsMinded(p: Queue, holder: Option<Holder>)
    requires Minded(p, Receiving) && Minded(p, Sending) && Listed(p, Receiving) && Listed(p, Sending)
    requires holder.Some? ==> !holder.value.phase.Joining?
    ensures var a := p.(holder := holder);
            Minded(a, Receiving) && Minded(a, Sending) && Listed(a, Receiving) && Listed(a, Sending)
  {
    var a := p.(holder := holder);
    assert Listed(a, Receiving) && Listed(a, Sending);
    SameCounts(p, a, Receiving);
    SameCounts(p, a, Sending);
    hide Listed, WokenFor, Minded;
    Carry(p, a, Receiving);
    Carry(p, a, Sending);
  }

  lemma {:induction false} UnlockTxKeeps(q: Queue)
    requires Inv(q) && Enabled(q, UnlockTx)
    ensures Inv(AfterUnlockTx(q))
  {
    PayOffIsMinded(q, Receiving);
    var p := PayOff(q, Receiving, Owed(q, Receiving));
    hide Listed, WokenFor, Minded, PayOff;
    HolderIsMinded(p, Some(q.holder.value.(phase := UnlockingRx)));
    SameSize(q, p);
  }

  lemma {:induction false} UnlockRxKeeps(q: Queue)
    requires Inv(q) && Enabled(q, UnlockRx)
    ensures Inv(AfterUnlockRx(q))
  {
    PayOffIsMinded(q, Sending);
    var p := PayOff(q, Sending, Owed(q, Sending));
    var h, b := q.holder.value, p.(holder := None);
    hide Listed, WokenFor, Minded, PayOff;
    HolderIsMinded(p, None);
    SameSize(q, p);
    if p.tasks[h.task].Busy? {
      var call := p.tasks[h.task].call;
      ReleaseKeeps(b, h.task,
                   if !h.expired then Trying(call, true) else if call.Side().Receiving? then Expired(call) else Away);
    }
  }

  /** The task that had the scheduler suspended goes on. */
  lemma {:induction false} ReleaseKeeps(b: Queue, t: nat, place: Place)
    requires 0 < b.length && |b.messages| <= b.length && Listed(b, Receiving) && Listed(b, Sending)
    requires Minded(b, Receiving) && Minded(b, Sending) && b.holder == None && b.tx == UNLOCKED && b.rx == UNLOCKED
    requires t in b.tasks && b.tasks[t].Busy? && !place.Busy? && !place.Waiting? && !place.Woken?
             && |b.tasks| <= MAX_TASKS
    requires forall u :: u in b.tasks && u != t ==> !b.tasks[u].Busy?
    ensures Inv(b.Put(t, place))
  {
    NotListed(b, t, place);
    PutCounts(b, t, place, Receiving);
    PutCounts(b, t, place, Sending);
    hide Listed, WokenFor, Minded;
    Carry(b, b.Put(t, place), Receiving);
    Carry(b, b.Put(t, place), Sending);
  }

  lemma {:induction false} TimeOutListed(q: Queue, t: nat, of: Side)
    requires Inv(q) && Enabled(q, TimeOut(t))
    ensures Listed(AfterTimeOut(q, t), of)
  {
    hide WokenFor, Without, Minded;
    WithoutNoRepeats(q.List(q.tasks[t].call.Side()), t);
  }

  lemma {:induction false} TimeOutCounts(q: Queue, t: nat, of: Side)
    requires t in q.tasks && q.tasks[t].Waiting?
    ensures |WokenFor(AfterTimeOut(q, t), of)| == |WokenFor(q, of)| && |AfterTimeOut(q, t).tasks| == |q.tasks|
  {
    var side, place := q.tasks[t].call.Side(), Trying(q.tasks[t].call, true);
    var b := q.WithList(side, Without(q.List(side), t));
    hide Without;
    SameCounts(q, b, of);
    PutCounts(b, t, place, of);
    hide WokenFor;
  }

  lemma {:induction false} TimeOutKeeps(q: Queue, t: nat)
    requires Inv(q) && Enabled(q, TimeOut(t))
    ensures Inv(AfterTimeOut(q, t))
  {
    var side := q.tasks[t].call.Side();
    var a := AfterTimeOut(q, t);
    TimeOutListed(q, t, Receiving);
    TimeOutListed(q, t, Sending);
    TimeOutCounts(q, t, Receiving);
    TimeOutCounts(q, t, Sending);
    NothingLeftOut(q.List(side), t);
    hide Listed, WokenFor, Minded, Without;
    hide Locked;
    ShorterIsMinded(q, a, side);
    Carry(q, a, side.Other());
    assert side == Receiving || side == Sending;
    TimeOutLocked(q, t);
  }

  lemma {:induction false} TimeOutLocked(q: Queue, t: nat)
    requires Locked(q) && Enabled(q, TimeOut(t))
    ensures Locked(AfterTimeOut(q, t))
  {
    hide Without;
    SameSize(q, AfterTimeOut(q, t));
  }

  lemma {:induction false} NothingLeftOut(s: seq<nat>, t: nat)
    ensures s == [] ==> Without(s, t) == []
  {
  }

  lemma {:induction false} ShorterIsMinded(q: Queue, a: Queue, side: Side)
    requires Minded(q, side) && q.holder == None && a.holder == None && a.Available(side) == q.Available(side)
    requires |WokenFor(a, side)| == |WokenFor(q, side)| && a.Lock(side) == q.Lock(side) && |a.tasks| == |q.tasks|
    requires q.List(side) == [] ==> a.List(side) == []
    ensures Minded(a, side)
  {
    hide WokenFor;
  }

  lemma {:induction false} SameSize(q: Queue, a: Queue)
    requires a.tasks.Keys == q.tasks.Keys
    ensures |a.tasks| == |q.tasks|
  {
    assert |a.tasks| == |a.tasks.Keys| && |q.tasks| == |q.tasks.Keys|;
  }

  /** The counts after task `t` is served and the first waiter of `woken` is woken. */
  lemma {:induction false} ServedCounts(q: Queue, t: nat, messages: seq<int>, woken: Side, of: Side)
    requires t in q.tasks && !q.tasks[t].Waiting? && Listed(q, Receiving) && Listed(q, Sending)
    ensures var c := q.Put(t, Away).(messages := messages);
            && Listed(c, Receiving) && Listed(c, Sending)
            && (c.List(woken) != [] ==> c.List(woken)[0] in c.tasks && c.tasks[c.List(woken)[0]].Waiting?)
            && var a := WakeFirst(c, woken);
            && Listed(a, Receiving) && Listed(a, Sending) && OnlyWakes(c, a) && a.tx == q.tx && a.rx == q.rx
                && |a.tasks| == |q.tasks|
            && |WokenFor(a, of)| + (if WokenAs(q.tasks[t], of) then 1 else 0)
               == |WokenFor(q, of)| + (if of == woken && q.List(woken) != [] then 1 else 0)
            && (a.List(of) != [] ==> q.List(of) != [])
  {
    var b, c := q.Put(t, Away), q.Put(t, Away).(messages := messages);
    NotListed(q, t, Away);
    PutCounts(q, t, Away, of);
    SameCounts(b, c, of);
    assert Listed(c, Receiving) && Listed(c, Sending);
    hide WokenFor;
    WakeKeepsListed(c, woken, Receiving);
    WakeKeepsListed(c, woken, Sending);
    WakeOnlyWakes(c, woken);
    WakeCounts(c, woken, of);
    hide Listed, WakeFirst;
    assert of == woken || of == woken.Other();
  }

  lemma {:induction false} ServedIsMinded(q: Queue, a: Queue, t: nat, woken: Side, side: Side)
    requires Minded(q, side) && q.holder == None && a.holder == None && q.tx == a.tx == UNLOCKED
             && q.rx == a.rx == UNLOCKED
    requires t in q.tasks && |a.tasks| == |q.tasks| && a.length == q.length
    requires a.List(side) != [] ==> q.List(side) != []
    requires |WokenFor(a, side)| + (if WokenAs(q.tasks[t], side) then 1 else 0)
             == |WokenFor(q, side)| + (if side == woken && q.List(woken) != [] then 1 else 0)
    requires a.Available(side) <= 0
             || a.Available(side) + (if WokenAs(q.tasks[t], side) then 1
                 else 0) <= q.Available(side) + (if side == woken then 1 else 0)
    ensures Minded(a, side)
  {
    hide WokenFor;
    if a.List(side) != [] && a.Available(side) > 0 {
      Carry(q, a, side);
    } else {
      Satisfied(a, side);
    }
  }

  /** A call that can go on, and the messages it leaves. */
  function Left(q: Queue, call: Call): seq<int>
    requires Possible(q, call)
  {
    match call
    case Receive => q.messages[1..]
    case Peek => q.messages
    case _ => Added(q, call)
  }

  /** The side a served call has something for. */
  function Wakes(call: Call): Side {
    if call.Receive? then Sending else Receiving
  }

  lemma {:induction false} ServedShape(q: Queue, call: Call)
    requires Possible(q, call) && Listed(q, Receiving) && Listed(q, Sending)
    ensures var c := q.(messages := Left(q, call));
            && (c.List(Wakes(call)) != [] ==>
                c.List(Wakes(call))[0] in c.tasks && c.tasks[c.List(Wakes(call))[0]].Waiting?)
            && Served(q, call) == WakeFirst(c, Wakes(call))
  {
    if q.List(Wakes(call)) != [] {
      FirstIsListed(q, Wakes(call));
    }
    hide Listed;
  }

  lemma {:induction false} LeftFits(q: Queue, call: Call)
    requires Possible(q, call) && 0 < q.length && |q.messages| <= q.length
    ensures |Left(q, call)| <= q.length
    ensures call.Receive? ==> |Left(q, call)| == |q.messages| - 1
    ensures call.Peek? ==> |Left(q, call)| == |q.messages|
    ensures call.Side().Sending? ==>
            |Left(q, call)| == |q.messages| + 1 || (|Left(q, call)| == |q.messages| == q.length || call.Overwrite?)
    ensures call.Overwrite? ==> |Left(q, call)| == if q.messages == [] then 1 else |q.messages|
  {
  }

  lemma {:induction false} ServedLocked(q: Queue, c: Queue, a: Queue, t: nat)
    requires Locked(q) && q.holder == None && t in q.tasks && c.tasks == q.tasks[t := Away] && OnlyWakes(c, a)
    requires a.tx == q.tx && a.rx == q.rx && |a.tasks| == |q.tasks| && c.holder == None
    ensures Locked(a) && a.holder == None && a.tx == a.rx == q.tx == q.rx == UNLOCKED
  {
  }

  lemma {:induction false} RoomAfter(q: Queue, a: Queue, t: nat, call: Call)
    requires t in q.tasks && (q.tasks[t].Trying? || q.tasks[t].Woken?) && call == q.tasks[t].call && Possible(q, call)
    requires 0 < q.length && |q.messages| <= q.length && (call.Overwrite? ==> q.length == 1)
    requires a.messages == Left(q, call) && a.length == q.length
    ensures |a.messages| <= q.length
    ensures forall side: Side ::
              a.Available(side) <= 0
              || a.Available(side) + (if WokenAs(q.tasks[t], side) then 1
                  else 0) <= q.Available(side) + (if side == Wakes(call) then 1 else 0)
  {
    LeftFits(q, call);
  }

  lemma {:induction false} AttemptIs(q: Queue, t: nat)
    requires Inv(q) && Enabled(q, Attempt(t)) && Possible(q, q.tasks[t].call)
    ensures var call := q.tasks[t].call;
            var c := q.Put(t, Away).(messages := Left(q, call));
            && (c.List(Wakes(call)) != [] ==>
                c.List(Wakes(call))[0] in c.tasks && c.tasks[c.List(Wakes(call))[0]].Waiting?)
            && AfterAttempt(q, t) == WakeFirst(c, Wakes(call))
  {
    hide Minded;
    NotListed(q, t, Away);
    ServedShape(q.Put(t, Away), q.tasks[t].call);
  }

  lemma {:induction false} AttemptParts(q: Queue, t: nat)
    requires Inv(q) && Enabled(q, Attempt(t))
    ensures t in q.tasks && (q.tasks[t].Trying? || q.tasks[t].Woken?) && (q.tasks[t].call.Overwrite? ==> q.length == 1)
    ensures q.holder == None && Listed(q, Receiving) && Listed(q, Sending) && InLoop(q, t)
  {
    hide Listed, Minded;
  }

  lemma {:induction false} ServeKeeps(q: Queue, t: nat)
    requires Inv(q) && Enabled(q, Attempt(t)) && Possible(q, q.tasks[t].call)
    ensures Inv(AfterAttempt(q, t))
  {
    hide *;
    AttemptParts(q, t);
    InvParts(q);
    AttemptIs(q, t);
    var call, a := q.tasks[t].call, AfterAttempt(q, t);
    var left, woken := Left(q, call), Wakes(call);
    var c := q.Put(t, Away).(messages := left);
    ServedCounts(q, t, left, woken, Receiving);
    ServedCounts(q, t, left, woken, Sending);
    ServedIs(q, t, left);
    OnlyWakesParts(c, a);
    ServedLocked(q, c, a, t);
    RoomAfter(q, a, t, call);
    ServedIsMinded(q, a, t, woken, Receiving);
    ServedIsMinded(q, a, t, woken, Sending);
    InvParts(a);
  }

  lemma {:induction false} ServedIs(q: Queue, t: nat, messages: seq<int>)
    ensures var c := q.Put(t, Away).(messages := messages);
            && c.tasks == q.tasks[t := Away] && c.messages == messages && c.holder == q.holder && c.length == q.length
            && c.tx == q.tx && c.rx == q.rx
  {
  }

  lemma {:induction false} OnlyWakesParts(q: Queue, a: Queue)
    requires OnlyWakes(q, a)
    ensures a.messages == q.messages && a.length == q.length && a.holder == q.holder
  {
  }

  lemma {:induction false} AttemptKeeps(q: Queue, t: nat)
    requires Inv(q) && Enabled(q, Attempt(t))
    ensures Inv(AfterAttempt(q, t))
  {
    if Possible(q, q.tasks[t].call) {
      ServeKeeps(q, t);
    } else {
      hide Minded, Listed;
      MoveKeeps(q, t, Away);
      MoveKeeps(q, t, Pausing(q.tasks[t].call));
    }
  }

  /** What an interrupt does for a side, with the messages already changed. */
  lemma {:induction false} SignalKeeps(q: Queue, messages: seq<int>, side: Side)
    requires Inv(q) && |messages| <= q.length
    requires var c := q.(messages := messages);
             c.Available(side) <= q.Available(side) + 1 && c.Available(side.Other()) <= q.Available(side.Other())
    ensures var c := q.(messages := messages);
            && (c.List(side) != [] ==> c.List(side)[0] in c.tasks && c.tasks[c.List(side)[0]].Waiting?)
            && Inv(Signal(c, side))
  {
    hide *;
    InvParts(q);
    var c := q.(messages := messages);
    MessagesKeep(q, messages);
    FirstWaits(c, side);
    if q.Lock(side) == UNLOCKED {
      SignalWakes(q, c, side);
    } else {
      SignalCounts(q, c, side);
    }
  }

  lemma {:induction false} FirstWaits(c: Queue, side: Side)
    requires Listed(c, side)
    ensures c.List(side) != [] ==> c.List(side)[0] in c.tasks && c.tasks[c.List(side)[0]].Waiting?
  {
    if c.List(side) != [] {
      FirstIsListed(c, side);
    }
  }

  lemma {:induction false} MessagesKeep(q: Queue, messages: seq<int>)
    requires Listed(q, Receiving) && Listed(q, Sending) && Locked(q)
    ensures var c := q.(messages := messages);
            && Listed(c, Receiving) && Listed(c, Sending) && Locked(c)
            && WokenFor(c, Receiving) == WokenFor(q, Receiving) && WokenFor(c, Sending) == WokenFor(q, Sending)
            && c.tasks == q.tasks && c.holder == q.holder && c.length == q.length && c.messages == messages
            && forall side: Side :: c.Lock(side) == q.Lock(side) && c.List(side) == q.List(side)
                                    && Owed(c, side) == Owed(q, side)
                                    && (AboutToJoin(c, side) <==> AboutToJoin(q, side))
  {
    SameCounts(q, q.(messages := messages), Receiving);
    SameCounts(q, q.(messages := messages), Sending);
    hide WokenFor;
  }

  /** The queue is not locked on this side: one waiter is woken at once. */
  lemma {:induction false} SignalWakes(q: Queue, c: Queue, side: Side)
    requires Inv(q) && c == q.(messages := c.messages) && |c.messages| <= q.length && q.Lock(side) == UNLOCKED
    requires c.Available(side) <= q.Available(side) + 1 && c.Available(side.Other()) <= q.Available(side.Other())
    requires c.List(side) != [] ==> c.List(side)[0] in c.tasks && c.tasks[c.List(side)[0]].Waiting?
    ensures Inv(Signal(c, side))
  {
    MessagesKeep(q, c.messages);
    var a := Signal(c, side);
    assert a == WakeFirst(c, side);
    WakeKeepsListed(c, side, Receiving);
    WakeKeepsListed(c, side, Sending);
    WakeOnlyWakes(c, side);
    WakeCounts(c, side, side);
    WakeCounts(c, side, side.Other());
    hide Listed, WokenFor, Minded, WakeFirst, Signal;
    StillNobodyJoinsHere(q, a, side);
    if a.List(side) == [] {
      Satisfied(a, side);
    } else {
      Carry(q, a, side);
    }
    Carry(q, a, side.Other());
    assert side == Receiving || side == Sending;
    assert Locked(a);
  }

  lemma {:induction false} StillNobodyJoinsHere(q: Queue, a: Queue, side: Side)
    requires Locked(q) && q.Lock(side) == UNLOCKED && a.holder == q.holder
    ensures !AboutToJoin(a, Receiving) && !AboutToJoin(a, Sending)
  {
  }

  /** The queue is locked on this side: one more wake-up is owed, or everybody's already. */
  lemma {:induction false} SignalCounts(q: Queue, c: Queue, side: Side)
    requires Inv(q) && c == q.(messages := c.messages) && |c.messages| <= q.length && q.Lock(side) != UNLOCKED
    requires c.Available(side) <= q.Available(side) + 1 && c.Available(side.Other()) <= q.Available(side.Other())
    requires c.List(side) != [] ==> c.List(side)[0] in c.tasks && c.tasks[c.List(side)[0]].Waiting?
    ensures Inv(Signal(c, side))
  {
    MessagesKeep(q, c.messages);
    var a := Signal(c, side);
    assert a.tasks == q.tasks && a.holder == q.holder && a.messages == c.messages && a.length == q.length;
    assert a.receivers == q.receivers && a.senders == q.senders;
    SameCounts(q, a, Receiving);
    SameCounts(q, a, Sending);
    assert Listed(a, Receiving) && Listed(a, Sending);
    hide Listed, WokenFor, WakeFirst;
    Carry(q, a, side.Other());
    assert side == Receiving || side == Sending;
  }

  lemma {:induction false} InterruptSendKeeps(q: Queue, call: Call)
    requires Inv(q) && Enabled(q, InterruptSend(call))
    ensures Inv(AfterInterruptSend(q, call))
  {
    InvParts(q);
    hide Inv, Listed, Locked, Minded, Signal;
    if Possible(q, call) {
      SignalKeeps(q, Added(q, call), Receiving);
    }
  }

  lemma {:induction false} InterruptReceiveKeeps(q: Queue)
    requires Inv(q)
    ensures Listed(q, Sending) && Inv(AfterInterruptReceive(q))
  {
    InvParts(q);
    hide Inv, Listed, Locked, Minded, Signal;
    if q.messages != [] {
      SignalKeeps(q, q.messages[1..], Sending);
    }
  }

  /** Every step keeps the invariant. */
  lemma {:induction false} StepKeeps(q: Queue, step: Step)
    requires Inv(q) && Enabled(q, step)
    ensures Inv(After(q, step))
  {
    hide Listed, Locked, Minded, AfterAttempt, AfterSuspend, AfterCheck, AfterJoin, AfterUnlockTx, AfterUnlockRx,
         AfterTimeOut,
         AfterInterruptSend, AfterInterruptReceive;
    match step {
      case Begin(t, call, patient) => MoveKeeps(q, t, Trying(call, patient));
      case Attempt(t) => AttemptKeeps(q, t);
      case Suspend(t) => SuspendKeeps(q, t);
      case Check(expired) => CheckKeeps(q, expired);
      case Join(at) => JoinKeeps(q, at);
      case UnlockTx => UnlockTxKeeps(q);
      case UnlockRx => UnlockRxKeeps(q);
      case Recheck(t) => MoveKeeps(q, t, if q.messages == [] then Away else Trying(q.tasks[t].call, false));
      case TimeOut(t) => TimeOutKeeps(q, t);
      case InterruptSend(call) => InterruptSendKeeps(q, call);
      case InterruptReceive => InterruptReceiveKeeps(q);
      case Create(t) => CreateKeeps(q, t);
    }
  }

  // ----- Runs -----

  ghost predicate Start(q: Queue) {
    && 0 < q.length && q.messages == [] && q.tx == UNLOCKED && q.rx == UNLOCKED && q.receivers == [] && q.senders == []
    && q.holder == None && |q.tasks| <= MAX_TASKS && forall t :: t in q.tasks ==> q.tasks[t] == Away
  }

  lemma {:induction false} StartHolds(q: Queue)
    requires Start(q)
    ensures Inv(q)
  {
  }

  ghost predicate Leads(q: Queue, step: Step, a: Queue) {
    Listed(q, Receiving) && Listed(q, Sending) && Enabled(q, step) && a == After(q, step)
  }

  ghost predicate Path(states: seq<Queue>, steps: seq<Step>) {
    |states| == |steps| + 1 && forall i :: 0 <= i < |steps| ==> Leads(states[i], steps[i], states[i + 1])
  }

  lemma {:induction false} InvAlways(states: seq<Queue>, steps: seq<Step>, i: nat)
    requires Path(states, steps) && Start(states[0]) && i <= |steps|
    ensures Inv(states[i])
  {
    hide Inv, Start, Enabled, After, Listed;
    if i == 0 {
      StartHolds(states[0]);
    } else {
      InvAlways(states, steps, i - 1);
      assert Leads(states[i - 1], steps[i - 1], states[i]);
      StepKeeps(states[i - 1], steps[i - 1]);
    }
  }

  /** No lost wake-ups: in every reachable state in which tasks wait for messages, or for room, every
      message, or free slot, is spoken for by a task that was woken and has not tried again yet or
      by a wake-up owed at the unlock; unless as many are owed as there are tasks. */
  lemma {:induction false} NoLostWakeups(states: seq<Queue>, steps: seq<Step>, i: nat, side: Side)
    requires Path(states, steps) && Start(states[0]) && i <= |steps| && states[i].List(side) != []
    ensures states[i].Available(side) <= |WokenFor(states[i], side)| + Owed(states[i], side)
            || states[i].Lock(side) >= |states[i].tasks|
  {
    hide Start, Listed, Locked, WokenFor;
    InvAlways(states, steps, i);
    assert side == Receiving || side == Sending;
  }

  /** In particular nobody sleeps next to a message, or a free slot, once things have settled. */
  lemma {:induction false} NobodySleepsOnData(states: seq<Queue>, steps: seq<Step>, i: nat, side: Side)
    requires Path(states, steps) && Start(states[0]) && i <= |steps|
    requires states[i].holder == None && WokenFor(states[i], side) == {} && states[i].List(side) != []
    ensures states[i].Available(side) <= 0
  {
    NoLostWakeups(states, steps, i, side);
    InvAlways(states, steps, i);
    hide Start, Listed, WokenFor, Path;
  }

  /** The lock counts fit a signed byte, so the assertion at their increment never fires. */
  lemma {:induction false} LockCountsFit(states: seq<Queue>, steps: seq<Step>, i: nat)
    requires Path(states, steps) && Start(states[0]) && i <= |steps|
    ensures -1 <= states[i].tx <= 127 && -1 <= states[i].rx <= 127
  {
    InvAlways(states, steps, i);
    hide Start, Listed, Minded, Path;
  }
}
