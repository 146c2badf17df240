/** What goes into a queue comes out of it, over whole runs of tasks and interrupts.

    Modelled code: nimble/os/freertos/queue.c:835-1044 (send), 1046-1196 (send from an interrupt),
    1376-1510 (receive), 1729-1868 (peek), 1870-1970 (receive from an interrupt), 2150-2275 (copying). */
module MessageOrder {
  import opened Sequences
  import opened Wakeups

  /** The message a step puts into the queue, if any. */
  function Accepted(q: Queue, step: Step): seq<int> {
    match step
    case Attempt(t) =>
      if InLoop(q, t) && q.tasks[t].call.Side().Sending?
          && Possible(q, q.tasks[t].call) then [q.tasks[t].call.item] else []
    case InterruptSend(call) => if call.Side().Sending? && Possible(q, call) then [call.item] else []
    case _ => []
  }

  /** The message a step hands over and takes out, if any. */
  function Delivered(q: Queue, step: Step): seq<int> {
    match step
    case Attempt(t) => if InLoop(q, t) && q.tasks[t].call.Receive? && q.messages != [] then [q.messages[0]] else []
    case InterruptReceive => if q.messages != [] then [q.messages[0]] else []
    case _ => []
  }

  /** A call that overwrites nothing and, if `fifo`, sends to the back only. */
  predicate Fits(call: Call, fifo: bool) {
    !call.Overwrite? && (fifo ==> !call.SendFront?)
  }

  ghost predicate AllFit(q: Queue, fifo: bool) {
    forall t :: t in q.tasks && !q.tasks[t].Away? ==> Fits(q.tasks[t].call, fifo)
  }

  predicate StepFits(step: Step, fifo: bool) {
    match step
    case Begin(_, call, _) => Fits(call, fifo)
    case InterruptSend(call) => Fits(call, fifo)
    case _ => true
  }

  // ----- Steps that move no message -----

  /** Only places in calls and lists have changed. */
  ghost predicate OnlyMoved(q: Queue, a: Queue, fifo: bool) {
    a.messages == q.messages && (AllFit(q, fifo) ==> AllFit(a, fifo))
  }

  lemma {:induction false} WakeMoves(q: Queue, side: Side, fifo: bool)
    requires q.List(side) != [] ==> q.List(side)[0] in q.tasks && q.tasks[q.List(side)[0]].Waiting?
    ensures OnlyMoved(q, WakeFirst(q, side), fifo)
  {
  }

  lemma {:induction false} PayOffMoves(q: Queue, side: Side, owed: nat, fifo: bool)
    requires Listed(q, side)
    ensures OnlyMoved(q, PayOff(q, side, owed), fifo)
    decreases owed
  {
    if owed > 0 && q.List(side) != [] {
      FirstIsListed(q, side);
      WakeKeepsListed(q, side, side);
      WakeMoves(q, side, fifo);
      PayOffMoves(WakeFirst(q, side), side, owed - 1, fifo);
    }
  }

  lemma {:induction false} UnlockTxMoves(q: Queue, fifo: bool)
    requires Holds(q, UnlockingTx) && Listed(q, Receiving)
    ensures OnlyMoved(q, AfterUnlockTx(q), fifo)
  {
    hide PayOff, Listed;
    PayOffMoves(q, Receiving, Owed(q, Receiving), fifo);
  }

  lemma {:induction false} UnlockRxMoves(q: Queue, fifo: bool)
    requires Holds(q, UnlockingRx) && Listed(q, Sending)
    ensures OnlyMoved(q, AfterUnlockRx(q), fifo)
  {
    hide PayOff, Listed;
    PayOffMoves(q, Sending, Owed(q, Sending), fifo);
  }

  lemma {:induction false} SignalMoves(q: Queue, side: Side, fifo: bool)
    requires q.List(side) != [] ==> q.List(side)[0] in q.tasks && q.tasks[q.List(side)[0]].Waiting?
    ensures OnlyMoved(q, Signal(q, side), fifo)
  {
    hide WakeFirst;
    WakeMoves(q, side, fifo);
  }

  /** Every other step than a send or a receive leaves the messages alone. */
  lemma {:induction false} OtherMoves(q: Queue, step: Step, fifo: bool)
    requires Listed(q, Receiving) && Listed(q, Sending) && Enabled(q, step) && StepFits(step, fifo)
    requires !step.Attempt? && !step.InterruptSend? && !step.InterruptReceive?
    ensures OnlyMoved(q, After(q, step), fifo)
  {
    hide Listed, AfterUnlockTx, AfterUnlockRx, Without;
    match step
    case UnlockTx => UnlockTxMoves(q, fifo);
    case UnlockRx => UnlockRxMoves(q, fifo);
    case _ =>
  }

  // ----- Steps that move one -----

  /** What becomes of the messages when `taken` go in and `given` come out: the order is kept, or at
      least the messages are. */
  ghost predicate Balanced(before: seq<int>, after: seq<int>, taken: seq<int>, given: seq<int>, fifo: bool) {
    && (fifo ==> given + after == before + taken)
    && multiset(given) + multiset(after) == multiset(before) + multiset(taken)
  }

  lemma {:induction false} NothingBalances(messages: seq<int>, fifo: bool)
    ensures Balanced(messages, messages, [], [], fifo)
  {
    assert [] + messages == messages + [];
  }

  lemma {:induction false} AddedBalances(q: Queue, call: Call, fifo: bool)
    requires call.Side() == Sending && Fits(call, fifo)
    ensures Balanced(q.messages, Added(q, call), [call.item], [], fifo)
  {
    assert call.SendBack? ==> [] + Added(q, call) == q.messages + [call.item];
  }

  lemma {:induction false} FirstOut(messages: seq<int>, fifo: bool)
    requires messages != []
    ensures Balanced(messages, messages[1..], [], [messages[0]], fifo)
  {
    assert [messages[0]] + messages[1..] == messages + [] == messages;
  }

  /** A run of balanced steps is balanced. */
  lemma {:induction false} BalancesJoin(a: seq<int>, b: seq<int>, c: seq<int>, taken: seq<int>, given: seq<int>,
                                        more: seq<int>, out: seq<int>, fifo: bool)
    requires Balanced(a, b, taken, given, fifo) && Balanced(b, c, more, out, fifo)
    ensures Balanced(a, c, taken + more, given + out, fifo)
  {
    calc {
      multiset(given + out) + multiset(c);
      multiset(given) + (multiset(out) + multiset(c));
      multiset(given) + (multiset(b) + multiset(more));
      (multiset(given) + multiset(b)) + multiset(more);
      (multiset(a) + multiset(taken)) + multiset(more);
      multiset(a) + multiset(taken + more);
    }
    if fifo {
      calc {
        (given + out) + c;
        given + (out + c);
        given + (b + more);
        (given + b) + more;
        (a + taken) + more;
        a + (taken + more);
      }
    }
  }

  /** A call that can go on. */
  lemma {:induction false} ServedBalances(q: Queue, call: Call, fifo: bool)
    requires Possible(q, call) && Listed(q, Receiving) && Listed(q, Sending) && AllFit(q, fifo) && Fits(call, fifo)
    ensures var given, taken := if call.Receive? then [q.messages[0]] else [],
            if call.Side().Sending? then [call.item] else [];
            Balanced(q.messages, Served(q, call).messages, taken, given, fifo)
    ensures AllFit(Served(q, call), fifo)
  {
    WakeKeepsListed(q, Receiving, Receiving);
    WakeKeepsListed(q, Sending, Sending);
    hide Listed, WakeFirst, Balanced, Added;
    if call.Receive? {
      FirstOut(q.messages, fifo);
      WakeMoves(q.(messages := q.messages[1..]), Sending, fifo);
    } else if call.Peek? {
      NothingBalances(q.messages, fifo);
      WakeMoves(q, Receiving, fifo);
    } else {
      AddedBalances(q, call, fifo);
      WakeMoves(q.(messages := Added(q, call)), Receiving, fifo);
    }
  }

  lemma {:induction false} AttemptBalances(q: Queue, t: nat, fifo: bool)
    requires InLoop(q, t) && Listed(q, Receiving) && Listed(q, Sending) && AllFit(q, fifo)
    ensures Balanced(q.messages, AfterAttempt(q, t).messages, Accepted(q, Attempt(t)), Delivered(q, Attempt(t)), fifo)
    ensures AllFit(AfterAttempt(q, t), fifo)
  {
    hide Listed, Balanced, Served;
    if Possible(q, q.tasks[t].call) {
      NotListed(q, t, Away);
      ServedBalances(q.Put(t, Away), q.tasks[t].call, fifo);
    } else {
      NothingBalances(q.messages, fifo);
    }
  }

  lemma {:induction false} InterruptBalances(q: Queue, step: Step, fifo: bool)
    requires Listed(q, Receiving) && Listed(q, Sending) && Enabled(q, step) && AllFit(q, fifo) && StepFits(step, fifo)
    requires step.InterruptSend? || step.InterruptReceive?
    ensures Balanced(q.messages, After(q, step).messages, Accepted(q, step), Delivered(q, step), fifo)
            && AllFit(After(q, step), fifo)
  {
    WakeKeepsListed(q, Receiving, Receiving);
    WakeKeepsListed(q, Sending, Sending);
    hide Listed, Signal, Balanced, Added;
    NothingBalances(q.messages, fifo);
    if step.InterruptSend? && Possible(q, step.call) {
      AddedBalances(q, step.call, fifo);
      SignalMoves(q.(messages := Added(q, step.call)), Receiving, fifo);
    } else if step.InterruptReceive? && q.messages != [] {
      FirstOut(q.messages, fifo);
      SignalMoves(q.(messages := q.messages[1..]), Sending, fifo);
    }
  }

  lemma {:induction false} StepBalances(q: Queue, step: Step, fifo: bool)
    requires Listed(q, Receiving) && Listed(q, Sending) && Enabled(q, step) && AllFit(q, fifo) && StepFits(step, fifo)
    ensures Balanced(q.messages, After(q, step).messages, Accepted(q, step), Delivered(q, step), fifo)
            && AllFit(After(q, step), fifo)
  {
    hide Listed, AllFit, Balanced;
    match step
    case Attempt(t) => AttemptBalances(q, t, fifo);
    case InterruptSend(_) => InterruptBalances(q, step, fifo);
    case InterruptReceive => InterruptBalances(q, step, fifo);
    case _ =>
      OtherMoves(q, step, fifo);
      NothingBalances(q.messages, fifo);
  }

  // ----- Runs -----

  /** All messages put in by the first `n` steps, in order. */
  ghost function AllAccepted(states: seq<Queue>, steps: seq<Step>, n: nat): seq<int>
    requires n <= |steps| < |states|
  {
    if n == 0 then [] else AllAccepted(states, steps, n - 1) + Accepted(states[n - 1], steps[n - 1])
  }

  ghost function AllDelivered(states: seq<Queue>, steps: seq<Step>, n: nat): seq<int>
    requires n <= |steps| < |states|
  {
    if n == 0 then [] else AllDelivered(states, steps, n - 1) + Delivered(states[n - 1], steps[n - 1])
  }

  ghost predicate RunFits(steps: seq<Step>, fifo: bool) {
    forall i :: 0 <= i < |steps| ==> StepFits(steps[i], fifo)
  }

  lemma {:induction false} RunBalances(states: seq<Queue>, steps: seq<Step>, n: nat, fifo: bool)
    requires Path(states, steps) && Start(states[0]) && n <= |steps| && RunFits(steps, fifo)
    ensures AllFit(states[n], fifo)
    ensures Balanced([], states[n].messages, AllAccepted(states, steps, n), AllDelivered(states, steps, n), fifo)
  {
    hide Enabled, After, Listed, AllFit, StepFits, Accepted, Delivered, Balanced;
    if n == 0 {
      NobodyCalls(states[0], fifo);
      NothingBalances([], fifo);
    } else {
      hide Start;
      RunBalances(states, steps, n - 1, fifo);
      assert Leads(states[n - 1], steps[n - 1], states[n]);
      StepBalances(states[n - 1], steps[n - 1], fifo);
      BalancesJoin([], states[n - 1].messages, states[n].messages, AllAccepted(states, steps, n - 1),
                   AllDelivered(states, steps, n - 1),
                   Accepted(states[n - 1], steps[n - 1]), Delivered(states[n - 1], steps[n - 1]), fifo);
    }
  }

  lemma {:induction false} NobodyCalls(q: Queue, fifo: bool)
    requires Start(q)
    ensures AllFit(q, fifo) && q.messages == []
  {
  }

  /** First in, first out: over any run in which messages are sent to the back, by any tasks and
      interrupts, what was handed over, followed by what is in the queue, is what was sent, in order. */
  lemma {:induction false} FirstInFirstOut(states: seq<Queue>, steps: seq<Step>)
    requires Path(states, steps) && Start(states[0]) && RunFits(steps, true)
    ensures AllDelivered(states, steps, |steps|) + states[|steps|].messages == AllAccepted(states, steps, |steps|)
  {
    RunBalances(states, steps, |steps|, true);
  }

  /** Also when messages are sent to the front, none is lost and none comes twice. */
  lemma {:induction false} NoneLost(states: seq<Queue>, steps: seq<Step>)
    requires Path(states, steps) && Start(states[0]) && RunFits(steps, false)
    ensures multiset(AllDelivered(states, steps, |steps|)) + multiset(states[|steps|].messages)
            == multiset(AllAccepted(states, steps, |steps|))
    ensures |states[|steps|].messages| <= states[|steps|].length
  {
    RunBalances(states, steps, |steps|, false);
    InvAlways(states, steps, |steps|);
  }
}
