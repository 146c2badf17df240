/** Software timers: two lists of expiry times on a tick count that wraps, served by a daemon that
    may run late.

    Modelled code: nimble/os/freertos/timers.c:522-566 (expiry), 588-720 (the daemon's loop),
    722-757 (inserting), 760-905 (commands), 908-930 (switching the lists). The period of a timer
    is less than one wrap of the count, and so is every delay of the daemon while a timer is listed. */
module Timers {
  import opened Sequences
  import opened Ticks

  datatype Timer = Timer(period: nat, autoReload: bool, active: bool) {
    predicate Valid() {
      0 < period < WRAP
    }
  }

  // ----- Expiry times of a timer -----

  /** The `k`-th expiry of a timer started at `start`. */
  function Expiry(start: nat, period: nat, k: nat): nat {
    if k == 0 then start else Expiry(start, period, k - 1) + period
  }

  lemma {:induction false} ExpiryIsMultiple(start: nat, period: nat, k: nat)
    ensures Expiry(start, period, k) == start + k * period
  {
    if k > 0 {
      ExpiryIsMultiple(start, period, k - 1);
      assert k * period == (k - 1) * period + period;
    }
  }

  /** The callbacks of a timer since it was last started: the `i`-th stood for the `i`-th expiry and
      was not early; the one to come is the next. */
  ghost predicate OnTrack(timer: Timer, start: nat, history: seq<nat>, clock: nat) {
    && timer.Valid() && start <= clock
    && (forall i :: 0 <= i < |history| ==> history[i] == Expiry(start, timer.period, i + 1) && history[i] <= clock)
    && (!timer.autoReload ==> |history| <= if timer.active then 0 else 1)
  }

  /** The first `n` expiries. */
  function Expiries(start: nat, period: nat, n: nat): (r: seq<nat>)
    ensures |r| == n && forall i :: 0 <= i < n ==> r[i] == Expiry(start, period, i + 1)
  {
    if n == 0 then [] else Expiries(start, period, n - 1) + [Expiry(start, period, n)]
  }

  lemma {:induction false} OnTrackHistory(timer: Timer, start: nat, history: seq<nat>, clock: nat)
    requires OnTrack(timer, start, history, clock)
    ensures history == Expiries(start, timer.period, |history|) && Expiry(start, timer.period, |history|) <= clock
  {
    hide Expiries;
    var k := |history|;
    if k > 0 {
      assert history[k - 1] == Expiry(start, timer.period, k);
    }
  }

  lemma {:induction false} OneMoreExpiry(timer: Timer, start: nat, history: seq<nat>, clock: nat, active: bool)
    requires OnTrack(timer, start, history, clock) && Expiry(start, timer.period, |history| + 1) <= clock
    requires timer.active && (!timer.autoReload ==> !active)
    ensures OnTrack(timer.(active := active), start, history + [Expiry(start, timer.period, |history| + 1)], clock)
  {
    hide Expiry;
  }

  // ----- Where an expiry time belongs -----

  /** Two times less than a wrap apart. */
  lemma {:induction false} Window(a: nat, b: nat)
    requires a <= b < a + WRAP
    ensures Epoch(b) == Epoch(a) || Epoch(b) == Epoch(a) + WRAP
    ensures Epoch(b) == Epoch(a) <==> a % WRAP <= b % WRAP
    ensures (b % WRAP + WRAP - a % WRAP) % WRAP == b - a
  {
    EpochSteps(a, b);
  }

  lemma {:induction false} StoredExpiry(command: nat, period: nat)
    ensures (command % WRAP + period) % WRAP == (command + period) % WRAP
  {
  }

  /** The test for an expiry that has passed, and the list an expiry to come goes on, are right. */
  lemma {:induction false} InsertRule(command: nat, period: nat, now: nat)
    requires command <= now < command + WRAP && 0 < period < WRAP
    ensures var c, n, t := command % WRAP, (command % WRAP + period) % WRAP, now % WRAP;
            && n == (command + period) % WRAP
            && (n <= t ==> ((t + WRAP - c) % WRAP >= period <==> command + period <= now))
            && (n <= t && command + period > now ==> command + period == Epoch(now) + WRAP + n)
            && (n > t ==> (t < c && n >= c <==> command + period <= now))
            && (n > t && command + period > now ==> command + period == Epoch(now) + n)
  {
    var next := command + period;
    Window(command, now);
    Window(command, next);
    if next > now {
      Window(now, next);
    } else {
      Window(next, now);
    }
    hide Epoch;
  }

  lemma {:induction false} LaterTrack(timer: Timer, start: nat, history: seq<nat>, clock: nat, later: nat)
    requires OnTrack(timer, start, history, clock) && clock <= later
    ensures OnTrack(timer, start, history, later)
  {
    hide Expiry;
  }

  /** The same timers with the same periods and kinds. */
  ghost predicate SameSettings(a: map<nat, Timer>, b: map<nat, Timer>) {
    a.Keys == b.Keys && forall t :: t in a ==> b[t].period == a[t].period && b[t].autoReload == a[t].autoReload
  }

  /** The timers, when they expire next, and the expiries their callbacks have stood for. */
  datatype Ledger = Ledger(timers: map<nat, Timer>, due: map<nat, nat>, history: map<nat, seq<nat>>)

  /** What may become of timer `u` by time `now` if no command names it. An inactive timer stays so and
      nothing is called. An active auto-reload timer stays active. An active one-shot timer stays listed
      as it is, or, once its expiry has passed, is inactive after the one callback for that expiry. */
  ghost predicate Progresses(a: Ledger, b: Ledger, u: nat, now: nat) {
    && u in a.timers && u in b.timers && u in a.history && u in b.history
    && b.timers[u] == a.timers[u].(active := b.timers[u].active)
    && (!a.timers[u].active ==> !b.timers[u].active && b.history[u] == a.history[u])
    && (a.timers[u].active && a.timers[u].autoReload ==> b.timers[u].active && a.history[u] <= b.history[u])
    && (a.timers[u].active && !a.timers[u].autoReload ==>
          && u in a.due
          && if b.timers[u].active then u in b.due && b.due[u] == a.due[u] && b.history[u] == a.history[u]
             else a.due[u] <= now && b.history[u] == a.history[u] + [a.due[u]])
  }

  /** The same for all timers but `t`. */
  ghost predicate OthersProgress(a: Ledger, b: Ledger, t: nat, now: nat) {
    forall u :: u in a.timers && u != t ==> Progresses(a, b, u, now)
  }

  ghost predicate AllProgress(a: Ledger, b: Ledger, now: nat) {
    forall u :: u in a.timers ==> Progresses(a, b, u, now)
  }

  lemma {:induction false} ProgressJoins(a: Ledger, b: Ledger, c: Ledger, u: nat, now: nat)
    requires Progresses(a, b, u, now) && Progresses(b, c, u, now)
    ensures Progresses(a, c, u, now)
  {
  }

  lemma {:induction false} StillProgresses(a: Ledger, b: Ledger, u: nat, now: nat)
    requires u in a.timers && u in b.timers && b.timers[u] == a.timers[u]
    requires u in a.history && u in b.history && b.history[u] == a.history[u]
    requires a.timers[u].active ==> u in a.due && u in b.due && b.due[u] == a.due[u]
    ensures Progresses(a, b, u, now)
  {
  }

  /** Every timer has a history, and every active one is listed. */
  ghost predicate Complete(a: Ledger) {
    forall u :: u in a.timers ==> u in a.history && (a.timers[u].active ==> u in a.due)
  }

  lemma {:induction false} SameElsewhere(a: map<nat, nat>, b: map<nat, nat>, t: nat, u: nat)
    requires a - {t} == b - {t} && u != t
    ensures (u in a <==> u in b) && (u in a ==> a[u] == b[u])
  {
    assert u in a <==> u in a - {t};
    assert u in b <==> u in b - {t};
    assert u in a ==> a[u] == (a - {t})[u];
    assert u in b ==> b[u] == (b - {t})[u];
  }

  /** The expiry of timer `t` at `a.due[t]` has been handled. */
  lemma {:induction false} OneProgresses(a: Ledger, b: Ledger, t: nat, now: nat)
    requires Complete(a) && t in a.timers && t in b.timers && t in a.history && t in b.history && t in a.due
    requires a.timers[t].active && b.timers[t] == a.timers[t].(active := a.timers[t].autoReload) && a.due[t] <= now
    requires if a.timers[t].autoReload then a.history[t] <= b.history[t] else
               b.history[t] == a.history[t] + [a.due[t]]
    requires b.timers == a.timers[t := b.timers[t]] && b.history == a.history[t := b.history[t]]
    requires b.due - {t} == a.due - {t}
    ensures AllProgress(a, b, now)
  {
    forall u | u in a.timers && u != t
      ensures Progresses(a, b, u, now)
    {
      SameElsewhere(a.due, b.due, t, u);
      StillProgresses(a, b, u, now);
    }
  }

  lemma {:induction false} ProgressLater(a: Ledger, b: Ledger, now: nat, later: nat)
    requires AllProgress(a, b, now) && now <= later
    ensures AllProgress(a, b, later)
  {
    forall u | u in a.timers
      ensures Progresses(a, b, u, later)
    {
      assert Progresses(a, b, u, now);
    }
  }

  lemma {:induction false} AllProgressJoins(a: Ledger, b: Ledger, c: Ledger, now: nat)
    requires AllProgress(a, b, now) && AllProgress(b, c, now)
    ensures AllProgress(a, c, now)
  {
    forall u | u in a.timers
      ensures Progresses(a, c, u, now)
    {
      assert Progresses(a, b, u, now);
      ProgressJoins(a, b, c, u, now);
    }
  }

  /** Nothing differs but timer `t`. */
  ghost predicate SameBut(a: Ledger, b: Ledger, t: nat) {
    a.timers - {t} == b.timers - {t} && a.due - {t} == b.due - {t} && a.history - {t} == b.history - {t}
  }

  lemma {:induction false} SameBooks(a: Ledger, b: Ledger, t: nat, u: nat)
    requires SameBut(a, b, t) && u != t
    ensures (u in a.timers <==> u in b.timers) && (u in a.timers ==> a.timers[u] == b.timers[u])
    ensures (u in a.due <==> u in b.due) && (u in a.due ==> a.due[u] == b.due[u])
    ensures (u in a.history <==> u in b.history) && (u in a.history ==> a.history[u] == b.history[u])
  {
    assert u in a.timers <==> u in a.timers - {t};
    assert u in b.timers <==> u in b.timers - {t};
    assert u in a.timers ==> a.timers[u] == (a.timers - {t})[u];
    assert u in b.timers ==> b.timers[u] == (b.timers - {t})[u];
    SameElsewhere(a.due, b.due, t, u);
    assert u in a.history <==> u in a.history - {t};
    assert u in b.history <==> u in b.history - {t};
    assert u in a.history ==> a.history[u] == (a.history - {t})[u];
    assert u in b.history ==> b.history[u] == (b.history - {t})[u];
  }

  /** Timer `t` was taken off its list, and then time went on. */
  lemma {:induction false} OthersGoOn(a: Ledger, b: Ledger, c: Ledger, t: nat, now: nat)
    requires SameBut(a, b, t) && AllProgress(b, c, now)
    ensures OthersProgress(a, c, t, now)
  {
    hide SameBut;
    forall u | u in a.timers && u != t
      ensures Progresses(a, c, u, now)
    {
      SameBooks(a, b, t, u);
      assert Progresses(b, c, u, now);
    }
  }

  lemma {:induction false} OthersStay(a: Ledger, b: Ledger, c: Ledger, t: nat, now: nat)
    requires OthersProgress(a, b, t, now) && SameBut(b, c, t)
    ensures OthersProgress(a, c, t, now)
  {
    hide SameBut;
    forall u | u in a.timers && u != t
      ensures Progresses(a, c, u, now)
    {
      assert Progresses(a, b, u, now);
      SameBooks(b, c, t, u);
    }
  }

  lemma {:induction false} StaysOff(a: Ledger, b: Ledger, t: nat, now: nat)
    requires AllProgress(a, b, now) && t in a.timers && !a.timers[t].active
    ensures t in a.history && t in b.history && t in b.timers && !b.timers[t].active && b.history[t] == a.history[t]
  {
    assert Progresses(a, b, t, now);
  }

  lemma {:induction false} ChangedBook(a: Ledger, b: Ledger, t: nat)
    requires t in b.timers && b.timers == a.timers[t := b.timers[t]]
    requires b.history == a.history || (t in b.history && b.history == a.history[t := b.history[t]])
    requires b.due - {t} == a.due - {t}
    ensures SameBut(a, b, t)
  {
  }

  class Daemon {
    var timers: map<nat, Timer>
    var current: seq<Entry>             // pxCurrentTimerList
    var overflow: seq<Entry>            // pxOverflowTimerList
    var lastTime: nat                   // xLastTime
    ghost var clock: nat                // the time of the last sample, on a clock that does not wrap
    ghost var epoch: nat                // when the count was zero in the epoch of the current list
    ghost var due: map<nat, nat>        // when each active timer expires next
    ghost var start: map<nat, nat>      // when each timer was last started
    ghost var history: map<nat, seq<nat>> // the expiries its callbacks have stood for since

    ghost function Book(): Ledger
      reads this`timers, this`due, this`history
    {
      Ledger(timers, due, history)
    }

    /** Each list holds only expiries of its own epoch, in order. */
    ghost predicate Listed()
      reads this`current, this`overflow, this`due, this`epoch
    {
      && Scheduled(current, due, epoch, -1, MAX_DELAY) && Scheduled(overflow, due, epoch + WRAP, -1, MAX_DELAY)
      && Partition(current, overflow, due)
    }

    /** Timer `t` has had exactly its expiries so far, and if active it is listed for the next. */
    ghost predicate Tracked(t: nat)
      reads this`timers, this`due, this`start, this`history, this`clock
    {
      && t in timers && t in start && t in history && OnTrack(timers[t], start[t], history[t], clock)
      && (timers[t].active <==> t in due)
      && (t in due ==> due[t] == Expiry(start[t], timers[t].period, |history[t]| + 1))
    }

    ghost predicate AllTracked()
      reads this`timers, this`due, this`start, this`history, this`clock
    {
      (forall t :: t in timers ==> Tracked(t)) && forall t :: t in due ==> t in timers
    }

    ghost predicate Valid()
      reads this
    {
      lastTime == clock % WRAP && epoch == Epoch(clock) && Listed() && AllTracked()
    }

    constructor ()
      ensures Valid() && clock == 0 && timers == map[] && due == map[]
    {
      timers, current, overflow, lastTime := map[], [], [], 0;
      clock, epoch, due, start, history := 0, 0, map[], map[], map[];
    }

    // ----- Lists -----

    method Insert(t: nat, value: nat, far: bool)
      requires Listed() && t !in due && value < WRAP
      modifies this`current, this`overflow, this`due
      ensures Listed() && due == old(due)[t := (if far then epoch + WRAP else epoch) + value]
      ensures if far then current == old(current) else overflow == old(overflow)
    {
      hide Scheduled, Partition, Inserted, Sorted;
      NotContained(current, overflow, due, t);
      SortedOf(current, due, epoch, -1, MAX_DELAY);
      SortedOf(overflow, due, epoch + WRAP, -1, MAX_DELAY);
      var e := Entry(t, value);
      ghost var time := (if far then epoch + WRAP else epoch) + value;
      if far {
        var at := ListInsert(overflow, e);
        InsertScheduled(overflow, due, epoch + WRAP, -1, MAX_DELAY, e, at);
        OtherDue(current, due, epoch, -1, MAX_DELAY, t, time);
        PartitionSwap(current, overflow, due);
        PartitionMore(overflow, current, due, at, e, time);
        PartitionSwap(Inserted(overflow, at, e), current, due[t := time]);
        overflow := Inserted(overflow, at, e);
      } else {
        var at := ListInsert(current, e);
        InsertScheduled(current, due, epoch, -1, MAX_DELAY, e, at);
        OtherDue(overflow, due, epoch + WRAP, -1, MAX_DELAY, t, time);
        PartitionMore(current, overflow, due, at, e, time);
        current := Inserted(current, at, e);
      }
      due := due[t := time];
    }

    /** Takes a timer off whichever list it is on. */
    method Remove(t: nat)
      requires Listed()
      modifies this`current, this`overflow, this`due
      ensures Listed() && due == old(due) - {t}
      ensures current == Unlinked(old(current), t) && overflow == Unlinked(old(overflow), t)
    {
      hide Scheduled, Partition, Unlinked, Single;
      UnlinkedScheduled(current, due, epoch, -1, MAX_DELAY, t);
      UnlinkedScheduled(overflow, due, epoch + WRAP, -1, MAX_DELAY, t);
      SingleOf(current, due, epoch, -1, MAX_DELAY);
      SingleOf(overflow, due, epoch + WRAP, -1, MAX_DELAY);
      PartitionLess(current, overflow, due, t);
      current := Unlinked(current, t);
      overflow := Unlinked(overflow, t);
      due := due - {t};
    }

    /** Lists the timer for its next expiry, or finds that this has passed. */
    method InsertTimerInActiveList(t: nat, nextExpiryTime: nat, timeNow: nat, commandTime: nat, ghost command: nat,
                                   ghost now: nat)
      returns (processNow: bool)
      requires Listed() && t !in due && t in timers && timers[t].Valid() && epoch == Epoch(now)
      requires command <= now < command + WRAP
      requires commandTime == command % WRAP && timeNow == now % WRAP
               && nextExpiryTime == (commandTime + timers[t].period) % WRAP
      modifies this`current, this`overflow, this`due
      ensures Listed() && (processNow <==> command + timers[t].period <= now)
      ensures due == if processNow then old(due) else old(due)[t := command + timers[t].period]
      ensures processNow || timeNow == MAX_DELAY ==> current == old(current)
    {
      hide Listed, Epoch;
      InsertRule(command, timers[t].period, now);
      processNow := false;
      if nextExpiryTime <= timeNow {
        if (timeNow + WRAP - commandTime) % WRAP >= timers[t].period {
          processNow := true;
        } else {
          Insert(t, nextExpiryTime, true);
        }
      } else if timeNow < commandTime && nextExpiryTime >= commandTime {
        processNow := true;
      } else {
        Insert(t, nextExpiryTime, false);
      }
    }

    // ----- Expiries -----

    /** Runs the callback of `t`; it stands for the timer's next expiry. */
    method Callback(t: nat)
      requires t in timers && t in start && t in history
      modifies this`history
      ensures history == old(history)[t :=
              old(history[t]) + [Expiry(start[t], timers[t].period, |old(history[t])| + 1)]]
    {
      history := history[t := history[t] + [Expiry(start[t], timers[t].period, |history[t]| + 1)]];
    }

    /** `t`, off its list, has run all callbacks but the one for its expiry at `expired`. */
    ghost predicate Expired(t: nat, expired: nat)
      reads this`timers, this`start, this`history, this`clock
    {
      && t in timers && t in start && t in history && OnTrack(timers[t], start[t], history[t], clock)
      && timers[t].active && expired == Expiry(start[t], timers[t].period, |history[t]| + 1)
    }

    /** Lists an auto-reload timer that expired at `expired` for its next expiry; for every further
        one that has passed already the callback runs at once. */
    method ReloadTimer(t: nat, expiredTime: nat, timeNow: nat, ghost expired: nat,
                       ghost now: nat) returns (ghost last: nat)
      requires Listed() && t !in due && Expired(t, expired) && timers[t].autoReload && epoch == Epoch(now)
               && now <= clock
      requires expired <= now < expired + WRAP && expiredTime == expired % WRAP && timeNow == now % WRAP
      modifies this`current, this`overflow, this`due, this`history
      ensures Listed() && Expired(t, last) && history == old(history)[t := history[t]]
      ensures old(history)[t] <= history[t]
      ensures last <= now < last + timers[t].period && due == old(due)[t := last + timers[t].period]
      ensures timeNow == MAX_DELAY ==> current == old(current)
    {
      hide Listed, Epoch, Expiry, OnTrack;
      var at := expiredTime;
      last := expired;
      var more := TryList(t, at, timeNow, last, now);
      while more
        invariant Listed() && Expired(t, last) && history == old(history)[t := history[t]]
        invariant old(history)[t] <= history[t]
        invariant last <= now < last + WRAP && at == last % WRAP && 0 < timers[t].period
        invariant more <==> last + timers[t].period <= now
        invariant due == if more then old(due) else old(due)[t := last + timers[t].period]
        invariant more || timeNow == MAX_DELAY ==> current == old(current)
        decreases now - last, more
      {
        at, last := Overtake(t, at, last, now);
        more := TryList(t, at, timeNow, last, now);
      }
    }

    method TryList(t: nat, expiredTime: nat, timeNow: nat, ghost expired: nat, ghost now: nat) returns (more: bool)
      requires Listed() && t !in due && Expired(t, expired) && epoch == Epoch(now)
      requires expired <= now < expired + WRAP && expiredTime == expired % WRAP && timeNow == now % WRAP
      modifies this`current, this`overflow, this`due
      ensures Listed() && 0 < timers[t].period && (more <==> expired + timers[t].period <= now)
      ensures due == if more then old(due) else old(due)[t := expired + timers[t].period]
      ensures more || timeNow == MAX_DELAY ==> current == old(current)
    {
      hide Listed, Epoch, Expiry, OnTrack;
      TrackedPeriod(timers[t], start[t], history[t], clock);
      InsertRule(expired, timers[t].period, now);
      more := InsertTimerInActiveList(t, (expiredTime + timers[t].period) % WRAP, timeNow, expiredTime, expired, now);
    }

    /** The callback for an expiry after which the next has passed, too. */
    method Overtake(t: nat, expiredTime: nat, ghost expired: nat, ghost now: nat) returns (at: nat, ghost next: nat)
      requires Expired(t, expired) && timers[t].autoReload && now <= clock && expiredTime == expired % WRAP
      requires expired + timers[t].period <= now < expired + WRAP
      modifies this`history
      ensures Expired(t, next) && history == old(history)[t := history[t]]
      ensures history[t] == old(history[t]) + [expired]
      ensures next == expired + timers[t].period && at == next % WRAP
    {
      hide Expiry, OnTrack, Epoch;
      TrackedPeriod(timers[t], start[t], history[t], clock);
      OneMoreExpiry(timers[t], start[t], history[t], clock, true);
      NextExpiry(start[t], timers[t].period, |history[t]| + 1);
      InsertRule(expired, timers[t].period, now);
      assert timers[t].(active := true) == timers[t];
      at := (expiredTime + timers[t].period) % WRAP;
      next := expired + timers[t].period;
      Callback(t);
    }

    /** What a timer's callback at the time of its expiry leaves. */
    method Finish(t: nat, ghost last: nat)
      requires Expired(t, last) && last <= clock
      modifies this`history, this`timers
      ensures t in timers && t in start && t in history && OnTrack(timers[t], start[t], history[t], clock)
      ensures timers == old(timers)[t := timers[t]] && timers[t].period == old(timers[t].period)
      ensures timers[t].active == old(timers[t].autoReload) == timers[t].autoReload
      ensures history == old(history)[t := history[t]] && history[t] == old(history[t]) + [last]
      ensures Expiry(start[t], timers[t].period, |history[t]| + 1) == last + timers[t].period
    {
      hide Expiry, OnTrack;
      OneMoreExpiry(timers[t], start[t], history[t], clock, timers[t].autoReload);
      NextExpiry(start[t], timers[t].period, |history[t]| + 1);
      if !timers[t].autoReload {
        timers := timers[t := timers[t].(active := false)];
      }
      assert timers[t].(active := timers[t].autoReload) == timers[t];
      Callback(t);
    }

    /** Lists `t` again, if it reloads, and runs its callbacks; it has expired at `expired`. */
    method CatchUp(t: nat, expiredTime: nat, timeNow: nat, ghost expired: nat, ghost now: nat)
      requires Listed() && t !in due && Expired(t, expired) && epoch == Epoch(now) && now <= clock
      requires expired <= now < expired + WRAP && expiredTime == expired % WRAP && timeNow == now % WRAP
      modifies this`timers, this`current, this`overflow, this`due, this`history
      ensures Listed() && Tracked(t) && timers == old(timers)[t := timers[t]]
              && history == old(history)[t := history[t]]
      ensures t in old(timers) && timers[t] == old(timers)[t].(active := old(timers)[t].autoReload)
      ensures t in old(history) && if timers[t].autoReload then old(history)[t] <= history[t] else
                history[t] == old(history)[t] + [expired]
      ensures (t in due ==> due[t] > now) && due - {t} == old(due)
      ensures timeNow == MAX_DELAY ==> current == old(current)
    {
      hide Epoch, Listed, Expiry, OnTrack, Expired, Tracked;
      ExpiredParts(t, expired);
      ghost var last := expired;
      if timers[t].autoReload {
        last := ReloadTimer(t, expiredTime, timeNow, last, now);
      }
      ExpiredParts(t, last);
      Finish(t, last);
      TrackedParts(t);
    }

    /** Handles the first timer of the current list, which has expired. */
    method ProcessExpiredTimer(nextExpireTime: nat, timeNow: nat, ghost now: nat) returns (t: nat)
      requires Listed() && AllTracked() && current != [] && nextExpireTime == current[0].wake <= timeNow
      requires epoch == Epoch(now) && now <= clock && timeNow == now % WRAP
      modifies this`current, this`overflow, this`due, this`history, this`timers
      ensures Listed() && AllTracked() && SameSettings(old(timers), timers)
      ensures t == old(current)[0].owner && t in old(due) && old(due)[t] <= now && (t in due ==> due[t] > now)
      ensures due - {t} == old(due) - {t} && timers == old(timers)[t := timers[t]]
      ensures timeNow == MAX_DELAY ==> current == old(current)[1..]
      ensures AllProgress(old(Book()), Book(), now)
    {
      hide Expiry, OnTrack, Epoch, Listed, Tracked, Unlinked, Expired, AllProgress, Complete, Progresses;
      BookIsComplete();
      ghost var before := Book();
      t := current[0].owner;
      HeadIsExpired(timeNow, now);
      ExpiredParts(t, due[t]);
      FirstUnlinked(current);
      Remove(t);
      CatchUp(t, nextExpireTime, timeNow, before.due[t], now);
      TrackedParts(t);
      OneProgresses(before, Book(), t, now);
      forall u | u in timers
        ensures Tracked(u)
      {
        if u != t {
          assert u in old(timers);
          SameElsewhere(before.due, due, t, u);
          TrackedStill(u);
        }
      }
      forall u | u in due
        ensures u in timers
      {
        if u != t {
          SameElsewhere(before.due, due, t, u);
        }
      }
    }

    lemma BookIsComplete()
      requires AllTracked()
      ensures Complete(Book())
    {
      hide OnTrack, Expiry;
      forall u | u in timers
        ensures Tracked(u)
      {
      }
    }

    /** A timer that was not touched. */
    twostate lemma TrackedStill(u: nat)
      requires old(Tracked(u)) && clock == old(clock)
      requires u in timers && timers[u] == old(timers)[u]
      requires u in old(start) ==> u in start && start[u] == old(start)[u]
      requires u in old(history) ==> u in history && history[u] == old(history)[u]
      requires u in due <==> u in old(due)
      requires u in due ==> due[u] == old(due)[u]
      ensures Tracked(u)
    {
      hide OnTrack, Expiry;
    }

    lemma ExpiredParts(t: nat, expired: nat)
      requires Expired(t, expired)
      ensures t in timers && t in start && t in history && timers[t].active
    {
      hide OnTrack, Expiry;
    }

    lemma TrackedParts(t: nat)
      ensures Tracked(t) <==>
              (&& t in timers && t in start && t in history && OnTrack(timers[t], start[t], history[t], clock)
                               && (timers[t].active <==> t in due)
                               && (t in due ==> due[t] == Expiry(start[t], timers[t].period, |history[t]| + 1)))
    {
      hide OnTrack, Expiry;
    }

    /** The first timer of the current list is at its next expiry, and that has passed. */
    lemma HeadIsExpired(timeNow: nat, now: nat)
      requires Listed() && AllTracked() && current != [] && current[0].wake <= timeNow == now % WRAP
               && epoch == Epoch(now)
      ensures var t := current[0].owner;
              && t in due && Expired(t, due[t]) && due[t] == epoch + current[0].wake && due[t] <= now < due[t] + WRAP
              && due[t] % WRAP == current[0].wake
    {
      hide OnTrack, Expiry;
      assert current[0].owner in due && due[current[0].owner] == epoch + current[0].wake && current[0].wake < WRAP;
      assert Tracked(current[0].owner);
      Window(epoch, epoch + current[0].wake);
    }

    // ----- The daemon's clock -----

    /** The count has wrapped: what is left on the current list has expired, and the lists swap. */
    method SwitchTimerLists(ghost now: nat)
      requires Listed() && AllTracked() && clock == now && epoch + WRAP == Epoch(now)
      modifies this`current, this`overflow, this`due, this`history, this`timers, this`epoch
      ensures Listed() && AllTracked() && SameSettings(old(timers), timers) && epoch == Epoch(now)
      ensures AllProgress(old(Book()), Book(), now)
      ensures forall u :: u in timers && u !in old(due) ==> timers[u] == old(timers)[u] && u !in due
    {
      hide Expiry, OnTrack, Epoch, Listed, AllTracked, AllProgress;
      NothingHappened();
      ghost var end := epoch + WRAP - 1;
      EndOfEpoch(epoch, now);
      while current != []
        invariant AllProgress(old(Book()), Book(), now)
        invariant Listed() && AllTracked() && SameSettings(old(timers), timers) && epoch == old(epoch)
        invariant forall u :: u in timers && u !in old(due) ==> timers[u] == old(timers)[u] && u !in due
        decreases |current|
      {
        ListedParts();
        SortedOf(current, due, epoch, -1, MAX_DELAY);
        ghost var before, book := due, Book();
        var t := ProcessExpiredTimer(current[0].wake, MAX_DELAY, end);
        ProgressLater(book, Book(), end, now);
        AllProgressJoins(old(Book()), book, Book(), now);
        assert forall u :: u != t ==> (u in due <==> u in due - {t}) && (u in before <==> u in before - {t});
      }
      ListedParts();
      NothingScheduled(due, epoch + WRAP + WRAP, -1, MAX_DELAY);
      PartitionSwap(current, overflow, due);
      current, overflow := overflow, current;
      epoch := epoch + WRAP;
      ListedParts();
    }

    lemma NothingHappened()
      requires AllTracked()
      ensures forall now: nat :: AllProgress(Book(), Book(), now)
    {
      hide Expiry, OnTrack, Progresses;
      forall now: nat, u | u in timers
        ensures Progresses(Book(), Book(), u, now)
      {
        assert Tracked(u);
        StillProgresses(Book(), Book(), u, now);
      }
    }

    lemma ListedParts()
      ensures Listed() <==>
              (&& Scheduled(current, due, epoch, -1, MAX_DELAY) && Scheduled(overflow, due, epoch + WRAP, -1, MAX_DELAY)
                             && Partition(current, overflow, due))
    {
      hide Scheduled, Partition;
    }

    lemma LaterTracked(later: nat)
      requires AllTracked() && clock <= later
      ensures forall t :: t in timers ==> t in start && t in history && OnTrack(timers[t], start[t], history[t], later)
    {
      hide OnTrack, Expiry;
      forall t | t in timers
        ensures t in start && t in history && OnTrack(timers[t], start[t], history[t], later)
      {
        assert Tracked(t);
        LaterTrack(timers[t], start[t], history[t], clock, later);
      }
    }

    /** The clock moves on; nothing else does. */
    ghost method Pass(now: nat)
      requires AllTracked() && clock <= now
      modifies this`clock
      ensures AllTracked() && clock == now
    {
      hide OnTrack, Expiry;
      LaterTracked(now);
      clock := now;
      forall t | t in timers
        ensures Tracked(t)
      {
        assert old(Tracked(t));
      }
    }

    /** Less than a wrap has passed since the last sample, or no timer is on a list; then the daemon
        may have been blocked for any time. */
    ghost predicate InTime(now: nat)
      reads this`clock, this`due
    {
      clock <= now && (due == map[] || now < clock + WRAP)
    }

    /** While no timer is listed the lists belong to any epoch. */
    ghost method PassIdle(now: nat, base: nat)
      requires Valid() && due == map[] && clock <= now
      modifies this`clock, this`epoch
      ensures Listed() && AllTracked() && clock == now && epoch == base
    {
      hide OnTrack, Expiry, Epoch;
      NothingListed(current, overflow, due);
      Pass(now);
      epoch := base;
      NothingScheduled(due, base, -1, MAX_DELAY);
      NothingScheduled(due, base + WRAP, -1, MAX_DELAY);
    }

    /** Reads the tick count; if it has wrapped since the last time, the lists are switched first. */
    method SampleTimeNow(tick: nat, ghost now: nat) returns (switched: bool)
      requires Valid() && InTime(now) && tick == now % WRAP
      modifies this
      ensures Valid() && clock == now && SameSettings(old(timers), timers) && start == old(start)
      ensures AllProgress(old(Book()), Book(), now)
      ensures forall u :: u in timers && u !in old(due) ==> timers[u] == old(timers)[u] && u !in due
      ensures switched <==> tick < old(lastTime)
      ensures !switched ==>
              current == old(current) && overflow == old(overflow) && due == old(due) && timers == old(timers)
                            && start == old(start) && history == old(history)
    {
      hide Epoch, Listed, AllTracked, AllProgress;
      NothingHappened();
      if tick < lastTime {
        LaterEpoch(clock, now);
      }
      if due == map[] {
        PassIdle(now, if tick < lastTime then Epoch(now) - WRAP else Epoch(now));
      } else {
        Window(clock, now);
        Pass(now);
      }
      if tick < lastTime {
        SwitchTimerLists(now);
        switched := true;
      } else {
        switched := false;
      }
      lastTime := tick;
    }

    /** One round of the daemon's loop: an expired timer is handled, or the daemon blocks, in which
        case no active timer's expiry has passed. */
    method ProcessTimerOrBlock(tick: nat, ghost now: nat) returns (blocks: bool)
      requires Valid() && InTime(now) && tick == now % WRAP
      modifies this
      ensures Valid() && clock == now && SameSettings(old(timers), timers) && start == old(start)
      ensures AllProgress(old(Book()), Book(), now)
      ensures blocks ==> forall t :: t in due ==> due[t] > now
      ensures !blocks && old(clock) == now ==> Overdue(due, now) < Overdue(old(due), now)
    {
      hide Epoch, Listed, AllTracked, Scheduled, Partition, Overdue, AllProgress;
      var wasEmpty := current == [];
      var nextExpireTime := if wasEmpty then 0 else current[0].wake;
      var switched := SampleTimeNow(tick, now);
      blocks := false;
      if !switched {
        if !wasEmpty && nextExpireTime <= tick {
          ghost var before, book := due, Book();
          var t := ProcessExpiredTimer(nextExpireTime, tick, now);
          AllProgressJoins(old(Book()), book, Book(), now);
          FewerOverdue(before, due, t, now);
        } else {
          blocks := true;
          ListedParts();
          NothingPassed(current, overflow, due, now);
        }
      }
    }

    /** The daemon runs until it blocks. Then every auto-reload timer has had as many callbacks since
        it was started as its period fits into the time since, however late the daemon was. */
    method Serve(tick: nat, ghost now: nat)
      requires Valid() && InTime(now) && tick == now % WRAP
      modifies this
      ensures Valid() && clock == now && SameSettings(old(timers), timers) && start == old(start)
      ensures AllProgress(old(Book()), Book(), now)
      ensures forall t :: t in timers && timers[t].active ==>
                t in start && t in history
                    && Expiry(start[t], timers[t].period, |history[t]|) <= now < Expiry(start[t], timers[t].period,
                        |history[t]| + 1)
      ensures forall t :: t in old(timers) && old(timers)[t].active ==>
                && t in timers && t in old(due) && t in old(history) && t in history
                && (timers[t].active <==> timers[t].autoReload || now < old(due)[t])
                && (!timers[t].active ==> history[t] == old(history)[t] + [old(due)[t]])
    {
      hide Epoch, Listed, AllTracked, Overdue, Expiry, AllProgress;
      var blocks := ProcessTimerOrBlock(tick, now);
      while !blocks
        invariant AllProgress(old(Book()), Book(), now)
        invariant Valid() && clock == now && SameSettings(old(timers), timers) && start == old(start)
        invariant blocks ==> forall t :: t in due ==> due[t] > now
        decreases !blocks, Overdue(due, now)
      {
        ghost var book := Book();
        blocks := ProcessTimerOrBlock(tick, now);
        AllProgressJoins(old(Book()), book, Book(), now);
      }
      Served(now);
      forall t | t in timers && timers[t].active
        ensures t in start && t in history
                && Expiry(start[t], timers[t].period, |history[t]|) <= now < Expiry(start[t], timers[t].period,
                    |history[t]| + 1)
      {
        OnTime(t);
      }
    }

    /** Once no expiry is left to handle. */
    twostate lemma Served(now: nat)
      requires old(AllTracked()) && AllProgress(old(Book()), Book(), now)
      requires forall t :: t in due ==> due[t] > now
      ensures forall t :: t in old(timers) && old(timers)[t].active ==>
                && t in timers && t in old(due) && t in old(history) && t in history
                && (timers[t].active <==> timers[t].autoReload || now < old(due)[t])
                && (!timers[t].active ==> history[t] == old(history)[t] + [old(due)[t]])
    {
      hide OnTrack, Expiry;
      forall t | t in old(timers)
        ensures Progresses(old(Book()), Book(), t, now) && old(Tracked(t))
      {
      }
    }

    /** The callbacks of a timer that is listed for an expiry to come. */
    lemma OnTime(t: nat)
      requires AllTracked() && t in timers && timers[t].active && (t in due ==> due[t] > clock)
      ensures t in start && t in history
      ensures Expiry(start[t], timers[t].period, |history[t]|) <= clock < Expiry(start[t], timers[t].period,
              |history[t]| + 1)
    {
      assert Tracked(t);
      var k := |history[t]|;
      assert k > 0 ==> history[t][k - 1] == Expiry(start[t], timers[t].period, k);
    }

    /** Creates a timer; it is not started. */
    method Create(t: nat, period: nat, autoReload: bool)
      requires Valid() && t !in timers && 0 < period < WRAP
      modifies this`timers, this`start, this`history
      ensures Valid() && timers == old(timers)[t := Timer(period, autoReload, false)]
    {
      hide Epoch, Listed, Expiry;
      timers := timers[t := Timer(period, autoReload, false)];
      start := start[t := clock];
      history := history[t := []];
      forall u | u in timers
        ensures Tracked(u)
      {
        assert u != t ==> old(Tracked(u));
      }
    }

    // ----- Commands -----

    /** Takes a timer off its list. */
    method Deactivate(t: nat)
      requires Listed() && AllTracked() && t in timers
      modifies this`timers, this`current, this`overflow, this`due
      ensures Listed() && AllTracked() && timers == old(timers)[t := old(timers[t]).(active := false)]
              && due == old(due) - {t}
    {
      hide Epoch, Listed, Expiry, Unlinked;
      Remove(t);
      timers := timers[t := timers[t].(active := false)];
      forall u | u in timers
        ensures Tracked(u)
      {
        assert old(Tracked(u));
      }
    }

    /** All timers but `t` are tracked. */
    ghost predicate OthersTracked(t: nat)
      reads this`timers, this`due, this`start, this`history, this`clock
    {
      t in timers && t !in due && timers[t].Valid()
      && (forall u :: u in timers && u != t ==> Tracked(u)) && forall u :: u in due ==> u in timers
    }

    /** Starts a timer that is on no list: lists it for its first expiry, or handles what has expired
        since the command. */
    method Activate(t: nat, commandTime: nat, tick: nat, ghost command: nat)
      requires Listed() && OthersTracked(t) && epoch == Epoch(clock) && tick == clock % WRAP
      requires command <= clock < command + WRAP && commandTime == command % WRAP
      modifies this`timers, this`current, this`overflow, this`due, this`start, this`history
      ensures Listed() && AllTracked() && SameSettings(old(timers), timers) && start == old(start)[t := command]
      ensures SameBut(old(Book()), Book(), t)
      ensures t in timers && t in history
      ensures timers[t].active <==> timers[t].autoReload || clock < command + timers[t].period
      ensures clock < command + timers[t].period ==>
                t in due && due[t] == command + timers[t].period && history[t] == []
      ensures timers[t].active ==>
                t in due && clock < due[t] == Expiry(command, timers[t].period, |history[t]| + 1)
      ensures history[t] == Expiries(command, timers[t].period, |history[t]|)
      ensures Expiry(command, timers[t].period, |history[t]|) <= clock
      ensures !timers[t].active ==> t !in due && history[t] == [command + timers[t].period]
    {
      hide Epoch, Listed, Expiry, OnTrack, Expired, Tracked, Timer.Valid, SameBut, AllTracked, OthersTracked, Expiries;
      OthersParts(t);
      ghost var before := Book();
      StartNow(t, commandTime, tick, command);
      StartedParts(t, command);
      ChangedBook(before, Book(), t);
      TrackedAgain(t);
    }

    method StartNow(t: nat, commandTime: nat, tick: nat, ghost command: nat)
      requires Listed() && t in timers && t !in due && 0 < timers[t].period < WRAP
      requires epoch == Epoch(clock) && tick == clock % WRAP
      requires command <= clock < command + WRAP && commandTime == command % WRAP
      modifies this`timers, this`current, this`overflow, this`due, this`start, this`history
      ensures Listed() && Tracked(t) && t in history && t in timers
      ensures timers == old(timers)[t := timers[t]] && history == old(history)[t := history[t]]
      ensures start == old(start)[t := command] && due - {t} == old(due) - {t} && (t in due ==> due[t] > clock)
      ensures timers[t].period == old(timers)[t].period && timers[t].autoReload == old(timers)[t].autoReload
      ensures timers[t].active <==> timers[t].autoReload || clock < command + timers[t].period
      ensures clock < command + timers[t].period ==> history[t] == []
      ensures !timers[t].active ==> history[t] == [command + timers[t].period]
    {
      hide Epoch, Listed, Expiry, OnTrack, Expired, Tracked;
      Restart(t, timers[t].period, command);
      ListOrCatchUp(t, commandTime, tick, command);
    }

    /** What a timer that started at `command` has come to. */
    lemma StartedParts(t: nat, command: nat)
      requires Tracked(t) && start[t] == command && (t in due ==> due[t] > clock)
      requires timers[t].active <==> timers[t].autoReload || clock < command + timers[t].period
      requires clock < command + timers[t].period ==> history[t] == []
      requires !timers[t].active ==> history[t] == [command + timers[t].period]
      ensures t in timers && t in history
      ensures timers[t].active <==> timers[t].autoReload || clock < command + timers[t].period
      ensures clock < command + timers[t].period ==>
                t in due && due[t] == command + timers[t].period && history[t] == []
      ensures timers[t].active ==>
                t in due && clock < due[t] == Expiry(command, timers[t].period, |history[t]| + 1)
      ensures history[t] == Expiries(command, timers[t].period, |history[t]|)
      ensures Expiry(command, timers[t].period, |history[t]|) <= clock
      ensures !timers[t].active ==> t !in due && history[t] == [command + timers[t].period]
    {
      var p, h := timers[t].period, history[t];
      assert Expiry(command, p, 1) == Expiry(command, p, 0) + p == command + p;
      hide Expiry;
      OnTrackHistory(timers[t], command, h, clock);
    }

    /** After a command for `t` that leaves it tracked. */
    twostate lemma TrackedAgain(t: nat)
      requires old(OthersTracked(t)) && Tracked(t) && clock == old(clock)
      requires timers == old(timers)[t := timers[t]] && t in history && history == old(history)[t := history[t]]
      requires t in start && start == old(start)[t := start[t]] && due - {t} == old(due) - {t}
      ensures AllTracked()
    {
      hide OnTrack, Expiry, Tracked, Timer.Valid;
      forall u | u in timers
        ensures Tracked(u)
      {
        if u != t {
          SameElsewhere(old(due), due, t, u);
          TrackedStill(u);
        }
      }
      forall u | u in due
        ensures u in timers
      {
        if u != t {
          SameElsewhere(old(due), due, t, u);
        } else {
          TrackedParts(t);
        }
      }
    }

    lemma OthersParts(t: nat)
      requires OthersTracked(t)
      ensures t in timers && t !in due && 0 < timers[t].period < WRAP
    {
      hide Tracked;
    }

    /** Lists a timer that was just started, or handles what has expired since. */
    method ListOrCatchUp(t: nat, commandTime: nat, tick: nat, ghost command: nat)
      requires Listed() && t !in due && t in timers && 0 < timers[t].period < WRAP
      requires Expired(t, command + timers[t].period) && epoch == Epoch(clock) && tick == clock % WRAP
      requires command <= clock < command + WRAP && commandTime == command % WRAP
      modifies this`timers, this`current, this`overflow, this`due, this`history
      ensures Listed() && Tracked(t) && timers == old(timers)[t := timers[t]]
              && history == old(history)[t := history[t]]
      ensures timers[t].period == old(timers[t].period) && timers[t].autoReload == old(timers[t].autoReload)
      ensures (t in due ==> due[t] > clock) && due - {t} == old(due)
      ensures t in old(history) && t in history && t in start
      ensures timers[t].active <==> timers[t].autoReload || clock < command + timers[t].period
      ensures clock < command + timers[t].period ==> history[t] == old(history)[t]
      ensures !timers[t].active ==> history[t] == old(history)[t] + [command + timers[t].period]
    {
      hide Epoch, Listed, Expiry, OnTrack, Expired, Tracked;
      StoredExpiry(command, timers[t].period);
      ExpiredTracks(t, command + timers[t].period);
      var next := (commandTime + timers[t].period) % WRAP;
      var more := InsertTimerInActiveList(t, next, tick, commandTime, command, clock);
      if more {
        CatchUp(t, next, tick, command + timers[t].period, clock);
      } else {
        TrackedParts(t);
      }
    }

    lemma ExpiredTracks(t: nat, expired: nat)
      requires Expired(t, expired)
      ensures t in timers && t in start && t in history && OnTrack(timers[t], start[t], history[t], clock)
              && timers[t].active
      ensures expired == Expiry(start[t], timers[t].period, |history[t]| + 1)
    {
      hide OnTrack, Expiry;
    }

    /** The status and the record of a timer that starts. */
    method Restart(t: nat, period: nat, ghost command: nat)
      requires t in timers && 0 < period < WRAP && command <= clock
      modifies this`timers, this`start, this`history
      ensures timers == old(timers)[t := old(timers[t]).(period := period, active := true)]
      ensures start == old(start)[t := command] && history == old(history)[t := []]
      ensures Expired(t, command + period) && OnTrack(timers[t], start[t], history[t], clock)
      ensures Expiry(start[t], period, |history[t]| + 1) == command + period
    {
      timers := timers[t := timers[t].(period := period, active := true)];
      start := start[t := command];
      history := history[t := []];
      JustStarted(t);
    }

    lemma JustStarted(t: nat)
      requires t in timers && t in start && t in history && timers[t].Valid() && timers[t].active && history[t] == []
               && start[t] <= clock
      ensures Expired(t, start[t] + timers[t].period) && OnTrack(timers[t], start[t], history[t], clock)
      ensures Expiry(start[t], timers[t].period, |history[t]| + 1) == start[t] + timers[t].period
    {
    }

    /** What every command does first: the timer comes off its list, and the time is sampled. */
    method TakeOff(t: nat, tick: nat, ghost now: nat)
      requires Valid() && t in timers && InTime(now) && tick == now % WRAP
      modifies this
      ensures Listed() && AllTracked() && OthersTracked(t)
      ensures clock == now && lastTime == clock % WRAP && epoch == Epoch(clock)
      ensures SameSettings(old(timers), timers) && start == old(start)
      ensures t in timers && !timers[t].active && t !in due
      ensures t in old(history) && t in history && history[t] == old(history)[t]
      ensures OthersProgress(old(Book()), Book(), t, now)
    {
      hide Epoch, Listed, Expiry, OnTrack, AllTracked, OthersTracked, Tracked, AllProgress, OthersProgress, SameBut;
      ghost var before := Book();
      Deactivate(t);
      ghost var off := Book();
      ChangedBook(before, off, t);
      var switched := SampleTimeNow(tick, now);
      StaysOff(off, Book(), t, now);
      OffTheLists(t);
      OthersGoOn(before, off, Book(), t, now);
    }

    /** A command, issued at `command`, to start or restart a timer. */
    method StartCommand(t: nat, commandTime: nat, tick: nat, ghost command: nat, ghost now: nat)
      requires Valid() && t in timers && InTime(now) && tick == now % WRAP
      requires command <= now < command + WRAP && commandTime == command % WRAP
      modifies this
      ensures Valid() && clock == now && SameSettings(old(timers), timers) && start == old(start)[t := command]
      ensures OthersProgress(old(Book()), Book(), t, now)
      ensures t in timers && t in history
      ensures timers[t].active <==> timers[t].autoReload || now < command + timers[t].period
      ensures now < command + timers[t].period ==>
                t in due && due[t] == command + timers[t].period && history[t] == []
      ensures timers[t].active ==>
                t in due && now < due[t] == Expiry(command, timers[t].period, |history[t]| + 1)
      ensures history[t] == Expiries(command, timers[t].period, |history[t]|)
      ensures Expiry(command, timers[t].period, |history[t]|) <= now
      ensures !timers[t].active ==> t !in due && history[t] == [command + timers[t].period]
    {
      hide Epoch, Listed, Expiry, OnTrack, AllTracked, OthersTracked, Tracked, AllProgress, OthersProgress, SameBut;
      ghost var before := Book();
      TakeOff(t, tick, now);
      ghost var off := Book();
      Activate(t, commandTime, tick, command);
      OthersStay(before, off, Book(), t, now);
    }

    lemma OffTheLists(t: nat)
      requires AllTracked() && t in timers && !timers[t].active
      ensures OthersTracked(t)
    {
      hide Expiry;
      assert Tracked(t);
    }

    /** A command to stop a timer. */
    method StopCommand(t: nat, tick: nat, ghost now: nat)
      requires Valid() && t in timers && InTime(now) && tick == now % WRAP
      modifies this
      ensures Valid() && clock == now && SameSettings(old(timers), timers) && start == old(start) && t !in due
      ensures t in timers && !timers[t].active && t in old(history) && t in history && history[t] == old(history)[t]
      ensures OthersProgress(old(Book()), Book(), t, now)
    {
      hide Epoch, Listed, Expiry, OnTrack, AllTracked, OthersTracked, Tracked, AllProgress, OthersProgress, SameBut;
      TakeOff(t, tick, now);
    }

    /** A command to change the period: the timer restarts now. */
    method ChangePeriodCommand(t: nat, period: nat, tick: nat, ghost now: nat)
      requires Valid() && t in timers && InTime(now) && tick == now % WRAP && 0 < period < WRAP
      modifies this
      ensures Valid() && clock == now && t in timers && SameSettings(old(timers)[t := timers[t]], timers)
              && start == old(start)[t := now]
      ensures timers[t].period == period && timers[t].autoReload == old(timers[t].autoReload) && t in due
              && due[t] == now + period
      ensures timers[t].active && t in history && history[t] == []
      ensures OthersProgress(old(Book()), Book(), t, now)
    {
      hide Epoch, Listed, Expiry, OnTrack, AllTracked, OthersTracked, Tracked, AllProgress, OthersProgress, SameBut;
      ghost var before := Book();
      TakeOff(t, tick, now);
      ghost var off := Book();
      ActivateNow(t, period, tick);
      OthersStay(before, off, Book(), t, now);
    }

    method ActivateNow(t: nat, period: nat, tick: nat)
      requires Listed() && OthersTracked(t) && epoch == Epoch(clock) && tick == clock % WRAP && 0 < period < WRAP
      modifies this`timers, this`current, this`overflow, this`due, this`start, this`history
      ensures Listed() && AllTracked() && t in timers && SameSettings(old(timers)[t := timers[t]], timers)
              && start == old(start)[t := clock]
      ensures timers[t].period == period && timers[t].autoReload == old(timers[t].autoReload) && t in due
              && due[t] == clock + period
      ensures timers[t].active && t in history && history[t] == [] && SameBut(old(Book()), Book(), t)
    {
      hide Epoch, Listed, Expiry, OnTrack, Expired, Tracked, SameBut;
      ghost var before := Book();
      Restart(t, period, clock);
      InsertRule(clock, period, clock);
      var more := InsertTimerInActiveList(t, (tick + period) % WRAP, tick, tick, clock, clock);
      TrackedParts(t);
      ChangedBook(before, Book(), t);
      TrackedAgain(t);
    }
  }

  lemma {:induction false} NothingListed(a: seq<Entry>, b: seq<Entry>, due: map<nat, nat>)
    requires Partition(a, b, due) && due == map[]
    ensures a == [] && b == []
  {
    assert a != [] ==> Contains(a, a[0].owner);
    assert b != [] ==> Contains(b, b[0].owner);
  }

  /** A count that is smaller than it was belongs to a later epoch. */
  lemma {:induction false} LaterEpoch(clock: nat, now: nat)
    requires clock <= now && now % WRAP < clock % WRAP
    ensures Epoch(now) >= WRAP
  {
  }

  /** The timers whose expiry has passed. */
  ghost function Overdue(due: map<nat, nat>, now: nat): set<nat> {
    set t | t in due && due[t] <= now
  }

  lemma {:induction false} FewerOverdue(before: map<nat, nat>, after: map<nat, nat>, t: nat, now: nat)
    requires after - {t} == before - {t} && t in before && before[t] <= now && (t in after ==> after[t] > now)
    ensures Overdue(after, now) < Overdue(before, now)
  {
    assert t in Overdue(before, now) && t !in Overdue(after, now);
    forall u | u in Overdue(after, now)
      ensures u in Overdue(before, now)
    {
      assert u in after - {t};
      assert u in before - {t} && (before - {t})[u] == (after - {t})[u];
    }
  }

  /** The first timer of the current list is not due yet, so none is. */
  lemma {:induction false} NothingPassed(a: seq<Entry>, b: seq<Entry>, due: map<nat, nat>, now: nat)
    requires Scheduled(a, due, Epoch(now), -1, MAX_DELAY) && Scheduled(b, due, Epoch(now) + WRAP, -1, MAX_DELAY)
             && Partition(a, b, due)
    requires a != [] ==> a[0].wake > now % WRAP
    ensures forall t :: t in due ==> due[t] > now
  {
    hide Epoch;
    forall t | t in due
      ensures due[t] > now
    {
      if Contains(a, t) {
        var i :| 0 <= i < |a| && a[i].owner == t;
      } else {
        var i :| 0 <= i < |b| && b[i].owner == t;
      }
    }
  }

  lemma {:induction false} EndOfEpoch(epoch: nat, now: nat)
    requires epoch + WRAP == Epoch(now)
    ensures Epoch(epoch + WRAP - 1) == epoch && (epoch + WRAP - 1) % WRAP == MAX_DELAY && epoch + WRAP - 1 <= now
  {
  }

  lemma {:induction false} TrackedPeriod(timer: Timer, start: nat, history: seq<nat>, clock: nat)
    requires OnTrack(timer, start, history, clock)
    ensures timer.Valid() && 0 < timer.period < WRAP
  {
    hide Expiry;
  }

  lemma {:induction false} NextExpiry(start: nat, period: nat, k: nat)
    ensures Expiry(start, period, k + 1) == Expiry(start, period, k) + period
  {
  }
}
