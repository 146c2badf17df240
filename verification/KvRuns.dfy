/** Whole runs of the key-value store: commands, power cuts at any flash step, also inside
    start-up, and start-ups after them. */
module KvRuns {
  import opened Sequences
  import opened Arith
  import opened LittleEndian
  import opened KvFormat
  import opened KvLog
  import opened KvLive
  import opened KvImage
  import opened KvIndex
  import opened KvFlash
  import opened KvCommit
  import opened KvOutcome
  import opened KvStore

  datatype Command =
    | Put(key: Bytes, data: Bytes)
    | Remove(key: Bytes)
    | Clear
    | Ensure(size: nat)
  {
    /** The sizes the interface can express without overflow. */
    ghost predicate Expressible(geo: Geometry)
      requires geo.page > 0
    {
      match this
      case Put(key, data) => |data| < 0x1_0000_0000 && geo.area + geo.SizeFor(|key|, |data|) < 0x1_0000_0000
      case Remove(key) => geo.area + geo.SizeFor(|key|, 0) < 0x1_0000_0000
      case Clear => true
      case Ensure(size) => size <= ENSURE_MAX
    }

    /** What the finished command makes of the map. */
    ghost function Effect(geo: Geometry, view: map<Bytes, Bytes>): map<Bytes, Bytes>
      requires geo.page > 0
    {
      match this
      case Put(key, data) =>
        if ValidKey(key) && geo.First() + LiveSize(geo, view[key := data]) <= geo.area then view[key := data] else view
      case Remove(key) => view - {key}
      case Clear => map[]
      case Ensure(_) => view
    }

    /** What start-up may recover when the command is cut. */
    ghost predicate Cut(geo: Geometry, view: map<Bytes, Bytes>, recovered: map<Bytes, Bytes>)
      requires geo.page > 0
    {
      || recovered == view || recovered == Effect(geo, view)
      || (Put? && Effect(geo, view) == view[key := data]
          && exists m: nat :: MisreadAs(geo, view, Record(false, key, data), m, recovered))
    }
  }

  /** A command, whether the power fails during it and after how many flash steps, and after how
      many steps each of the following start-ups is cut. */
  datatype Event = Event(command: Command, cut: Option<nat>, again: seq<nat>) {
    /** The command and every start-up after a cut can collect once, and so count the version up. */
    function Cost(): (n: nat)
      ensures n > 0
    {
      1 + if cut.Some? then |again| + 1 else 0
    }
  }

  /** How far the version can get in a run. */
  function Cost(events: seq<Event>): nat {
    if events == [] then 0 else Cost(events[..|events| - 1]) + events[|events| - 1].Cost()
  }

  lemma {:induction false} CostSoFar(events: seq<Event>, i: nat)
    requires i < |events|
    ensures Cost(events[..i + 1]) == Cost(events[..i]) + events[i].Cost() <= Cost(events)
  {
    if i + 1 < |events| {
      var before := events[..|events| - 1];
      CostSoFar(before, i);
      assert before[..i + 1] == events[..i + 1] && before[..i] == events[..i];
    } else {
      assert events[..i + 1] == events;
    }
  }

  ghost predicate Allowed(geo: Geometry, view: map<Bytes, Bytes>, event: Event, after: map<Bytes, Bytes>)
    requires geo.page > 0
  {
    if event.cut.None? then after == event.command.Effect(geo, view) else event.command.Cut(geo, view, after)
  }

  /** Every map in a run is one the event before it allows. */
  ghost predicate Explains(geo: Geometry, events: seq<Event>, views: seq<map<Bytes, Bytes>>)
    requires geo.page > 0
  {
    |views| == |events| + 1 && forall i :: 0 <= i < |events| ==> Allowed(geo, views[i], events[i], views[i + 1])
  }

  /** Images from which start-up recovers something the cut command allows, going on from a version of
      at most `most`. */
  ghost function Cuts(geo: Geometry, view: map<Bytes, Bytes>, command: Command, most: nat): Bytes -> bool
    requires geo.page > 0
  {
    img => Sound(geo, img) && StartVersion(geo, img) <= most && command.Cut(geo, view, Recover(geo, img))
  }

  lemma {:induction false} OutcomesAreCuts(geo: Geometry, view: map<Bytes, Bytes>, key: Bytes, data: Bytes, most: nat,
                                           a: seq<Bytes>, b: seq<Bytes>)
    requires geo.page > 0 && Since(a, b, Outcomes(geo, view, Record(false, key, data), most))
    requires Put(key, data).Effect(geo, view) == view[key := data] || a == b
    ensures Since(a, b, Cuts(geo, view, Put(key, data), most))
  {
    hide *;
    var p, q := Outcomes(geo, view, Record(false, key, data), most), Cuts(geo, view, Put(key, data), most);
    if a == b {
      SinceNothing(a, q);
    } else {
      forall img | p(img)
        ensures q(img)
      {
        OutcomeIsCut(geo, view, key, data, most, img);
      }
      SinceImplies(a, b, p, q);
    }
  }

  lemma {:induction false} OutcomeIsCut(geo: Geometry, view: map<Bytes, Bytes>, key: Bytes, data: Bytes, most: nat,
                                        img: Bytes)
    requires geo.page > 0 && Outcomes(geo, view, Record(false, key, data), most)(img)
    requires Put(key, data).Effect(geo, view) == view[key := data]
    ensures Cuts(geo, view, Put(key, data), most)(img)
  {
    hide Sound, Recover, StartVersion, MisreadAs, LiveSize, AlignUp;
  }

  lemma {:induction false} RecoveringAreCuts(geo: Geometry, view: map<Bytes, Bytes>, command: Command, most: nat,
                                             a: seq<Bytes>, b: seq<Bytes>)
    requires geo.page > 0 && Since(a, b, Recovering(geo, {view, command.Effect(geo, view)}, most))
    ensures Since(a, b, Cuts(geo, view, command, most))
  {
    hide *;
    var p, q := Recovering(geo, {view, command.Effect(geo, view)}, most), Cuts(geo, view, command, most);
    forall img | p(img)
      ensures q(img)
    {
      RecoveringIsCut(geo, view, command, most, img);
    }
    SinceImplies(a, b, p, q);
  }

  lemma {:induction false} RecoveringIsCut(geo: Geometry, view: map<Bytes, Bytes>, command: Command, most: nat,
                                           img: Bytes)
    requires geo.page > 0 && Recovering(geo, {view, command.Effect(geo, view)}, most)(img)
    ensures Cuts(geo, view, command, most)(img)
  {
    hide Sound, Recover, StartVersion, LiveSize, MisreadAs;
  }

  lemma {:induction false} PutEffect(geo: Geometry, view: map<Bytes, Bytes>, key: Bytes, data: Bytes)
    requires geo.page > 0
    ensures Put(key, data).Effect(geo, view) ==
            if ValidKey(key) && geo.First() + LiveSize(geo, view[key := data]) <= geo.area then view[key := data]
                else view
    ensures Remove(key).Effect(geo, view) == view - {key} && Clear.Effect(geo, view) == map[]
  {
    hide LiveSize, AlignUp;
  }

  lemma {:induction false} EnsureEffect(geo: Geometry, view: map<Bytes, Bytes>, size: nat)
    requires geo.page > 0
    ensures Ensure(size).Effect(geo, view) == view && {view, view} == {view}
  {
  }

  lemma {:induction false} ExpressibleParts(geo: Geometry, command: Command)
    requires geo.page > 0 && command.Expressible(geo)
    ensures command.Put? ==>
            |command.data| < 0x1_0000_0000 && geo.area + geo.SizeFor(|command.key|, |command.data|) < 0x1_0000_0000
    ensures command.Remove? ==> geo.area + geo.SizeFor(|command.key|, 0) < 0x1_0000_0000
    ensures command.Ensure? ==> command.size <= ENSURE_MAX
  {
    hide AlignUp;
  }

  /** Runs a command to its end. */
  method Perform(store: Store, command: Command)
    requires store.Valid() && command.Expressible(store.geo)
    modifies store, store.port`buffer, store.flash
    ensures store.Valid() && store.View() == command.Effect(store.geo, old(store.View()))
    ensures store.Durable() <==> if store.active == old(store.active) then old(store.Durable())
                                 else !WrapAhead(old(store.active), old(store.version))
    ensures store.version == if store.active == old(store.active) then old(store.version)
            else NextVersion(old(store.version))
    ensures old(store.Durable()) ==>
              Since(old(store.flash.trail), store.flash.trail,
                    Cuts(store.geo, old(store.View()), command, old(store.version) + 1))
    ensures old(store.Durable()) && !store.Durable() ==>
              store.Passed() && Recover(store.geo, store.flash.image) == old(store.View())
    ensures old(store.Passed()) && store.active == old(store.active) ==>
              && store.Passed() && Recover(store.geo, store.flash.image) == old(Recover(store.geo, store.flash.image))
              && Since(old(store.flash.trail), store.flash.trail,
                       Recovering(store.geo, {old(Recover(store.geo, store.flash.image))},
                                  old(StartVersion(store.geo, store.flash.image))))
  {
    hide *;
    ghost var geo, view := store.geo, store.View();
    ExpressibleParts(geo, command);
    var status;
    match command {
      case Put(key, data) =>
        PutEffect(geo, view, key, data);
        status := store.Write(key, data);
        if old(store.Durable()) {
          OutcomesAreCuts(geo, view, key, data, old(store.version) + 1, old(store.flash.trail), store.flash.trail);
        }
      case Remove(key) =>
        PutEffect(geo, view, key, []);
        status := store.Delete(key);
      case Clear =>
        PutEffect(geo, view, [], []);
        status := store.Reset();
      case Ensure(size) =>
        EnsureEffect(geo, view, size);
        status := store.EnsureCapacity(size);
    }
    if !command.Put? && old(store.Durable()) {
      RecoveringAreCuts(geo, view, command, old(store.version) + 1, old(store.flash.trail), store.flash.trail);
    }
  }

  lemma {:induction false} AllRecover(geo: Geometry, trail: seq<Bytes>, view: map<Bytes, Bytes>, most: nat)
    requires geo.page > 0 && trail != [] && Recovering(geo, {view}, most)(trail[0])
    requires Since([trail[0]], trail, Recovering(geo, {view}, most))
    ensures forall i :: 0 <= i < |trail| ==>
              Sound(geo, trail[i]) && Recover(geo, trail[i]) == view && StartVersion(geo, trail[i]) <= most
  {
    hide Sound, Recover, StartVersion;
  }

  lemma {:induction false} SoundSpans(geo: Geometry, image: Bytes)
    requires geo.page > 0 && Sound(geo, image)
    ensures |image| == 2 * geo.area
  {
    hide Settled, Pick, AreaHolds, Replay;
  }

  /** One start-up. `wrapped` tells that a collection during it wrapped the version. */
  method PowerUpOnce(geo: Geometry, image: Bytes) returns (store: Store, wrapped: bool)
    requires geo.Valid() && Sound(geo, image)
    ensures fresh(store) && fresh(store.port) && fresh(store.flash) && store.geo == geo
    ensures store.Valid() && store.View() == Recover(geo, image) && (wrapped <==> !store.Durable())
    ensures wrapped ==> store.active.Two? && store.Passed() && Recover(geo, store.flash.image) == store.View()
    ensures store.version <= StartVersion(geo, image) + 1 && (StartVersion(geo, image) < 0xFFFF ==> !wrapped)
    ensures store.flash.trail != []
    ensures forall i :: 0 <= i < |store.flash.trail| ==>
              && Sound(geo, store.flash.trail[i]) && Recover(geo, store.flash.trail[i]) == Recover(geo, image)
              && StartVersion(geo, store.flash.trail[i]) <= StartVersion(geo, image) + 1
  {
    hide *;
    SoundSpans(geo, image);
    var flash := new Flash(geo, image);
    store := new Store(flash);
    var status := store.Init();
    store.DurablePick();
    wrapped := Pick(geo, store.flash.image) != Some((store.active, store.version));
    if Pick(geo, image).Some? {
      PickedParts(geo, image, Pick(geo, image).value.0, Pick(geo, image).value.1);
      WrapRule(Pick(geo, image).value.0, Pick(geo, image).value.1);
    }
    ghost var most := StartVersion(geo, image) + 1;
    StartOfTrail(image, store.flash.trail, Recovering(geo, {store.View()}, most));
    RecoveringParts(geo, {store.View()}, most, image);
    AllRecover(geo, store.flash.trail, store.View(), most);
  }

  lemma {:induction false} StartOfTrail(image: Bytes, trail: seq<Bytes>, p: Bytes -> bool)
    requires Since([image], trail, p)
    ensures trail != [] && trail[0] == image
  {
  }

  /** Start-ups after a power cut: one cut after `again[i]` flash steps each, and one for good. */
  method PowerUp(geo: Geometry, image: Bytes, again: seq<nat>) returns (store: Store, wrapped: bool)
    requires geo.Valid() && Sound(geo, image)
    ensures fresh(store) && fresh(store.port) && fresh(store.flash) && store.geo == geo && store.Valid()
    ensures store.View() == Recover(geo, image) && (wrapped <==> !store.Durable())
    ensures wrapped ==> store.active.Two? && store.Passed() && Recover(geo, store.flash.image) == store.View()
    ensures store.version <= StartVersion(geo, image) + |again| + 1
    ensures StartVersion(geo, image) + |again| < 0xFFFF ==> !wrapped
    decreases |again|
  {
    hide *;
    store, wrapped := PowerUpOnce(geo, image);
    if again != [] {
      var last := |store.flash.trail| - 1;
      var cut := store.flash.trail[if again[0] < last then again[0] else last];
      store, wrapped := PowerUp(geo, cut, again[1..]);
    }
  }

  /** One event on a running store. The power can only fail while start-up would choose its area. */
  method Step(store: Store, event: Event) returns (after: Store, wrapped: bool)
    requires store.Valid() && event.command.Expressible(store.geo)
    requires store.Durable() || (event.cut.None? && store.Passed() && store.active.Two?)
    modifies store, store.port`buffer, store.flash
    ensures after == store || (fresh(after) && fresh(after.port) && fresh(after.flash))
    ensures after.Valid() && after.geo == store.geo && (wrapped <==> !after.Durable())
    ensures Allowed(store.geo, old(store.View()), event, after.View())
    ensures wrapped ==> after.active.Two? && after.Passed() && Recover(store.geo, after.flash.image) ==
                                          if event.cut.Some? then after.View()
                                          else if old(store.Durable()) then old(store.View())
                                          else old(Recover(store.geo, store.flash.image))
    ensures old(store.Durable()) && old(store.version) + event.Cost() <= 0xFFFF ==>
              !wrapped && after.version <= old(store.version) + event.Cost()
  {
    hide *;
    ghost var view, was := store.View(), store.version;
    var before, steps := store.flash.image, |store.flash.trail|;
    if event.cut.Some? {
      DurableIsSound(store);
    }
    WrapRule(store.active, was);
    NextAtMost(was);
    EventCost(event);
    Perform(store, event.command);
    after := store;
    after.DurablePick();
    wrapped := Pick(after.geo, after.flash.image) != Some((after.active, after.version));
    if event.cut.None? {
      FinishedIsAllowed(store.geo, view, event.command, event.again);
      return;
    }
    CutRule(store.geo, view, event, was, before, old(store.flash.trail), store.flash.trail);
    var images := [before] + store.flash.trail[steps..];
    var cut := images[if event.cut.value < |images| then event.cut.value else |images| - 1];
    after, wrapped := PowerUp(store.geo, cut, event.again);
  }

  lemma {:induction false} EventCost(event: Event)
    ensures event.Cost() == 1 + if event.cut.Some? then |event.again| + 1 else 0
  {
  }

  lemma {:induction false} NextAtMost(version: nat)
    ensures NextVersion(version) <= version + 1
  {
  }

  lemma {:induction false} WrapRule(was: Area, version: nat)
    ensures WrapAhead(was, version) <==> was.One? && version == 0xFFFF
  {
  }

  lemma {:induction false} FinishedIsAllowed(geo: Geometry, view: map<Bytes, Bytes>, command: Command, again: seq<nat>)
    requires geo.page > 0
    ensures Allowed(geo, view, Event(command, None, again), command.Effect(geo, view))
  {
    hide LiveSize;
  }

  lemma DurableIsSound(store: Store)
    requires store.Valid() && store.Durable()
    ensures Sound(store.geo, store.flash.image) && Recover(store.geo, store.flash.image) == store.View()
    ensures StartVersion(store.geo, store.flash.image) == store.version
  {
    hide *;
    store.ValidParts();
    store.OpenedParts();
    store.DurablePick();
    store.ViewIsContents();
    OpenIsSound(store.geo, store.flash.image, store.active, store.version, store.log);
    PickedParts(store.geo, store.flash.image, store.active, store.version);
  }

  /** Every image a cut event can leave recovers to something the event allows. */
  lemma {:induction false} CutRule(geo: Geometry, view: map<Bytes, Bytes>, event: Event, version: nat, before: Bytes,
                                  a: seq<Bytes>, b: seq<Bytes>)
    requires geo.page > 0 && event.cut.Some? && Sound(geo, before) && Recover(geo, before) == view
    requires StartVersion(geo, before) == version && Since(a, b, Cuts(geo, view, event.command, version + 1))
    ensures |a| <= |b|
    ensures forall i :: 0 <= i < |[before] + b[|a|..]| ==>
              var image := ([before] + b[|a|..])[i];
              Sound(geo, image) && Allowed(geo, view, event, Recover(geo, image))
                  && StartVersion(geo, image) <= version + 1
  {
    hide Sound, Recover, StartVersion, LiveSize, MisreadAs;
  }

  /** Whole runs: from an image only this store has written, in particular a device it has never
      used, any commands with power cuts anywhere behave like the map, each event seen whole or not
      at all. A run stops early only at a power cut after a finished command that wrapped the area
      version, which takes more than 65000 commands and start-ups; then start-up recovers the map
      from before that command, which is `views[lost]`. */
  method Run(geo: Geometry, image: Bytes, events: seq<Event>)
    returns (store: Store, ghost views: seq<map<Bytes, Bytes>>, done: nat, wrapped: bool, ghost lost: nat)
    requires geo.Valid() && Sound(geo, image) && forall e :: e in events ==> e.command.Expressible(geo)
    ensures done <= |events| && store.Valid() && Explains(geo, events[..done], views)
    ensures views[0] == Recover(geo, image) && store.View() == views[done]
    ensures wrapped <==> !store.Durable()
    ensures wrapped ==> lost <= done && Sound(geo, store.flash.image) && Recover(geo, store.flash.image) == views[lost]
    ensures done < |events| ==> wrapped && events[done].cut.Some?
    ensures StartVersion(geo, image) + 1 + Cost(events) <= 0xFFFF ==> done == |events| && !wrapped
  {
    hide *;
    store, wrapped := PowerUp(geo, image, []);
    views := [store.View()];
    done, lost := 0, 0;
    ExplainsNothing(geo, views);
    ghost var first := StartVersion(geo, image) + 1;
    NoCost();
    while done < |events|
      invariant fresh(store) && fresh(store.port) && fresh(store.flash) && store.geo == geo && store.Valid()
      invariant done <= |events| && |views| == done + 1 && Explains(geo, events[..done], views)
      invariant views[0] == Recover(geo, image) && views[done] == store.View() && (wrapped <==> !store.Durable())
      invariant wrapped ==>
                store.active.Two? && store.Passed() && lost <= done && Recover(geo, store.flash.image) == views[lost]
      invariant first + Cost(events) <= 0xFFFF ==> !wrapped && store.version <= first + Cost(events[..done])
    {
      if wrapped && events[done].cut.Some? {
        break;
      }
      CostSoFar(events, done);
      lost := if wrapped then lost else if events[done].cut.Some? then done + 1 else done;
      store, wrapped := Step(store, events[done]);
      ExplainsMore(geo, events, done, views, store.View());
      views := views + [store.View()];
      done := done + 1;
    }
    store.PassedParts();
  }

  /** A power cut after the version has wrapped, in a command that does not collect: start-up recovers
      what it would have recovered before the command. */
  method CutAfterWrap(store: Store, event: Event) returns (after: Store, collected: bool)
    requires store.Valid() && store.Passed() && event.command.Expressible(store.geo) && event.cut.Some?
    modifies store, store.port`buffer, store.flash
    ensures after.Valid() && after.geo == store.geo
    ensures collected <==> store.active != old(store.active)
    ensures !collected ==> fresh(after) && after.View() == old(Recover(store.geo, store.flash.image))
  {
    hide *;
    ghost var geo, view, start := store.geo, Recover(store.geo, store.flash.image),
        StartVersion(store.geo, store.flash.image);
    var before, steps, was := store.flash.image, |store.flash.trail|, store.active;
    store.PassedParts();
    Perform(store, event.command);
    collected := store.active != was;
    after := store;
    if !collected {
      StillRecovers(geo, view, start, before, old(store.flash.trail), store.flash.trail);
      var images := [before] + store.flash.trail[steps..];
      var cut := images[if event.cut.value < |images| then event.cut.value else |images| - 1];
      var wrapped;
      after, wrapped := PowerUp(store.geo, cut, event.again);
    }
  }

  lemma {:induction false} StillRecovers(geo: Geometry, view: map<Bytes, Bytes>, start: nat, before: Bytes,
                                         a: seq<Bytes>, b: seq<Bytes>)
    requires geo.page > 0 && Sound(geo, before) && Recover(geo, before) == view
             && Since(a, b, Recovering(geo, {view}, start))
    ensures |a| <= |b|
    ensures forall i :: 0 <= i < |[before] + b[|a|..]| ==>
              var image := ([before] + b[|a|..])[i]; Sound(geo, image) && Recover(geo, image) == view
  {
    hide Sound, Recover, StartVersion;
  }

  lemma {:induction false} NoCost()
    ensures Cost([]) == 0
  {
  }

  lemma {:induction false} ExplainsNothing(geo: Geometry, views: seq<map<Bytes, Bytes>>)
    requires geo.page > 0 && |views| == 1
    ensures Explains(geo, [], views)
  {
  }

  lemma {:induction false} ExplainsMore(geo: Geometry, events: seq<Event>, i: nat, views: seq<map<Bytes, Bytes>>,
                                        next: map<Bytes, Bytes>)
    requires geo.page > 0 && i < |events| && Explains(geo, events[..i], views)
             && Allowed(geo, views[i], events[i], next)
    ensures Explains(geo, events[..i + 1], views + [next])
  {
    hide Allowed;
  }

  /** With a CRC that tells unfinished records from finished ones, a cut command is seen whole or
      not at all. */
  lemma {:induction false} CutIsAtomic(geo: Geometry, view: map<Bytes, Bytes>, command: Command,
                                       recovered: map<Bytes, Bytes>)
    requires geo.page > 0 && command.Cut(geo, view, recovered)
    requires command.Put? && Record(false, command.key, command.data).WellFormed() ==>
               CrcDistinguishes(geo, Record(false, command.key, command.data))
    ensures recovered == view || recovered == command.Effect(geo, view)
  {
    hide LiveSize, Collides, TornData;
  }

  // ----- Start-up against the running store -----

  /** Replaying the active area gives back the records the running store counts on. */
  lemma ReplayIsLog(store: Store)
    requires store.Valid() && store.Durable()
    ensures var all := Replay(store.geo, store.flash.image, store.geo.Base(store.active), store.geo.First());
            && all == store.log && OpenArea(store.geo, store.flash.image, store.active, store.version, all)
            && Pick(store.geo, store.flash.image) == Some((store.active, store.version))
            && store.free == End(store.geo, store.log)
            && Indexes(store.table, store.names, Offsets(store.geo, store.log))
            && store.consumed == store.geo.First() + LiveSize(store.geo, Contents(store.log))
  {
    hide *;
    store.ValidParts();
    store.OpenedParts();
    store.DurablePick();
    store.TalliedParts();
    store.ViewIsContents();
    OpenAreaHolds(store.geo, store.flash.image, store.active, store.version, store.log);
    AreaReplays(store.geo, store.flash.image, store.active, store.version, store.log);
  }

  /** A second store started on the same flash agrees with the running one: same records, same
      sizes, and the same table entries, up to the order among equal hashes. */
  method Restart(store: Store) returns (again: Store)
    requires store.Valid() && store.Durable()
    ensures again.Valid() && again.log == store.log && again.flash.image == store.flash.image
    ensures again.active == store.active && again.version == store.version
    ensures again.consumed == store.consumed && again.free == store.free
    ensures |again.table| == |store.table| && forall e :: e in again.table <==> e in store.table
  {
    hide *;
    ReplayIsLog(store);
    DurableIsSound(store);
    var flash := new Flash(store.geo, store.flash.image);
    again := new Store(flash);
    var status := again.Init();
    again.DurablePick();
    ReplayIsLog(again);
    SameEntries(again.table, again.names, store.table, store.names, Offsets(store.geo, store.log));
  }

  /** A device the store has never used holds the empty map. */
  lemma {:induction false} NeverUsed(geo: Geometry, image: Bytes)
    requires geo.Valid() && |image| == 2 * geo.area && Blank(geo, image, 0, 2 * geo.area)
    ensures Sound(geo, image) && Recover(geo, image) == map[] && StartVersion(geo, image) == INITIAL_VERSION
  {
    hide AreaVersion, HeaderRefused, Replay, AreaHolds, AlignUp;
    BlankIsRefused(geo, image, geo.Base(One));
    BlankIsRefused(geo, image, geo.Base(Two));
    RefusedHasNoVersion(image, geo.Base(One));
    RefusedHasNoVersion(image, geo.Base(Two));
  }
}
