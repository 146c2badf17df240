/** The key-value store: its RAM state over the flash image, and its operations.

    Modelled code: nimble/host/kv_store/mtb_kvstore.c, nimble/host/kv_store/mtb_kvstore.h. */
module KvStore {
  import opened Sequences
  import opened Arith
  import opened Crc16
  import opened LittleEndian
  import opened KvFormat
  import opened KvLog
  import opened KvLive
  import opened KvImage
  import opened KvIndex
  import opened KvFlash
  import opened KvPort
  import opened KvCommit
  import opened KvCompact
  import opened KvGather
  import opened KvCollect
  import opened KvOutcome
  import opened KvLoad

  class Store {
    const flash: Flash
    const port: Port
    const geo: Geometry
    var active: Area
    var version: nat
    var table: seq<Entry>
    var consumed: nat
    var free: nat
    ghost var names: seq<Bytes>
    ghost var log: seq<Record>

    /** The caller's object before start-up has filled it in. */
    constructor (flash: Flash)
      requires flash.Valid()
      ensures Wired() && this.flash == flash && fresh(port)
    {
      this.flash := flash;
      this.geo := flash.geo;
      this.port := new Port(flash);
      active, version, table, consumed, free := One, 0, [], 0, 0;
      names, log := [], [];
    }

    /** The objects of the store belong together. */
    ghost predicate Wired()
      reads flash, port
      ensures Wired() ==> port.Valid() && port.flash == flash && port.geo == geo && flash.geo == geo && geo.Valid()
      ensures Wired() ==> |flash.image| == 2 * geo.area
    {
      port.flash == flash && port.geo == geo && flash.geo == geo && port.Valid()
    }

    /** Both areas open settled, and the active one has its record. */
    ghost predicate Opened()
      reads this`active, this`version, flash, port
      ensures Opened() ==> Wired() && version < 0x1_0000
    {
      && Wired() && version < 0x1_0000 && HasAreaRecord(flash.image, geo.Base(active), version)
      && Settled(geo, flash.image, One) && Settled(geo, flash.image, Two)
    }

    /** The table holds exactly the live entries of `log`, and the consumed size is theirs. */
    ghost predicate Tallied()
      reads this`table, this`names, this`log, this`consumed
      requires geo.page > 0
      ensures Tallied() ==> |table| == |names| && geo.First() <= consumed <= End(geo, log)
    {
      hide Indexes, Offsets, Contents, LiveSize, End, AlignUp;
      && Indexes(table, names, Offsets(geo, log)) && consumed == geo.First() + LiveSize(geo, Contents(log))
      && (LiveFits(geo, log); IndexesLengths(table, names, Offsets(geo, log)); true)
    }

    /** Between calls: the active area is open and holds `log`, and the RAM state is that of `log`. */
    ghost predicate Valid()
      reads this, flash, port
      ensures Valid() ==> Opened() && |table| == |names| && geo.First() <= consumed <= free <= geo.area
    {
      hide HasAreaRecord, Settled, Indexes, Offsets, Contents, LiveSize, End, AlignUp, LogAt, Blank;
      Opened() && OpenArea(geo, flash.image, active, version, log) && Tallied() && free == End(geo, log)
    }

    lemma Rewired()
      requires port.Valid() && port.flash == flash && port.geo == geo && flash.geo == geo
      ensures Wired()
    {
    }

    lemma OpenedParts()
      requires Wired()
      ensures Opened() <==> (&& version < 0x1_0000 && HasAreaRecord(flash.image, geo.Base(active), version)
                             && Settled(geo, flash.image, One) && Settled(geo, flash.image, Two))
    {
      hide HasAreaRecord, Settled;
    }

    lemma ValidParts()
      requires geo.page > 0
      ensures Valid() <==>
              Opened() && OpenArea(geo, flash.image, active, version, log) && Tallied() && free == End(geo, log)
    {
      hide OpenArea, End;
    }

    lemma TalliedParts()
      requires geo.page > 0 && Tallied()
      ensures Indexes(table, names, Offsets(geo, log)) && consumed == geo.First() + LiveSize(geo, View())
    {
      hide Indexes, Offsets, LiveSize, Contents;
    }

    lemma ViewIsContents()
      ensures View() == Contents(log)
    {
    }

    lemma DurablePick()
      ensures Durable() <==> Pick(geo, flash.image) == Some((active, version))
    {
    }

    /** The map the store stands for. */
    ghost function View(): map<Bytes, Bytes>
      reads this`log
    {
      Contents(log)
    }

    /** Start-up would choose the active area. */
    ghost predicate Durable()
      reads this`active, this`version, flash
    {
      Pick(geo, flash.image) == Some((active, version))
    }

    /** Start-up would choose the other area. */
    ghost predicate Passed()
      requires geo.page > 0
      reads this`active, flash
    {
      Sound(geo, flash.image) && Pick(geo, flash.image).Some? && Pick(geo, flash.image).value.0 == active.Other()
    }

    lemma PassedParts()
      requires geo.page > 0
      ensures Passed() <==>
              Sound(geo, flash.image) && Pick(geo, flash.image).Some?
                  && Pick(geo, flash.image).value.0 == active.Other()
    {
      hide Sound, Pick;
    }

    // ----- Garbage collection -----

    /** Erases the other area and copies every live record but one into it. */
    method CopyLive(skip: nat, ghost keep: map<Bytes, Bytes>) returns (dst: nat)
      requires Wired() && Kept(geo, flash.image, active, table, names, keep) && skip <= |table|
      requires geo.First() + LiveSize(geo, if skip < |names| then keep - {names[skip]} else keep) <= geo.area
      modifies this`table, port`buffer, flash
      ensures Wired() && Round(geo, old(flash.image), flash.image, active, names, keep, skip, old(table), table,
                               |names|, dst)
      ensures Since(old(flash.trail), flash.trail, RewritingFrom(geo, old(flash.image), active.Other()))
    {
      hide Kept, Round, Lists, RewritingFrom, Since, Blank, Gathering, LiveSize, AlignUp;
      ghost var before := flash.image;
      ghost var p := RewritingFrom(geo, before, active.Other());
      port.EraseArea(active.Other());
      GatherStart(geo, before, flash.image, active);
      dst := geo.First();
      FirstRound(geo, before, flash.image, active, names, keep, skip, table);
      for n := 0 to |table|
        invariant Wired() && |table| == |old(table)|
        invariant Round(geo, before, flash.image, active, names, keep, skip, old(table), table, n, dst)
        invariant Since(old(flash.trail), flash.trail, p)
      {
        if n == skip {
          SkipRound(geo, before, flash.image, active, names, keep, skip, old(table), table, dst);
        } else {
          ghost var sofar := flash.trail;
          dst := CopyEntry(skip, n, dst, before, old(table), keep);
          SinceThen(old(flash.trail), sofar, flash.trail, p);
        }
      }
    }

    /** One round of the copying loop. */
    method CopyEntry(skip: nat, n: nat, dst: nat, ghost before: Bytes, ghost original: seq<Entry>,
                     ghost keep: map<Bytes, Bytes>) returns (next: nat)
      requires Wired() && n < |table| && n != skip && skip <= |table|
      requires Kept(geo, before, active, original, names, keep)
      requires Round(geo, before, flash.image, active, names, keep, skip, original, table, n, dst)
      requires geo.First() + LiveSize(geo, if skip < |names| then keep - {names[skip]} else keep) <= geo.area
      modifies this`table, port`buffer, flash
      ensures Wired() && |table| == |old(table)|
      ensures Round(geo, before, flash.image, active, names, keep, skip, original, table, n + 1, next)
      ensures Since(old(flash.trail), flash.trail, RewritingFrom(geo, before, active.Other()))
    {
      hide Kept, Round, Lists, RewritingFrom, Since, Blank, LiveSize, AlignUp, Holds, Copied, Within, CopyLog, Hash,
           Raw;
      ghost var image, r := flash.image, Record(false, names[n], keep[names[n]]);
      RoundReady(geo, before, image, active, names, keep, skip, original, table, n, dst);
      var status;
      status, next := port.CopyRecord(geo.Base(active) + table[n].offset, active.Other(), dst, r);
      assert status.Success?;  // a copy never finds the area full
      CopyRound(geo, before, image, flash.image, active, names, keep, skip, original, table, n, dst);
      RoundParts(geo, before, image, active, names, keep, skip, original, table, n, dst);
      RoundSteps(geo, before, image, active, CopyLog(names, keep, skip, n), dst, dst + geo.RecordSize(r),
                 old(flash.trail), flash.trail);
      table := table[n := table[n].(offset := dst)];
    }

    /** Writes the replacing record into the new area. */
    method Inject(change: Change, dst: nat, ghost before: Bytes, ghost original: seq<Entry>,
                  ghost keep: map<Bytes, Bytes>)
      returns (next: nat)
      requires Wired() && change.Replace? && Sorted(original)
      requires change.index < |names| && names[change.index] == change.key && change.hash == Hash(change.key)
      requires change.newSize == PairSize(geo, change.key, change.data)
               && Record(false, change.key, change.data).WellFormed()
      requires Round(geo, before, flash.image, active, names, keep, change.index, original, table, |names|, dst)
      requires geo.First() + LiveSize(geo, keep[change.key := change.data]) <= geo.area
      requires consumed + change.newSize >= change.oldSize
      modifies this`table, this`consumed, this`log, port`buffer, flash
      ensures Wired() && next == End(geo, log)
      ensures Rebuilt(geo, before, flash.image, active, table, names, log, keep[change.key := change.data])
      ensures consumed == old(consumed) + change.newSize - change.oldSize
      ensures Since(old(flash.trail), flash.trail, RewritingFrom(geo, before, active.Other()))
    {
      hide Round, Lists, RewritingFrom, Since, Blank, LiveSize, AlignUp, Holds, CopyLog, Hash, Raw, End, Rebuilt,
           SameBytes,
           Gathering, Overlay, Sorted;
      ghost var image, skip := flash.image, change.index;
      ghost var copies := CopyLog(names, keep, skip, |names|);
      var r := Record(false, change.key, change.data);
      ReplaceFits(geo, before, image, active, names, keep, skip, original, table, dst, change.data);
      AppendIsValid(geo, image, active.Other(), copies, r);
      port.PutRecord(geo.Base(active.Other()) + dst, r);
      AppendSteps(geo, before, image, active, copies, r, old(flash.trail), flash.trail);
      RebuiltReplaced(geo, before, image, flash.image, active, names, keep, skip, original, table, dst, change.data);
      LogLonger(geo, copies, r);
      table := table[change.index := Entry(change.hash, dst)];
      consumed := consumed - change.oldSize + change.newSize;
      log := copies + [r];
      next := dst + change.newSize;
    }

    /** Writes the area record and makes the new area current. */
    method Commit(dst: nat, ghost before: Bytes)
      requires Wired() && version < 0x1_0000 && HasAreaRecord(before, geo.Base(active), version)
               && Settled(geo, before, active)
      requires Gathering(geo, before, flash.image, active, log) && dst == End(geo, log)
      modifies this`active, this`version, this`free, port`buffer, flash
      ensures Opened() && active == old(active).Other() && version == NextVersion(old(version)) && free == dst
      ensures OpenArea(geo, flash.image, active, version, log)
      ensures Committed(geo, before, flash.image, old(active), old(version), log)
      ensures Since(old(flash.trail), flash.trail, Collecting(geo, before, old(active), old(version), log))
    {
      hide *;
      ghost var image := flash.image;
      GatheringParts(geo, before, image, active, log);
      OpeningIsValid(geo, image, active.Other(), NextVersion(version));
      OpeningIsPlace(geo, image, active.Other(), NextVersion(version));
      port.PutRecord(geo.Base(active.Other()), AreaRecord(NextVersion(version)));
      OpeningSteps(geo, before, image, active, version, log, old(flash.trail), flash.trail);
      GatherCommit(geo, before, image, flash.image, active, version, log);
      CommittedIsPicked(geo, before, flash.image, active, version, log);
      OpenAreaParts(geo, flash.image, active.Other(), NextVersion(version), log);
      Rewired();
      version := NextVersion(version);
      free := dst;
      active := active.Other();
      OpenedParts();
    }

    /** Moves the live records to the other area, changes one on the way if asked to, and makes
        that area current. */
    method Collect(change: Change, ghost keep: map<Bytes, Bytes>) returns (status: Status)
      requires Opened() && Kept(geo, flash.image, active, table, names, keep)
               && Vouched(geo, names, consumed, change, keep)
      modifies this, port`buffer, flash
      ensures Wired()
      ensures var full := change.Replace? && geo.First() + LiveSize(geo, change.Result(keep, old(names))) > geo.area;
              status == if full then StorageFull else Success
      ensures status.StorageFull? ==> unchanged(this) && unchanged(port) && unchanged(flash)
      ensures status.Success? ==> (
                && Opened() && active == old(active).Other() && version == NextVersion(old(version))
                && OpenArea(geo, flash.image, active, version, log) && Indexes(table, names, Offsets(geo, log))
                && Contents(log) == change.Result(keep, old(names))
                && free == End(geo, log) == geo.First() + LiveSize(geo, Contents(log)))
      ensures status.Success? && change.Nothing? ==> names == old(names)
      ensures status.Success? ==> Committed(geo, old(flash.image), flash.image, old(active), old(version), log)
      ensures status.Success? ==>
                Since(old(flash.trail), flash.trail, Collecting(geo, old(flash.image), old(active), old(version), log))
      ensures status.Success? ==> consumed == match change
                                              case Nothing => old(consumed)
                                              case Drop(_, oldSize) => old(consumed) - oldSize
                                              case Replace(_, oldSize, newSize, _, _,
                                                           _) => old(consumed) - oldSize + newSize
    {
      hide Kept, Round, Lists, RewritingFrom, Since, Blank, LiveSize, AlignUp, Holds, CopyLog, Hash, Raw, End, Rebuilt,
           SameBytes,
           Gathering, Overlay, Sorted, Settled, HasAreaRecord, Committed, Collecting, OpenArea, Indexes, Offsets,
               Contents, Removed;
      ghost var before, original, list := flash.image, table, names;
      ghost var result := change.Result(keep, names);
      ghost var skip := change.Skip(|names|);
      SkippedSize(geo, change, keep, names);
      if change.Replace? {
        var total := consumed - change.oldSize + change.newSize;
        if total > geo.area {
          return StorageFull;
        }
      }
      KeptIsSorted(geo, before, active, table, names, keep);
      var dst := CopyLive(change.Skip(|table|), keep);
      ghost var sofar := flash.trail;
      if change.Replace? {
        dst := Inject(change, dst, before, original, keep);
        SinceThen(old(flash.trail), sofar, flash.trail, RewritingFrom(geo, before, active.Other()));
      } else if change.Drop? {
        RebuiltWithout(geo, before, flash.image, active, names, keep, skip, original, table, dst);
        table := Removed(table, change.index);
        names, log := Removed(names, change.index), CopyLog(list, keep, skip, |list|);
        consumed := consumed - change.oldSize;
      } else {
        RebuiltPlain(geo, before, flash.image, active, names, keep, original, table, dst);
        log := CopyLog(list, keep, skip, |list|);
      }
      RebuiltParts(geo, before, flash.image, active, table, names, log, result);
      sofar := flash.trail;
      RewritingSteps(geo, before, active, version, log, old(flash.trail), sofar);
      Commit(dst, before);
      SinceThen(old(flash.trail), sofar, flash.trail, Collecting(geo, before, old(active), old(version), log));
      return Success;
    }

    // ----- Looking keys up -----

    /** Walks the table for `key`: hashes fall, so it can stop at the first smaller one; entries
        with the same hash are told apart by their stored keys. */
    method Find(key: Bytes, ghost keep: map<Bytes, Bytes>) returns (status: Status, index: nat, hash: nat,
                                                                    dataSize: nat)
      requires Wired() && Kept(geo, flash.image, active, table, names, keep)
      modifies port`buffer
      ensures Wired() && hash == Hash(key)
      ensures status == if key in keep then Success else ItemNotFound
      ensures status.Success? ==> index < |names| && names[index] == key && dataSize == |keep[key]|
      ensures status.ItemNotFound? ==> Slot(table, hash, index)
    {
      hide Kept, Crc, Lists, ReadStatus, Inspect, DecodeHeader, HeaderOf, ReadsAs;
      status, index, dataSize := ItemNotFound, 0, 0;
      var crc := Bitwise(key, CRC_INIT);
      hash := crc as nat;
      while index < |table|
        invariant Wired() && index <= |table| && status.ItemNotFound?
        invariant forall i :: 0 <= i < index ==> table[i].hash >= hash && names[i] != key
      {
        EntryReads(geo, flash.image, active, table, names, keep, index, key, None);
        if hash > table[index].hash {
          break;
        }
        if hash == table[index].hash {
          var header, k, data;
          status, header, k, data := port.ReadRecord(geo.Base(active) + table[index].offset, Some(key), None);
          if !status.ItemNotFound? {
            dataSize := SizeRead(geo.Base(active) + table[index].offset, header, k);
            return;
          }
        }
        index := index + 1;
      }
      PassedAll(geo, flash.image, active, table, names, keep, index, key);
    }

    /** The data size a successful read reports. */
    method SizeRead(addr: nat, header: Header, key: Bytes) returns (size: nat)
      requires ReadsAs(flash.image, addr, header, key)
      ensures Inspect(flash.image, addr).Intact? && size == Inspect(flash.image, addr).header.dataSize
    {
      hide Inspect;
      size := header.dataSize;
    }

    // ----- Writing and deleting -----

    /** Enters the record at `offset`, which follows those of `log`, into the table and the sizes. */
    method Enter(ghost r: Record, deleted: bool, newSize: nat, offset: nat, found: bool, at: nat, hash: nat,
                 oldSize: nat)
      requires geo.page > 0 && Tallied() && hash == Hash(r.key) && offset == End(geo, log)
      requires deleted == r.deleted && newSize == geo.RecordSize(r)
      requires FoundAt(table, names, View(), r.key, found, at) && (r.deleted ==> found)
      requires oldSize == if found then PairSize(geo, r.key, View()[r.key]) else 0
      modifies this`table, this`consumed, this`names, this`log
      ensures Tallied() && log == old(log) + [r] && End(geo, log) == offset + geo.RecordSize(r)
    {
      hide Hash, AlignUp, PairSize, End, Indexes, Offsets, Contents, LiveSize, FoundAt, Inserted, Removed, Apply;
      IndexesAfter(geo, table, names, log, r, found, at);
      SizesAfter(geo, log, r, oldSize);
      if deleted {
        table := Removed(table, at);
        consumed := consumed - oldSize;
      } else if found {
        table := table[at := Entry(hash, offset)];
        consumed := consumed - oldSize + newSize;
      } else {
        table := Inserted(table, at, Entry(hash, offset));
        consumed := consumed + newSize;
      }
      names := NamesAfter(names, found, r.deleted, at, r.key);
      log := log + [r];
    }

    /** Appends `r`: flash first, then table, sizes and free offset. */
    method AppendRecord(r: Record, found: bool, at: nat, hash: nat, oldSize: nat, ghost most: nat)
      requires version <= most
      requires Valid() && r.WellFormed() && hash == Hash(r.key) && free + geo.RecordSize(r) <= geo.area
      requires FoundAt(table, names, View(), r.key, found, at) && (r.deleted ==> found)
      requires oldSize == if found then PairSize(geo, r.key, View()[r.key]) else 0
      modifies this`table, this`consumed, this`free, this`names, this`log, port`buffer, flash
      ensures Valid() && View() == Apply(old(View()), r) && (Durable() <==> old(Durable()))
      ensures Durable() ==> Since(old(flash.trail), flash.trail, Outcomes(geo, old(View()), r, most))
      ensures old(Passed()) ==> Passed() && Recover(geo, flash.image) == old(Recover(geo, flash.image))
      ensures old(Passed()) ==> Since(old(flash.trail), flash.trail,
                                      Recovering(geo, {old(Recover(geo, flash.image))},
                                                 old(StartVersion(geo, flash.image))))
    {
      hide *;
      ghost var before := flash.image;
      ValidParts();
      OpenedParts();
      ViewIsContents();
      DurablePick();
      OpenAreaParts(geo, before, active, version, log);
      AppendIsValid(geo, before, active, log, r);
      AppendParts(geo, before, active, log, r);
      PassedParts();
      port.PutRecord(geo.Base(active) + free, r);
      Rewired();
      AppendDone(geo, before, flash.image, active, version, log, r);
      OpenAreaParts(geo, flash.image, active, version, log + [r]);
      OffsetsAfter(geo, log, r);
      OpenedParts();
      DurablePick();
      if Durable() {
        AppendOutcomes(geo, before, active, version, log, r, most, old(flash.trail), flash.trail);
      }
      if old(Passed()) {
        PassedOvers(geo, before, active, log, r, old(flash.trail), flash.trail);
        WrittenIsPartly(Append(geo, before, active, log, r), flash.image);
        PassedOver(geo, before, flash.image, active, log, r);
        PassedParts();
      }
      Enter(r, r.deleted, geo.RecordSize(r), free, found, at, hash, oldSize);
      free := free + geo.RecordSize(r);
      ValidParts();
      ViewIsContents();
    }

    /** A collection between calls. */
    method Rebuild(change: Change) returns (status: Status)
      requires Valid() && Vouched(geo, names, consumed, change, View())
      modifies this, port`buffer, flash
      ensures var full := change.Replace?
              && geo.First() + LiveSize(geo, change.Result(old(View()), old(names))) > geo.area;
              status == if full then StorageFull else Success
      ensures Valid()
      ensures status.StorageFull? ==> unchanged(this) && unchanged(flash)
      ensures status.Success? ==> (
                && View() == change.Result(old(View()), old(names)) && free == consumed
                && active == old(active).Other() && version == NextVersion(old(version))
                    && (change.Nothing? ==> names == old(names)))
      ensures status.Success? ==> (Durable() <==> !WrapAhead(old(active), old(version)))
      ensures status.Success? ==> Committed(geo, old(flash.image), flash.image, old(active), old(version), log)
      ensures status.Success? ==>
                Since(old(flash.trail), flash.trail, Collecting(geo, old(flash.image), old(active), old(version), log))
    {
      hide Hash, Raw, AlignUp, PairSize, End, OpenArea, Settled, HasAreaRecord, Indexes, Offsets, Contents, LiveSize,
           Pick, Since,
           Kept, Committed, Collecting, Blank, SameBytes, LogAt;
      ghost var before, view, was, list := flash.image, View(), active, names;
      ghost var wasVersion := version;
      OpenAreaParts(geo, before, active, version, log);
      LoadedIsKept(geo, before, active, table, names, log);
      VouchedSize(geo, change, view, names);
      status := Collect(change, view);
      if status.Success? {
        CommittedIsPicked(geo, before, flash.image, was, wasVersion, log);
        OtherAreaDiffers(was);
      }
    }

    /** Adds `r` when it does not fit the free end: collects the area, which makes an update or a
        deletion on the way, and appends only a new key. */
    method PutByCollecting(r: Record, found: bool, at: nat, hash: nat, oldSize: nat)
      requires Valid() && r.WellFormed() && hash == Hash(r.key) && (r.deleted ==> found)
      requires FoundAt(table, names, View(), r.key, found, at)
      requires oldSize == if found then PairSize(geo, r.key, View()[r.key]) else 0
      requires geo.First() + LiveSize(geo, Apply(View(), r)) <= geo.area
      modifies this, port`buffer, flash
      ensures Valid() && View() == Apply(old(View()), r) && active != old(active)
              && version == NextVersion(old(version))
      ensures Durable() <==> !WrapAhead(old(active), old(version))
      ensures old(Durable()) ==> Since(old(flash.trail), flash.trail, Outcomes(geo, old(View()), r, old(version) + 1))
      ensures old(Durable()) && !Durable() ==> Passed() && Recover(geo, flash.image) == old(View())
    {
      hide Hash, Raw, AlignUp, End, OpenArea, Settled, HasAreaRecord, Indexes, Offsets, Contents, LiveSize, Pick, Since,
           Kept, Collecting, Blank, SameBytes, LogAt, Slot, PairSize, Append, Outcomes, FoundAt, Sound, Recover,
               Committed, Passed;
      ghost var before, was, wasLog, wasVersion, wasTable, view := flash.image, active, log, version, table, View();
      var change := if !found then Nothing else if r.deleted then Drop(at, oldSize)
                    else Replace(at, oldSize, geo.RecordSize(r), r.key, r.data, hash);
      MayChange(geo, names, consumed, table, log, r, found, at, change);
      var status := Rebuild(change);
      OtherAreaDiffers(was);
      if old(Durable()) {
        CollectOutcomes(geo, before, was, wasVersion, wasLog, log, r, old(flash.trail), flash.trail);
        OpenIsSound(geo, before, was, wasVersion, wasLog);
      }
      if old(Durable()) && !Durable() {
        WrapLosesCollection(geo, before, flash.image, was, wasVersion, log);
        PickedParts(geo, flash.image, was, wasVersion);
        PassedParts();
        assert Passed() && Recover(geo, flash.image) == view;
      }
      if !found {
        StillFoundAt(geo, wasTable, table, names, wasLog, log, r.key, at);
        WrittenRoom(geo, View(), r, 0);
        ghost var sofar := flash.trail;
        AppendRecord(r, found, at, hash, 0, wasVersion + 1);
        if old(Durable()) {
          if !Durable() {
            UnchangedIsOutcome(geo, view, r, wasVersion, wasVersion + 1, sofar, flash.trail);
          }
          SinceThen(old(flash.trail), sofar, flash.trail, Outcomes(geo, view, r, wasVersion + 1));
        }
      }
    }

    lemma Sizes()
      requires Valid()
      ensures consumed == geo.First() + LiveSize(geo, View()) && free <= geo.area
    {
      hide Indexes, Offsets, Contents, LiveSize, AlignUp, OpenArea, HasAreaRecord, Settled;
    }

    /** Where the record for `key` is in the table, or would go, and the room its record takes. */
    method Locate(key: Bytes) returns (found: bool, at: nat, hash: nat, size: nat)
      requires Valid()
      modifies port`buffer
      ensures Valid() && hash == Hash(key) && FoundAt(table, names, View(), key, found, at)
      ensures size == if found then PairSize(geo, key, View()[key]) else 0
      ensures found ==> 0 < |key| < MAX_KEY_SIZE
    {
      hide Hash, AlignUp, End, OpenArea, Settled, HasAreaRecord, Indexes, Offsets, Contents, LiveSize, Kept, Blank,
           LogAt, Slot, PairSize;
      OpenAreaParts(geo, flash.image, active, version, log);
      LoadedIsKept(geo, flash.image, active, table, names, log);
      var status, dataSize;
      status, at, hash, dataSize := Find(key, View());
      found := status.Success?;
      size := 0;
      if found {
        size := geo.SizeFor(|key|, dataSize);
        PairRoom(geo, key, View(), dataSize);
        StoredKeyIsValid(geo, flash.image, active, table, names, View(), at);
      }
    }

    /** Writes `data` under `key`, or deletes `key`. */
    method WriteWithFlags(key: Bytes, data: Bytes, deleted: bool) returns (status: Status)
      requires Valid() && if deleted then data == [] else Record(false, key, data).WellFormed()
      requires geo.area + geo.SizeFor(|key|, |data|) < 0x1_0000_0000
      modifies this, port`buffer, flash
      ensures Valid()
      ensures var full := !deleted && geo.First() + LiveSize(geo, old(View())[key := data]) > geo.area;
              status == if full then StorageFull else Success
      ensures View() == if status.Success? then Apply(old(View()), Record(deleted, key, data)) else old(View())
      ensures status.StorageFull? ==> unchanged(this) && unchanged(flash)
      ensures Durable() <==> if active == old(active) then old(Durable()) else !WrapAhead(old(active), old(version))
      ensures version == if active == old(active) then old(version) else NextVersion(old(version))
      ensures old(Durable()) ==>
                Since(old(flash.trail), flash.trail,
                      Outcomes(geo, old(View()), Record(deleted, key, data), old(version) + 1))
      ensures old(Durable()) && !Durable() ==> Passed() && Recover(geo, flash.image) == old(View())
      ensures old(Passed()) && active == old(active) ==>
              Passed() && Recover(geo, flash.image) == old(Recover(geo, flash.image))
      ensures old(Passed()) && active == old(active) ==>
                Since(old(flash.trail), flash.trail,
                      Recovering(geo, {old(Recover(geo, flash.image))}, old(StartVersion(geo, flash.image))))
    {
      hide *;
      Sizes();
      var r := Record(deleted, key, data);
      ghost var view := View();
      var found, at, hash, oldSize := Locate(key);
      SinceNothing(flash.trail, Outcomes(geo, view, r, version + 1));
      SinceNothing(flash.trail, Recovering(geo, {Recover(geo, flash.image)}, StartVersion(geo, flash.image)));
      PassedParts();
      if deleted && !found {
        AbsentIsDeleted(view, r);
        return Success;
      }
      var size := geo.SizeFor(|key|, |data|);
      WrittenRoom(geo, view, r, oldSize);
      RecordParts(geo, r);
      if !deleted && consumed - oldSize + size > geo.area {
        return StorageFull;
      }
      if free + size > geo.area {
        PutByCollecting(r, found, at, hash, oldSize);
      } else {
        AppendRecord(r, found, at, hash, oldSize, version + 1);
      }
      return Success;
    }

    // ----- The interface -----

    method Write(key: Bytes, data: Bytes) returns (status: Status)
      requires Valid() && |data| < 0x1_0000_0000 && geo.area + geo.SizeFor(|key|, |data|) < 0x1_0000_0000
      modifies this, port`buffer, flash
      ensures Valid()
      ensures status == if !ValidKey(key) then BadParam
                        else if geo.First() + LiveSize(geo, old(View())[key := data]) > geo.area then StorageFull
                        else Success
      ensures View() == if status.Success? then old(View())[key := data] else old(View())
      ensures !status.Success? ==> unchanged(this) && unchanged(flash)
      ensures Durable() <==> if active == old(active) then old(Durable()) else !WrapAhead(old(active), old(version))
      ensures version == if active == old(active) then old(version) else NextVersion(old(version))
      ensures old(Durable()) ==>
                Since(old(flash.trail), flash.trail,
                      Outcomes(geo, old(View()), Record(false, key, data), old(version) + 1))
      ensures old(Durable()) && !Durable() ==> Passed() && Recover(geo, flash.image) == old(View())
      ensures old(Passed()) && active == old(active) ==>
              Passed() && Recover(geo, flash.image) == old(Recover(geo, flash.image))
      ensures old(Passed()) && active == old(active) ==>
                Since(old(flash.trail), flash.trail,
                      Recovering(geo, {old(Recover(geo, flash.image))}, old(StartVersion(geo, flash.image))))
    {
      hide *;
      if |key| == 0 || |key| >= MAX_KEY_SIZE {
        KeyRule(key);
        SinceNothing(flash.trail, Outcomes(geo, View(), Record(false, key, data), version + 1));
        SinceNothing(flash.trail, Recovering(geo, {Recover(geo, flash.image)}, StartVersion(geo, flash.image)));
        PassedParts();
        return BadParam;
      }
      KeyRule(key);
      RecordParts(geo, Record(false, key, data));
      AddApplied(View(), key, data);
      status := WriteWithFlags(key, data, false);
    }

    method Delete(key: Bytes) returns (status: Status)
      requires Valid() && geo.area + geo.SizeFor(|key|, 0) < 0x1_0000_0000
      modifies this, port`buffer, flash
      ensures Valid() && status.Success? && View() == old(View()) - {key}
      ensures Durable() <==> if active == old(active) then old(Durable()) else !WrapAhead(old(active), old(version))
      ensures version == if active == old(active) then old(version) else NextVersion(old(version))
      ensures old(Durable()) ==>
                Since(old(flash.trail), flash.trail,
                      Recovering(geo, {old(View()), old(View()) - {key}}, old(version) + 1))
      ensures old(Durable()) && !Durable() ==> Passed() && Recover(geo, flash.image) == old(View())
      ensures old(Passed()) && active == old(active) ==>
              Passed() && Recover(geo, flash.image) == old(Recover(geo, flash.image))
      ensures old(Passed()) && active == old(active) ==>
                Since(old(flash.trail), flash.trail,
                      Recovering(geo, {old(Recover(geo, flash.image))}, old(StartVersion(geo, flash.image))))
    {
      hide *;
      ghost var view := View();
      status := WriteWithFlags(key, [], true);
      DeleteApplied(view, key);
      if old(Durable()) {
        DeleteOutcomes(geo, view, key, old(version) + 1, old(flash.trail), flash.trail);
      }
    }

    /** Reads the value of `key` into a buffer of `room` bytes, whose rest is filled with zeros; or,
        without a buffer, only checks it and reports its size. */
    method Read(key: Bytes, room: Option<nat>) returns (status: Status, data: Bytes, size: nat)
      requires Valid()
      modifies port`buffer
      ensures Valid()
      ensures status == if !ValidKey(key) || room == Some(0) then BadParam
                        else if key !in View() then ItemNotFound
                        else if room.Some? && room.value < |View()[key]| then BufferTooSmall
                        else Success
      ensures status.Success? || status.BufferTooSmall? ==> size == |View()[key]|
      ensures status.Success? && room.Some? ==>
                data == View()[key] + seq(room.value - |View()[key]|, _ => 0)
    {
      hide Hash, AlignUp, End, OpenArea, Settled, HasAreaRecord, Indexes, Offsets, Contents, LiveSize, Kept, Blank,
           LogAt, Slot, PairSize,
           Inspect, ReadStatus, DecodeHeader, HeaderOf, ReadsAs;
      data, size := [], 0;
      if |key| == 0 || |key| >= MAX_KEY_SIZE || room == Some(0) {
        return BadParam, data, size;
      }
      var found, at, _, _ := Locate(key);
      if !found {
        return ItemNotFound, data, size;
      }
      OpenAreaParts(geo, flash.image, active, version, log);
      LoadedIsKept(geo, flash.image, active, table, names, log);
      EntryReads(geo, flash.image, active, table, names, View(), at, key, room);
      var header, k;
      status, header, k, data := port.ReadRecord(geo.Base(active) + table[at].offset, Some(key), room);
      if status.BufferTooSmall? {
        size := header.dataSize;
      } else {
        size := SizeRead(geo.Base(active) + table[at].offset, header, k);
        if room.Some? {
          data := data + seq(room.value - size, _ => 0);
        }
      }
    }

    method KeyExists(key: Bytes) returns (status: Status)
      requires Valid()
      modifies port`buffer
      ensures Valid()
      ensures status == if !ValidKey(key) then BadParam else if key in View() then Success else ItemNotFound
    {
      hide *;
      KeyRule(key);
      if |key| == 0 || |key| >= MAX_KEY_SIZE {
        return BadParam;
      }
      var found, _, _, _ := Locate(key);
      return if found then Success else ItemNotFound;
    }

    method ValueSize(key: Bytes) returns (status: Status, size: nat)
      requires Valid()
      modifies port`buffer
      ensures Valid()
      ensures status == if !ValidKey(key) then BadParam else if key in View() then Success else ItemNotFound
      ensures status.Success? ==> size == |View()[key]|
    {
      hide *;
      var data;
      status, data, size := Read(key, None);
    }

    /** Forgets everything: clears the table and collects. */
    method Reset() returns (status: Status)
      requires Valid()
      modifies this, port`buffer, flash
      ensures status.Success? && Valid() && View() == map[] && free == geo.First() && active != old(active)
      ensures Durable() <==> !WrapAhead(old(active), old(version))
      ensures version == NextVersion(old(version))
      ensures old(Durable()) ==>
              Since(old(flash.trail), flash.trail, Recovering(geo, {old(View()), map[]}, old(version) + 1))
      ensures old(Durable()) && !Durable() ==> Passed() && Recover(geo, flash.image) == old(View())
    {
      hide Hash, Raw, AlignUp, PairSize, End, OpenArea, Settled, HasAreaRecord, Indexes, Offsets, Contents, LiveSize,
           Pick, Since,
           Kept, Committed, Collecting, Blank, SameBytes, LogAt, Recovering, Sound, Recover, Passed;
      ghost var before, view, was, wasVersion := flash.image, View(), active, version;
      OpenAreaParts(geo, before, active, version, log);
      if Durable() {
        OpenIsSound(geo, before, active, version, log);
      }
      table := [];
      names := [];
      NothingIsKept(geo, before, active);
      status := Collect(Nothing, map[]);
      consumed := free;
      CommittedIsPicked(geo, before, flash.image, was, wasVersion, log);
      OtherAreaDiffers(was);
      if old(Durable()) && !Durable() {
        WrapLosesCollection(geo, before, flash.image, was, wasVersion, log);
        PickedParts(geo, flash.image, was, wasVersion);
        PassedParts();
      }
      if old(Durable()) {
        CollectRecovers(geo, before, was, wasVersion, log, old(flash.trail), flash.trail);
      }
    }

    /** Makes room for `size` bytes of records, collecting if need be; always collects when asked
        for the largest size. */
    method EnsureCapacity(size: nat) returns (status: Status)
      requires Valid() && size <= ENSURE_MAX
      modifies this, port`buffer, flash
      ensures Valid() && View() == old(View())
      ensures status == if size != ENSURE_MAX
              && geo.First() + LiveSize(geo, View()) + size > geo.area then StorageFull else Success
      ensures status.Success? && size != ENSURE_MAX ==> free + size <= geo.area
      ensures status.StorageFull? || size == ENSURE_MAX ==> free == consumed
      ensures Durable() <==> if active == old(active) then old(Durable()) else !WrapAhead(old(active), old(version))
      ensures version == if active == old(active) then old(version) else NextVersion(old(version))
      ensures old(Durable()) ==> Since(old(flash.trail), flash.trail, Recovering(geo, {View()}, old(version) + 1))
      ensures old(Durable()) && !Durable() ==> Passed() && Recover(geo, flash.image) == old(View())
      ensures old(Passed()) && active == old(active) ==>
              Passed() && Recover(geo, flash.image) == old(Recover(geo, flash.image))
      ensures old(Passed()) && active == old(active) ==>
                Since(old(flash.trail), flash.trail,
                      Recovering(geo, {old(Recover(geo, flash.image))}, old(StartVersion(geo, flash.image))))
    {
      hide *;
      status := Success;
      Sizes();
      MostIsMore(geo, free);
      SinceNothing(flash.trail, Recovering(geo, {View()}, version + 1));
      SinceNothing(flash.trail, Recovering(geo, {Recover(geo, flash.image)}, StartVersion(geo, flash.image)));
      if geo.area - free < size {
        status := Squeeze();
        Sizes();
      }
      if RemainingSize() < size && size != ENSURE_MAX {
        status := StorageFull;
      }
    }

    /** A collection that changes nothing. */
    method Squeeze() returns (status: Status)
      requires Valid()
      modifies this, port`buffer, flash
      ensures status.Success? && Valid() && View() == old(View()) && free == consumed && active != old(active)
      ensures Durable() <==> !WrapAhead(old(active), old(version))
      ensures version == NextVersion(old(version))
      ensures old(Durable()) ==> Since(old(flash.trail), flash.trail, Recovering(geo, {View()}, old(version) + 1))
      ensures old(Durable()) && !Durable() ==> Passed() && Recover(geo, flash.image) == old(View())
    {
      hide Hash, Raw, AlignUp, PairSize, End, OpenArea, Settled, HasAreaRecord, Indexes, Offsets, Contents, LiveSize,
           Pick, Since,
           Collecting, Committed, Blank, SameBytes, LogAt, Recovering, Sound, Recover, Passed;
      ghost var before, view, was, wasVersion := flash.image, View(), active, version;
      if Durable() {
        OpenIsSound(geo, before, active, version, log);
      }
      Sizes();
      status := Rebuild(Nothing);
      OtherAreaDiffers(was);
      if old(Durable()) && !Durable() {
        WrapLosesCollection(geo, before, flash.image, was, wasVersion, log);
        PickedParts(geo, flash.image, was, wasVersion);
        PassedParts();
      }
      if old(Durable()) {
        CollectRecovers(geo, before, was, wasVersion, log, old(flash.trail), flash.trail);
        assert {view, Contents(log)} == {View()};
      }
    }

    function Size(): (size: nat)
      requires Valid()
      reads this, flash, port
      ensures size == geo.First() + LiveSize(geo, View())
    {
      Sizes();
      consumed
    }

    function RemainingSize(): (size: nat)
      requires Valid()
      reads this, flash, port
      ensures size == geo.area - (geo.First() + LiveSize(geo, View()))
    {
      Sizes();
      geo.area - consumed
    }

    // ----- Start-up -----

    /** Replays the record at `offset`, if there is one. */
    method LoadRecord(offset: nat, ghost all: seq<Record>) returns (status: Status, next: nat)
      requires Opened() && Tallied() && Loading(geo, flash.image, active, version, all, log)
      requires offset == End(geo, log) && offset + HEADER_SIZE < geo.area
      modifies this`table, this`consumed, this`names, this`log, port`buffer
      ensures Opened() && Tallied() && Loading(geo, flash.image, active, version, all, log)
      ensures status == if |old(log)| < |all| then Success
                        else if FreeIsBlank(geo, flash.image, active, all) then ErasedData else InvalidData
      ensures status.Success? ==> |log| == |old(log)| + 1 && next == End(geo, log)
      ensures !status.Success? ==> unchanged(this)
    {
      hide Hash, AlignUp, End, Settled, HasAreaRecord, Blank, LogAt, Tallied,
           Inspect, ReadStatus, DecodeHeader, HeaderOf, ReadsAs, Loading, FreeIsBlank, Holds, Raw;
      next := offset;
      LoadingReads(geo, flash.image, active, version, all, log);
      var header, key, data;
      status, header, key, data := port.ReadRecord(geo.Base(active) + offset, None, None);
      if status.Success? {
        ghost var r := all[|log|];
        LoadingNext(geo, flash.image, active, version, all, log);
        ReadBack(flash.image, geo.Base(active) + offset, r, header, key);
        next := offset + geo.SizeFor(header.keySize, header.dataSize);
        LogLonger(geo, log, r);
        LoadEntry(r, key, header.flags & DELETE_FLAG != 0, geo.SizeFor(header.keySize, header.dataSize), offset, all);
      }
    }

    /** Enters a replayed record. The source passes over a tombstone whose key is not in the table;
        no log has one. */
    method LoadEntry(ghost r: Record, key: Bytes, deleted: bool, size: nat, offset: nat, ghost all: seq<Record>)
      requires Opened() && Tallied() && Loading(geo, flash.image, active, version, all, log)
      requires offset == End(geo, log) && key == r.key && deleted == r.deleted && size == geo.RecordSize(r)
      requires deleted ==> key in Contents(log)
      modifies this`table, this`consumed, this`names, this`log, port`buffer
      ensures Opened() && Tallied() && log == old(log) + [r]
    {
      hide Hash, AlignUp, End, Settled, HasAreaRecord, Indexes, Offsets, Contents, LiveSize, Kept, Slot, PairSize,
           Loading, Holds, Raw;
      LoadingKept(geo, flash.image, active, version, all, log, table, names);
      var find, at, hash, oldDataSize := Find(key, Contents(log));
      var found := find.Success?;
      assert deleted ==> found;  // a tombstone always meets its key
      var oldSize := 0;
      if found {
        oldSize := geo.SizeFor(|key|, oldDataSize);
        PairRoom(geo, key, Contents(log), oldDataSize);
      }
      Enter(r, deleted, size, offset, found, at, hash, oldSize);
    }

    /** Start-up over an area whose last record was cut short: the complete ones are collected. */
    method Salvage(ghost all: seq<Record>) returns (status: Status)
      requires Opened() && Tallied() && Loading(geo, flash.image, active, version, all, log) && log == all
      modifies this, port`buffer, flash
      ensures status.Success? && Valid() && View() == Contents(all)
      ensures active == old(active).Other() != old(active) && version == NextVersion(old(version)) && free == consumed
      ensures Committed(geo, old(flash.image), flash.image, old(active), old(version), log)
      ensures Since(old(flash.trail), flash.trail, Collecting(geo, old(flash.image), old(active), old(version), log))
    {
      hide Hash, AlignUp, End, Settled, HasAreaRecord, Indexes, Offsets, Contents, LiveSize, Kept, Blank, LogAt,
           Loading, Committed, Collecting, Since, OpenArea;
      LoadingKept(geo, flash.image, active, version, all, log, table, names);
      OtherAreaDiffers(active);
      status := Collect(Nothing, Contents(log));
    }

    /** Rebuilds the RAM state from the active area, whose records are `all`. A record that was cut
        short ends the log, and makes start-up collect the area. */
    method BuildRamTable(ghost all: seq<Record>) returns (status: Status)
      requires Opened() && AreaHolds(geo, flash.image, active, version, all)
      modifies this, port`buffer, flash
      ensures status.Success? && Valid() && View() == Contents(all)
      ensures FreeIsBlank(geo, old(flash.image), old(active), all) ==>
                unchanged(flash) && active == old(active) && version == old(version) && log == all
      ensures !FreeIsBlank(geo, old(flash.image), old(active), all) ==> (
                && active == old(active).Other() != old(active) && version == NextVersion(old(version))
                    && free == consumed
                && Committed(geo, old(flash.image), flash.image, old(active), old(version), log)
                && Since(old(flash.trail), flash.trail,
                         Collecting(geo, old(flash.image), old(active), old(version), log)))
    {
      hide *;
      table, names, log := [], [], [];
      free := geo.area;
      consumed := geo.First();
      Fresh();
      NothingLoaded(geo, flash.image, active, version, all);
      status := Success;
      var offset := consumed;
      while offset + HEADER_SIZE < free
        invariant Opened() && Tallied() && Loading(geo, flash.image, active, version, all, log)
        invariant offset == End(geo, log) && free == geo.area && status.Success?
        invariant unchanged(flash) && active == old(active) && version == old(version)
        decreases |all| - |log|
      {
        var next;
        LoadingParts(geo, flash.image, active, version, all, log);
        status, next := LoadRecord(offset, all);
        LoadingParts(geo, flash.image, active, version, all, log);
        if status.ErasedData? {
          status := Success;
          break;
        } else if status.InvalidData? {
          status := Salvage(all);
          return;
        }
        offset := next;
      }
      free := offset;
      LoadedAll(geo, flash.image, active, version, all, log);
      Loaded();
    }

    lemma Loaded()
      requires Opened() && Tallied() && OpenArea(geo, flash.image, active, version, log) && free == End(geo, log)
      ensures Valid() && View() == Contents(log)
    {
    }

    lemma Fresh()
      requires geo.page > 0 && table == [] && names == [] && log == [] && consumed == geo.First()
      ensures Tallied() && End(geo, log) == geo.First()
    {
    }

    /** Whether an area opens with a complete area record, and its version. */
    method CheckArea(which: Area) returns (status: Status, version: nat)
      requires Wired() && Settled(geo, flash.image, which)
      modifies port`buffer
      ensures Wired() && (status.Success? || status.ErasedData? || status.InvalidData?)
      ensures AreaVersion(flash.image, geo.Base(which)) == if status.Success? then Some(version) else None
    {
      hide Settled, AreaVersion, ReadStatus, Inspect;
      version := 0;
      AreaReads(geo, flash.image, which);
      var header, key, data;
      status, header, key, data := port.ReadRecord(geo.Base(which), Some(AREA_KEY), Some(4));
      if status.Success? {
        AreaRead(flash.image, geo.Base(which), header, key, data);
        version := Nat16(data[..2]);
      }
    }

    /** Chooses the active area; formats area one if neither has an area record. */
    method SetupAreas() returns (status: Status)
      requires Wired() && Sound(geo, flash.image)
      modifies this`active, this`version, port`buffer, flash
      ensures status.Success? && Opened() && Durable()
      ensures Pick(geo, old(flash.image)) == None ==>
                active == One && version == INITIAL_VERSION && OpenArea(geo, flash.image, One, INITIAL_VERSION, [])
                && Since(old(flash.trail), flash.trail, Recovering(geo, {map[]}, INITIAL_VERSION))
      ensures Pick(geo, old(flash.image)) != None ==> unchanged(flash)
    {
      hide *;
      SoundParts(geo, flash.image);
      PickFrom(geo, flash.image);
      var status1, version1 := CheckArea(One);
      var status2, version2 := CheckArea(Two);
      if status1.Success? && status2.Success? {
        VersionsDiffer(geo, flash.image, version1, version2);
        assert version1 != version2;
        if version1 > version2 || version1 == 0 {
          active, version := One, version1;
        } else {
          active, version := Two, version2;
        }
      } else if status1.Success? {
        active, version := One, version1;
      } else if status2.Success? {
        active, version := Two, version2;
      } else {
        Format();
        active, version := One, INITIAL_VERSION;
        OpenAreaParts(geo, flash.image, One, INITIAL_VERSION, []);
      }
      PickedRecord(geo, flash.image, active, version);
      DurablePick();
      OpenedParts();
      return Success;
    }

    /** Erases area one and writes its first area record. */
    method Format()
      requires Wired() && Settled(geo, flash.image, One) && Settled(geo, flash.image, Two)
               && Pick(geo, flash.image) == None
      modifies port`buffer, flash
      ensures Wired() && OpenArea(geo, flash.image, One, INITIAL_VERSION, [])
      ensures Settled(geo, flash.image, One) && Settled(geo, flash.image, Two)
      ensures Pick(geo, flash.image) == Some((One, INITIAL_VERSION))
      ensures Since(old(flash.trail), flash.trail, Recovering(geo, {map[]}, INITIAL_VERSION))
    {
      hide Settled, AreaVersion, OpenArea, Recovering, Since, HasAreaRecord, RewritingFrom, Blank, Opening, Pick,
           AreaRecord, Raw, AlignUp;
      ghost var before := flash.image;
      ghost var p := Recovering(geo, {map[]}, INITIAL_VERSION);
      AreasApart(geo, One);
      port.EraseArea(One);
      NoVersions(geo, before);
      FreshSteps(geo, before, old(flash.trail), flash.trail);
      ghost var image, sofar := flash.image, flash.trail;
      FreshRewriting(geo, before, image);
      BlankPart(geo, image, geo.Base(One), geo.Base(One) + geo.area, geo.Base(One), geo.Base(One) + geo.First());
      OpeningIsValid(geo, image, One, INITIAL_VERSION);
      OpeningIsPlace(geo, image, One, INITIAL_VERSION);
      port.PutRecord(geo.Base(One), AreaRecord(INITIAL_VERSION));
      FirstOpening(geo, image, flash.image, INITIAL_VERSION);
      FirstSteps(geo, image, sofar, flash.trail);
      SinceThen(old(flash.trail), sofar, flash.trail, p);
    }

    /** Start-up: chooses the active area and rebuilds the RAM state from it. */
    method Init() returns (status: Status)
      requires Wired() && Sound(geo, flash.image)
      modifies this, port`buffer, flash
      ensures status.Success? && Valid() && View() == Recover(geo, old(flash.image))
      ensures match Pick(geo, old(flash.image))
              case None => Durable() && log == []
              case Some((which, v)) =>
                && (Durable() <==> (active == which || !WrapAhead(which, v)))
                && (active == which || (active == which.Other() && version == NextVersion(v)))
                && (OpenArea(geo, old(flash.image), which, v,
                             Replay(geo, old(flash.image), geo.Base(which), geo.First())) ==>
                      && unchanged(flash) && active == which && version == v
                      && log == Replay(geo, old(flash.image), geo.Base(which), geo.First()))
      ensures !Durable() ==> Passed() && Recover(geo, flash.image) == View()
      ensures version <= StartVersion(geo, old(flash.image)) + 1
      ensures Since(old(flash.trail), flash.trail, Recovering(geo, {View()}, StartVersion(geo, old(flash.image)) + 1))
    {
      hide *;
      ghost var before := flash.image;
      ghost var most := StartVersion(geo, before) + 1;
      SinceNothing(flash.trail, Recovering(geo, {Recover(geo, before)}, most));
      status := SetupAreas();
      ghost var image, sofar, which, v := flash.image, flash.trail, active, version;
      ghost var all := Replay(geo, image, geo.Base(active), geo.First());
      OpenedParts();
      DurablePick();
      if Pick(geo, before) == None {
        StartsFirst(geo, before);
        OpenIsSound(geo, image, One, INITIAL_VERSION, []);
        NothingLogged(geo, image, 0);
        EmptyArea(geo, image, all);
        NothingRecovered(geo, before);
        MoreRecovering(geo, {map[]}, INITIAL_VERSION, most, old(flash.trail), sofar);
      }
      PickedParts(geo, image, which, v);
      Chosen(geo, image, which, v);
      status := BuildRamTable(all);
      DurablePick();
      if active != which {
        CommittedIsPicked(geo, image, flash.image, which, v, log);
        ViewIsContents();
        if !Durable() {
          WrapLosesCollection(geo, image, flash.image, which, v, log);
          AreasApart(geo, which);
          PassedParts();
        }
        CollectRecovers(geo, image, which, v, log, sofar, flash.trail);
        assert {Recover(geo, image), Contents(log)} == {View()};
        SinceThen(old(flash.trail), sofar, flash.trail, Recovering(geo, {View()}, most));
      }
    }
  }
}
