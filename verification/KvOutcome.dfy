/** What a power cut during a write or a delete can leave, and the bookkeeping of one append.

    Modelled code: nimble/host/kv_store/mtb_kvstore.c:422-487, 945-1000, 1516-1641. */
module KvOutcome {
  import opened Sequences
  import opened Arith
  import opened LittleEndian
  import opened KvFormat
  import opened KvLog
  import opened KvReplay
  import opened KvLive
  import opened KvImage
  import opened KvIndex
  import opened KvFlash
  import opened KvStream
  import opened KvPort
  import opened KvCommit
  import opened KvGather
  import opened KvCollect

  // ----- Outcomes of a power cut -----

  /** What start-up may recover when adding `r` to `view` was cut: the map from before, the map
      after, or, only if the CRC of the unfinished record fits, the value it then shows. */
  ghost predicate Outcome(geo: Geometry, view: map<Bytes, Bytes>, r: Record, recovered: map<Bytes, Bytes>) {
    recovered == view || recovered == Apply(view, r) || exists m: nat :: MisreadAs(geo, view, r, m, recovered)
  }

  ghost predicate MisreadAs(geo: Geometry, view: map<Bytes, Bytes>, r: Record, m: nat, recovered: map<Bytes, Bytes>) {
    && r.WellFormed() && MIN_BUFFER_SIZE <= m <= r.RawSize() && Collides(geo, r, m)
    && recovered == Apply(view, Misread(geo, r, m))
  }

  /** The CRC tells every unfinished form of `r` from a finished record. */
  ghost predicate CrcDistinguishes(geo: Geometry, r: Record)
    requires r.WellFormed()
  {
    forall m: nat :: MIN_BUFFER_SIZE <= m <= r.RawSize() && Collides(geo, r, m) ==> TornData(geo, r, m) == r.data
  }

  /** With a CRC that tells, only the maps from before and after remain. */
  lemma {:induction false} OldOrNew(geo: Geometry, view: map<Bytes, Bytes>, r: Record, recovered: map<Bytes, Bytes>)
    requires r.WellFormed() && CrcDistinguishes(geo, r) && Outcome(geo, view, r, recovered)
    ensures recovered == view || recovered == Apply(view, r)
  {
    hide Collides, TornData;
  }

  /** A record that fits the smallest buffer, so every tombstone, is never torn. */
  lemma {:induction false} SmallIsNeverTorn(geo: Geometry, r: Record)
    requires r.WellFormed() && r.RawSize() < MIN_BUFFER_SIZE
    ensures CrcDistinguishes(geo, r)
  {
    hide Collides, TornData;
  }

  lemma {:induction false} TombstoneIsNeverTorn(geo: Geometry, r: Record)
    requires r.WellFormed() && r.data == []
    ensures CrcDistinguishes(geo, r)
  {
    SmallIsNeverTorn(geo, r);
  }

  /** Images start-up accepts, going on from a version of at most `most`, and from which it recovers
      a map that `r` on `view` may leave. */
  ghost function Outcomes(geo: Geometry, view: map<Bytes, Bytes>, r: Record, most: nat): Bytes -> bool
    requires geo.page > 0
  {
    img => Sound(geo, img) && StartVersion(geo, img) <= most && Outcome(geo, view, r, Recover(geo, img))
  }

  /** Images from which start-up recovers one of these maps, going on from a version of at most
      `most`. */
  ghost function Recovering(geo: Geometry, views: set<map<Bytes, Bytes>>, most: nat): Bytes -> bool
    requires geo.page > 0
  {
    img => Sound(geo, img) && StartVersion(geo, img) <= most && Recover(geo, img) in views
  }

  lemma {:induction false} OpenIsSound(geo: Geometry, image: Bytes, which: Area, version: nat, log: seq<Record>)
    requires geo.Valid() && OpenArea(geo, image, which, version, log)
    requires Settled(geo, image, One) && Settled(geo, image, Two) && Pick(geo, image) == Some((which, version))
    ensures Sound(geo, image) && Recover(geo, image) == Contents(log)
  {
    hide *;
    OpenAreaHolds(geo, image, which, version, log);
    SoundImage(geo, image, which, version, log);
  }

  lemma {:induction false} AppendOutcome(geo: Geometry, before: Bytes, image: Bytes, which: Area, version: nat,
                                         log: seq<Record>, r: Record)
    requires geo.Valid() && OpenArea(geo, before, which, version, log)
    requires Settled(geo, before, One) && Settled(geo, before, Two) && Pick(geo, before) == Some((which, version))
    requires r.deleted ==> r.key in Contents(log)
    requires r.WellFormed() && End(geo, log) + geo.RecordSize(r) <= geo.area
    requires Append(geo, before, which, log, r).Valid() && Append(geo, before, which, log, r).Partly()(image)
    ensures Outcomes(geo, Contents(log), r, version)(image)
  {
    var job := Append(geo, before, which, log, r);
    AppendParts(geo, before, which, log, r);
    assert |job.full| == r.RawSize() by { hide Raw, End; }
    hide Append, OpenArea, Settled, Contents, Sound, Recover, Collides, Misread, End, AlignUp, job.Written, job.Upto,
         Blank, AreaVersion;
    if job.Written(image) {
      AppendDone(geo, before, image, which, version, log, r);
      OpenIsSound(geo, image, which, version, log + [r]);
      OffsetsAfter(geo, log, r);
    } else {
      var m: nat :| MIN_BUFFER_SIZE <= m <= |job.full| && image == job.Upto(m);
      AppendCut(geo, before, image, which, version, log, r, m);
      if Collides(geo, r, m) {
        assert MisreadAs(geo, Contents(log), r, m, Recover(geo, image));
      }
    }
  }

  lemma {:induction false} AppendOutcomes(geo: Geometry, before: Bytes, which: Area, version: nat, log: seq<Record>,
                                          r: Record,
                                          most: nat, a: seq<Bytes>, b: seq<Bytes>)
    requires geo.Valid() && version <= most && OpenArea(geo, before, which, version, log)
    requires Settled(geo, before, One) && Settled(geo, before, Two) && Pick(geo, before) == Some((which, version))
    requires r.deleted ==> r.key in Contents(log)
    requires r.WellFormed() && End(geo, log) + geo.RecordSize(r) <= geo.area
    requires Append(geo, before, which, log, r).Valid() && Since(a, b, Append(geo, before, which, log, r).Partly())
    ensures Since(a, b, Outcomes(geo, Contents(log), r, most))
  {
    hide *;
    var p, q := Append(geo, before, which, log, r).Partly(), Outcomes(geo, Contents(log), r, most);
    forall img | p(img)
      ensures q(img)
    {
      AppendOutcome(geo, before, img, which, version, log, r);
      MoreOutcomes(geo, Contents(log), r, version, most, img);
    }
    SinceImplies(a, b, p, q);
  }

  lemma {:induction false} MoreOutcomes(geo: Geometry, view: map<Bytes, Bytes>, r: Record, few: nat, most: nat,
                                        img: Bytes)
    requires geo.page > 0 && few <= most && Outcomes(geo, view, r, few)(img)
    ensures Outcomes(geo, view, r, most)(img)
  {
    hide Sound, Outcome, StartVersion, Recover;
  }

  /** A record appended to an area that start-up would not choose changes nothing of what start-up
      recovers. */
  lemma {:induction false} PassedOver(geo: Geometry, before: Bytes, image: Bytes, which: Area, log: seq<Record>,
                                      r: Record)
    requires geo.Valid() && Sound(geo, before) && Pick(geo, before).Some? && Pick(geo, before).value.0 == which.Other()
    requires |before| == 2 * geo.area && r.WellFormed() && End(geo, log) + geo.RecordSize(r) <= geo.area
    requires Append(geo, before, which, log, r).Valid() && Append(geo, before, which, log, r).Partly()(image)
    ensures Sound(geo, image) && Pick(geo, image) == Pick(geo, before) && Recover(geo, image) == Recover(geo, before)
  {
    hide *;
    var job, base, at, size := Append(geo, before, which, log, r), geo.Base(which), End(geo, log), geo.RecordSize(r);
    AppendParts(geo, before, which, log, r);
    WrittenWithin(job, image);
    WithinParts(before, image, base + at, base + at + size);
    EndIsAligned(geo, log);
    WithinSpans(before, image, base + at, base + at + size);
    OverlayTouchesEnd(geo, before, image, which, at, size);
    TouchedIsRewriting(geo, before, image, which, at);
    RewritingKeepsMap(geo, before, image, which.Other(), Pick(geo, before).value.1);
  }

  lemma {:induction false} WrittenIsPartly(job: Job, image: Bytes)
    requires job.Written(image)
    ensures job.Partly()(image)
  {
    hide job.Written;
    WrittenJob(job, image);
  }

  lemma {:induction false} WithinSpans(start: Bytes, img: Bytes, lo: nat, hi: nat)
    requires Within(start, lo, hi)(img)
    ensures |img| == |start|
  {
  }

  lemma {:induction false} TouchedIsRewriting(geo: Geometry, before: Bytes, image: Bytes, which: Area, at: nat)
    requires geo.Valid() && EndTouched(geo, before, image, which, at)
    ensures Rewriting(geo, before, image, which.Other().Other())
  {
    hide SameBytes;
    var base := geo.Base(which);
    SameInside(before, image, base, base + at, base, base + AREA_RAW_SIZE);
  }

  lemma {:induction false} PassedOvers(geo: Geometry, before: Bytes, which: Area, log: seq<Record>, r: Record,
                                       a: seq<Bytes>, b: seq<Bytes>)
    requires geo.Valid() && Sound(geo, before) && Pick(geo, before).Some? && Pick(geo, before).value.0 == which.Other()
    requires |before| == 2 * geo.area && r.WellFormed() && End(geo, log) + geo.RecordSize(r) <= geo.area
    requires Append(geo, before, which, log, r).Valid() && Since(a, b, Append(geo, before, which, log, r).Partly())
    ensures Since(a, b, Recovering(geo, {Recover(geo, before)}, StartVersion(geo, before)))
  {
    hide *;
    var p, q := Append(geo, before, which, log, r).Partly(),
        Recovering(geo, {Recover(geo, before)}, StartVersion(geo, before));
    forall img | p(img)
      ensures q(img)
    {
      PassedOver(geo, before, img, which, log, r);
      SameStart(geo, before, img);
      RecoveringParts(geo, {Recover(geo, before)}, StartVersion(geo, before), img);
    }
    SinceImplies(a, b, p, q);
  }

  lemma {:induction false} SameStart(geo: Geometry, before: Bytes, image: Bytes)
    requires Pick(geo, image) == Pick(geo, before)
    ensures StartVersion(geo, image) == StartVersion(geo, before)
  {
    hide Pick;
  }

  /** What recovers the map from before is an outcome. */
  lemma {:induction false} UnchangedIsOutcome(geo: Geometry, view: map<Bytes, Bytes>, r: Record, few: nat, most: nat,
                                              a: seq<Bytes>, b: seq<Bytes>)
    requires geo.page > 0 && few <= most && Since(a, b, Recovering(geo, {view}, few))
    ensures Since(a, b, Outcomes(geo, view, r, most))
  {
    hide *;
    var p, q := Recovering(geo, {view}, few), Outcomes(geo, view, r, most);
    forall img | p(img)
      ensures q(img)
    {
      UnchangedOutcome(geo, view, r, few, most, img);
    }
    SinceImplies(a, b, p, q);
  }

  lemma {:induction false} UnchangedOutcome(geo: Geometry, view: map<Bytes, Bytes>, r: Record, few: nat, most: nat,
                                            img: Bytes)
    requires geo.page > 0 && few <= most && Recovering(geo, {view}, few)(img)
    ensures Outcomes(geo, view, r, most)(img)
  {
    hide Sound, StartVersion, Recover, MisreadAs, Apply;
  }

  lemma {:induction false} CollectOutcome(geo: Geometry, before: Bytes, image: Bytes, active: Area, version: nat,
                                          log: seq<Record>, newLog: seq<Record>, r: Record)
    requires geo.Valid() && OpenArea(geo, before, active, version, log)
    requires Settled(geo, before, One) && Settled(geo, before, Two) && Pick(geo, before) == Some((active, version))
    requires Contents(newLog) == Contents(log) || Contents(newLog) == Apply(Contents(log), r)
    requires Collecting(geo, before, active, version, newLog)(image)
    ensures Outcomes(geo, Contents(log), r, version + 1)(image)
  {
    hide OpenArea, Settled, Pick, Contents, Sound, Recover, Collecting, Apply, AreaVersion;
    OpenIsSound(geo, before, active, version, log);
    CollectingIsAtomic(geo, before, image, active, version, newLog);
  }

  lemma {:induction false} CollectOutcomes(geo: Geometry, before: Bytes, active: Area, version: nat,
                                           log: seq<Record>, newLog: seq<Record>, r: Record, a: seq<Bytes>,
                                               b: seq<Bytes>)
    requires geo.Valid() && OpenArea(geo, before, active, version, log)
    requires Settled(geo, before, One) && Settled(geo, before, Two) && Pick(geo, before) == Some((active, version))
    requires Contents(newLog) == Contents(log) || Contents(newLog) == Apply(Contents(log), r)
    requires Since(a, b, Collecting(geo, before, active, version, newLog))
    ensures Since(a, b, Outcomes(geo, Contents(log), r, version + 1))
  {
    hide *;
    var p, q := Collecting(geo, before, active, version, newLog), Outcomes(geo, Contents(log), r, version + 1);
    forall img | p(img)
      ensures q(img)
    {
      CollectOutcome(geo, before, img, active, version, log, newLog, r);
    }
    SinceImplies(a, b, p, q);
  }

  /** A collection cut anywhere leaves the map from before or the one it was to leave. */
  lemma {:induction false} CollectRecovers(geo: Geometry, before: Bytes, active: Area, version: nat,
                                           newLog: seq<Record>,
                                           a: seq<Bytes>, b: seq<Bytes>)
    requires geo.Valid() && Sound(geo, before)
    requires Pick(geo, before) == Some((active, version))
    requires Since(a, b, Collecting(geo, before, active, version, newLog))
    ensures Since(a, b, Recovering(geo, {Recover(geo, before), Contents(newLog)}, version + 1))
  {
    hide *;
    var p, q := Collecting(geo, before, active, version, newLog),
        Recovering(geo, {Recover(geo, before), Contents(newLog)}, version + 1);
    forall img | p(img)
      ensures q(img)
    {
      CollectingIsAtomic(geo, before, img, active, version, newLog);
      RecoveringParts(geo, {Recover(geo, before), Contents(newLog)}, version + 1, img);
    }
    SinceImplies(a, b, p, q);
  }

  lemma {:induction false} RecoveringParts(geo: Geometry, views: set<map<Bytes, Bytes>>, most: nat, img: Bytes)
    requires geo.page > 0
    ensures Recovering(geo, views, most)(img) <==>
            Sound(geo, img) && StartVersion(geo, img) <= most && Recover(geo, img) in views
  {
    hide Sound, Recover, StartVersion;
  }

  lemma {:induction false} MoreRecovering(geo: Geometry, views: set<map<Bytes, Bytes>>, few: nat, most: nat,
                                          a: seq<Bytes>, b: seq<Bytes>)
    requires geo.page > 0 && few <= most && Since(a, b, Recovering(geo, views, few))
    ensures Since(a, b, Recovering(geo, views, most))
  {
    hide Sound, StartVersion, Recover;
  }

  // ----- Bookkeeping -----

  /** The room the live pairs take, before and after `r`. */
  lemma {:induction false} ApplySize(geo: Geometry, view: map<Bytes, Bytes>, r: Record)
    requires geo.page > 0
    ensures var old_ := if r.key in view then PairSize(geo, r.key, view[r.key]) else 0;
            var new_ := if r.deleted then 0 else PairSize(geo, r.key, r.data);
            LiveSize(geo, Apply(view, r)) + old_ == LiveSize(geo, view) + new_
  {
    hide PairSize;
    if r.key in view {
      LiveSizeWithout(geo, view, r.key);
    } else {
      NothingToRemove(view, r.key);
    }
    if !r.deleted {
      LiveSizeWith(geo, view, r.key, r.data);
    }
  }

  lemma {:induction false} SizesAfter(geo: Geometry, log: seq<Record>, r: Record, oldSize: nat)
    requires geo.page > 0
    requires oldSize == if r.key in Contents(log) then PairSize(geo, r.key, Contents(log)[r.key]) else 0
    ensures End(geo, log + [r]) == End(geo, log) + geo.RecordSize(r)
    ensures LiveSize(geo, Contents(log + [r])) == LiveSize(geo,
                                                           Contents(log)) - oldSize + (if r.deleted then 0
                                                               else geo.RecordSize(r))
  {
    hide AlignUp, Contents, LiveSize, Apply, End;
    OffsetsAfter(geo, log, r);
    LogLonger(geo, log, r);
    ApplySize(geo, Contents(log), r);
    assert r.deleted || r == Record(false, r.key, r.data);
  }

  /** The table after one append, and the names it then lists. */
  function TableAfter(table: seq<Entry>, found: bool, deleted: bool, at: nat, entry: Entry): (t: seq<Entry>)
    requires if found then at < |table| else at <= |table|
    requires deleted ==> found
  {
    if deleted then Removed(table, at) else if found then table[at := entry] else Inserted(table, at, entry)
  }

  function NamesAfter(names: seq<Bytes>, found: bool, deleted: bool, at: nat, key: Bytes): (n: seq<Bytes>)
    requires if found then at < |names| else at <= |names|
    requires deleted ==> found
  {
    if deleted then Removed(names, at) else if found then names else Inserted(names, at, key)
  }

  /** Where the lookup for `key` stopped. */
  ghost predicate FoundAt(table: seq<Entry>, names: seq<Bytes>, view: map<Bytes, Bytes>, key: Bytes, found: bool,
                          at: nat)
    ensures FoundAt(table, names, view, key, found, at) ==>
            ((found <==> key in view) && if found then at < |names| && names[at] == key else at <= |table|)
  {
    && (found <==> key in view)
    && (if found then at < |names| && names[at] == key else Slot(table, Hash(key), at))
  }

  /** The updated table indexes the log with the new record at its end. */
  lemma {:induction false} IndexesAfter(geo: Geometry, table: seq<Entry>, names: seq<Bytes>, log: seq<Record>,
                                        r: Record,
                                        found: bool, at: nat)
    requires geo.page > 0 && Indexes(table, names, Offsets(geo, log)) && |table| == |names|
    requires FoundAt(table, names, Contents(log), r.key, found, at) && (r.deleted ==> found)
    ensures Indexes(TableAfter(table, found, r.deleted, at, Entry(Hash(r.key), End(geo, log))),
                    NamesAfter(names, found, r.deleted, at, r.key), Offsets(geo, log + [r]))
  {
    hide Hash, Offsets, Contents, End, Indexes, Removed, Inserted;
    OffsetsAfter(geo, log, r);
    SameKeys(geo, log);
    if r.deleted {
      RemoveIndexes(table, names, Offsets(geo, log), at);
    } else if found {
      UpdateIndexes(table, names, Offsets(geo, log), at, End(geo, log));
    } else {
      AddIndexes(table, names, Offsets(geo, log), r.key, at, End(geo, log));
    }
  }

  lemma {:induction false} IndexesLengths(table: seq<Entry>, names: seq<Bytes>, places: map<Bytes, nat>)
    requires Indexes(table, names, places)
    ensures |table| == |names| && forall i :: 0 <= i < |names| ==> table[i].hash == Hash(names[i])
  {
    hide Hash;
  }

  /** A plain collection keeps the order of the table, so a slot found before is one after. */
  lemma {:induction false} SlotAfterCollect(table: seq<Entry>, newTable: seq<Entry>, names: seq<Bytes>,
                                            places: map<Bytes, nat>, newPlaces: map<Bytes, nat>, hash: nat, at: nat)
    requires Indexes(table, names, places) && Indexes(newTable, names, newPlaces) && Slot(table, hash, at)
    ensures Slot(newTable, hash, at)
  {
    hide Hash, Indexes;
    IndexesLengths(table, names, places);
    IndexesLengths(newTable, names, newPlaces);
  }

  lemma {:induction false} OtherAreaDiffers(which: Area)
    ensures which.Other() != which
  {
  }

  /** The room left by a collection that changes one pair on the way. */
  lemma {:induction false} VouchedSize(geo: Geometry, change: Change, keep: map<Bytes, Bytes>, names: seq<Bytes>)
    requires geo.page > 0 && (!change.Nothing? ==> change.index < |names| && names[change.index] in keep)
    requires change.Replace? ==> names[change.index] == change.key
    ensures LiveSize(geo,
                     change.Result(keep, names)) + (if change.Nothing? then 0
                         else PairSize(geo, names[change.index], keep[names[change.index]]))
            == LiveSize(geo, keep) + (if change.Replace? then PairSize(geo, change.key, change.data) else 0)
  {
    hide LiveSize, PairSize;
    if !change.Nothing? {
      LiveSizeWithout(geo, keep, names[change.index]);
      if change.Replace? {
        LiveSizeWith(geo, keep, change.key, change.data);
      }
    }
  }

  lemma {:induction false} AbsentIsDeleted(view: map<Bytes, Bytes>, r: Record)
    requires r.deleted && r.key !in view
    ensures Apply(view, r) == view
  {
  }

  /** The change that stands for `r` is one a collection accepts, and leaves the map `r` leaves. */
  lemma {:induction false} MayChange(geo: Geometry, names: seq<Bytes>, consumed: nat, table: seq<Entry>,
                                     log: seq<Record>,
                                     r: Record, found: bool, at: nat, change: Change)
    requires geo.page > 0 && r.WellFormed() && (r.deleted ==> found)
             && FoundAt(table, names, Contents(log), r.key, found, at)
    requires consumed == geo.First() + LiveSize(geo, Contents(log)) <= geo.area
    requires found ==> var oldSize := PairSize(geo, r.key, Contents(log)[r.key]);
                       change == if r.deleted then Drop(at, oldSize)
                                 else Replace(at, oldSize, geo.RecordSize(r), r.key, r.data, Hash(r.key))
    requires !found ==> change == Nothing
    ensures Vouched(geo, names, consumed, change, Contents(log))
    ensures change.Result(Contents(log), names) == if found then Apply(Contents(log), r) else Contents(log)
  {
    hide Hash, AlignUp, Contents, LiveSize, FoundAt;
    if found {
      LiveSizeWithout(geo, Contents(log), r.key);
    }
  }

  lemma {:induction false} StillFoundAt(geo: Geometry, table: seq<Entry>, newTable: seq<Entry>, names: seq<Bytes>,
                                        log: seq<Record>, newLog: seq<Record>, key: Bytes, at: nat)
    requires geo.page > 0 && Indexes(table, names, Offsets(geo, log)) && Indexes(newTable, names, Offsets(geo, newLog))
    requires FoundAt(table, names, Contents(log), key, false, at) && Contents(newLog) == Contents(log)
    ensures FoundAt(newTable, names, Contents(newLog), key, false, at)
  {
    hide Hash, Indexes, Offsets, Contents, Slot;
    SlotAfterCollect(table, newTable, names, Offsets(geo, log), Offsets(geo, newLog), Hash(key), at);
  }

  lemma {:induction false} WrittenRoom(geo: Geometry, view: map<Bytes, Bytes>, r: Record, oldSize: nat)
    requires geo.page > 0 && oldSize == if r.key in view then PairSize(geo, r.key, view[r.key]) else 0
    ensures !r.deleted ==> Apply(view, r) == view[r.key := r.data]
    ensures LiveSize(geo, Apply(view, r)) == LiveSize(geo,
                                                      view) - oldSize + (if r.deleted then 0 else geo.RecordSize(r))
  {
    ApplySize(geo, view, r);
    hide LiveSize, AlignUp;
  }

  lemma {:induction false} PairRoom(geo: Geometry, key: Bytes, view: map<Bytes, Bytes>, dataSize: nat)
    requires geo.page > 0 && key in view && dataSize == |view[key]|
    ensures geo.SizeFor(|key|, dataSize) == PairSize(geo, key, view[key])
  {
  }

  lemma {:induction false} StoredKeyIsValid(geo: Geometry, image: Bytes, active: Area, table: seq<Entry>,
                                            names: seq<Bytes>,
                                            keep: map<Bytes, Bytes>, at: nat)
    requires geo.page > 0 && Kept(geo, image, active, table, names, keep) && at < |names|
    ensures 0 < |names[at]| < MAX_KEY_SIZE
  {
    hide *;
    KeptEntry(geo, image, active, table, names, keep, at);
    PointsAtParts(geo, image, active, table[at], names[at], keep[names[at]]);
    KeyOfWellFormed(Record(false, names[at], keep[names[at]]));
  }

  lemma {:induction false} KeyOfWellFormed(r: Record)
    requires r.WellFormed()
    ensures 0 < |r.key| < MAX_KEY_SIZE
  {
  }

  lemma {:induction false} RecordParts(geo: Geometry, r: Record)
    requires geo.page > 0
    ensures geo.RecordSize(r) == geo.SizeFor(|r.key|, |r.data|)
    ensures r.WellFormed() <==> 0 < |r.key| < MAX_KEY_SIZE && |r.data| < 0x1_0000_0000
  {
    hide AlignUp;
  }

  predicate ValidKey(key: Bytes) {
    0 < |key| < MAX_KEY_SIZE
  }

  /** Nothing is left to collect. */
  lemma {:induction false} NothingIsKept(geo: Geometry, image: Bytes, active: Area)
    requires geo.page > 0
    ensures Kept(geo, image, active, [], [], map[]) && LiveSize(geo, map[]) == 0
  {
  }

  lemma {:induction false} KeyRule(key: Bytes)
    ensures ValidKey(key) <==> 0 < |key| < MAX_KEY_SIZE
    ensures ValidKey(key) <==> 0 < |key| < 64
  {
  }

  lemma {:induction false} AddApplied(view: map<Bytes, Bytes>, key: Bytes, data: Bytes)
    ensures Apply(view, Record(false, key, data)) == view[key := data]
  {
  }

  lemma {:induction false} DeleteApplied(view: map<Bytes, Bytes>, key: Bytes)
    ensures Apply(view, Record(true, key, [])) == view - {key}
  {
  }

  /** A deletion is never half done. */
  lemma {:induction false} DeleteOutcomes(geo: Geometry, view: map<Bytes, Bytes>, key: Bytes, most: nat, a: seq<Bytes>,
                                          b: seq<Bytes>)
    requires geo.page > 0 && Since(a, b, Outcomes(geo, view, Record(true, key, []), most))
    ensures Since(a, b, Recovering(geo, {view, view - {key}}, most))
  {
    hide *;
    var p, q := Outcomes(geo, view, Record(true, key, []), most), Recovering(geo, {view, view - {key}}, most);
    forall img | p(img)
      ensures q(img)
    {
      DeleteOutcome(geo, view, key, most, img);
    }
    SinceImplies(a, b, p, q);
  }

  lemma {:induction false} DeleteOutcome(geo: Geometry, view: map<Bytes, Bytes>, key: Bytes, most: nat, img: Bytes)
    requires geo.page > 0 && Outcomes(geo, view, Record(true, key, []), most)(img)
    ensures Recovering(geo, {view, view - {key}}, most)(img)
  {
    hide Sound, Recover, StartVersion, Collides, Misread;
  }

  const ENSURE_MAX: nat := 0xFFFF_FFFF

  lemma {:induction false} MostIsMore(geo: Geometry, free: nat)
    requires geo.Valid() && geo.First() <= free
    ensures geo.area - free < ENSURE_MAX
  {
    hide AlignUp;
  }
}
