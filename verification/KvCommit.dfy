/** What a power cut leaves behind: during a collection, and during the append of one record.

    Modelled code: nimble/host/kv_store/mtb_kvstore.c:493-514, 945-1000, 1173-1277, 1309-1336,
    1416-1510. */
module KvCommit {
  import opened Sequences
  import opened Arith
  import opened LittleEndian
  import opened KvFormat
  import opened KvLog
  import opened KvReplay
  import opened KvLive
  import opened KvImage
  import opened KvFlash
  import opened KvStream
  import opened KvPort

  // ----- Collections -----

  /** The new area is complete and the old one still is what it was. */
  ghost predicate Committed(geo: Geometry, before: Bytes, image: Bytes, active: Area, version: nat, log: seq<Record>)
    requires geo.page > 0
  {
    && SameBytes(before, image, geo.Base(active), geo.Base(active) + geo.area)
    && AreaHolds(geo, image, active.Other(), NextVersion(version), log)
  }

  /** The images of a collection that ends with `log` in the new area. */
  ghost function Collecting(geo: Geometry, before: Bytes, active: Area, version: nat, log: seq<Record>): Bytes -> bool
    requires geo.page > 0
  {
    img => RewritingFrom(geo, before, active.Other())(img) || Committed(geo, before, img, active, version, log)
  }

  /** The new area becomes current, except at the version wrap, where the old one stays. */
  lemma {:induction false} CommittedIsPicked(geo: Geometry, before: Bytes, image: Bytes, active: Area, version: nat,
                                             log: seq<Record>)
    requires geo.Valid() && HasAreaRecord(before, geo.Base(active), version) && Settled(geo, before, active)
    requires Committed(geo, before, image, active, version, log)
    ensures Settled(geo, image, One) && Settled(geo, image, Two)
    ensures Pick(geo, image) == if WrapAhead(active, version) then Some((active, version))
                                else Some((active.Other(), NextVersion(version)))
    ensures !WrapAhead(active, version) ==> Sound(geo, image) && Recover(geo, image) == Contents(log)
  {
    hide HasAreaRecord, AreaVersion, LogAt, FreeEnd, SameBytes, Replay, Contents, Recover, Sound, Alternates;
    var base := geo.Base(active);
    SameInside(before, image, base, base + geo.area, base, base + AREA_RAW_SIZE);
    AreaVersionWritten(before, base, version);
    SettledVersion(geo, before, active, version);
    NextAlternates(active, version);
    AreaRecordAlso(before, image, base, version);
    AreaVersionWritten(image, base, version);
    AreaVersionWritten(image, geo.Base(active.Other()), NextVersion(version));
    NewAreaIsPicked(geo, image, active, version);
    assert OpensWith(geo, image, active, version) && OpensWith(geo, image, active.Other(), NextVersion(version));
    if !WrapAhead(active, version) {
      SoundImage(geo, image, active.Other(), NextVersion(version), log);
    }
  }

  /** At the version wrap a finished collection is lost: start-up still recovers the old map. */
  lemma {:induction false} WrapLosesCollection(geo: Geometry, before: Bytes, image: Bytes, active: Area, version: nat,
                                               log: seq<Record>)
    requires geo.Valid() && Sound(geo, before) && Pick(geo, before) == Some((active, version))
    requires WrapAhead(active, version) && Committed(geo, before, image, active, version, log)
    ensures Sound(geo, image) && Pick(geo, image) == Pick(geo, before) && Recover(geo, image) == Recover(geo, before)
  {
    hide Settled, AreaVersion, Replay, Contents, HasAreaRecord, LogAt, FreeEnd, SameBytes;
    var old_ := Replay(geo, before, geo.Base(active), geo.First());
    assert HasAreaRecord(before, geo.Base(active), version);
    CommittedIsPicked(geo, before, image, active, version, log);
    AreaAlso(geo, before, image, active, version, old_);
    SoundImage(geo, image, active, version, old_);
  }

  lemma {:induction false} CollectingParts(geo: Geometry, before: Bytes, image: Bytes, active: Area, version: nat,
                                           log: seq<Record>)
    requires geo.page > 0
    ensures Collecting(geo, before, active, version, log)(image) <==>
            RewritingFrom(geo, before, active.Other())(image) || Committed(geo, before, image, active, version, log)
    ensures RewritingFrom(geo, before, active.Other())(image) ==> Rewriting(geo, before, image, active.Other())
  {
    hide Rewriting, Committed;
  }

  lemma {:induction false} PickedParts(geo: Geometry, image: Bytes, which: Area, version: nat)
    requires geo.page > 0 && Pick(geo, image) == Some((which, version))
    ensures StartVersion(geo, image) == version && NextVersion(version) <= version + 1
    ensures Sound(geo, image) ==> Settled(geo, image, which) && HasAreaRecord(image, geo.Base(which), version)
  {
    hide Pick, Settled, HasAreaRecord, Replay, LogAt, FreeEnd;
  }

  /** A collection may be cut anywhere, also one that wraps the version: start-up recovers the map
      from before or the one it was to leave. */
  lemma {:induction false} CollectingIsAtomic(geo: Geometry, before: Bytes, image: Bytes, active: Area, version: nat,
                                              log: seq<Record>)
    requires geo.Valid() && Sound(geo, before) && Pick(geo, before) == Some((active, version))
    requires Collecting(geo, before, active, version, log)(image)
    ensures Sound(geo, image) && Recover(geo, image) in {Recover(geo, before), Contents(log)}
    ensures WrapAhead(active, version) ==> Recover(geo, image) == Recover(geo, before)
    ensures Pick(geo, image).Some? && StartVersion(geo, image) <= version + 1
  {
    hide *;
    CollectingParts(geo, before, image, active, version, log);
    PickedParts(geo, before, active, version);
    if RewritingFrom(geo, before, active.Other())(image) {
      RewritingKeepsMap(geo, before, image, active, version);
      PickedParts(geo, image, active, version);
    } else if WrapAhead(active, version) {
      WrapLosesCollection(geo, before, image, active, version, log);
      PickedParts(geo, image, active, version);
    } else {
      CommittedIsPicked(geo, before, image, active, version, log);
      PickedParts(geo, image, active.Other(), NextVersion(version));
    }
  }

  // ----- Appends -----

  /** Area `which` is complete, and its free end is still erased. */
  ghost predicate OpenArea(geo: Geometry, image: Bytes, which: Area, version: nat, log: seq<Record>)
    requires geo.page > 0
  {
    && |image| == 2 * geo.area
    && HasAreaRecord(image, geo.Base(which), version)
    && LogAt(geo, image, geo.Base(which), log) && End(geo, log) <= geo.area
    && Blank(geo, image, geo.Base(which) + End(geo, log), geo.Base(which) + geo.area) && Tidy(log)
  }

  lemma {:induction false} OpenAreaParts(geo: Geometry, image: Bytes, which: Area, version: nat, log: seq<Record>)
    requires geo.page > 0
    ensures OpenArea(geo, image, which, version, log) <==>
            (&& |image| == 2 * geo.area && HasAreaRecord(image, geo.Base(which), version)
             && LogAt(geo, image, geo.Base(which), log) && End(geo, log) <= geo.area
             && Blank(geo, image, geo.Base(which) + End(geo, log), geo.Base(which) + geo.area) && Tidy(log))
  {
    hide HasAreaRecord, LogAt, End, Blank, Tidy;
  }

  lemma {:induction false} OpenAreaHolds(geo: Geometry, image: Bytes, which: Area, version: nat, log: seq<Record>)
    requires geo.page > 0 && OpenArea(geo, image, which, version, log)
    ensures AreaHolds(geo, image, which, version, log)
  {
    hide HasAreaRecord, LogAt, Blank, TornAt, Collides, Tidy;
  }

  /** Appending `r` to an open area, as a job for the writer. */
  function Append(geo: Geometry, image: Bytes, which: Area, log: seq<Record>, r: Record): Job
    requires geo.page > 0 && r.WellFormed()
  {
    Place(geo, image, geo.Base(which) + End(geo, log), r)
  }

  lemma {:induction false} AppendParts(geo: Geometry, image: Bytes, which: Area, log: seq<Record>, r: Record)
    requires geo.page > 0 && r.WellFormed()
    ensures var job := Append(geo, image, which, log, r);
            && job == Place(geo, image, geo.Base(which) + End(geo, log), r)
            && job.geo == geo && job.start == image && job.addr == geo.Base(which) + End(geo, log)
            && job.full != [] && AlignUp(|job.full|, geo.page) == geo.RecordSize(r)
  {
    hide Raw, AlignUp, End;
  }

  lemma {:induction false} AppendIsValid(geo: Geometry, image: Bytes, which: Area, log: seq<Record>, r: Record)
    requires geo.Valid() && |image| == 2 * geo.area
    requires Blank(geo, image, geo.Base(which) + End(geo, log), geo.Base(which) + geo.area)
    requires r.WellFormed() && End(geo, log) + geo.RecordSize(r) <= geo.area
    ensures Append(geo, image, which, log, r).Valid()
  {
    hide Raw, AlignUp, SameBytes, Overlay, End;
    EndIsAligned(geo, log);
    SectorAligned(geo, which);
    SumOfMultiples(geo.Base(which), End(geo, log), geo.page);
  }

  /** An image that differs from `before` only in the free end of the area. */
  ghost predicate EndTouched(geo: Geometry, before: Bytes, image: Bytes, which: Area, at: nat)
    requires geo.page > 0
  {
    var base, other := geo.Base(which), geo.Base(which.Other());
    && |image| == |before| == 2 * geo.area && geo.First() <= at <= geo.area
    && SameBytes(before, image, base, base + at)
    && SameBytes(before, image, other, other + geo.area)
  }

  lemma {:induction false} EndTouchedKeeps(geo: Geometry, before: Bytes, image: Bytes, which: Area, version: nat,
                                           log: seq<Record>)
    requires geo.Valid() && EndTouched(geo, before, image, which, End(geo, log))
    requires Settled(geo, before, One) && Settled(geo, before, Two)
    requires HasAreaRecord(before, geo.Base(which), version) && LogAt(geo, before, geo.Base(which), log)
    ensures Settled(geo, image, One) && Settled(geo, image, Two) && Pick(geo, image) == Pick(geo, before)
    ensures HasAreaRecord(image, geo.Base(which), version) && LogAt(geo, image, geo.Base(which), log)
  {
    hide Settled, AreaVersion, HasAreaRecord, LogAt, SameBytes;
    var base, other := geo.Base(which), geo.Base(which.Other());
    SameInside(before, image, base, base + End(geo, log), base, base + AREA_RAW_SIZE);
    SameInside(before, image, other, other + geo.area, other, other + AREA_RAW_SIZE);
    SettledAlso(geo, before, image, which);
    SettledAlso(geo, before, image, which.Other());
    AreaRecordAlso(before, image, base, version);
    LogAlso(geo, before, image, base, log, base + End(geo, log));
  }

  lemma {:induction false} OverlayTouchesEnd(geo: Geometry, before: Bytes, image: Bytes, which: Area, at: nat,
                                             size: nat)
    requires geo.Valid() && |before| == |image| == 2 * geo.area && geo.First() <= at && at + size <= geo.area
    requires SameBytes(before, image, 0, geo.Base(which) + at)
    requires SameBytes(before, image, geo.Base(which) + at + size, |before|)
    ensures EndTouched(geo, before, image, which, at)
  {
    hide SameBytes, AlignUp;
    var base, other := geo.Base(which), geo.Base(which.Other());
    SameInside(before, image, 0, base + at, base, base + at);
    if which.One? {
      SameInside(before, image, base + at + size, |before|, other, other + geo.area);
    } else {
      SameInside(before, image, 0, base + at, other, other + geo.area);
    }
  }

  lemma {:induction false} BlankPart(geo: Geometry, image: Bytes, from: nat, to: nat, lo: nat, hi: nat)
    requires Blank(geo, image, from, to) && from <= lo && hi <= to
    ensures Blank(geo, image, lo, hi)
  {
  }

  /** The free part of an area beyond `n` bytes of a write at its end is as erased as before. */
  lemma {:induction false} BeyondWrite(geo: Geometry, before: Bytes, image: Bytes, from: nat, n: nat, to: nat)
    requires Blank(geo, before, from, to) && from + n <= to <= |before| && SameBytes(before, image, from + n, |before|)
    ensures Blank(geo, image, from + n, to)
  {
    BlankPart(geo, before, from, to, from + n, to);
    BlankAlso(geo, before, image, from + n, |before|, from + n, to);
  }

  /** The record is complete: the area is open again, one record longer. */
  lemma {:induction false} AppendDone(geo: Geometry, before: Bytes, image: Bytes, which: Area, version: nat,
                                      log: seq<Record>, r: Record)
    requires geo.Valid() && OpenArea(geo, before, which, version, log)
    requires Settled(geo, before, One) && Settled(geo, before, Two)
    requires r.deleted ==> r.key in Contents(log)
    requires r.WellFormed() && End(geo, log) + geo.RecordSize(r) <= geo.area
    requires Append(geo, before, which, log, r).Written(image)
    ensures OpenArea(geo, image, which, version, log + [r])
    ensures Settled(geo, image, One) && Settled(geo, image, Two) && Pick(geo, image) == Pick(geo, before)
  {
    hide *;
    var base, at, size := geo.Base(which), End(geo, log), geo.RecordSize(r);
    OpenAreaParts(geo, before, which, version, log);
    WrittenParts(geo, before, image, which, log, r);
    EndIsAligned(geo, log);
    OverlayTouchesEnd(geo, before, image, which, at, size);
    EndTouchedKeeps(geo, before, image, which, version, log);
    TidyLonger(log, r);
    LogAppended(geo, image, base, log, r);
    BeyondWrite(geo, before, image, base + at, size, base + geo.area);
    OpenAreaParts(geo, image, which, version, log + [r]);
  }

  lemma {:induction false} WrittenParts(geo: Geometry, before: Bytes, image: Bytes, which: Area, log: seq<Record>,
                                        r: Record)
    requires geo.page > 0 && r.WellFormed() && Append(geo, before, which, log, r).Written(image)
    ensures var addr, size := geo.Base(which) + End(geo, log), geo.RecordSize(r);
            && |image| == |before| == 2 * geo.area && Holds(image, addr, r)
            && geo.Base(which) + geo.area <= |before|
            && SameBytes(before, image, 0, addr) && SameBytes(before, image, addr + size, |before|)
  {
    hide Raw, SameBytes, End, AlignUp, Blank;
  }

  /** The free end of an area in which only the first `m` bytes of `r` were programmed. */
  ghost predicate TornEnd(geo: Geometry, before: Bytes, image: Bytes, which: Area, log: seq<Record>, r: Record, m: nat)
    requires geo.page > 0
  {
    var addr := geo.Base(which) + End(geo, log);
    && EndTouched(geo, before, image, which, End(geo, log))
    && TornAt(geo, image, addr, r, m)
    && Blank(geo, image, addr + m, geo.Base(which) + geo.area)
  }

  lemma {:induction false} AppendTorn(geo: Geometry, before: Bytes, image: Bytes, which: Area, log: seq<Record>,
                                      r: Record, m: nat)
    requires geo.Valid() && |before| == 2 * geo.area && r.WellFormed()
    requires Blank(geo, before, geo.Base(which) + End(geo, log), geo.Base(which) + geo.area)
    requires End(geo, log) + geo.RecordSize(r) <= geo.area
    requires Append(geo, before, which, log, r).Valid() && MIN_BUFFER_SIZE <= m <= r.RawSize()
    requires image == Append(geo, before, which, log, r).Upto(m)
    ensures TornEnd(geo, before, image, which, log, r, m)
  {
    hide *;
    var base, at := geo.Base(which), End(geo, log);
    UptoParts(geo, before, image, which, log, r, m);
    EndIsAligned(geo, log);
    OverlayTouchesEnd(geo, before, image, which, at, m);
    BeyondWrite(geo, before, image, base + at, m, base + geo.area);
    BlankPart(geo, image, base + at + m, base + geo.area, base + at + m, base + at + r.RawSize());
    TornEndFrom(geo, before, image, which, log, r, m);
  }

  lemma {:induction false} UptoParts(geo: Geometry, before: Bytes, image: Bytes, which: Area, log: seq<Record>,
                                     r: Record, m: nat)
    requires geo.Valid() && |before| == 2 * geo.area && r.WellFormed()
    requires End(geo, log) + geo.RecordSize(r) <= geo.area
    requires Append(geo, before, which, log, r).Valid() && MIN_BUFFER_SIZE <= m <= r.RawSize()
    requires image == Append(geo, before, which, log, r).Upto(m)
    ensures var addr := geo.Base(which) + End(geo, log);
            && |image| == |before| && m <= r.RawSize() <= geo.RecordSize(r)
                && addr + geo.RecordSize(r) <= geo.Base(which) + geo.area <= |before|
            && image[addr..addr + m] == Raw(r)[..m]
            && SameBytes(before, image, 0, addr) && SameBytes(before, image, addr + m, |before|)
  {
    hide SameBytes, Blank, Raw, AlignUp, Overlay, End;
    var addr := geo.Base(which) + End(geo, log);
    OverlaySides(before, addr, Raw(r)[..m]);
  }

  lemma {:induction false} TornEndFrom(geo: Geometry, before: Bytes, image: Bytes, which: Area, log: seq<Record>,
                                       r: Record, m: nat)
    requires geo.page > 0 && r.WellFormed() && MIN_BUFFER_SIZE <= m <= r.RawSize() && |image| == 2 * geo.area
    requires EndTouched(geo, before, image, which, End(geo, log))
    requires geo.Base(which) + End(geo, log) + r.RawSize() <= geo.Base(which) + geo.area <= |image|
    requires var addr := geo.Base(which) + End(geo, log);
             && image[addr..addr + m] == Raw(r)[..m]
             && Blank(geo, image, addr + m, addr + r.RawSize())
                 && Blank(geo, image, addr + m, geo.Base(which) + geo.area)
    ensures TornEnd(geo, before, image, which, log, r, m)
  {
    hide EndTouched, Raw, Blank, End;
  }

  lemma {:induction false} OverlaySides(image: Bytes, addr: nat, data: Bytes)
    requires addr + |data| <= |image|
    ensures var r := Overlay(image, addr, data);
            && |r| == |image| && r[addr..addr + |data|] == data
            && SameBytes(image, r, 0, addr) && SameBytes(image, r, addr + |data|, |image|)
  {
    OverlayBytes(image, addr, data);
    hide Overlay, SameBytes;
  }

  /** The record a start-up finds when `r` was cut after `m` bytes, if the CRC cannot tell. */
  function Misread(geo: Geometry, r: Record, m: nat): (misread: Record)
    requires HEADER_SIZE + |r.key| <= m <= r.RawSize()
    ensures misread.RawSize() == r.RawSize() && misread.key == r.key && misread.deleted == r.deleted
  {
    r.(data := TornData(geo, r, m))
  }

  lemma {:induction false} CutAccepted(geo: Geometry, before: Bytes, image: Bytes, which: Area, version: nat,
                                       log: seq<Record>, r: Record, m: nat)
    requires geo.Valid() && TornEnd(geo, before, image, which, log, r, m) && Collides(geo, r, m)
    requires HasAreaRecord(image, geo.Base(which), version) && LogAt(geo, image, geo.Base(which), log)
    requires Tidy(log) && (r.deleted ==> r.key in Contents(log))
    requires End(geo, log) + geo.RecordSize(r) <= geo.area
    ensures OpenArea(geo, image, which, version, log + [Misread(geo, r, m)])
  {
    hide *;
    TornEndParts(geo, before, image, which, log, r, m);
    var addr, misread := geo.Base(which) + End(geo, log), Misread(geo, r, m);
    TornIsSeen(geo, image, addr, r, m);
    TidyLonger(log, misread);
    LogAppended(geo, image, geo.Base(which), log, misread);
    BlankPart(geo, image, addr + m, geo.Base(which) + geo.area, addr + geo.RecordSize(r), geo.Base(which) + geo.area);
    OpenAreaParts(geo, image, which, version, log + [misread]);
  }

  lemma {:induction false} TornEndParts(geo: Geometry, before: Bytes, image: Bytes, which: Area, log: seq<Record>,
                                        r: Record, m: nat)
    requires geo.page > 0 && TornEnd(geo, before, image, which, log, r, m)
    ensures var addr := geo.Base(which) + End(geo, log);
            && EndTouched(geo, before, image, which, End(geo, log)) && |image| == 2 * geo.area
            && TornAt(geo, image, addr, r, m) && Blank(geo, image, addr + m, geo.Base(which) + geo.area)
            && m <= r.RawSize() <= geo.RecordSize(r) && geo.RecordSize(Misread(geo, r, m)) == geo.RecordSize(r)
            && Misread(geo, r, m) == r.(data := TornData(geo, r, m))
  {
    hide SameBytes, Blank, Raw, AlignUp, End, TornData;
  }

  lemma {:induction false} CutRefused(geo: Geometry, before: Bytes, image: Bytes, which: Area, version: nat,
                                      log: seq<Record>, r: Record, m: nat)
    requires geo.Valid() && TornEnd(geo, before, image, which, log, r, m) && !Collides(geo, r, m)
    requires HasAreaRecord(image, geo.Base(which), version) && LogAt(geo, image, geo.Base(which), log)
    requires Tidy(log)
    requires End(geo, log) + geo.RecordSize(r) <= geo.area
    ensures AreaHolds(geo, image, which, version, log)
  {
    hide HasAreaRecord, LogAt, Blank, SameBytes, Collides, TornAt, End, Tidy;
    assert geo.RecordSize(r) >= r.RawSize();
    hide AlignUp;
    assert Spoilt(geo, image, geo.Base(which), End(geo, log), r, m);
  }

  /** Exactly what start-up recovers from an append cut after `m` bytes. */
  lemma {:induction false} AppendCut(geo: Geometry, before: Bytes, image: Bytes, which: Area, version: nat,
                                     log: seq<Record>, r: Record, m: nat)
    requires geo.Valid() && OpenArea(geo, before, which, version, log)
    requires Settled(geo, before, One) && Settled(geo, before, Two) && Pick(geo, before) == Some((which, version))
    requires r.deleted ==> r.key in Contents(log)
    requires r.WellFormed() && End(geo, log) + geo.RecordSize(r) <= geo.area
    requires Append(geo, before, which, log, r).Valid() && MIN_BUFFER_SIZE <= m <= r.RawSize()
    requires image == Append(geo, before, which, log, r).Upto(m)
    ensures Sound(geo, image) && Pick(geo, image) == Some((which, version))
    ensures Recover(geo, image) == if Collides(geo, r, m) then Apply(Contents(log), Misread(geo, r, m))
            else Contents(log)
  {
    hide *;
    OpenAreaParts(geo, before, which, version, log);
    AppendTorn(geo, before, image, which, log, r, m);
    TornEndParts(geo, before, image, which, log, r, m);
    EndTouchedKeeps(geo, before, image, which, version, log);
    if Collides(geo, r, m) {
      CutAccepted(geo, before, image, which, version, log, r, m);
      OpenAreaHolds(geo, image, which, version, log + [Misread(geo, r, m)]);
      SoundImage(geo, image, which, version, log + [Misread(geo, r, m)]);
      OffsetsAfter(geo, log, Misread(geo, r, m));
    } else {
      CutRefused(geo, before, image, which, version, log, r, m);
      SoundImage(geo, image, which, version, log);
    }
  }
}
