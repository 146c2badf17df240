/** The image while garbage collection fills the other area, stated on values.

    Modelled code: nimble/host/kv_store/mtb_kvstore.c:1109-1277. */
module KvGather {
  import opened Arith
  import opened LittleEndian
  import opened KvFormat
  import opened KvLog
  import opened KvReplay
  import opened KvImage
  import opened KvFlash
  import opened KvStream
  import opened KvPort
  import opened KvCommit

  /** The area of `active` is untouched; the other one has no area record yet, then `log`, then
      erased bytes. */
  ghost predicate Gathering(geo: Geometry, before: Bytes, image: Bytes, active: Area, log: seq<Record>)
    requires geo.page > 0
  {
    var base, other := geo.Base(active), geo.Base(active.Other());
    && |image| == |before| == 2 * geo.area
    && SameBytes(before, image, base, base + geo.area)
    && Blank(geo, image, other, other + geo.First())
    && LogAt(geo, image, other, log) && geo.First() <= End(geo, log) <= geo.area
    && Blank(geo, image, other + End(geo, log), other + geo.area) && Tidy(log)
  }

  lemma {:induction false} GatheringParts(geo: Geometry, before: Bytes, image: Bytes, active: Area, log: seq<Record>)
    requires geo.page > 0
    ensures var base, other := geo.Base(active), geo.Base(active.Other());
            Gathering(geo, before, image, active, log) <==>
            (&& |image| == |before| == 2 * geo.area
             && SameBytes(before, image, base, base + geo.area)
             && Blank(geo, image, other, other + geo.First())
             && LogAt(geo, image, other, log) && geo.First() <= End(geo, log) <= geo.area
             && Blank(geo, image, other + End(geo, log), other + geo.area) && Tidy(log))
  {
    hide Tidy, SameBytes, Blank, LogAt, End, AlignUp;
  }

  lemma {:induction false} AreasApart(geo: Geometry, which: Area)
    requires geo.Valid()
    ensures geo.Base(which) + geo.area <= 2 * geo.area && AREA_RAW_SIZE <= geo.First() <= geo.area
    ensures || geo.Base(which) + geo.area <= geo.Base(which.Other())
            || geo.Base(which.Other()) + geo.area <= geo.Base(which)
    ensures which.Other().Other() == which
    ensures geo.Base(which) + geo.area < 0x1_0000_0000
  {
    AlignUpIsLeast(AREA_RAW_SIZE, geo.page, geo.area);
    hide AlignUp;
  }

  /** Bytes outside a range are the same, so are those of the area the range is not in. */
  lemma {:induction false} OtherAreaSame(geo: Geometry, a: Bytes, b: Bytes, which: Area, lo: nat, hi: nat)
    requires geo.Valid() && |a| == 2 * geo.area && geo.Base(which) <= lo <= hi <= geo.Base(which) + geo.area
    requires SameBytes(a, b, 0, lo) && SameBytes(a, b, hi, |a|)
    ensures var other := geo.Base(which.Other()); SameBytes(a, b, other, other + geo.area)
  {
    hide SameBytes;
    var other := geo.Base(which.Other());
    if which.One? {
      SameInside(a, b, hi, |a|, other, other + geo.area);
    } else {
      SameInside(a, b, 0, lo, other, other + geo.area);
    }
  }

  lemma {:induction false} GatherStart(geo: Geometry, before: Bytes, image: Bytes, active: Area)
    requires geo.Valid() && |before| == 2 * geo.area && RewritingFrom(geo, before, active.Other())(image)
    requires Blank(geo, image, geo.Base(active.Other()), geo.Base(active.Other()) + geo.area)
    ensures Gathering(geo, before, image, active, [])
  {
    hide SameBytes, Blank;
    AreasApart(geo, active);
    AreasApart(geo, active.Other());
    var other := geo.Base(active.Other());
    BlankPart(geo, image, other, other + geo.area, other, other + geo.First());
    BlankPart(geo, image, other, other + geo.area, other + geo.First(), other + geo.area);
    hide AlignUp;
  }

  /** One more record in the new area. */
  lemma {:induction false} GatherRecord(geo: Geometry, before: Bytes, image: Bytes, later: Bytes, active: Area,
                                        log: seq<Record>, r: Record)
    requires geo.Valid() && Gathering(geo, before, image, active, log)
    requires !r.deleted && r.WellFormed() && End(geo, log) + geo.RecordSize(r) <= geo.area
    requires var addr := geo.Base(active.Other()) + End(geo, log);
             && Holds(later, addr, r)
             && SameBytes(image, later, 0, addr) && SameBytes(image, later, addr + geo.RecordSize(r), |image|)
    ensures Gathering(geo, before, later, active, log + [r])
  {
    hide *;
    GatheringParts(geo, before, image, active, log);
    var base, other := geo.Base(active), geo.Base(active.Other());
    var addr, size := other + End(geo, log), geo.RecordSize(r);
    AreasApart(geo, active);
    AreasApart(geo, active.Other());
    SameLength(image, later, 0, addr);
    OtherAreaSame(geo, image, later, active.Other(), addr, addr + size);
    SameTrans(before, image, later, base, base + geo.area);
    BlankAlso(geo, image, later, 0, addr, other, other + geo.First());
    LogAlso(geo, image, later, other, log, addr) by { SameInside(image, later, 0, addr, other, addr); }
    TidyLonger(log, r);
    LogAppended(geo, later, other, log, r);
    BeyondWrite(geo, image, later, addr, size, other + geo.area);
    GatheringParts(geo, before, later, active, log + [r]);
  }

  lemma {:induction false} SameLength(a: Bytes, b: Bytes, lo: nat, hi: nat)
    requires SameBytes(a, b, lo, hi)
    ensures |a| == |b|
  {
  }

  lemma {:induction false} RewritingFromParts(geo: Geometry, before: Bytes, image: Bytes, which: Area)
    ensures var base, other := geo.Base(which), geo.Base(which.Other());
            RewritingFrom(geo, before, which)(image) <==>
            (&& |image| == |before| == 2 * geo.area && SameBytes(before, image, other, other + geo.area)
             && (SameBytes(before, image, base, base + AREA_RAW_SIZE) || Blank(geo, image, base, base + AREA_RAW_SIZE)))
  {
    hide SameBytes, Blank;
  }

  /** Steps of a write past the opening of the new area are steps of the rewrite. */
  lemma {:induction false} GatherStep(geo: Geometry, before: Bytes, image: Bytes, img: Bytes, active: Area,
                                      log: seq<Record>, lo: nat, hi: nat)
    requires geo.Valid() && Gathering(geo, before, image, active, log)
    requires geo.First() <= lo <= hi <= geo.area
    requires Within(image, geo.Base(active.Other()) + lo, geo.Base(active.Other()) + hi)(img)
    ensures RewritingFrom(geo, before, active.Other())(img)
  {
    hide *;
    GatheringParts(geo, before, image, active, log);
    var base, other := geo.Base(active), geo.Base(active.Other());
    AreasApart(geo, active);
    AreasApart(geo, active.Other());
    WithinParts(image, img, other + lo, other + hi);
    SameLength(image, img, 0, other + lo);
    OtherAreaSame(geo, image, img, active.Other(), other + lo, other + hi);
    SameTrans(before, image, img, base, base + geo.area);
    BlankPart(geo, image, other, other + geo.First(), other, other + AREA_RAW_SIZE);
    BlankAlso(geo, image, img, 0, other + lo, other, other + AREA_RAW_SIZE);
    RewritingFromParts(geo, before, img, active.Other());
  }

  lemma {:induction false} WithinParts(start: Bytes, img: Bytes, lo: nat, hi: nat)
    ensures Within(start, lo, hi)(img) <==> SameBytes(start, img, 0, lo) && SameBytes(start, img, hi, |start|)
  {
    hide SameBytes;
  }

  lemma {:induction false} WrittenWithin(job: Job, img: Bytes)
    requires job.Valid() && job.Partly()(img)
    ensures Within(job.start, job.addr, job.addr + AlignUp(|job.full|, job.geo.page))(img)
  {
    hide SameBytes, Blank, Overlay;
    if !job.Written(img) {
      var m: nat :| MIN_BUFFER_SIZE <= m <= |job.full| && img == job.Upto(m);
      UptoWithin(job, m, AlignUp(|job.full|, job.geo.page)) by { assert |job.full| <= AlignUp(|job.full|,
          job.geo.page); }
    }
  }

  /** An area record goes to flash in one step. */
  lemma {:induction false} SmallRecordInOneStep(job: Job, img: Bytes)
    requires job.Valid() && job.Partly()(img) && |job.full| < MIN_BUFFER_SIZE
    ensures job.Written(img)
  {
    hide SameBytes, Blank, Overlay, job.Written, job.Upto;
  }

  function Opening(geo: Geometry, image: Bytes, which: Area, version: nat): Job
    requires version < 0x1_0000
  {
    Place(geo, image, geo.Base(which), AreaRecord(version))
  }

  lemma {:induction false} OpeningIsPlace(geo: Geometry, image: Bytes, which: Area, version: nat)
    requires version < 0x1_0000
    ensures Opening(geo, image, which, version) == Place(geo, image, geo.Base(which), AreaRecord(version))
  {
  }

  lemma {:induction false} OpeningIsValid(geo: Geometry, image: Bytes, which: Area, version: nat)
    requires geo.Valid() && |image| == 2 * geo.area && version < 0x1_0000
    requires Blank(geo, image, geo.Base(which), geo.Base(which) + geo.First())
    ensures Opening(geo, image, which, version).Valid() && |Opening(geo, image, which, version).full| == AREA_RAW_SIZE
  {
    hide Raw, AreaRecord, AlignUp, SameBytes, Overlay;
    AreasApart(geo, which);
    SectorAligned(geo, which);
  }

  lemma {:induction false} OpeningWritten(geo: Geometry, image: Bytes, img: Bytes, which: Area, version: nat)
    requires geo.page > 0 && version < 0x1_0000 && Opening(geo, image, which, version).Written(img)
    ensures HasAreaRecord(img, geo.Base(which), version) && |img| == |image| == 2 * geo.area
    ensures SameBytes(image, img, 0, geo.Base(which)) && SameBytes(image, img, geo.Base(which) + geo.First(), |image|)
  {
    hide Raw, AlignUp, Blank, SameBytes, Overlay, Le16, Byte;
  }

  /** Writing the area record last makes the new area complete in one step. */
  lemma {:induction false} GatherCommit(geo: Geometry, before: Bytes, image: Bytes, img: Bytes, active: Area,
                                        version: nat, log: seq<Record>)
    requires geo.Valid() && Gathering(geo, before, image, active, log)
    requires Opening(geo, image, active.Other(), NextVersion(version)).Written(img)
    ensures Committed(geo, before, img, active, version, log)
    ensures OpenArea(geo, img, active.Other(), NextVersion(version), log)
  {
    hide *;
    GatheringParts(geo, before, image, active, log);
    OpeningWritten(geo, image, img, active.Other(), NextVersion(version));
    var base, other := geo.Base(active), geo.Base(active.Other());
    AreasApart(geo, active);
    AreasApart(geo, active.Other());
    OtherAreaSame(geo, image, img, active.Other(), other, other + geo.First());
    SameTrans(before, image, img, base, base + geo.area);
    BlankAlso(geo, image, img, other + geo.First(), |image|, other + End(geo, log), other + geo.area);
    LogMoved(geo, image, img, other, log);
    OpenAreaParts(geo, img, active.Other(), NextVersion(version), log);
    OpenAreaHolds(geo, img, active.Other(), NextVersion(version), log);
    CommittedParts(geo, before, img, active, version, log);
  }

  /** Records lie past the opening of their area. */
  lemma {:induction false} LogMoved(geo: Geometry, a: Bytes, b: Bytes, base: nat, log: seq<Record>)
    requires geo.Valid() && LogAt(geo, a, base, log) && SameBytes(a, b, base + geo.First(), |a|)
    ensures LogAt(geo, b, base, log)
  {
    hide Holds, AlignUp, SameBytes;
    if log != [] {
      var before, last := log[..|log| - 1], log[|log| - 1];
      LogMoved(geo, a, b, base, before);
      EndIsAligned(geo, before);
      HoldsInside(a, base + End(geo, before), last);
      HoldsAlso(a, b, base + geo.First(), |a|, base + End(geo, before), last);
    }
  }

  lemma {:induction false} HoldsInside(image: Bytes, addr: nat, r: Record)
    requires Holds(image, addr, r)
    ensures addr + r.RawSize() <= |image|
  {
    hide Raw;
  }

  lemma {:induction false} CommittedParts(geo: Geometry, before: Bytes, image: Bytes, active: Area, version: nat,
                                          log: seq<Record>)
    requires geo.page > 0
    ensures Committed(geo, before, image, active, version, log) <==>
            (&& SameBytes(before, image, geo.Base(active), geo.Base(active) + geo.area)
             && AreaHolds(geo, image, active.Other(), NextVersion(version), log))
  {
    hide SameBytes, AreaHolds;
  }
}
