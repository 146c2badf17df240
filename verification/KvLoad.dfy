/** Replaying the active area at start-up, stated on values.

    Modelled code: nimble/host/kv_store/mtb_kvstore.c:1283-1410. */
module KvLoad {
  import opened Sequences
  import opened Arith
  import opened LittleEndian
  import opened KvFormat
  import opened KvLog
  import opened KvReplay
  import opened KvLive
  import opened KvImage
  import opened KvIndex
  import opened KvFlash
  import opened KvPort
  import opened KvCommit
  import opened KvGather
  import opened KvCollect
  import opened KvOutcome

  /** The first records of a complete area have been replayed. */
  ghost predicate Loading(geo: Geometry, image: Bytes, which: Area, version: nat, all: seq<Record>, log: seq<Record>)
    requires geo.page > 0
  {
    AreaHolds(geo, image, which, version, all) && log <= all
  }

  /** Nothing was ever programmed past the end of the log. */
  ghost predicate FreeIsBlank(geo: Geometry, image: Bytes, which: Area, log: seq<Record>)
    requires geo.page > 0
  {
    Blank(geo, image, geo.Base(which) + End(geo, log), geo.Base(which) + geo.area)
  }

  lemma {:induction false} LogPrefix(geo: Geometry, image: Bytes, base: nat, all: seq<Record>, log: seq<Record>)
    requires geo.page > 0 && LogAt(geo, image, base, all) && log <= all
    ensures LogAt(geo, image, base, log)
    decreases |all|
  {
    hide Holds;
    if log != all {
      assert log <= all[..|all| - 1];
      LogPrefix(geo, image, base, all[..|all| - 1], log);
    }
  }

  lemma {:induction false} LoadingParts(geo: Geometry, image: Bytes, which: Area, version: nat, all: seq<Record>,
                                        log: seq<Record>)
    requires geo.page > 0 && Loading(geo, image, which, version, all, log)
    ensures LogAt(geo, image, geo.Base(which), all) && End(geo, all) <= geo.area && |log| <= |all|
            && log == all[..|log|]
    ensures FreeEnd(geo, image, geo.Base(which), End(geo, all)) && |image| == 2 * geo.area && Tidy(all)
  {
    hide LogAt, FreeEnd, HasAreaRecord, End;
  }

  /** What reading at the end of the replayed part meets. */
  lemma {:induction false} LoadingReads(geo: Geometry, image: Bytes, which: Area, version: nat, all: seq<Record>,
                                        log: seq<Record>)
    requires geo.Valid() && Loading(geo, image, which, version, all, log)
    requires End(geo, log) + HEADER_SIZE < geo.area
    ensures ReadStatus(image, geo.Base(which) + End(geo, log), None, None) ==
            if |log| < |all| then Success else if FreeIsBlank(geo, image, which, all) then ErasedData else InvalidData
  {
    hide *;
    LoadingParts(geo, image, which, version, all, log);
    if |log| < |all| {
      RecordOfLog(geo, image, geo.Base(which), all, |log|);
      ReadWritten(image, geo.Base(which) + End(geo, log), all[|log|], None, None);
    } else {
      assert log == all;
      EndReads(geo, image, which, log);
    }
  }

  lemma {:induction false} EndReads(geo: Geometry, image: Bytes, which: Area, log: seq<Record>)
    requires geo.Valid() && End(geo, log) + HEADER_SIZE < geo.area
             && FreeEnd(geo, image, geo.Base(which), End(geo, log))
    ensures ReadStatus(image, geo.Base(which) + End(geo, log), None, None) ==
            if FreeIsBlank(geo, image, which, log) then ErasedData else InvalidData
  {
    hide ReadStatus, End, Blank, Collides, TornAt, Inspect;
    var base, at := geo.Base(which), End(geo, log);
    ReadAny(image, base + at);
    if FreeIsBlank(geo, image, which, log) {
      BlankPart(geo, image, base + at, base + geo.area, base + at, base + at + HEADER_SIZE);
      ErasedIsSeen(geo, image, base + at);
    } else {
      var r: Record, m: nat :| Spoilt(geo, image, base, at, r, m);
      TornIsSeen(geo, image, base + at, r, m);
    }
  }

  /** What a read of record `r` returns. */
  lemma {:induction false} ReadBack(image: Bytes, addr: nat, r: Record, header: Header, key: Bytes)
    requires Holds(image, addr, r) && ReadsAs(image, addr, header, key)
    ensures key == r.key && header.keySize == |r.key| && header.dataSize == |r.data|
    ensures (header.flags & DELETE_FLAG != 0) == r.deleted
  {
    hide Inspect, HeaderOf, Raw;
    InspectWritten(image, addr, r);
    HeaderFields(r);
    FlagsTellDeletion(r);
  }

  /** A spoilt end has room for a header. */
  lemma {:induction false} FullIsBlank(geo: Geometry, image: Bytes, which: Area, version: nat, log: seq<Record>)
    requires geo.page > 0 && AreaHolds(geo, image, which, version, log) && End(geo, log) + HEADER_SIZE >= geo.area
    ensures FreeIsBlank(geo, image, which, log)
  {
    hide HasAreaRecord, LogAt, Blank, Collides, End, Raw;
  }

  /** The next record of the area. */
  lemma {:induction false} LoadingNext(geo: Geometry, image: Bytes, which: Area, version: nat, all: seq<Record>,
                                       log: seq<Record>)
    requires geo.Valid() && Loading(geo, image, which, version, all, log) && |log| < |all|
    ensures var r := all[|log|];
            && Holds(image, geo.Base(which) + End(geo, log), r) && r.WellFormed()
            && Loading(geo, image, which, version, all, log + [r])
            && End(geo, log) + geo.RecordSize(r) <= geo.area && (r.deleted ==> r.key in Contents(log))
  {
    hide *;
    LoadingParts(geo, image, which, version, all, log);
    if all[|log|].deleted {
      TidyAt(all, |log|);
    }
    RecordOfLog(geo, image, geo.Base(which), all, |log|);
    EndOfPrefix(geo, all, |log|);
    RecordIsWellFormed(image, geo.Base(which) + End(geo, log), all[|log|]);
    LongerPrefix(geo, image, which, version, all, log);
  }

  lemma {:induction false} LongerPrefix(geo: Geometry, image: Bytes, which: Area, version: nat, all: seq<Record>,
                                        log: seq<Record>)
    requires geo.page > 0 && Loading(geo, image, which, version, all, log) && |log| < |all|
    ensures Loading(geo, image, which, version, all, log + [all[|log|]])
  {
    hide AreaHolds;
  }

  lemma {:induction false} LoadingKept(geo: Geometry, image: Bytes, which: Area, version: nat, all: seq<Record>,
                                       log: seq<Record>,
                                       table: seq<Entry>, names: seq<Bytes>)
    requires geo.Valid() && Loading(geo, image, which, version, all, log) && Indexes(table, names, Offsets(geo, log))
    ensures Kept(geo, image, which, table, names, Contents(log)) && End(geo, log) <= geo.area
  {
    hide Indexes, Offsets, LogAt, Kept, Contents, FreeEnd, HasAreaRecord;
    LogPrefix(geo, image, geo.Base(which), all, log);
    PrefixEnds(geo, all, log);
    hide End;
    LoadedIsKept(geo, image, which, table, names, log);
  }

  lemma {:induction false} PrefixEnds(geo: Geometry, all: seq<Record>, log: seq<Record>)
    requires geo.page > 0 && log <= all
    ensures End(geo, log) <= End(geo, all)
    decreases |all|
  {
    hide AlignUp;
    if log != all {
      assert log <= all[..|all| - 1];
      PrefixEnds(geo, all[..|all| - 1], log);
    }
  }

  lemma {:induction false} OpenFromHolds(geo: Geometry, image: Bytes, which: Area, version: nat, log: seq<Record>)
    requires geo.page > 0 && AreaHolds(geo, image, which, version, log)
    ensures FreeIsBlank(geo, image, which, log) <==> OpenArea(geo, image, which, version, log)
  {
    hide HasAreaRecord, LogAt, FreeEnd, Blank;
  }

  /** The RAM state before the first record. */
  lemma {:induction false} NothingLoaded(geo: Geometry, image: Bytes, which: Area, version: nat, all: seq<Record>)
    requires geo.Valid() && AreaHolds(geo, image, which, version, all)
    ensures Loading(geo, image, which, version, all, []) && Contents([]) == map[]
    ensures Indexes([], [], Offsets(geo, [])) && End(geo, []) == geo.First() && LiveSize(geo, Contents([])) == 0
  {
    hide AreaHolds, AlignUp;
  }

  /** At the end of the area, or at erased flash, every record was replayed. */
  lemma {:induction false} LoadedAll(geo: Geometry, image: Bytes, which: Area, version: nat, all: seq<Record>,
                                     log: seq<Record>)
    requires geo.Valid() && Loading(geo, image, which, version, all, log)
    requires End(geo, log) + HEADER_SIZE >= geo.area || (log == all && FreeIsBlank(geo, image, which, all))
    ensures log == all && FreeIsBlank(geo, image, which, all) && OpenArea(geo, image, which, version, all)
  {
    hide *;
    LoadingParts(geo, image, which, version, all, log);
    assert AreaHolds(geo, image, which, version, all) by { LoadingHolds(geo, image, which, version, all, log); }
    if log != all {
      RecordOfLog(geo, image, geo.Base(which), all, |log|);
      EndOfPrefix(geo, all, |log|);
      RecordIsWellFormed(image, geo.Base(which) + End(geo, log), all[|log|]);
    }
    assert log == all;
    if End(geo, log) + HEADER_SIZE >= geo.area {
      FullIsBlank(geo, image, which, version, log);
    }
    OpenFromHolds(geo, image, which, version, all);
  }

  lemma {:induction false} LoadingHolds(geo: Geometry, image: Bytes, which: Area, version: nat, all: seq<Record>,
                                        log: seq<Record>)
    requires geo.page > 0 && Loading(geo, image, which, version, all, log)
    ensures AreaHolds(geo, image, which, version, all)
  {
    hide AreaHolds;
  }

  // ----- Choosing an area -----

  lemma {:induction false} AreaReads(geo: Geometry, image: Bytes, which: Area)
    requires Settled(geo, image, which)
    ensures var status := ReadStatus(image, geo.Base(which), Some(AREA_KEY), Some(4));
            && (status.Success? || status.ErasedData? || status.InvalidData?)
            && (status.Success? <==> AreaVersion(image, geo.Base(which)).Some?)
  {
    hide DecodeHeader, HasAreaRecord, AreaVersion, Inspect, Alternates;
    var base := geo.Base(which);
    if HeaderRefused(image, base) {
      RefusedHasNoVersion(image, base);
    } else {
      hide ReadStatus;
      var v :| OpensWith(geo, image, which, v);
      AreaVersionWritten(image, base, v);
      AreaRecordReads(image, base, v);
    }
  }

  lemma {:induction false} AreaRecordReads(image: Bytes, base: nat, version: nat)
    requires HasAreaRecord(image, base, version)
    ensures ReadStatus(image, base, Some(AREA_KEY), Some(4)).Success?
  {
    hide Holds, ReadStatus, Le16;
    ReadWritten(image, base, AreaRecord(version), Some(AREA_KEY), Some(4));
  }

  lemma {:induction false} AreaRead(image: Bytes, base: nat, header: Header, key: Bytes, data: Bytes)
    requires Inspect(image, base) == Intact(header, key, data) && AreaVersion(image, base).Some?
    ensures |data| == 4 && AreaVersion(image, base) == Some(Nat16(data[..2]))
  {
    hide Inspect, Nat16;
  }

  lemma {:induction false} NoVersions(geo: Geometry, image: Bytes)
    requires Pick(geo, image) == None
    ensures AreaVersion(image, geo.Base(One)) == None && AreaVersion(image, geo.Base(Two)) == None
  {
    hide AreaVersion;
  }

  /** While area one of a store without area records is rewritten there is nothing to recover. */
  lemma {:induction false} FreshRewriting(geo: Geometry, before: Bytes, image: Bytes)
    requires geo.Valid() && Settled(geo, before, One) && Settled(geo, before, Two)
    requires AreaVersion(before, geo.Base(One)) == None && AreaVersion(before, geo.Base(Two)) == None
    requires RewritingFrom(geo, before, One)(image)
    ensures Settled(geo, image, One) && Settled(geo, image, Two) && |image| == 2 * geo.area
    ensures AreaVersion(image, geo.Base(Two)) == None && Recovering(geo, {map[]}, INITIAL_VERSION)(image)
  {
    hide Settled, AreaVersion, Rewriting, Replay, AreaHolds;
    RewritingSettled(geo, before, image, One);
  }

  lemma {:induction false} FreshSteps(geo: Geometry, before: Bytes, a: seq<Bytes>, b: seq<Bytes>)
    requires geo.Valid() && Settled(geo, before, One) && Settled(geo, before, Two)
    requires AreaVersion(before, geo.Base(One)) == None && AreaVersion(before, geo.Base(Two)) == None
    requires Since(a, b, RewritingFrom(geo, before, One))
    ensures Since(a, b, Recovering(geo, {map[]}, INITIAL_VERSION))
  {
    hide *;
    var p, q := RewritingFrom(geo, before, One), Recovering(geo, {map[]}, INITIAL_VERSION);
    forall img | p(img)
      ensures q(img)
    {
      FreshRewriting(geo, before, img);
    }
    SinceImplies(a, b, p, q);
  }

  /** The first area record makes area one current, with no records. */
  lemma {:induction false} FirstOpening(geo: Geometry, before: Bytes, image: Bytes, version: nat)
    requires geo.Valid() && version < 0x1_0000 && Alternates(One, version) && Settled(geo, before, Two)
             && AreaVersion(before, geo.Base(Two)) == None
    requires Blank(geo, before, geo.Base(One), geo.Base(One) + geo.area)
    requires Opening(geo, before, One, version).Written(image)
    ensures OpenArea(geo, image, One, version, [])
    ensures Settled(geo, image, One) && Settled(geo, image, Two) && Pick(geo, image) == Some((One, version))
  {
    hide Settled, AreaVersion, HasAreaRecord, Opening, Blank, SameBytes, HeaderRefused, AlignUp, Alternates,
         AreaRecord, LogAt;
    OpeningWritten(geo, before, image, One, version);
    AreasApart(geo, One);
    OtherAreaSame(geo, before, image, One, 0, geo.First());
    var other := geo.Base(Two);
    SameInside(before, image, other, other + geo.area, other, other + AREA_RAW_SIZE);
    SettledAlso(geo, before, image, Two);
    AreaVersionWritten(image, geo.Base(One), version);
    FirstIsSettled(geo, image, version);
    BlankAlso(geo, before, image, geo.First(), |before|, geo.First(), geo.area) by {
      BlankPart(geo, before, 0, geo.area, geo.First(), geo.area);
    }
    NothingLogged(geo, image, 0);
    OpenAreaParts(geo, image, One, version, []);
  }

  lemma {:induction false} NothingLogged(geo: Geometry, image: Bytes, base: nat)
    requires geo.page > 0
    ensures LogAt(geo, image, base, []) && End(geo, []) == geo.First() && Tidy([]) && Contents([]) == map[]
  {
  }

  lemma {:induction false} FirstIsSettled(geo: Geometry, image: Bytes, version: nat)
    requires HasAreaRecord(image, geo.Base(One), version) && Alternates(One, version)
    ensures Settled(geo, image, One)
  {
    hide HasAreaRecord, HeaderRefused;
    assert OpensWith(geo, image, One, version);
  }

  lemma {:induction false} FirstSteps(geo: Geometry, before: Bytes, a: seq<Bytes>, b: seq<Bytes>)
    requires geo.Valid() && Settled(geo, before, Two) && AreaVersion(before, geo.Base(Two)) == None
    requires Blank(geo, before, geo.Base(One), geo.Base(One) + geo.area)
    requires Opening(geo, before, One, INITIAL_VERSION).Valid()
             && |Opening(geo, before, One, INITIAL_VERSION).full| == AREA_RAW_SIZE
    requires Since(a, b, Opening(geo, before, One, INITIAL_VERSION).Partly())
    ensures Since(a, b, Recovering(geo, {map[]}, INITIAL_VERSION))
  {
    var job := Opening(geo, before, One, INITIAL_VERSION);
    hide Settled, AreaVersion, Opening, Blank, Pick, OpenArea, Recover, Sound, Contents;
    var q := Recovering(geo, {map[]}, INITIAL_VERSION);
    NothingLogged(geo, before, 0);
    forall img | job.Partly()(img)
      ensures q(img)
    {
      SmallRecordInOneStep(job, img);
      FirstOpening(geo, before, img, INITIAL_VERSION);
      OpenIsSound(geo, img, One, INITIAL_VERSION, []);
    }
    hide Since, Recovering;
    SinceImplies(a, b, job.Partly(), q);
  }

  /** The records of the area start-up chose. */
  lemma {:induction false} Chosen(geo: Geometry, image: Bytes, which: Area, version: nat)
    requires geo.Valid() && Sound(geo, image) && Pick(geo, image) == Some((which, version))
    ensures var all := Replay(geo, image, geo.Base(which), geo.First());
            && AreaHolds(geo, image, which, version, all) && Contents(all) == Recover(geo, image)
            && (FreeIsBlank(geo, image, which, all) <==> OpenArea(geo, image, which, version, all))
  {
    hide AreaHolds, Settled, Pick, Replay, Contents, OpenArea, FreeIsBlank;
    OpenFromHolds(geo, image, which, version, Replay(geo, image, geo.Base(which), geo.First()));
  }

  lemma {:induction false} EmptyArea(geo: Geometry, image: Bytes, all: seq<Record>)
    requires geo.Valid() && OpenArea(geo, image, One, INITIAL_VERSION, [])
    requires all == Replay(geo, image, geo.Base(One), geo.First())
    ensures all == []
  {
    hide OpenArea, Replay;
    OpenAreaHolds(geo, image, One, INITIAL_VERSION, []);
    AreaReplays(geo, image, One, INITIAL_VERSION, []);
  }

  lemma {:induction false} SoundParts(geo: Geometry, image: Bytes)
    requires geo.page > 0 && Sound(geo, image)
    ensures Settled(geo, image, One) && Settled(geo, image, Two)
  {
    hide Settled, Pick, AreaHolds, Replay;
  }

  lemma {:induction false} VersionsDiffer(geo: Geometry, image: Bytes, version1: nat, version2: nat)
    requires Settled(geo, image, One) && Settled(geo, image, Two)
    requires AreaVersion(image, geo.Base(One)) == Some(version1) && AreaVersion(image, geo.Base(Two)) == Some(version2)
    ensures version1 != version2
  {
    hide Settled, AreaVersion, HasAreaRecord;
    SettledVersion(geo, image, One, version1);
    SettledVersion(geo, image, Two, version2);
  }

  lemma {:induction false} PickedRecord(geo: Geometry, image: Bytes, which: Area, version: nat)
    requires Settled(geo, image, One) && Settled(geo, image, Two) && Pick(geo, image) == Some((which, version))
    ensures version < 0x1_0000 && HasAreaRecord(image, geo.Base(which), version)
  {
    hide Settled, AreaVersion, HasAreaRecord;
    SettledVersion(geo, image, which, version);
  }

  /** Which area start-up picks from the versions it read. */
  lemma {:induction false} PickFrom(geo: Geometry, image: Bytes)
    ensures Pick(geo, image) ==
            (var v1, v2 := AreaVersion(image, geo.Base(One)), AreaVersion(image, geo.Base(Two));
             if v1.Some? && v2.Some? then
                 (if v1.value > v2.value || v1.value == 0 then Some((One, v1.value)) else Some((Two, v2.value)))
             else if v1.Some? then Some((One, v1.value))
             else if v2.Some? then Some((Two, v2.value))
             else None)
  {
    hide AreaVersion;
  }

  lemma {:induction false} StartsFirst(geo: Geometry, image: Bytes)
    requires Pick(geo, image) == None
    ensures StartVersion(geo, image) == INITIAL_VERSION
  {
    hide Pick;
  }

  lemma {:induction false} NothingRecovered(geo: Geometry, image: Bytes)
    requires geo.page > 0 && Pick(geo, image) == None
    ensures Recover(geo, image) == map[]
  {
    hide Pick;
  }
}
