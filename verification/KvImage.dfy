/** The images start-up can meet, and what an interrupted step does to them.

    Modelled code: nimble/host/kv_store/mtb_kvstore.c:493-514 (erasing the header sector last),
    1173-1277 (writing the header last), 1309-1336 (stopping at a bad record),
    1416-1510 (choosing an area). */
module KvImage {
  import opened Sequences
  import opened LittleEndian
  import opened KvFormat
  import opened KvLog
  import opened KvReplay

  // ----- Area records -----

  /** The first header of an area is refused for what it says itself. */
  predicate HeaderRefused(image: Bytes, base: nat) {
    base + HEADER_SIZE <= |image| &&
    var h := DecodeHeader(image[base..base + HEADER_SIZE]);
    ErasedMagic(h.magic) || h.magic != MAGIC || h.keySize == 0 || h.keySize >= MAX_KEY_SIZE
  }

  ghost predicate HasAreaRecord(image: Bytes, base: nat, version: nat) {
    version < 0x1_0000 && Holds(image, base, AreaRecord(version))
  }

  /** Collections swap the areas and count the version up, so area one holds the odd versions. */
  predicate Alternates(which: Area, version: nat) {
    version % 2 == if which.One? then 1 else 0
  }

  ghost predicate OpensWith(geo: Geometry, image: Bytes, which: Area, version: nat) {
    HasAreaRecord(image, geo.Base(which), version) && Alternates(which, version)
  }

  /** The area opens with a complete area record, or clearly with none. */
  ghost predicate Settled(geo: Geometry, image: Bytes, which: Area) {
    HeaderRefused(image, geo.Base(which)) || exists v :: OpensWith(geo, image, which, v)
  }

  lemma {:induction false} SettledVersion(geo: Geometry, image: Bytes, which: Area, version: nat)
    requires Settled(geo, image, which) && AreaVersion(image, geo.Base(which)) == Some(version)
    ensures Alternates(which, version) && HasAreaRecord(image, geo.Base(which), version)
  {
    hide HeaderRefused, HasAreaRecord, AreaVersion;
    if HeaderRefused(image, geo.Base(which)) {
      RefusedHasNoVersion(image, geo.Base(which));
    } else {
      var v :| OpensWith(geo, image, which, v);
      AreaVersionWritten(image, geo.Base(which), v);
    }
  }

  lemma {:induction false} AreaVersionWritten(image: Bytes, base: nat, version: nat)
    requires HasAreaRecord(image, base, version)
    ensures AreaVersion(image, base) == Some(version)
  {
    hide HeaderOf, Inspect, Le16, Byte, Nat16;
    var r := AreaRecord(version);
    InspectWritten(image, base, r);
    assert r.data[..2] == Le16(version);
    Le16RoundTrip(version);
  }

  lemma {:induction false} RefusedHasNoVersion(image: Bytes, base: nat)
    requires HeaderRefused(image, base)
    ensures AreaVersion(image, base) == None
  {
    hide RecordCrc, DecodeHeader;
  }

  lemma {:induction false} BlankIsRefused(geo: Geometry, image: Bytes, base: nat)
    requires geo.Valid() && Blank(geo, image, base, base + AREA_RAW_SIZE)
    ensures HeaderRefused(image, base)
  {
    hide Byte;
    var b := image[base..base + HEADER_SIZE];
    assert b[0] == b[1] == b[2] == b[3] == geo.erased;
    assert b[..4] == [geo.erased, geo.erased, geo.erased, geo.erased];
    ErasedMagicNumber(geo.erased);
  }

  lemma {:induction false} RefusedAlso(a: Bytes, b: Bytes, base: nat)
    requires HeaderRefused(a, base) && SameBytes(a, b, base, base + AREA_RAW_SIZE)
    ensures HeaderRefused(b, base)
  {
    hide DecodeHeader;
    SameInside(a, b, base, base + AREA_RAW_SIZE, base, base + HEADER_SIZE);
  }

  lemma {:induction false} AreaRecordAlso(a: Bytes, b: Bytes, base: nat, version: nat)
    requires HasAreaRecord(a, base, version) && SameBytes(a, b, base, base + AREA_RAW_SIZE)
    ensures HasAreaRecord(b, base, version)
  {
    hide AreaRecord, Holds, SameBytes;
    HoldsAlso(a, b, base, base + AREA_RAW_SIZE, base, AreaRecord(version));
  }

  lemma {:induction false} SettledAlso(geo: Geometry, a: Bytes, b: Bytes, which: Area)
    requires geo.Valid() && Settled(geo, a, which)
    requires SameBytes(a, b, geo.Base(which), geo.Base(which) + AREA_RAW_SIZE)
    ensures Settled(geo, b, which)
    ensures AreaVersion(b, geo.Base(which)) == AreaVersion(a, geo.Base(which))
  {
    hide HeaderRefused, HasAreaRecord, AreaVersion, SameBytes;
    var base := geo.Base(which);
    if HeaderRefused(a, base) {
      RefusedAlso(a, b, base);
      RefusedHasNoVersion(a, base);
      RefusedHasNoVersion(b, base);
    } else {
      var v :| OpensWith(geo, a, which, v);
      AreaRecordAlso(a, b, base, v);
      assert OpensWith(geo, b, which, v);
      AreaVersionWritten(a, base, v);
      AreaVersionWritten(b, base, v);
    }
  }

  // ----- Areas -----

  /** The free end of the area: still erased, or spoilt by a record that was cut short. */
  ghost predicate FreeEnd(geo: Geometry, image: Bytes, base: nat, at: nat) {
    Blank(geo, image, base + at, base + geo.area) || exists r: Record, m: nat :: Spoilt(geo, image, base, at, r, m)
  }

  ghost predicate Spoilt(geo: Geometry, image: Bytes, base: nat, at: nat, r: Record, m: nat) {
    at + r.RawSize() <= geo.area && TornAt(geo, image, base + at, r, m) && !Collides(geo, r, m)
  }

  /** Area `which` is a complete area with this version and these records. */
  ghost predicate AreaHolds(geo: Geometry, image: Bytes, which: Area, version: nat, log: seq<Record>)
    requires geo.page > 0
  {
    && |image| == 2 * geo.area
    && HasAreaRecord(image, geo.Base(which), version)
    && LogAt(geo, image, geo.Base(which), log) && End(geo, log) <= geo.area
    && FreeEnd(geo, image, geo.Base(which), End(geo, log)) && Tidy(log)
  }

  lemma {:induction false} LogStops(geo: Geometry, image: Bytes, base: nat, at: nat)
    requires geo.Valid() && FreeEnd(geo, image, base, at)
    ensures Stops(geo, image, base, at)
  {
    hide Inspect, TornAt, Collides;
    if at + HEADER_SIZE < geo.area {
      if Blank(geo, image, base + at, base + geo.area) {
        ErasedIsSeen(geo, image, base + at);
      } else {
        var r: Record, m: nat :| Spoilt(geo, image, base, at, r, m);
        TornIsSeen(geo, image, base + at, r, m);
      }
    }
  }

  /** The records of a complete area can be read off the image. */
  lemma {:induction false} AreaReplays(geo: Geometry, image: Bytes, which: Area, version: nat, log: seq<Record>)
    requires geo.Valid() && AreaHolds(geo, image, which, version, log)
    ensures Replay(geo, image, geo.Base(which), geo.First()) == log
  {
    hide Replay, Stops, FreeEnd;
    LogStops(geo, image, geo.Base(which), End(geo, log));
    ReplayFindsLog(geo, image, geo.Base(which), log);
  }

  lemma {:induction false} FreeEndAlso(geo: Geometry, a: Bytes, b: Bytes, base: nat, at: nat)
    requires geo.Valid() && FreeEnd(geo, a, base, at) && SameBytes(a, b, base, base + geo.area)
    ensures FreeEnd(geo, b, base, at)
  {
    hide Spoilt, SameBytes;
    if Blank(geo, a, base + at, base + geo.area) {
      BlankAlso(geo, a, b, base, base + geo.area, base + at, base + geo.area);
    } else {
      var r: Record, m: nat :| Spoilt(geo, a, base, at, r, m);
      SpoiltAlso(geo, a, b, base, at, r, m);
    }
  }

  lemma {:induction false} SpoiltAlso(geo: Geometry, a: Bytes, b: Bytes, base: nat, at: nat, r: Record, m: nat)
    requires Spoilt(geo, a, base, at, r, m) && SameBytes(a, b, base, base + geo.area)
    ensures Spoilt(geo, b, base, at, r, m)
  {
    hide Collides, SameBytes, Raw;
    SameInside(a, b, base, base + geo.area, base + at, base + at + m);
    UnfoldSame(a, b, base + at, base + at + m);
    BlankAlso(geo, a, b, base, base + geo.area, base + at + m, base + at + r.RawSize());
  }

  lemma {:induction false} UnfoldSame(a: Bytes, b: Bytes, from: nat, to: nat)
    requires SameBytes(a, b, from, to)
    ensures |a| == |b| && from <= to <= |a| && a[from..to] == b[from..to]
  {
  }

  lemma {:induction false} AreaAlso(geo: Geometry, a: Bytes, b: Bytes, which: Area, version: nat, log: seq<Record>)
    requires geo.Valid() && AreaHolds(geo, a, which, version, log)
    requires SameBytes(a, b, geo.Base(which), geo.Base(which) + geo.area)
    ensures AreaHolds(geo, b, which, version, log)
  {
    hide Holds, AreaRecord, LogAt, FreeEnd;
    var base := geo.Base(which);
    LogAlso(geo, a, b, base, log, base + geo.area);
    HoldsAlso(a, b, base, base + geo.area, base, AreaRecord(version));
    FreeEndAlso(geo, a, b, base, End(geo, log));
  }

  // ----- Images -----

  /** An image that only this store has written to, finished or not: both areas open settled,
      and the current area is complete. A device that was never used is one too. */
  ghost predicate Sound(geo: Geometry, image: Bytes)
    requires geo.page > 0
  {
    && |image| == 2 * geo.area && Settled(geo, image, One) && Settled(geo, image, Two)
    && match Pick(geo, image)
       case None => true
       case Some((which, version)) =>
         AreaHolds(geo, image, which, version, Replay(geo, image, geo.Base(which), geo.First()))
  }

  lemma {:induction false} SoundImage(geo: Geometry, image: Bytes, which: Area, version: nat, log: seq<Record>)
    requires geo.Valid() && Settled(geo, image, One) && Settled(geo, image, Two)
    requires Pick(geo, image) == Some((which, version)) && AreaHolds(geo, image, which, version, log)
    ensures Sound(geo, image) && Recover(geo, image) == Contents(log)
  {
    hide AreaHolds, Settled, Pick, Replay, Contents;
    AreaReplays(geo, image, which, version, log);
    assert |image| == 2 * geo.area by { AreaSpansImage(geo, image, which, version, log); }
  }

  lemma {:induction false} AreaSpansImage(geo: Geometry, image: Bytes, which: Area, version: nat, log: seq<Record>)
    requires geo.page > 0 && AreaHolds(geo, image, which, version, log)
    ensures |image| == 2 * geo.area
  {
  }

  /** A step of a rewrite of area `which`, before its area record is written: the other area is
      untouched, and the opening of this one is still what it was or already erased. */
  ghost predicate Rewriting(geo: Geometry, before: Bytes, image: Bytes, which: Area) {
    var base, other := geo.Base(which), geo.Base(which.Other());
    && SameBytes(before, image, other, other + geo.area)
    && (SameBytes(before, image, base, base + AREA_RAW_SIZE) || Blank(geo, image, base, base + AREA_RAW_SIZE))
  }

  lemma {:induction false} RewritingSettled(geo: Geometry, before: Bytes, image: Bytes, which: Area)
    requires geo.Valid() && Settled(geo, before, One) && Settled(geo, before, Two)
             && Rewriting(geo, before, image, which)
    ensures Settled(geo, image, One) && Settled(geo, image, Two)
    ensures AreaVersion(image, geo.Base(which.Other())) == AreaVersion(before, geo.Base(which.Other()))
    ensures AreaVersion(image, geo.Base(which)) in {AreaVersion(before, geo.Base(which)), None}
  {
    hide AreaVersion, Settled, SameBytes, HeaderRefused;
    var base, other := geo.Base(which), geo.Base(which.Other());
    SameInside(before, image, other, other + geo.area, other, other + AREA_RAW_SIZE);
    SettledAlso(geo, before, image, which.Other());
    if SameBytes(before, image, base, base + AREA_RAW_SIZE) {
      SettledAlso(geo, before, image, which);
    } else {
      BlankIsRefused(geo, image, base);
      RefusedHasNoVersion(image, base);
      assert Settled(geo, image, which) by { SettledRefused(geo, image, which); }
    }
  }

  lemma {:induction false} SettledRefused(geo: Geometry, image: Bytes, which: Area)
    requires HeaderRefused(image, geo.Base(which))
    ensures Settled(geo, image, which)
  {
  }

  /** A cut while the other area is being rewritten loses nothing. */
  lemma {:induction false} RewritingKeepsMap(geo: Geometry, before: Bytes, image: Bytes, active: Area, version: nat)
    requires geo.Valid() && Sound(geo, before) && Pick(geo, before) == Some((active, version))
    requires Rewriting(geo, before, image, active.Other())
    ensures Sound(geo, image) && Pick(geo, image) == Some((active, version))
    ensures Recover(geo, image) == Recover(geo, before)
  {
    hide AreaVersion, Settled, Replay, AreaHolds, Contents;
    RewritingSettled(geo, before, image, active.Other());
    assert active.Other().Other() == active;
    var log := Replay(geo, before, geo.Base(active), geo.First());
    AreaAlso(geo, before, image, active, version, log);
    SoundImage(geo, image, active, version, log);
  }

  /** The version the first area gets. */
  const INITIAL_VERSION: nat := 1

  /** The version a start-up goes on from. */
  function StartVersion(geo: Geometry, image: Bytes): (v: nat)
    ensures v < 0x1_0000
  {
    match Pick(geo, image)
    case None => INITIAL_VERSION
    case Some((_, version)) => version
  }

  /** The version an area gets when it replaces one with version `version`. */
  function NextVersion(version: nat): (next: nat)
    ensures next < 0x1_0000
  {
    (version + 1) % 0x1_0000
  }

  lemma {:induction false} NextAlternates(active: Area, version: nat)
    requires version < 0x1_0000 && Alternates(active, version)
    ensures Alternates(active.Other(), NextVersion(version)) && NextVersion(version) != version
  {
  }

  /** The one place where the version numbers do not tell the newer area: area one is current
      and its version is about to wrap to zero. */
  predicate WrapAhead(active: Area, version: nat) {
    active.One? && version == 0xFFFF
  }

  /** After a rewrite, with both area records in place, start-up picks the new area unless the
      version wrapped, and then it picks the old one. */
  lemma {:induction false} NewAreaIsPicked(geo: Geometry, image: Bytes, active: Area, version: nat)
    requires Alternates(active, version)
    requires AreaVersion(image, geo.Base(active)) == Some(version)
    requires AreaVersion(image, geo.Base(active.Other())) == Some(NextVersion(version))
    ensures Pick(geo, image) == if WrapAhead(active, version) then Some((active, version))
                                else Some((active.Other(), NextVersion(version)))
  {
    hide AreaVersion;
  }
}
