/** An image on which the version wrap loses a finished collection.

    Modelled code: nimble/host/kv_store/mtb_kvstore.c:1416-1510, 1964-1986. */
module KvWrap {
  import opened Sequences
  import opened Arith
  import opened LittleEndian
  import opened KvFormat
  import opened KvLog
  import opened KvImage
  import opened KvStream
  import opened KvCommit
  import opened KvGather
  import opened KvOutcome
  import opened KvLoad

  lemma {:induction false} CanBeWritten(job: Job) returns (image: Bytes)
    requires job.Valid()
    ensures job.Written(image)
  {
    var padded := job.full + seq(AlignUp(|job.full|, job.geo.page) - |job.full|, _ => 0);
    PaddedIsWritten(job, padded);
    image := Overlay(job.start, job.addr, padded);
  }

  lemma {:induction false} BlankFlash(geo: Geometry) returns (image: Bytes)
    requires geo.Valid()
    ensures |image| == 2 * geo.area && Blank(geo, image, 0, 2 * geo.area)
    ensures Settled(geo, image, Two) && AreaVersion(image, geo.Base(Two)) == None
  {
    hide AreaVersion, HeaderRefused, OpensWith, AlignUp;
    image := Fill(geo, 2 * geo.area);
    BlankIsRefused(geo, image, geo.Base(Two));
    RefusedHasNoVersion(image, geo.Base(Two));
  }

  /** Area one with the last version and one record; area two erased. */
  lemma {:induction false} LastVersion(geo: Geometry, key: Bytes, data: Bytes) returns (image: Bytes)
    requires geo.Valid() && Record(false, key, data).WellFormed()
    requires geo.First() + geo.RecordSize(Record(false, key, data)) <= geo.area
    ensures Sound(geo, image) && Pick(geo, image) == Some((One, 0xFFFF)) && Recover(geo, image) == map[key := data]
    ensures |image| == 2 * geo.area && Blank(geo, image, geo.area, 2 * geo.area)
  {
    hide *;
    var r := Record(false, key, data);
    var blank := BlankFlash(geo);
    AreasApart(geo, One);
    Bases(geo);
    BlankPart(geo, blank, 0, 2 * geo.area, geo.Base(One), geo.Base(One) + geo.First());
    BlankPart(geo, blank, 0, 2 * geo.area, geo.Base(One), geo.Base(One) + geo.area);
    OpeningIsValid(geo, blank, One, 0xFFFF);
    var begun := CanBeWritten(Opening(geo, blank, One, 0xFFFF));
    FirstOpening(geo, blank, begun, 0xFFFF);
    OpeningWritten(geo, blank, begun, One, 0xFFFF);
    BlankAlso(geo, blank, begun, geo.First(), 2 * geo.area, geo.area, 2 * geo.area) by {
      BlankPart(geo, blank, 0, 2 * geo.area, geo.area, 2 * geo.area);
    }
    NothingLogged(geo, begun, 0);
    OpenAreaParts(geo, begun, One, 0xFFFF, []);
    AppendIsValid(geo, begun, One, [], r);
    image := CanBeWritten(Append(geo, begun, One, [], r));
    AppendDone(geo, begun, image, One, 0xFFFF, [], r);
    WrittenParts(geo, begun, image, One, [], r);
    BlankAlso(geo, begun, image, geo.First() + geo.RecordSize(r), 2 * geo.area, geo.area, 2 * geo.area);
    OpenIsSound(geo, image, One, 0xFFFF, [] + [r]);
    OneRecord(geo, r);
  }

  lemma {:induction false} Bases(geo: Geometry)
    ensures geo.Base(One) == 0 && geo.Base(Two) == geo.area && One.Other() == Two && Two.Other() == One
    ensures Alternates(One, 0xFFFF) && NextVersion(0xFFFF) == 0 && WrapAhead(One, 0xFFFF)
  {
  }

  lemma {:induction false} OneRecord(geo: Geometry, r: Record)
    requires !r.deleted
    ensures Contents([] + [r]) == map[r.key := r.data]
  {
    assert ([] + [r])[..0] == [];
  }

  /** On any device, the store reset by way of a collection at version 65535 comes back with its old
      pair at the next start-up. */
  lemma {:induction false} ResetIsLost(geo: Geometry, key: Bytes, data: Bytes) returns (before: Bytes, image: Bytes)
    requires geo.Valid() && Record(false, key, data).WellFormed()
    requires geo.First() + geo.RecordSize(Record(false, key, data)) <= geo.area
    ensures Sound(geo, before) && Pick(geo, before) == Some((One, 0xFFFF)) && Recover(geo, before) == map[key := data]
    ensures Committed(geo, before, image, One, 0xFFFF, []) && Contents([]) == map[]
    ensures Sound(geo, image) && Pick(geo, image) == Some((One, 0xFFFF)) && Recover(geo, image) == map[key := data]
  {
    hide *;
    before := LastVersion(geo, key, data);
    Bases(geo);
    NothingLogged(geo, before, geo.area);
    AreasApart(geo, One);
    BlankPart(geo, before, geo.area, 2 * geo.area, geo.area, geo.area + geo.First());
    BlankPart(geo, before, geo.area, 2 * geo.area, geo.area + geo.First(), 2 * geo.area);
    SameAsItself(before, 0, geo.area);
    GatheringParts(geo, before, before, One, []);
    OpeningIsValid(geo, before, Two, 0);
    image := CanBeWritten(Opening(geo, before, Two, 0));
    GatherCommit(geo, before, before, image, One, 0xFFFF, []);
    WrapLosesCollection(geo, before, image, One, 0xFFFF, []);
  }

  lemma {:induction false} SameAsItself(image: Bytes, from: nat, to: nat)
    requires from <= to <= |image|
    ensures SameBytes(image, image, from, to)
  {
  }

  /** Two areas of one sector of 4096 bytes with pages of 4 bytes. */
  const SMALL: Geometry := Geometry(4096, 4096, 4, 128, 0xFF)

  /** One such device and pair. */
  lemma {:induction false} ResetIsLostOnce() returns (before: Bytes, image: Bytes)
    ensures SMALL.Valid() && Sound(SMALL, before) && Pick(SMALL, before) == Some((One, 0xFFFF))
    ensures Committed(SMALL, before, image, One, 0xFFFF, [])
    ensures Recover(SMALL, before) == Recover(SMALL, image) == map[[1] := [2]] != map[]
  {
    SmallParts();
    hide *;
    before, image := ResetIsLost(SMALL, [1], [2]);
    var view: map<Bytes, Bytes> := map[[1] := [2]];
    assert [1] in view && view != map[];
  }

  lemma {:induction false} SmallParts()
    ensures SMALL.Valid() && Record(false, [1], [2]).WellFormed()
    ensures SMALL.First() + SMALL.RecordSize(Record(false, [1], [2])) <= SMALL.area
  {
  }
}
