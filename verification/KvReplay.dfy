/** Replaying an area gives back exactly the records that were appended to it, also when the
    last append, or a rewrite of the other area, was cut short. */
module KvReplay {
  import opened Arith
  import opened Crc16
  import opened LittleEndian
  import opened KvFormat
  import opened KvLog

  // ----- Layout -----

  lemma {:induction false} EndIsAligned(geo: Geometry, log: seq<Record>)
    requires geo.Valid()
    ensures End(geo, log) % geo.page == 0 && geo.First() <= End(geo, log)
  {
    if log != [] {
      var before, last := log[..|log| - 1], log[|log| - 1];
      EndIsAligned(geo, before);
      SumOfMultiples(End(geo, before), geo.RecordSize(last), geo.page);
    }
  }

  lemma {:induction false} EndOfPrefix(geo: Geometry, log: seq<Record>, i: nat)
    requires geo.page > 0 && i < |log|
    ensures End(geo, log[..i]) + geo.RecordSize(log[i]) == End(geo, log[..i + 1]) <= End(geo, log)
    decreases |log|
  {
    assert log[..i + 1][..i] == log[..i];
    if i + 1 < |log| {
      var before := log[..|log| - 1];
      EndOfPrefix(geo, before, i);
      assert before[..i] == log[..i] && before[..i + 1] == log[..i + 1];
    } else {
      assert log[..i + 1] == log;
    }
  }

  lemma {:induction false} RecordOfLog(geo: Geometry, image: Bytes, base: nat, log: seq<Record>, i: nat)
    requires geo.page > 0 && LogAt(geo, image, base, log) && i < |log|
    ensures Holds(image, base + End(geo, log[..i]), log[i])
    decreases |log|
  {
    hide Holds;
    if i + 1 < |log| {
      var before := log[..|log| - 1];
      RecordOfLog(geo, image, base, before, i);
      assert before[..i] == log[..i];
    }
  }

  lemma {:induction false} LogAlso(geo: Geometry, a: Bytes, b: Bytes, base: nat, log: seq<Record>, to: nat)
    requires geo.Valid() && LogAt(geo, a, base, log) && base + End(geo, log) <= to && SameBytes(a, b, base, to)
    ensures LogAt(geo, b, base, log)
  {
    hide Holds, SameBytes;
    if log != [] {
      var before, last := log[..|log| - 1], log[|log| - 1];
      assert geo.RecordSize(last) >= last.RawSize();
      LogAlso(geo, a, b, base, before, to);
      HoldsAlso(a, b, base, to, base + End(geo, before), last);
    }
  }

  lemma {:induction false} LogAppended(geo: Geometry, image: Bytes, base: nat, log: seq<Record>, r: Record)
    requires geo.page > 0 && LogAt(geo, image, base, log) && Holds(image, base + End(geo, log), r)
    ensures LogAt(geo, image, base, log + [r])
    ensures End(geo, log + [r]) == End(geo, log) + geo.RecordSize(r)
    ensures Contents(log + [r]) == Apply(Contents(log), r)
  {
    hide Holds;
    assert (log + [r])[..|log|] == log;
  }

  // ----- Replaying -----

  lemma {:induction false} FlagsTellDeletion(r: Record)
    requires r.WellFormed()
    ensures (HeaderOf(r).flags & DELETE_FLAG != 0) == r.deleted
  {
    hide RecordCrc;
  }

  /** The reader finds no further record at `at`. */
  ghost predicate Stops(geo: Geometry, image: Bytes, base: nat, at: nat) {
    at + HEADER_SIZE >= geo.area || !Inspect(image, base + at).Intact?
  }

  /** One step of a replay over a record that is there. */
  lemma {:induction false} ReplayStep(geo: Geometry, image: Bytes, base: nat, at: nat, r: Record)
    requires geo.Valid() && Holds(image, base + at, r) && at + geo.RecordSize(r) <= geo.area
    ensures Replay(geo, image, base, at) == [r] + Replay(geo, image, base, at + geo.RecordSize(r))
  {
    hide Holds, Inspect, HeaderOf, AlignUp;
    InspectWritten(image, base + at, r);
    RecordIsWellFormed(image, base + at, r);
    FlagsTellDeletion(r);
  }

  lemma {:induction false} ReplayEnds(geo: Geometry, image: Bytes, base: nat, at: nat)
    requires geo.Valid() && Stops(geo, image, base, at)
    ensures Replay(geo, image, base, at) == []
  {
    hide Inspect;
  }

  lemma {:induction false} ReplayFrom(geo: Geometry, image: Bytes, base: nat, log: seq<Record>, i: nat)
    requires geo.Valid() && LogAt(geo, image, base, log) && i <= |log|
    requires End(geo, log) <= geo.area && Stops(geo, image, base, End(geo, log))
    ensures Replay(geo, image, base, End(geo, log[..i])) == log[i..]
    decreases |log| - i
  {
    hide Holds, LogAt, AlignUp, Replay, Stops;
    if i == |log| {
      assert log[..i] == log && log[i..] == [];
      ReplayEnds(geo, image, base, End(geo, log));
    } else {
      RecordOfLog(geo, image, base, log, i);
      EndOfPrefix(geo, log, i);
      ReplayStep(geo, image, base, End(geo, log[..i]), log[i]);
      ReplayFrom(geo, image, base, log, i + 1);
      assert log[i..] == [log[i]] + log[i + 1..];
    }
  }

  lemma {:induction false} RecordIsWellFormed(image: Bytes, addr: nat, r: Record)
    requires Holds(image, addr, r)
    ensures r.WellFormed() && r.RawSize() > HEADER_SIZE
  {
    hide Raw;
  }

  lemma {:induction false} ReplayFindsLog(geo: Geometry, image: Bytes, base: nat, log: seq<Record>)
    requires geo.Valid() && LogAt(geo, image, base, log)
    requires End(geo, log) <= geo.area && Stops(geo, image, base, End(geo, log))
    ensures Replay(geo, image, base, geo.First()) == log
  {
    ReplayFrom(geo, image, base, log, 0);
    assert End(geo, log[..0]) == geo.First();
  }

  // ----- Where a log stops -----

  lemma {:induction false} ErasedIsSeen(geo: Geometry, image: Bytes, addr: nat)
    requires geo.Valid() && Blank(geo, image, addr, addr + HEADER_SIZE)
    ensures Inspect(image, addr) == Erased
  {
    hide Crc, RecordCrc, Byte;
    var b := image[addr..addr + HEADER_SIZE];
    assert b[0] == b[1] == b[2] == b[3] == geo.erased;
    assert b[..4] == [geo.erased, geo.erased, geo.erased, geo.erased];
    ErasedMagicNumber(geo.erased);
  }

  lemma {:induction false} ErasedMagicNumber(e: bv8)
    requires e == 0 || e == 0xFF
    ensures ErasedMagic(Nat32([e, e, e, e]))
  {
    assert [e, e, e, e][..2] == [e, e] && [e, e, e, e][2..] == [e, e];
  }

  /** The three parts a reader sees of an unfinished record. */
  lemma {:induction false} TornParts(geo: Geometry, image: Bytes, addr: nat, r: Record, m: nat)
    requires TornAt(geo, image, addr, r, m)
    ensures var k := HEADER_SIZE + |r.key|;
            && image[addr..addr + HEADER_SIZE] == EncodeHeader(HeaderOf(r))
            && image[addr + HEADER_SIZE..addr + k] == r.key
            && image[addr + k..addr + r.RawSize()] == TornData(geo, r, m)
  {
    hide Crc, RecordCrc, HeaderOf, EncodeHeader, Raw;
    var k, size := HEADER_SIZE + |r.key|, r.RawSize();
    RawParts(r);
    SliceOfSlice(image, addr, addr + m, 0, HEADER_SIZE);
    SliceOfSlice(image, addr, addr + m, HEADER_SIZE, k);
    SliceOfSlice(Raw(r), 0, m, 0, HEADER_SIZE);
    SliceOfSlice(Raw(r), 0, m, HEADER_SIZE, k);
    assert Raw(r)[0..m] == Raw(r)[..m];
    forall j | 0 <= j < size - k
      ensures image[addr + k + j] == TornData(geo, r, m)[j]
    {
      if k + j < m {
        assert image[addr + k + j] == image[addr..addr + m][k + j] == Raw(r)[..m][k + j];
        assert Raw(r)[k + j] == Raw(r)[k..size][j] == r.data[j];
      }
    }
  }

  lemma {:induction false} CollisionKeepsHeader(geo: Geometry, r: Record, m: nat)
    requires r.WellFormed() && HEADER_SIZE + |r.key| <= m <= r.RawSize() && Collides(geo, r, m)
    ensures HeaderOf(r.(data := TornData(geo, r, m))) == HeaderOf(r)
  {
    CrcIgnoresItsField(r, TornData(geo, r, m));
    hide Crc, RecordCrc;
  }

  /** An unfinished record is either refused or, if the CRC cannot tell, taken as a record with
      the erased bytes as the rest of its data. */
  lemma {:induction false} TornIsSeen(geo: Geometry, image: Bytes, addr: nat, r: Record, m: nat)
    requires TornAt(geo, image, addr, r, m)
    ensures !Collides(geo, r, m) ==> Inspect(image, addr) == Invalid
    ensures Collides(geo, r, m) ==> Holds(image, addr, r.(data := TornData(geo, r, m)))
  {
    hide Crc, RecordCrc, HeaderOf, EncodeHeader, Inspect, TornData;
    TornParts(geo, image, addr, r, m);
    var data := TornData(geo, r, m);
    assert |data| == |r.data|;
    InspectParts(image, addr, r, data);
    if Collides(geo, r, m) {
      CollisionKeepsHeader(geo, r, m);
      var k, size := HEADER_SIZE + |r.key|, r.RawSize();
      assert image[addr..addr + size]
          == image[addr..addr + HEADER_SIZE] + image[addr + HEADER_SIZE..addr + k] + image[addr + k..addr + size];
    }
  }
}
