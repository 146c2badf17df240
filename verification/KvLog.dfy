/** What a flash image of the key-value store means: which area is current, which records it
    holds, and the map of keys to values those records leave.

    Modelled code: nimble/host/kv_store/mtb_kvstore.c:150-165, 340-371 (layout),
    1006-1059 (area records), 1283-1410 (replaying an area), 1416-1510 (choosing an area). */
module KvLog {
  import opened Arith
  import opened Sequences
  import opened LittleEndian
  import opened KvFormat

  /** The two halves of the store. Addresses in this model start at the store's first byte. */
  datatype Area = One | Two {
    function Other(): Area {
      if One? then Two else One
    }
  }

  /** The block device as the store sees it: the size of an area, of an erase sector and of a
      program page, the size of the transaction buffer, and the value of an erased byte. */
  datatype Geometry = Geometry(area: nat, sector: nat, page: nat, buffer: nat, erased: bv8) {
    ghost predicate Valid()
      ensures Valid() ==> page > 0 && sector > 0 && buffer >= MIN_BUFFER_SIZE
    {
      && (erased == 0xFF || erased == 0)
      && page > 0 && sector > 0 && area % sector == 0 && area % page == 0 && sector % page == 0
      && AREA_RAW_SIZE <= sector <= area < 0x8000_0000
      && buffer >= MIN_BUFFER_SIZE && buffer % page == 0
    }

    function Base(which: Area): nat {
      if which.One? then 0 else area
    }

    /** The whole pages that a record with a key and data of these sizes takes. */
    function SizeFor(keySize: nat, dataSize: nat): (n: nat)
      requires page > 0
      ensures n == AlignUp(HEADER_SIZE + keySize + dataSize, page)
    {
      AlignUp(HEADER_SIZE + keySize + dataSize, page)
    }

    function RecordSize(r: Record): (n: nat)
      requires page > 0
      ensures r.RawSize() <= n < r.RawSize() + page
    {
      SizeFor(|r.key|, |r.data|)
    }

    /** The offset of the first record after the area record. */
    function First(): nat
      requires page > 0
    {
      AlignUp(AREA_RAW_SIZE, page)
    }
  }

  const AREA_RAW_SIZE: nat := 34

  /** The record that opens an area: its version, then the format version. */
  function AreaRecord(version: nat): (r: Record)
    requires version < 0x1_0000
    ensures r.WellFormed() && r.RawSize() == AREA_RAW_SIZE
  {
    Record(false, AREA_KEY, Le16(version) + Le16(0))
  }

  // ----- Ranges of an image -----

  ghost predicate Blank(geo: Geometry, image: Bytes, from: nat, to: nat) {
    to <= |image| && forall i :: from <= i < to ==> image[i] == geo.erased
  }

  ghost predicate SameBytes(a: Bytes, b: Bytes, from: nat, to: nat) {
    |a| == |b| && from <= to <= |a| && a[from..to] == b[from..to]
  }

  function Fill(geo: Geometry, n: nat): Bytes {
    seq(n, _ => geo.erased)
  }

  lemma {:induction false} OverlayBytes(image: Bytes, addr: nat, data: Bytes)
    requires addr + |data| <= |image|
    ensures var r := Overlay(image, addr, data);
            && r[addr..addr + |data|] == data
            && SameBytes(image, r, 0, addr) && SameBytes(image, r, addr + |data|, |image|)
  {
  }

  lemma {:induction false} OverlayElsewhere(image: Bytes, addr: nat, data: Bytes, lo: nat, hi: nat)
    requires addr + |data| <= |image| && lo <= hi <= |image| && (hi <= addr || addr + |data| <= lo)
    ensures SameBytes(image, Overlay(image, addr, data), lo, hi)
  {
    var r := Overlay(image, addr, data);
    if hi <= addr {
      SliceOfSlice(image, 0, addr, lo, hi);
      assert r[lo..hi] == image[..addr][lo..hi];
    } else {
      var end := addr + |data|;
      SliceOfSlice(image, end, |image|, lo - end, hi - end);
      assert r[lo..hi] == image[end..][lo - end..hi - end];
    }
  }

  lemma {:induction false} SameInside(a: Bytes, b: Bytes, from: nat, to: nat, lo: nat, hi: nat)
    requires SameBytes(a, b, from, to) && from <= lo <= hi <= to
    ensures SameBytes(a, b, lo, hi)
  {
    SliceOfSlice(a, from, to, lo - from, hi - from);
    SliceOfSlice(b, from, to, lo - from, hi - from);
  }

  lemma {:induction false} HoldsAlso(a: Bytes, b: Bytes, from: nat, to: nat, addr: nat, r: Record)
    requires SameBytes(a, b, from, to) && Holds(a, addr, r) && from <= addr && addr + r.RawSize() <= to
    ensures Holds(b, addr, r)
  {
    hide Raw;
    SameInside(a, b, from, to, addr, addr + r.RawSize());
  }

  lemma {:induction false} BlankAlso(geo: Geometry, a: Bytes, b: Bytes, from: nat, to: nat, lo: nat, hi: nat)
    requires SameBytes(a, b, from, to) && Blank(geo, a, lo, hi) && from <= lo && hi <= to
    ensures Blank(geo, b, lo, hi)
  {
    forall i | lo <= i < hi
      ensures b[i] == geo.erased
    {
      assert a[i] == a[from..to][i - from] == b[from..to][i - from];
    }
  }

  // ----- Logs -----

  /** The offset just past the records of `log`. */
  function End(geo: Geometry, log: seq<Record>): nat
    requires geo.page > 0
  {
    if log == [] then geo.First() else End(geo, log[..|log| - 1]) + geo.RecordSize(log[|log| - 1])
  }

  /** The records of `log` lie one after the other in the area that starts at `base`. */
  ghost predicate LogAt(geo: Geometry, image: Bytes, base: nat, log: seq<Record>)
    requires geo.page > 0
  {
    log == [] ||
    (var before, last := log[..|log| - 1], log[|log| - 1];
     LogAt(geo, image, base, before) && Holds(image, base + End(geo, before), last))
  }

  /** The values the records leave behind. */
  function Contents(log: seq<Record>): map<Bytes, Bytes> {
    if log == [] then map[] else Apply(Contents(log[..|log| - 1]), log[|log| - 1])
  }

  function Apply(view: map<Bytes, Bytes>, r: Record): map<Bytes, Bytes> {
    if r.deleted then view - {r.key} else view[r.key := r.data]
  }

  /** Every tombstone in the log deletes a key that was there. */
  ghost predicate Tidy(log: seq<Record>) {
    log == [] ||
    (var before, last := log[..|log| - 1], log[|log| - 1];
     Tidy(before) && (last.deleted ==> last.key in Contents(before)))
  }

  lemma {:induction false} TidyLonger(log: seq<Record>, r: Record)
    requires Tidy(log) && (r.deleted ==> r.key in Contents(log))
    ensures Tidy(log + [r])
  {
    assert (log + [r])[..|log|] == log;
  }

  lemma {:induction false} TidyAt(log: seq<Record>, i: nat)
    requires Tidy(log) && i < |log| && log[i].deleted
    ensures log[i].key in Contents(log[..i])
    decreases |log|
  {
    if i + 1 < |log| {
      TidyAt(log[..|log| - 1], i);
      assert log[..|log| - 1][..i] == log[..i];
    }
  }

  /** Where the latest record of every live key lies. */
  ghost function Offsets(geo: Geometry, log: seq<Record>): map<Bytes, nat>
    requires geo.page > 0
  {
    if log == [] then map[]
    else
      var before, last := log[..|log| - 1], log[|log| - 1];
      if last.deleted then Offsets(geo, before) - {last.key} else Offsets(geo, before)[last.key := End(geo, before)]
  }

  /** Replaying: the records from offset `at` on, up to the first that cannot be used. */
  function Replay(geo: Geometry, image: Bytes, base: nat, at: nat): seq<Record>
    requires geo.page > 0
    decreases if at < geo.area then geo.area - at else 0
  {
    if at + HEADER_SIZE >= geo.area then []
    else
      match Inspect(image, base + at)
      case Intact(h, key, data) =>
        var r := Record(h.flags & DELETE_FLAG != 0, key, data);
        [r] + Replay(geo, image, base, at + geo.RecordSize(r))
      case _ => []
  }

  // ----- Which area is current -----

  /** The version of the area at `base`, if its area record is complete. */
  function AreaVersion(image: Bytes, base: nat): (v: Option<nat>)
    ensures v.Some? ==> v.value < 0x1_0000
  {
    match Inspect(image, base)
    case Intact(_, key, data) => if key == AREA_KEY && |data| == 4 then Some(Nat16(data[..2])) else None
    case _ => None
  }

  /** The area that start-up makes current, with its version. */
  function Pick(geo: Geometry, image: Bytes): Option<(Area, nat)> {
    match (AreaVersion(image, geo.Base(One)), AreaVersion(image, geo.Base(Two)))
    case (Some(v1), Some(v2)) => if v1 > v2 || v1 == 0 then Some((One, v1)) else Some((Two, v2))
    case (Some(v1), None) => Some((One, v1))
    case (None, Some(v2)) => Some((Two, v2))
    case (None, None) => None
  }

  /** The map a start-up from this image recovers. */
  function Recover(geo: Geometry, image: Bytes): map<Bytes, Bytes>
    requires geo.page > 0
  {
    match Pick(geo, image)
    case None => map[]
    case Some((which, _)) => Contents(Replay(geo, image, geo.Base(which), geo.First()))
  }

  // ----- Interrupted writes -----

  /** The data a record shows when only the first `m` of its bytes were programmed. */
  function TornData(geo: Geometry, r: Record, m: nat): Bytes
    requires HEADER_SIZE + |r.key| <= m <= r.RawSize()
  {
    r.data[..m - HEADER_SIZE - |r.key|] + Fill(geo, r.RawSize() - m)
  }

  /** The unfinished record passes for a finished one. */
  predicate Collides(geo: Geometry, r: Record, m: nat)
    requires r.WellFormed() && HEADER_SIZE + |r.key| <= m <= r.RawSize()
  {
    RecordCrc(HeaderOf(r), r.key, TornData(geo, r, m)) as nat == HeaderOf(r).crc
  }

  /** Only the first `m` bytes of `r` were programmed at `addr`; the rest is still erased. */
  ghost predicate TornAt(geo: Geometry, image: Bytes, addr: nat, r: Record, m: nat)
    ensures TornAt(geo, image, addr, r, m) ==> r.WellFormed() && HEADER_SIZE + |r.key| <= m <= r.RawSize()
  {
    && r.WellFormed() && HEADER_SIZE + |r.key| <= m <= r.RawSize() && addr + r.RawSize() <= |image|
    && image[addr..addr + m] == Raw(r)[..m]
    && Blank(geo, image, addr + m, addr + r.RawSize())
  }
}
