/** What the CRC is for: a record of which one byte has changed is refused.

    Modelled code: nimble/host/kv_store/mtb_kvstore.c:144-191 (the layout of a header), 378-392 (the CRC),
    520-570 (what it is taken over), 637-764 (checking it). */
module KvDamage {
  import opened LittleEndian
  import opened Crc16
  import opened KvFormat

  // ----- The CRC tells messages apart that differ in one byte -----

  predicate Top(c: bv16) {
    c & 0x8000 != 0
  }

  predicate Odd(c: bv16) {
    c & 1 != 0
  }

  /** The polynomial is odd, so the lowest bit tells whether it was added. */
  lemma {:induction false} LowestBit(c: bv16)
    ensures Odd(ShiftBit(c)) <==> Top(c)
  {
  }

  function Doubled(c: bv16): bv16 {
    c << 1
  }

  function Added(c: bv16): bv16 {
    c ^ 0x1021
  }

  lemma {:induction false} ShiftIs(c: bv16)
    ensures ShiftBit(c) == if Top(c) then Added(Doubled(c)) else Doubled(c)
  {
  }

  lemma {:induction false} DoubledTells(c: bv16, d: bv16)
    requires Doubled(c) == Doubled(d) && Top(c) == Top(d)
    ensures c == d
  {
  }

  lemma {:induction false} AddedTwice(c: bv16)
    ensures Added(Added(c)) == c
  {
  }

  lemma {:induction false} SameTop(c: bv16, d: bv16)
    requires Top(c) == Top(d) && ShiftBit(c) == ShiftBit(d)
    ensures c == d
  {
    hide *;
    ShiftIs(c);
    ShiftIs(d);
    AddedTwice(Doubled(c));
    AddedTwice(Doubled(d));
    DoubledTells(c, d);
  }

  lemma {:induction false} ShiftTells(c: bv16, d: bv16)
    ensures ShiftBit(c) == ShiftBit(d) ==> c == d
  {
    hide *;
    if ShiftBit(c) == ShiftBit(d) {
      LowestBit(c);
      LowestBit(d);
      SameTop(c, d);
    }
  }

  lemma {:induction false} ShiftsTell(c: bv16, d: bv16, n: nat)
    ensures ShiftBits(c, n) == ShiftBits(d, n) ==> c == d
  {
    if n > 0 {
      ShiftTells(ShiftBits(c, n - 1), ShiftBits(d, n - 1));
      ShiftsTell(c, d, n - 1);
    }
  }

  /** A byte put into the upper half of the register. */
  function Mixed(c: bv16, b: bv8): bv16 {
    c ^ ((b as bv16) << 8)
  }

  lemma {:induction false} MixedTwice(c: bv16, b: bv8)
    ensures Mixed(Mixed(c, b), b) == c && (((Mixed(c, b) ^ c) >> 8) & 0xFF) as bv8 == b
  {
  }

  lemma {:induction false} FeedIs(c: bv16, b: bv8)
    ensures Feed(c, b) == ShiftBits(Mixed(c, b), 8)
  {
    hide ShiftBits;
  }

  /** Registers that differ still differ after the same byte, and after different bytes. */
  lemma {:induction false} FeedTells(c: bv16, d: bv16, a: bv8, b: bv8)
    ensures c != d ==> Feed(c, a) != Feed(d, a)
    ensures a != b ==> Feed(c, a) != Feed(c, b)
  {
    hide *;
    FeedIs(c, a);
    FeedIs(d, a);
    FeedIs(c, b);
    MixedTwice(c, a);
    MixedTwice(d, a);
    MixedTwice(c, b);
    ShiftsTell(Mixed(c, a), Mixed(d, a), 8);
    ShiftsTell(Mixed(c, a), Mixed(c, b), 8);
  }

  lemma {:induction false} CrcTells(data: Bytes, c: bv16, d: bv16)
    requires c != d
    ensures Crc(data, c) != Crc(data, d)
  {
    if data != [] {
      hide Feed;
      var before := data[..|data| - 1];
      CrcTells(before, c, d);
      FeedTells(Crc(before, c), Crc(before, d), data[|data| - 1], 0);
    }
  }

  /** Changing one byte changes the CRC. */
  lemma {:induction false} ChangeShows(data: Bytes, i: nat, b: bv8, init: bv16)
    requires i < |data| && b != data[i]
    ensures Crc(data[i := b], init) != Crc(data, init)
  {
    hide Feed, Crc;
    var before, behind := data[..i], data[i + 1..];
    assert data == (before + [data[i]]) + behind && data[i := b] == (before + [b]) + behind;
    CrcOfConcatenation(before + [data[i]], behind, init);
    CrcOfConcatenation(before + [b], behind, init);
    CrcOfConcatenation(before, [data[i]], init);
    CrcOfConcatenation(before, [b], init);
    var c := Crc(before, init);
    CrcOfOne(data[i], c);
    CrcOfOne(b, c);
    FeedTells(c, c, data[i], b);
    CrcTells(behind, Crc([data[i]], c), Crc([b], c));
  }

  lemma {:induction false} CrcOfOne(b: bv8, c: bv16)
    ensures Crc([b], c) == Feed(c, b)
  {
    hide Feed;
    assert [b][..0] == [];
  }

  // ----- Headers -----

  /** The header read when byte `i` of it is `b`. */
  lemma {:induction false} HeaderChanged(bytes: Bytes, i: nat, b: bv8)
    requires |bytes| == HEADER_SIZE && i < HEADER_SIZE
    ensures var h, g := DecodeHeader(bytes), DecodeHeader(bytes[i := b]);
            && (i < 4 ==> g == h.(magic := Nat32(bytes[..4][i := b])))
            && (i == 4 ==> g == h.(formatVersion := b))
            && (i == 5 ==> g == h.(flags := b))
            && (10 <= i < 12 ==> g == h)
            && (16 <= i ==> g == h.(crc := Nat32(bytes[16..][i - 16 := b])))
  {
    hide Nat16, Nat32;
    var c := bytes[i := b];
    assert c[..4] == if i < 4 then bytes[..4][i := b] else bytes[..4];
    assert 6 <= i < 8 || c[6..8] == bytes[6..8];
    assert 8 <= i < 10 || c[8..10] == bytes[8..10];
    assert 12 <= i < 16 || c[12..16] == bytes[12..16];
    assert c[16..] == if 16 <= i then bytes[16..][i - 16 := b] else bytes[16..];
  }

  /** A magic number with one byte changed is neither the right one nor that of erased flash. */
  lemma {:induction false} MagicShows(bytes: Bytes, i: nat, b: bv8)
    requires |bytes| == 4 && Nat32(bytes) == MAGIC && i < 4 && b != bytes[i]
    ensures Nat32(bytes[i := b]) != MAGIC && !ErasedMagic(Nat32(bytes[i := b]))
  {
    hide *;
    var c := bytes[i := b];
    Nat32Tells(bytes, i, b);
    Nat32Bytes(bytes);
    Nat32Bytes(c);
    Digits(Value(bytes[0]), Value(bytes[1]), Value(bytes[2]), Value(bytes[3]));
    Digits(Value(c[0]), Value(c[1]), Value(c[2]), Value(c[3]));
    ErasedMagicIs(Nat32(c));
    if i == 0 {
      assert c[1] == bytes[1];
    } else {
      assert c[0] == bytes[0];
    }
  }

  lemma {:induction false} ErasedMagicIs(magic: nat)
    ensures ErasedMagic(magic) ==> magic == 0xFFFF_FFFF || magic == 0
  {
  }

  lemma {:induction false} Digits(a: nat, b: nat, c: nat, d: nat)
    requires a < 256 && b < 256 && c < 256 && d < 256
    ensures var n := a + 0x100 * b + 0x1_0000 * c + 0x100_0000 * d;
            && (n == MAGIC ==> a == 0xCE && b == 0xFA)
            && (n == 0xFFFF_FFFF ==> a == 0xFF && b == 0xFF)
            && (n == 0 ==> a == 0 && b == 0)
  {
  }

  /** The CRC covers the format version and the flags. */
  lemma {:induction false} HeaderCrcShows(h: Header, g: Header, init: bv16)
    requires h.InRange() && g == h.(formatVersion := g.formatVersion, flags := g.flags)
    requires (g.formatVersion != h.formatVersion) != (g.flags != h.flags)
    ensures HeaderCrc(g, init) != HeaderCrc(h, init)
  {
    hide Crc, Le16, Le32;
    var m := Crc(Le32(h.magic), init);
    var v, w := Crc([h.formatVersion], m), Crc([g.formatVersion], m);
    assert [h.formatVersion][0 := g.formatVersion] == [g.formatVersion] && [h.flags][0 := g.flags] == [g.flags];
    if g.formatVersion != h.formatVersion {
      ChangeShows([h.formatVersion], 0, g.formatVersion, m);
      CrcTells([h.flags], v, w);
    } else {
      ChangeShows([h.flags], 0, g.flags, v);
    }
    var a, c := Crc([h.flags], v), Crc([g.flags], w);
    CrcTells(Le16(h.headerSize), a, c);
    a, c := Crc(Le16(h.headerSize), a), Crc(Le16(h.headerSize), c);
    CrcTells(Le16(h.keySize), a, c);
    a, c := Crc(Le16(h.keySize), a), Crc(Le16(h.keySize), c);
    CrcTells(Le32(h.dataSize), a, c);
  }

  function Number(c: bv16): (n: nat)
    ensures n < 0x1_0000
  {
    c as nat
  }

  function Register(n: nat): bv16
    requires n < 0x1_0000
  {
    n as bv16
  }

  lemma {:induction false} NumberOf(c: bv16)
    ensures Register(Number(c)) == c && Number(c) == c as nat
  {
  }

  lemma {:induction false} NatTells(c: bv16, d: bv16)
    requires c != d
    ensures c as nat != d as nat
  {
    hide *;
    NumberOf(c);
    NumberOf(d);
  }

  lemma {:induction false} RecordCrcShows(h: Header, g: Header, key: Bytes, data: Bytes)
    requires h.InRange() && g.InRange() && HeaderCrc(g, CRC_INIT) != HeaderCrc(h, CRC_INIT)
    ensures RecordCrc(g, key, data) as nat != RecordCrc(h, key, data) as nat
  {
    hide Crc, HeaderCrc;
    CrcTells(key, HeaderCrc(h, CRC_INIT), HeaderCrc(g, CRC_INIT));
    CrcTells(data, Crc(key, HeaderCrc(h, CRC_INIT)), Crc(key, HeaderCrc(g, CRC_INIT)));
    NatTells(RecordCrc(g, key, data), RecordCrc(h, key, data));
  }

  /** It covers the key and the data. */
  lemma {:induction false} BodyShows(h: Header, key: Bytes, data: Bytes, i: nat, b: bv8)
    requires h.InRange()
    ensures i < |key| && b != key[i] ==> RecordCrc(h, key[i := b], data) as nat != RecordCrc(h, key, data) as nat
    ensures i < |data| && b != data[i] ==> RecordCrc(h, key, data[i := b]) as nat != RecordCrc(h, key, data) as nat
  {
    hide Crc, HeaderCrc;
    var c := HeaderCrc(h, CRC_INIT);
    if i < |key| && b != key[i] {
      ChangeShows(key, i, b, c);
      CrcTells(data, Crc(key[i := b], c), Crc(key, c));
      NatTells(RecordCrc(h, key[i := b], data), RecordCrc(h, key, data));
    }
    if i < |data| && b != data[i] {
      ChangeShows(data, i, b, Crc(key, c));
      NatTells(RecordCrc(h, key, data[i := b]), RecordCrc(h, key, data));
    }
  }

  // ----- What lies on flash -----

  lemma {:induction false} WrittenHeader(r: Record)
    requires r.WellFormed()
    ensures var h, bytes := HeaderOf(r), EncodeHeader(HeaderOf(r));
            && h.InRange() && DecodeHeader(bytes) == h && h.crc == RecordCrc(h, r.key, r.data) as nat
            && h.magic == MAGIC && h.headerSize == HEADER_SIZE && h.keySize == |r.key| && h.dataSize == |r.data|
            && Nat32(bytes[..4]) == h.magic && Nat32(bytes[16..]) == h.crc
  {
    HeaderRoundTrip(HeaderOf(r));
    CrcIgnoresItsField(r, r.data);
    hide Crc, RecordCrc, EncodeHeader, Nat16, Nat32;
  }

  lemma {:induction false} HeaderSlices(h: Header)
    requires h.InRange()
    ensures var b := EncodeHeader(h);
            && b[..4] == Le32(h.magic) && b[4] == h.formatVersion && b[5] == h.flags && b[6..8] == Le16(h.headerSize)
            && b[8..10] == Le16(h.keySize) && b[10..12] == [0, 0] && b[12..16] == Le32(h.dataSize)
            && b[16..] == Le32(h.crc)
  {
    hide Le16, Le32;
  }

  /** The CRC taken field by field is that of the bytes of the header but its padding and its CRC. */
  lemma {:induction false} HeaderCrcIs(h: Header, init: bv16)
    requires h.InRange()
    ensures var b := EncodeHeader(h); HeaderCrc(h, init) == Crc(b[..10] + b[12..16], init)
  {
    HeaderSlices(h);
    var b := EncodeHeader(h);
    hide Crc, Le16, Le32, EncodeHeader;
    CrcOfConcatenation(b[..4], [b[4]], init);
    CrcOfConcatenation(b[..4] + [b[4]], [b[5]], init);
    CrcOfConcatenation(b[..4] + [b[4]] + [b[5]], b[6..8], init);
    CrcOfConcatenation(b[..4] + [b[4]] + [b[5]] + b[6..8], b[8..10], init);
    assert b[..4] + [b[4]] + [b[5]] + b[6..8] + b[8..10] == b[..10];
    CrcOfConcatenation(b[..10], b[12..16], init);
  }

  /** A header as it lies on flash: where each field is, in little-endian order. */
  lemma {:induction false} HeaderLayout(h: Header)
    requires h.InRange()
    ensures var b := EncodeHeader(h);
            && |b| == 20 && Nat32(b[..4]) == h.magic && b[4] == h.formatVersion && b[5] == h.flags
            && Nat16(b[6..8]) == h.headerSize && Nat16(b[8..10]) == h.keySize && b[10..12] == [0, 0]
            && Nat32(b[12..16]) == h.dataSize && Nat32(b[16..]) == h.crc
  {
    HeaderSlices(h);
    hide Le16, Le32, Nat16, Nat32, EncodeHeader;
    Le32RoundTrip(h.magic);
    Le16RoundTrip(h.headerSize);
    Le16RoundTrip(h.keySize);
    Le32RoundTrip(h.dataSize);
    Le32RoundTrip(h.crc);
  }

  /** The CRC in a record's header is that of all its bytes but the padding and the CRC itself. */
  lemma {:induction false} CrcLayout(r: Record)
    requires r.WellFormed()
    ensures var b := EncodeHeader(HeaderOf(r));
            Nat32(b[16..]) == Number(Crc(b[..10] + b[12..16] + r.key + r.data, 0xFFFF))
  {
    var h := HeaderOf(r);
    WrittenHeader(r);
    HeaderCrcIs(h, CRC_INIT);
    var b := EncodeHeader(h);
    hide Crc, Le16, Le32, Nat16, Nat32, EncodeHeader, HeaderCrc, HeaderOf;
    CrcOfConcatenation(b[..10] + b[12..16], r.key, CRC_INIT);
    CrcOfConcatenation(b[..10] + b[12..16] + r.key, r.data, CRC_INIT);
    NumberOf(RecordCrc(h, r.key, r.data));
  }

  // ----- Damaged records -----

  /** The bytes at `addr` and what they are when byte `i` of a stored record is `b`. */
  lemma {:induction false} DamagedParts(image: Bytes, addr: nat, r: Record, i: nat, b: bv8)
    requires Holds(image, addr, r) && i < r.RawSize()
    ensures var g, n, k := image[addr + i := b], HEADER_SIZE, HEADER_SIZE + |r.key|;
            && addr + r.RawSize() <= |image| == |g|
            && g[addr..addr + n] == (if i < n then EncodeHeader(HeaderOf(r))[i := b] else EncodeHeader(HeaderOf(r)))
            && g[addr + n..addr + k] == (if n <= i < k then r.key[i - n := b] else r.key)
            && g[addr + k..addr + r.RawSize()] == (if k <= i then r.data[i - k := b] else r.data)
  {
    StoredParts(image, addr, r);
    hide Raw, EncodeHeader, HeaderOf, Holds;
    var size, n, k := r.RawSize(), HEADER_SIZE, HEADER_SIZE + |r.key|;
    Changed(image, addr + i, b, addr, addr + n);
    Changed(image, addr + i, b, addr + n, addr + k);
    Changed(image, addr + i, b, addr + k, addr + size);
  }

  lemma {:induction false} StoredParts(image: Bytes, addr: nat, r: Record)
    requires Holds(image, addr, r)
    ensures var n, k := HEADER_SIZE, HEADER_SIZE + |r.key|;
            && r.WellFormed() && addr + r.RawSize() <= |image| && n <= k <= r.RawSize()
            && image[addr..addr + n] == EncodeHeader(HeaderOf(r))
            && image[addr + n..addr + k] == r.key && image[addr + k..addr + r.RawSize()] == r.data
  {
    hide Raw, EncodeHeader, HeaderOf;
    var size, n, k := r.RawSize(), HEADER_SIZE, HEADER_SIZE + |r.key|;
    RawParts(r);
    SliceOfSlice(image, addr, addr + size, 0, n);
    SliceOfSlice(image, addr, addr + size, n, k);
    SliceOfSlice(image, addr, addr + size, k, size);
  }

  lemma {:induction false} Changed(f: Bytes, i: nat, b: bv8, from: nat, to: nat)
    requires i < |f| && from <= to <= |f|
    ensures f[i := b][from..to] == if from <= i < to then f[from..to][i - from := b] else f[from..to]
  {
  }

  /** What a reader makes of a header with the sizes of `r`, a key and data. */
  lemma {:induction false} InspectSized(image: Bytes, addr: nat, r: Record, key: Bytes, data: Bytes)
    requires r.WellFormed() && |key| == |r.key| && |data| == |r.data| && addr + r.RawSize() <= |image|
    requires image[addr + HEADER_SIZE..addr + HEADER_SIZE + |r.key|] == key
    requires image[addr + HEADER_SIZE + |r.key|..addr + r.RawSize()] == data
    ensures var h := DecodeHeader(image[addr..addr + HEADER_SIZE]);
            && h.InRange()
            && (h.headerSize == HEADER_SIZE && h.keySize == |r.key| && h.dataSize == |r.data| ==>
                Inspect(image, addr) == if ErasedMagic(h.magic) then Erased
                                        else if h.magic == MAGIC && h.crc == RecordCrc(h, key, data) as nat
                                        then Intact(h, key, data) else Invalid)
  {
    hide RecordCrc, Nat16, Nat32;
  }

  /** `g`, read with the sizes of `r`, does not go with its key and data. */
  predicate Refused(g: Header, r: Record) {
    && g.InRange() && g.headerSize == HEADER_SIZE && g.keySize == |r.key| && g.dataSize == |r.data|
    && !ErasedMagic(g.magic) && (g.magic != MAGIC || g.crc != RecordCrc(g, r.key, r.data) as nat)
  }

  lemma {:induction false} MagicRefused(r: Record, i: nat, b: bv8)
    requires r.WellFormed() && i < 4 && b != EncodeHeader(HeaderOf(r))[i]
    ensures Refused(DecodeHeader(EncodeHeader(HeaderOf(r))[i := b]), r)
  {
    hide HeaderOf, EncodeHeader, DecodeHeader, RecordCrc, Nat32;
    var bytes := EncodeHeader(HeaderOf(r));
    WrittenHeader(r);
    HeaderChanged(bytes, i, b);
    MagicShows(bytes[..4], i, b);
  }

  lemma {:induction false} FieldRefused(r: Record, i: nat, b: bv8)
    requires r.WellFormed() && 4 <= i < 6 && b != EncodeHeader(HeaderOf(r))[i]
    ensures Refused(DecodeHeader(EncodeHeader(HeaderOf(r))[i := b]), r)
  {
    hide HeaderOf, EncodeHeader, DecodeHeader, RecordCrc, HeaderCrc, Nat32;
    var h, bytes := HeaderOf(r), EncodeHeader(HeaderOf(r));
    WrittenHeader(r);
    HeaderChanged(bytes, i, b);
    FieldBytes(r);
    var g := DecodeHeader(bytes[i := b]);
    HeaderCrcShows(h, g, CRC_INIT);
    RecordCrcShows(h, g, r.key, r.data);
  }

  lemma {:induction false} CrcRefused(r: Record, i: nat, b: bv8)
    requires r.WellFormed() && 16 <= i < HEADER_SIZE && b != EncodeHeader(HeaderOf(r))[i]
    ensures Refused(DecodeHeader(EncodeHeader(HeaderOf(r))[i := b]), r)
  {
    hide HeaderOf, EncodeHeader, DecodeHeader, RecordCrc, HeaderCrc, Nat32;
    var bytes := EncodeHeader(HeaderOf(r));
    WrittenHeader(r);
    HeaderChanged(bytes, i, b);
    Nat32Tells(bytes[16..], i - 16, b);
    CrcFieldIgnored(HeaderOf(r), Nat32(bytes[16..][i - 16 := b]), r.key, r.data);
  }

  lemma {:induction false} FieldBytes(r: Record)
    requires r.WellFormed()
    ensures var bytes := EncodeHeader(HeaderOf(r));
            bytes[4] == HeaderOf(r).formatVersion && bytes[5] == HeaderOf(r).flags
  {
    hide Crc, RecordCrc, Le16, Le32;
  }

  lemma {:induction false} CrcFieldIgnored(h: Header, crc: nat, key: Bytes, data: Bytes)
    requires h.InRange() && crc < 0x1_0000_0000
    ensures h.(crc := crc).InRange() && RecordCrc(h.(crc := crc), key, data) == RecordCrc(h, key, data)
  {
    hide Crc, Le16, Le32;
  }

  lemma {:induction false} RefusedIsInvalid(image: Bytes, addr: nat, r: Record, g: Header)
    requires Refused(g, r) && r.WellFormed() && addr + r.RawSize() <= |image|
    requires DecodeHeader(image[addr..addr + HEADER_SIZE]) == g
    requires image[addr + HEADER_SIZE..addr + HEADER_SIZE + |r.key|] == r.key
    requires image[addr + HEADER_SIZE + |r.key|..addr + r.RawSize()] == r.data
    ensures Inspect(image, addr) == Invalid
  {
    hide DecodeHeader, RecordCrc, Inspect;
    InspectSized(image, addr, r, r.key, r.data);
  }

  lemma {:induction false} HeaderDamage(image: Bytes, addr: nat, r: Record, i: nat, b: bv8)
    requires Holds(image, addr, r) && (i < 6 || 16 <= i < HEADER_SIZE) && b != image[addr + i]
    ensures Inspect(image[addr + i := b], addr) == Invalid
  {
    hide HeaderOf, EncodeHeader, DecodeHeader, RecordCrc, Inspect, Raw, Holds, Refused;
    DamagedParts(image, addr, r, i, b);
    StoredByte(image, addr, r, i);
    StoredParts(image, addr, r);
    if i < 4 {
      MagicRefused(r, i, b);
    } else if i < 6 {
      FieldRefused(r, i, b);
    } else {
      CrcRefused(r, i, b);
    }
    RefusedIsInvalid(image[addr + i := b], addr, r, DecodeHeader(EncodeHeader(HeaderOf(r))[i := b]));
  }

  lemma {:induction false} KeyDamage(image: Bytes, addr: nat, r: Record, i: nat, b: bv8)
    requires Holds(image, addr, r) && HEADER_SIZE <= i < HEADER_SIZE + |r.key| && b != image[addr + i]
    ensures Inspect(image[addr + i := b], addr) == Invalid
  {
    hide HeaderOf, EncodeHeader, DecodeHeader, RecordCrc, Inspect, Raw, Holds;
    DamagedParts(image, addr, r, i, b);
    StoredByte(image, addr, r, i);
    StoredParts(image, addr, r);
    WrittenHeader(r);
    BodyShows(HeaderOf(r), r.key, r.data, i - HEADER_SIZE, b);
    OtherIsInvalid(image[addr + i := b], addr, r, r.key[i - HEADER_SIZE := b], r.data);
  }

  lemma {:induction false} DataDamage(image: Bytes, addr: nat, r: Record, i: nat, b: bv8)
    requires Holds(image, addr, r) && HEADER_SIZE + |r.key| <= i < r.RawSize() && b != image[addr + i]
    ensures Inspect(image[addr + i := b], addr) == Invalid
  {
    hide HeaderOf, EncodeHeader, DecodeHeader, RecordCrc, Inspect, Raw, Holds;
    DamagedParts(image, addr, r, i, b);
    StoredByte(image, addr, r, i);
    StoredParts(image, addr, r);
    WrittenHeader(r);
    BodyShows(HeaderOf(r), r.key, r.data, i - HEADER_SIZE - |r.key|, b);
    OtherIsInvalid(image[addr + i := b], addr, r, r.key, r.data[i - HEADER_SIZE - |r.key| := b]);
  }

  /** The header of `r` with another key or other data. */
  lemma {:induction false} OtherIsInvalid(image: Bytes, addr: nat, r: Record, key: Bytes, data: Bytes)
    requires r.WellFormed() && |key| == |r.key| && |data| == |r.data| && addr + r.RawSize() <= |image|
    requires image[addr..addr + HEADER_SIZE] == EncodeHeader(HeaderOf(r))
    requires image[addr + HEADER_SIZE..addr + HEADER_SIZE + |r.key|] == key
    requires image[addr + HEADER_SIZE + |r.key|..addr + r.RawSize()] == data
    requires RecordCrc(HeaderOf(r), key, data) as nat != RecordCrc(HeaderOf(r), r.key, r.data) as nat
    ensures Inspect(image, addr) == Invalid
  {
    hide HeaderOf, EncodeHeader, DecodeHeader, RecordCrc, Inspect, Nat32;
    WrittenHeader(r);
    InspectSized(image, addr, r, key, data);
  }

  /** A record of which one byte has changed is refused, whichever byte of the magic number, the format
      version, the flags, the CRC, the key or the data it is. */
  lemma {:induction false} DamageIsSeen(image: Bytes, addr: nat, r: Record, i: nat, b: bv8)
    requires Holds(image, addr, r) && (i < 6 || 16 <= i < r.RawSize()) && b != image[addr + i]
    ensures Inspect(image[addr + i := b], addr) == Invalid
  {
    hide Holds, Inspect;
    if i < HEADER_SIZE {
      HeaderDamage(image, addr, r, i, b);
    } else if i < HEADER_SIZE + |r.key| {
      KeyDamage(image, addr, r, i, b);
    } else {
      DataDamage(image, addr, r, i, b);
    }
  }

  lemma {:induction false} StoredByte(image: Bytes, addr: nat, r: Record, i: nat)
    requires Holds(image, addr, r) && i < r.RawSize()
    ensures addr + i < |image|
    ensures image[addr + i] == if i < HEADER_SIZE then EncodeHeader(HeaderOf(r))[i]
                               else if i < HEADER_SIZE + |r.key| then r.key[i - HEADER_SIZE]
                               else r.data[i - HEADER_SIZE - |r.key|]
  {
    hide HeaderOf, EncodeHeader;
    assert image[addr + i] == image[addr..addr + r.RawSize()][i] == Raw(r)[i];
  }

  /** The two bytes of padding are not covered: whatever they are, the record is accepted. */
  lemma {:induction false} PaddingIsIgnored(image: Bytes, addr: nat, r: Record, i: nat, b: bv8)
    requires Holds(image, addr, r) && 10 <= i < 12
    ensures Inspect(image[addr + i := b], addr) == Intact(HeaderOf(r), r.key, r.data)
  {
    var g, n := image[addr + i := b], HEADER_SIZE;
    DamagedParts(image, addr, r, i, b);
    WrittenHeader(r);
    HeaderChanged(EncodeHeader(HeaderOf(r)), i, b);
    hide HeaderOf, EncodeHeader, DecodeHeader, RecordCrc, Inspect, Raw, Nat32;
    InspectSized(g, addr, r, r.key, r.data);
  }
}
