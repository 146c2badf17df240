/** Record layout of the key-value store: a 20-byte little-endian header, the key, the data.

    Modelled code: nimble/host/kv_store/mtb_kvstore.c:144-191 (constants and structures),
    319-371 (sizes), 520-570 (CRC), 637-764 (reading), 860-884 (building a header). */
module KvFormat {
  import opened Crc16
  import opened LittleEndian

  const MAGIC: nat := 0xFACE_FACE
  const ERASED_MAGIC: nat := 0xFFFF_FFFF
  const FORMAT_VERSION: bv8 := 0
  const DELETE_FLAG: bv8 := 0x80
  const HEADER_SIZE: nat := 20
  const MAX_KEY_SIZE: nat := 64
  const CRC_INIT: bv16 := 0xFFFF
  const MIN_BUFFER_SIZE: nat := 128

  /** "MTBAREAIDX", the key of the record that opens an area. */
  const AREA_KEY: Bytes := [0x4D, 0x54, 0x42, 0x41, 0x52, 0x45, 0x41, 0x49, 0x44, 0x58]

  // ----- Headers -----

  /** The fields of a record header. The two bytes between key size and data size are padding. */
  datatype Header = Header(magic: nat, formatVersion: bv8, flags: bv8, headerSize: nat,
                           keySize: nat, dataSize: nat, crc: nat) {
    predicate InRange() {
      && magic < 0x1_0000_0000 && headerSize < 0x1_0000 && keySize < 0x1_0000
      && dataSize < 0x1_0000_0000 && crc < 0x1_0000_0000
    }
  }

  function EncodeHeader(h: Header): (b: Bytes)
    requires h.InRange()
    ensures |b| == HEADER_SIZE
  {
    Le32(h.magic) + [h.formatVersion, h.flags] + Le16(h.headerSize) + Le16(h.keySize) + [0, 0]
    + Le32(h.dataSize) + Le32(h.crc)
  }

  function DecodeHeader(b: Bytes): Header
    requires |b| == HEADER_SIZE
  {
    Header(Nat32(b[..4]), b[4], b[5], Nat16(b[6..8]), Nat16(b[8..10]), Nat32(b[12..16]), Nat32(b[16..]))
  }

  lemma {:induction false} HeaderRoundTrip(h: Header)
    requires h.InRange()
    ensures DecodeHeader(EncodeHeader(h)) == h
  {
    hide Crc, Le16, Le32, Nat16, Nat32;
    var b := EncodeHeader(h);
    assert b[..4] == Le32(h.magic);
    assert b[6..8] == Le16(h.headerSize);
    assert b[8..10] == Le16(h.keySize);
    assert b[12..16] == Le32(h.dataSize);
    assert b[16..] == Le32(h.crc);
    Le32RoundTrip(h.magic);
    Le16RoundTrip(h.headerSize);
    Le16RoundTrip(h.keySize);
    Le32RoundTrip(h.dataSize);
    Le32RoundTrip(h.crc);
  }

  /** The CRC of every header field but the CRC itself, field by field. */
  function HeaderCrc(h: Header, init: bv16): bv16
    requires h.InRange()
  {
    Crc(Le32(h.dataSize), Crc(Le16(h.keySize), Crc(Le16(h.headerSize),
      Crc([h.flags], Crc([h.formatVersion], Crc(Le32(h.magic), init))))))
  }

  function RecordCrc(h: Header, key: Bytes, data: Bytes): bv16
    requires h.InRange()
  {
    Crc(data, Crc(key, HeaderCrc(h, CRC_INIT)))
  }

  // ----- Records -----

  datatype Record = Record(deleted: bool, key: Bytes, data: Bytes) {
    predicate WellFormed()
      ensures WellFormed() ==> 0 < |key| < MAX_KEY_SIZE
    {
      0 < |key| < MAX_KEY_SIZE && |data| < 0x1_0000_0000
    }

    function RawSize(): (n: nat)
      ensures n >= HEADER_SIZE + |key|
    {
      HEADER_SIZE + |key| + |data|
    }
  }

  function HeaderOf(r: Record): (h: Header)
    requires r.WellFormed()
    ensures h.InRange()
  {
    var h := Header(MAGIC, FORMAT_VERSION, if r.deleted then DELETE_FLAG else 0, HEADER_SIZE, |r.key|, |r.data|, 0);
    h.(crc := RecordCrc(h, r.key, r.data) as nat)
  }

  /** The bytes a record occupies, before padding to a page boundary. */
  function Raw(r: Record): (b: Bytes)
    requires r.WellFormed()
    ensures |b| == r.RawSize()
  {
    EncodeHeader(HeaderOf(r)) + r.key + r.data
  }

  // ----- Reading a record back from flash -----

  datatype Verdict =
    | Erased                                        // no record was started here
    | Invalid                                       // damaged: wrong magic, key size or CRC
    | Unreadable                                    // the header points outside the store
    | Intact(header: Header, key: Bytes, data: Bytes)

  predicate ErasedMagic(magic: nat) {
    magic == ERASED_MAGIC || magic == 0
  }

  /** What the store makes of the bytes at `addr` when it reads a whole record. */
  function Inspect(image: Bytes, addr: nat): Verdict {
    if addr + HEADER_SIZE > |image| then Unreadable
    else
      var h := DecodeHeader(image[addr..addr + HEADER_SIZE]);
      if ErasedMagic(h.magic) then Erased
      else if h.magic != MAGIC || h.keySize == 0 || h.keySize >= MAX_KEY_SIZE then Invalid
      else if addr + h.headerSize + h.keySize + h.dataSize > |image| then Unreadable
      else
        var at := addr + h.headerSize;
        var key, data := image[at..at + h.keySize], image[at + h.keySize..at + h.keySize + h.dataSize];
        if h.crc == RecordCrc(h, key, data) as nat then Intact(h, key, data) else Invalid
  }

  /** `r` is stored at `addr`. */
  predicate Holds(image: Bytes, addr: nat, r: Record) {
    r.WellFormed() && addr + r.RawSize() <= |image| && image[addr..addr + r.RawSize()] == Raw(r)
  }

  lemma {:induction false} RawParts(r: Record)
    requires r.WellFormed()
    ensures var raw, k := Raw(r), HEADER_SIZE + |r.key|;
            raw[..HEADER_SIZE] == EncodeHeader(HeaderOf(r)) && raw[HEADER_SIZE..k] == r.key
                && raw[k..r.RawSize()] == r.data
  {
    hide Crc, HeaderOf, EncodeHeader;
  }

  lemma {:induction false} CrcIgnoresItsField(r: Record, data: Bytes)
    requires r.WellFormed() && |data| == |r.data|
    ensures HeaderOf(r.(data := data)).crc == RecordCrc(HeaderOf(r), r.key, data) as nat
  {
    hide Crc, Le16, Le32;
  }

  /** A reader who finds the header of `r`, its key, and `data` where its data should be,
      accepts the record exactly when the CRC in the header is that of `data`. */
  lemma {:induction false} InspectParts(image: Bytes, addr: nat, r: Record, data: Bytes)
    requires r.WellFormed() && |data| == |r.data| && addr + r.RawSize() <= |image|
    requires image[addr..addr + HEADER_SIZE] == EncodeHeader(HeaderOf(r))
    requires image[addr + HEADER_SIZE..addr + HEADER_SIZE + |r.key|] == r.key
    requires image[addr + HEADER_SIZE + |r.key|..addr + r.RawSize()] == data
    ensures Inspect(image, addr) == if HeaderOf(r).crc == RecordCrc(HeaderOf(r), r.key, data) as nat
                                    then Intact(HeaderOf(r), r.key, data) else Invalid
  {
    hide Crc, RecordCrc, Le16, Le32, Nat16, Nat32, EncodeHeader, DecodeHeader;
    HeaderRoundTrip(HeaderOf(r));
  }

  /** What was written is what is read. */
  lemma {:induction false} InspectWritten(image: Bytes, addr: nat, r: Record)
    requires Holds(image, addr, r)
    ensures Inspect(image, addr) == Intact(HeaderOf(r), r.key, r.data)
  {
    hide Crc, RecordCrc, HeaderOf, EncodeHeader, DecodeHeader, Inspect, Raw;
    var size, k := r.RawSize(), HEADER_SIZE + |r.key|;
    RawParts(r);
    SliceOfSlice(image, addr, addr + size, 0, HEADER_SIZE);
    SliceOfSlice(image, addr, addr + size, HEADER_SIZE, k);
    SliceOfSlice(image, addr, addr + size, k, size);
    CrcIgnoresItsField(r, r.data);
    InspectParts(image, addr, r, r.data);
  }
}
