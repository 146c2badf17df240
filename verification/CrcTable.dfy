/** The table-driven CRC-16 of the boot loader (nimble/mcu_boot/src/uart_dfu.c:24-67) computes the
    bitwise CRC of the key-value store. */
module CrcTable {
  import opened LittleEndian
  import opened Crc16

  /** One source line of the table. */
  datatype Row = Row(e0: bv16, e1: bv16, e2: bv16, e3: bv16, e4: bv16, e5: bv16, e6: bv16, e7: bv16) {
    function At(column: bv8): bv16 {
      match column
      case 0 => e0
      case 1 => e1
      case 2 => e2
      case 3 => e3
      case 4 => e4
      case 5 => e5
      case 6 => e6
      case _ => e7
    }
  }

  function LowerHalf(r: bv8): Row {
    match r
    case 0 => Row(0x0000, 0x1021, 0x2042, 0x3063, 0x4084, 0x50a5, 0x60c6, 0x70e7)
    case 1 => Row(0x8108, 0x9129, 0xa14a, 0xb16b, 0xc18c, 0xd1ad, 0xe1ce, 0xf1ef)
    case 2 => Row(0x1231, 0x0210, 0x3273, 0x2252, 0x52b5, 0x4294, 0x72f7, 0x62d6)
    case 3 => Row(0x9339, 0x8318, 0xb37b, 0xa35a, 0xd3bd, 0xc39c, 0xf3ff, 0xe3de)
    case 4 => Row(0x2462, 0x3443, 0x0420, 0x1401, 0x64e6, 0x74c7, 0x44a4, 0x5485)
    case 5 => Row(0xa56a, 0xb54b, 0x8528, 0x9509, 0xe5ee, 0xf5cf, 0xc5ac, 0xd58d)
    case 6 => Row(0x3653, 0x2672, 0x1611, 0x0630, 0x76d7, 0x66f6, 0x5695, 0x46b4)
    case 7 => Row(0xb75b, 0xa77a, 0x9719, 0x8738, 0xf7df, 0xe7fe, 0xd79d, 0xc7bc)
    case 8 => Row(0x48c4, 0x58e5, 0x6886, 0x78a7, 0x0840, 0x1861, 0x2802, 0x3823)
    case 9 => Row(0xc9cc, 0xd9ed, 0xe98e, 0xf9af, 0x8948, 0x9969, 0xa90a, 0xb92b)
    case 10 => Row(0x5af5, 0x4ad4, 0x7ab7, 0x6a96, 0x1a71, 0x0a50, 0x3a33, 0x2a12)
    case 11 => Row(0xdbfd, 0xcbdc, 0xfbbf, 0xeb9e, 0x9b79, 0x8b58, 0xbb3b, 0xab1a)
    case 12 => Row(0x6ca6, 0x7c87, 0x4ce4, 0x5cc5, 0x2c22, 0x3c03, 0x0c60, 0x1c41)
    case 13 => Row(0xedae, 0xfd8f, 0xcdec, 0xddcd, 0xad2a, 0xbd0b, 0x8d68, 0x9d49)
    case 14 => Row(0x7e97, 0x6eb6, 0x5ed5, 0x4ef4, 0x3e13, 0x2e32, 0x1e51, 0x0e70)
    case _ => Row(0xff9f, 0xefbe, 0xdfdd, 0xcffc, 0xbf1b, 0xaf3a, 0x9f59, 0x8f78)
  }

  function UpperHalf(r: bv8): Row {
    match r
    case 0 => Row(0x9188, 0x81a9, 0xb1ca, 0xa1eb, 0xd10c, 0xc12d, 0xf14e, 0xe16f)
    case 1 => Row(0x1080, 0x00a1, 0x30c2, 0x20e3, 0x5004, 0x4025, 0x7046, 0x6067)
    case 2 => Row(0x83b9, 0x9398, 0xa3fb, 0xb3da, 0xc33d, 0xd31c, 0xe37f, 0xf35e)
    case 3 => Row(0x02b1, 0x1290, 0x22f3, 0x32d2, 0x4235, 0x5214, 0x6277, 0x7256)
    case 4 => Row(0xb5ea, 0xa5cb, 0x95a8, 0x8589, 0xf56e, 0xe54f, 0xd52c, 0xc50d)
    case 5 => Row(0x34e2, 0x24c3, 0x14a0, 0x0481, 0x7466, 0x6447, 0x5424, 0x4405)
    case 6 => Row(0xa7db, 0xb7fa, 0x8799, 0x97b8, 0xe75f, 0xf77e, 0xc71d, 0xd73c)
    case 7 => Row(0x26d3, 0x36f2, 0x0691, 0x16b0, 0x6657, 0x7676, 0x4615, 0x5634)
    case 8 => Row(0xd94c, 0xc96d, 0xf90e, 0xe92f, 0x99c8, 0x89e9, 0xb98a, 0xa9ab)
    case 9 => Row(0x5844, 0x4865, 0x7806, 0x6827, 0x18c0, 0x08e1, 0x3882, 0x28a3)
    case 10 => Row(0xcb7d, 0xdb5c, 0xeb3f, 0xfb1e, 0x8bf9, 0x9bd8, 0xabbb, 0xbb9a)
    case 11 => Row(0x4a75, 0x5a54, 0x6a37, 0x7a16, 0x0af1, 0x1ad0, 0x2ab3, 0x3a92)
    case 12 => Row(0xfd2e, 0xed0f, 0xdd6c, 0xcd4d, 0xbdaa, 0xad8b, 0x9de8, 0x8dc9)
    case 13 => Row(0x7c26, 0x6c07, 0x5c64, 0x4c45, 0x3ca2, 0x2c83, 0x1ce0, 0x0cc1)
    case 14 => Row(0xef1f, 0xff3e, 0xcf5d, 0xdf7c, 0xaf9b, 0xbfba, 0x8fd9, 0x9ff8)
    case _ => Row(0x6e17, 0x7e36, 0x4e55, 0x5e74, 0x2e93, 0x3eb2, 0x0ed1, 0x1ef0)
  }

  function TableRow(r: bv8): Row {
    if r < 16 then LowerHalf(r) else UpperHalf(r - 16)
  }

  function Table(k: bv8): bv16 {
    TableRow(k >> 3).At(k & 7)
  }

  // ----- Eight shifts at once -----

  /** The polynomial's contribution of the bits `t` that left the register. */
  function Spread(t: bv16): bv16 {
    t ^ (t << 5) ^ (t << 12)
  }

  function Leaving(v: bv16, j: bv5): bv16
    requires j <= 8
  {
    (v >> (16 - j)) ^ (v >> (16 - j) >> 4)
  }

  /** The register `j` shifts after it held `v`, written without the intermediate registers. */
  function Folded(v: bv16, j: bv5): bv16
    requires j <= 8
  {
    (v << j) ^ Leaving(v, j) ^ (Leaving(v, j) << 5) ^ (Leaving(v, j) << 12)
  }

  lemma {:induction false} TopBit(crc: bv16)
    ensures crc >> 15 == (if crc & 0x8000 != 0 then 1 else 0)
  {
  }

  lemma {:induction false} XorZero(x: bv16)
    ensures x ^ 0 == x
  {
  }

  /** A shift without its condition. */
  function Once(crc: bv16): bv16 {
    (crc << 1) ^ Spread(crc >> 15)
  }

  lemma {:induction false} ShiftIsOnce(crc: bv16)
    ensures ShiftBit(crc) == Once(crc)
  {
    TopBit(crc);
    XorZero(crc << 1);
  }

  lemma {:induction false} FoldFour(v: bv16)
    ensures Once(Once(Once(Once(v)))) == Folded(v, 4)
  {
  }

  lemma {:induction false} FoldFourMore(v: bv16, w: bv16)
    requires w == Folded(v, 4)
    ensures Folded(w, 4) == Folded(v, 8)
  {
  }

  lemma {:induction false} ShiftFour(v: bv16, n: nat)
    ensures ShiftBits(v, n + 4) == Folded(ShiftBits(v, n), 4)
  {
    hide Once, Folded, ShiftBit;
    ShiftIsOnce(ShiftBits(v, n));
    ShiftIsOnce(ShiftBits(v, n + 1));
    ShiftIsOnce(ShiftBits(v, n + 2));
    ShiftIsOnce(ShiftBits(v, n + 3));
    FoldFour(ShiftBits(v, n));
  }

  lemma {:induction false} ByteIsFolded(v: bv16)
    ensures ShiftBits(v, 8) == Folded(v, 8)
  {
    hide Folded;
    ShiftFour(v, 0);
    ShiftFour(v, 4);
    FoldFourMore(v, ShiftBits(v, 4));
  }

  // ----- The table -----

  /** Every entry of a row is its own index, moved to the top of the register and shifted out. */
  predicate RowIsShift(row: Row, first: bv16) {
    && row.e0 == Folded(first, 8) && row.e1 == Folded(first + 0x100, 8)
    && row.e2 == Folded(first + 0x200, 8) && row.e3 == Folded(first + 0x300, 8)
    && row.e4 == Folded(first + 0x400, 8) && row.e5 == Folded(first + 0x500, 8)
    && row.e6 == Folded(first + 0x600, 8) && row.e7 == Folded(first + 0x700, 8)
  }

  lemma {:induction false} LowerHalfIsShift(r: bv8)
    requires r < 16
    ensures RowIsShift(LowerHalf(r), ((r as bv16) << 11))
  {
    match r
    case 0 =>
    case 1 =>
    case 2 =>
    case 3 =>
    case 4 =>
    case 5 =>
    case 6 =>
    case 7 =>
    case 8 =>
    case 9 =>
    case 10 =>
    case 11 =>
    case 12 =>
    case 13 =>
    case 14 =>
    case _ =>
  }

  lemma {:induction false} UpperHalfIsShift(r: bv8)
    requires r < 16
    ensures RowIsShift(UpperHalf(r), ((r as bv16) << 11) + 0x8000)
  {
    match r
    case 0 =>
    case 1 =>
    case 2 =>
    case 3 =>
    case 4 =>
    case 5 =>
    case 6 =>
    case 7 =>
    case 8 =>
    case 9 =>
    case 10 =>
    case 11 =>
    case 12 =>
    case 13 =>
    case 14 =>
    case _ =>
  }

  lemma {:induction false} TableHoldsShiftedBytes(k: bv8)
    ensures Table(k) == Folded((k as bv16) << 8, 8)
  {
    var r := k >> 3;
    if r < 16 { LowerHalfIsShift(r); } else { UpperHalfIsShift(r - 16); }
    assert (k as bv16) << 8 == ((r as bv16) << 11) + (((k & 7) as bv16) << 8);
  }

  lemma {:induction false} FoldedStep(crc: bv16, byte: bv16)
    requires byte & 0xFF00 == 0
    ensures (crc << 8) ^ Folded((((crc >> 8) ^ byte) & 0xFF) << 8, 8) == Folded(crc ^ (byte << 8), 8)
  {
  }

  lemma {:induction false} Narrowed(x: bv16)
    ensures ((x & 0xFF) as bv8) as bv16 == x & 0xFF
  {
  }

  lemma {:induction false} Widened(b: bv8)
    ensures (b as bv16) & 0xFF00 == 0
  {
  }

  /** The loop body of `crc16_ccitt`. */
  function TableFeed(crc: bv16, b: bv8): bv16 {
    (crc << 8) ^ Table((((crc >> 8) ^ (b as bv16)) & 0xFF) as bv8)
  }

  /** One step of the table form is one step of the bitwise form. */
  lemma {:induction false} TableStep(crc: bv16, b: bv8)
    ensures TableFeed(crc, b) == Feed(crc, b)
  {
    var x := (crc >> 8) ^ (b as bv16);
    TableHoldsShiftedBytes((x & 0xFF) as bv8);
    Narrowed(x);
    Widened(b);
    FoldedStep(crc, b as bv16);
    ByteIsFolded(crc ^ ((b as bv16) << 8));
  }

  /** `crc16_ccitt`: equal to the bitwise program started at 0, on every byte string. */
  method TableDriven(data: Bytes) returns (crc: bv16)
    ensures crc == Crc(data, 0)
  {
    crc := 0;
    for i := 0 to |data|
      invariant crc == Crc(data[..i], 0)
    {
      TableStep(crc, data[i]);
      crc := TableFeed(crc, data[i]);
      assert data[..i + 1][..i] == data[..i];
    }
    assert data[..|data|] == data;
  }
}
