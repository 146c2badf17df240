/** Byte strings: little-endian integers, the byte order of every structure here, and slices. */
module LittleEndian {
  type Bytes = seq<bv8>

  function Value(b: bv8): (n: nat)
    ensures n < 256
  {
    b as nat
  }

  /** The byte whose value is `n`, counted up from zero. */
  function Byte(n: nat): bv8
    requires n < 256
  {
    if n == 0 then 0 else Byte(n - 1) + 1
  }

  lemma {:induction false} Successor(b: bv8)
    requires b != 255
    ensures (b + 1) as nat == b as nat + 1
  {
  }

  lemma {:induction false} ByteValue(n: nat)
    requires n < 256
    ensures Value(Byte(n)) == n
  {
    if n > 0 {
      ByteValue(n - 1);
      Successor(Byte(n - 1));
    }
  }

  function Le16(n: nat): (b: Bytes)
    requires n < 0x1_0000
    ensures |b| == 2
  {
    [Byte(n % 256), Byte(n / 256)]
  }

  function Le32(n: nat): (b: Bytes)
    requires n < 0x1_0000_0000
    ensures |b| == 4
  {
    Le16(n % 0x1_0000) + Le16(n / 0x1_0000)
  }

  function Nat16(b: Bytes): (n: nat)
    requires |b| == 2
    ensures n < 0x1_0000
  {
    Value(b[0]) + 256 * Value(b[1])
  }

  function Nat32(b: Bytes): (n: nat)
    requires |b| == 4
    ensures n < 0x1_0000_0000
  {
    Nat16(b[..2]) + 0x1_0000 * Nat16(b[2..])
  }

  lemma {:induction false} ValueTells(a: bv8, b: bv8)
    ensures a != b <==> Value(a) != Value(b)
  {
  }

  lemma {:induction false} Nat32Bytes(a: Bytes)
    requires |a| == 4
    ensures Nat32(a) == Value(a[0]) + 0x100 * Value(a[1]) + 0x1_0000 * Value(a[2]) + 0x100_0000 * Value(a[3])
  {
    hide Value;
  }

  /** Changing a byte changes the number. */
  lemma {:induction false} Nat32Tells(a: Bytes, i: nat, b: bv8)
    requires |a| == 4 && i < 4 && a[i] != b
    ensures Nat32(a[i := b]) != Nat32(a)
  {
    hide *;
    var c := a[i := b];
    ValueTells(a[i], b);
    Nat32Bytes(a);
    Nat32Bytes(c);
    ValueTells(a[0], c[0]);
    ValueTells(a[1], c[1]);
    ValueTells(a[2], c[2]);
    ValueTells(a[3], c[3]);
    OneDigit(Value(a[0]), Value(a[1]), Value(a[2]), Value(a[3]), Value(c[0]), Value(c[1]), Value(c[2]), Value(c[3]));
  }

  /** Numbers that differ in one digit differ. */
  lemma {:induction false} OneDigit(a: nat, b: nat, c: nat, d: nat, e: nat, f: nat, g: nat, h: nat)
    requires [a != e, b != f, c != g, d != h] in
             [[true, false, false, false], [false, true, false, false], [false, false, true, false],
              [false, false, false, true]]
    ensures a + 0x100 * b + 0x1_0000 * c + 0x100_0000 * d != e + 0x100 * f + 0x1_0000 * g + 0x100_0000 * h
  {
    var differ := [a != e, b != f, c != g, d != h];
    assert differ[0] || differ[1] || differ[2] || differ[3];
  }

  lemma {:induction false} Le16RoundTrip(n: nat)
    requires n < 0x1_0000
    ensures Nat16(Le16(n)) == n
  {
    ByteValue(n % 256);
    ByteValue(n / 256);
  }

  lemma {:induction false} Le32RoundTrip(n: nat)
    requires n < 0x1_0000_0000
    ensures Nat32(Le32(n)) == n
  {
    Le16RoundTrip(n % 0x1_0000);
    Le16RoundTrip(n / 0x1_0000);
    assert Le32(n)[..2] == Le16(n % 0x1_0000);
    assert Le32(n)[2..] == Le16(n / 0x1_0000);
  }

  // ----- Slices -----

  /** `image` with `data` written over it at `addr`. */
  function Overlay(image: Bytes, addr: nat, data: Bytes): (r: Bytes)
    requires addr + |data| <= |image|
    ensures |r| == |image|
  {
    image[..addr] + data + image[addr + |data|..]
  }

  lemma {:induction false} SliceOfSlice<T>(s: seq<T>, from: nat, to: nat, a: nat, b: nat)
    requires from <= to <= |s| && a <= b <= to - from
    ensures s[from..to][a..b] == s[from + a..from + b]
  {
    var t := s[from..to];
    forall i | 0 <= i < b - a
      ensures t[a..b][i] == s[from + a..from + b][i]
    {
      assert t[a + i] == s[from + a + i];
    }
  }
}
