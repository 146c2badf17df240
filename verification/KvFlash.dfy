/** The block device under the key-value store.

    Modelled code: the interface at nimble/host/kv_store/mtb_kvstore.h:176-258 and its driver at
    nimble/host/kv_store/mtb_init.c:33-66. A program call and the erasure of one sector are the
    steps between which the power can fail; every image passed through is kept in `trail`. */
module KvFlash {
  import opened Arith
  import opened LittleEndian
  import opened KvLog

  /** Every image since `before` satisfies `p`. */
  ghost predicate Since(before: seq<Bytes>, after: seq<Bytes>, p: Bytes -> bool) {
    before <= after && forall i :: |before| <= i < |after| ==> p(after[i])
  }

  lemma {:induction false} SinceThen(a: seq<Bytes>, b: seq<Bytes>, c: seq<Bytes>, p: Bytes -> bool)
    requires Since(a, b, p) && Since(b, c, p)
    ensures Since(a, c, p)
  {
    forall i | |a| <= i < |c|
      ensures p(c[i])
    {
      if i < |b| {
        assert c[i] == b[i];
      }
    }
  }

  lemma {:induction false} SinceNothing(a: seq<Bytes>, p: Bytes -> bool)
    ensures Since(a, a, p)
  {
  }

  lemma {:induction false} SinceImplies(a: seq<Bytes>, b: seq<Bytes>, p: Bytes -> bool, q: Bytes -> bool)
    requires Since(a, b, p) && forall img :: p(img) ==> q(img)
    ensures Since(a, b, q)
  {
  }

  lemma {:induction false} SectorAligned(geo: Geometry, which: Area)
    requires geo.Valid()
    ensures geo.Base(which) % geo.sector == 0 && (geo.Base(which) + geo.sector) % geo.sector == 0
    ensures (geo.area - geo.sector) % geo.sector == 0
    ensures geo.Base(which) % geo.page == 0
  {
    SumOfMultiples(geo.Base(which), geo.sector, geo.sector);
    SumOfMultiples(geo.area, geo.sector, geo.sector);
  }

  lemma {:induction false} ErasedAtLast(geo: Geometry, before: Bytes, addr: nat, length: nat)
    requires geo.sector > 0 && length % geo.sector == 0 && addr + length <= |before|
    ensures PartlyErased(geo, before, addr, length)(Overlay(before, addr, Fill(geo, length)))
  {
    assert SectorsErased(geo, before, addr, length, length, Overlay(before, addr, Fill(geo, length)));
  }

  lemma {:induction false} FillJoins(geo: Geometry, image: Bytes, addr: nat, m: nat, n: nat)
    requires addr + m + n <= |image|
    ensures Overlay(Overlay(image, addr, Fill(geo, m)), addr + m, Fill(geo, n)) == Overlay(image, addr,
            Fill(geo, m + n))
  {
    assert Fill(geo, m) + Fill(geo, n) == Fill(geo, m + n);
    OverlayJoins(image, addr, Fill(geo, m), Fill(geo, n));
  }

  lemma {:induction false} OverlayJoins(image: Bytes, addr: nat, a: Bytes, b: Bytes)
    requires addr + |a| + |b| <= |image|
    ensures Overlay(Overlay(image, addr, a), addr + |a|, b) == Overlay(image, addr, a + b)
  {
    var first := Overlay(image, addr, a);
    assert first[..addr + |a|] == image[..addr] + a;
    assert first[addr + |a| + |b|..] == image[addr + |a| + |b|..];
  }

  /** The images met while `length` bytes from `addr` are erased: whole sectors at a time. */
  ghost function PartlyErased(geo: Geometry, before: Bytes, addr: nat, length: nat): Bytes -> bool {
    img => exists n: nat :: SectorsErased(geo, before, addr, length, n, img)
  }

  ghost predicate SectorsErased(geo: Geometry, before: Bytes, addr: nat, length: nat, n: nat, image: Bytes) {
    geo.sector > 0 && n % geo.sector == 0 && n <= length && addr + length <= |before|
    && image == Overlay(before, addr, Fill(geo, n))
  }

  class Flash {
    const geo: Geometry
    var image: Bytes
    var trail: seq<Bytes>

    ghost predicate Valid()
      reads this
      ensures Valid() ==> geo.Valid() && |image| == 2 * geo.area
    {
      geo.Valid() && |image| == 2 * geo.area
    }

    constructor (geo: Geometry, image: Bytes)
      requires geo.Valid() && |image| == 2 * geo.area
      ensures Valid() && this.geo == geo && this.image == image && trail == [image]
    {
      this.geo := geo;
      this.image := image;
      trail := [image];
    }

    /** Programs whole pages; only erased bytes may be programmed. */
    method Program(addr: nat, data: Bytes)
      requires Valid() && addr + |data| <= |image|
      requires addr % geo.page == 0 && |data| % geo.page == 0
      requires Blank(geo, image, addr, addr + |data|)
      modifies this
      ensures Valid() && image == Overlay(old(image), addr, data)
      ensures trail == old(trail) + [image]
    {
      image := Overlay(image, addr, data);
      trail := trail + [image];
    }

    method EraseSector(addr: nat)
      requires Valid() && addr % geo.sector == 0 && addr + geo.sector <= |image|
      modifies this
      ensures Valid() && image == Overlay(old(image), addr, Fill(geo, geo.sector))
      ensures trail == old(trail) + [image]
    {
      image := Overlay(image, addr, Fill(geo, geo.sector));
      trail := trail + [image];
    }

    /** Erases a run of sectors, one after the other. */
    method Erase(addr: nat, length: nat)
      requires Valid() && addr % geo.sector == 0 && length % geo.sector == 0 && addr + length <= |image|
      modifies this
      ensures Valid() && image == Overlay(old(image), addr, Fill(geo, length))
      ensures Since(old(trail), trail, PartlyErased(geo, old(image), addr, length))
    {
      ghost var start := image;
      var done := 0;
      assert Overlay(image, addr, Fill(geo, 0)) == image;
      while done < length
        invariant Valid() && done <= length && done % geo.sector == 0
        invariant image == Overlay(start, addr, Fill(geo, done))
        invariant Since(old(trail), trail, PartlyErased(geo, start, addr, length))
        decreases length - done
      {
        SumOfMultiples(addr, done, geo.sector);
        SumOfMultiples(length, done, geo.sector);
        MultipleAtLeast(length - done, geo.sector);
        EraseSector(addr + done);
        FillJoins(geo, start, addr, done, geo.sector);
        SumOfMultiples(done, geo.sector, geo.sector);
        done := done + geo.sector;
        assert SectorsErased(geo, start, addr, length, done, image);
      }
    }
  }

  lemma {:induction false} MultipleAtLeast(n: nat, d: nat)
    requires d > 0 && n > 0 && n % d == 0
    ensures n >= d
  {
    if n < d {
      Quotient(n, d, 0, n);
    }
  }
}
