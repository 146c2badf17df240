/** Reading and writing records through the transaction buffer: what status a read returns, for
    every image, and which images a write passes through.

    Modelled code: nimble/host/kv_store/mtb_kvstore.c:493-514 (erasing an area), 575-630 (chunked
    CRC, key comparison), 637-764 (reading a record), 890-939 (chunked writing),
    1109-1167 (copying a record). */
module KvPort {
  import opened Sequences
  import opened Arith
  import opened Crc16
  import opened LittleEndian
  import opened KvFormat
  import opened KvLog
  import opened KvFlash
  import opened KvStream
  import opened KvImage

  datatype Status =
    | Success | BadParam | Misaligned | ErasedData | InvalidData
    | ItemNotFound | StorageFull | BufferTooSmall | ReadFailed

  /** The status of reading the record at `addr`: for a caller who looks for `user` (or for any
      key), and who offers `room` bytes for the data (or only wants the record checked). */
  function ReadStatus(image: Bytes, addr: nat, user: Option<Bytes>, room: Option<nat>): Status {
    if addr + HEADER_SIZE > |image| then ReadFailed
    else
      var h := DecodeHeader(image[addr..addr + HEADER_SIZE]);
      var at := addr + h.headerSize;
      if ErasedMagic(h.magic) then ErasedData
      else if h.magic != MAGIC || h.keySize == 0 || h.keySize >= MAX_KEY_SIZE then InvalidData
      else if room.Some? && room.value < h.dataSize then BufferTooSmall
      else if user.Some? && |user.value| != h.keySize then ItemNotFound
      else if at + h.keySize > |image| then ReadFailed
      else if user.Some? && user.value != image[at..at + h.keySize] then ItemNotFound
      else if at + h.keySize + h.dataSize > |image| then ReadFailed
      else if Inspect(image, addr).Intact? then Success else InvalidData
  }

  /** A record that is there is read back, for its own key and to a large enough buffer. */
  lemma {:induction false} ReadWritten(image: Bytes, addr: nat, r: Record, user: Option<Bytes>, room: Option<nat>)
    requires Holds(image, addr, r)
    ensures ReadStatus(image, addr, user, room) ==
            if room.Some? && room.value < |r.data| then BufferTooSmall
            else if user.Some? && user.value != r.key then ItemNotFound
            else Success
  {
    hide HeaderOf, Raw, DecodeHeader, EncodeHeader, RecordCrc;
    InspectWritten(image, addr, r);
    HeaderFields(r);
  }

  lemma {:induction false} HeaderFields(r: Record)
    requires r.WellFormed()
    ensures var h := HeaderOf(r);
            h.magic == MAGIC && h.headerSize == HEADER_SIZE && h.keySize == |r.key| && h.dataSize == |r.data|
  {
    hide RecordCrc;
  }

  /** Without a key to look for, reading succeeds exactly on an intact record. */
  lemma {:induction false} ReadAny(image: Bytes, addr: nat)
    ensures ReadStatus(image, addr, None, None) ==
            match Inspect(image, addr)
            case Erased => ErasedData
            case Invalid => InvalidData
            case Unreadable => ReadFailed
            case Intact(_, _, _) => Success
  {
    hide DecodeHeader, RecordCrc;
  }

  lemma {:induction false} CrcOfChunk(image: Bytes, addr: nat, done: nat, n: nat, init: bv16)
    requires addr + done + n <= |image|
    ensures Crc(image[addr..addr + done + n], init) == Crc(image[addr + done..addr + done + n],
                                                           Crc(image[addr..addr + done], init))
  {
    hide Crc;
    assert image[addr..addr + done + n] == image[addr..addr + done] + image[addr + done..addr + done + n];
    CrcOfConcatenation(image[addr..addr + done], image[addr + done..addr + done + n], init);
  }

  /** The store's access to its flash: the device and the transaction buffer. */
  class Port {
    const flash: Flash
    const geo: Geometry
    var buffer: Bytes

    ghost predicate Valid()
      reads this, flash
      ensures Valid() ==> flash.Valid() && flash.geo == geo && |buffer| == geo.buffer
    {
      flash.Valid() && flash.geo == geo && |buffer| == geo.buffer
    }

    constructor (flash: Flash)
      requires flash.Valid()
      ensures Valid() && this.flash == flash
    {
      this.flash := flash;
      this.geo := flash.geo;
      this.buffer := seq(flash.geo.buffer, _ => 0);
    }

    /** Copies `n` bytes of flash to the front of the buffer. */
    method Load(addr: nat, n: nat)
      requires Valid() && n <= geo.buffer && addr + n <= |flash.image|
      modifies this`buffer
      ensures Valid() && buffer[..n] == flash.image[addr..addr + n]
    {
      buffer := flash.image[addr..addr + n] + buffer[n..];
    }

    method BufferedCrc(addr: nat, size: nat, init: bv16) returns (status: Status, crc: bv16)
      requires Valid() && addr <= |flash.image|
      modifies this`buffer
      ensures Valid()
      ensures status == if addr + size <= |flash.image| then Success else ReadFailed
      ensures status.Success? ==> crc == Crc(flash.image[addr..addr + size], init)
    {
      crc := init;
      var done := 0;
      assert flash.image[addr..addr] == [];
      CrcOfNothing(init);
      hide *;
      while done < size
        invariant Valid() && done <= size && addr + done <= |flash.image|
        invariant crc == Crc(flash.image[addr..addr + done], init)
      {
        BufferParts();
        var n := if geo.buffer >= size - done then size - done else geo.buffer;
        if addr + done + n > |flash.image| {
          return ReadFailed, crc;
        }
        Load(addr + done, n);
        CrcOfChunk(flash.image, addr, done, n, init);
        crc := Bitwise(buffer[..n], crc);
        done := done + n;
      }
      return Success, crc;
    }

    /** Compares a stored key with the caller's. The caller's key is not advanced between chunks,
        which is right because a key always fits one chunk. */
    method ValidateKey(addr: nat, user: Bytes, size: nat) returns (status: Status)
      requires Valid() && 0 < size < MAX_KEY_SIZE
      modifies this`buffer
      ensures Valid()
      ensures status == if |user| != size then ItemNotFound
                        else if addr + size > |flash.image| then ReadFailed
                        else if user != flash.image[addr..addr + size] then ItemNotFound
                        else Success
    {
      if |user| != size {
        return ItemNotFound;
      }
      var remaining, at := size, addr;
      while remaining > 0
        invariant Valid() && remaining <= size
        invariant || (remaining == size && at == addr)
                  || (remaining == 0 && addr + size <= |flash.image| && user == flash.image[addr..addr + size])
      {
        var n := if geo.buffer >= remaining then remaining else geo.buffer;
        if at + n > |flash.image| {
          return ReadFailed;
        }
        Load(at, n);
        assert n == size && user[..n] == user && buffer[..n] == flash.image[addr..addr + size];
        if user[..n] != buffer[..n] {
          return ItemNotFound;
        }
        at := at + n;
        remaining := remaining - n;
      }
      return Success;
    }

    /** The key of a record: compared with `user`, or copied out. */
    method ReadKey(addr: nat, user: Option<Bytes>, size: nat) returns (status: Status, key: Bytes)
      requires Valid() && 0 < size < MAX_KEY_SIZE
      modifies this`buffer
      ensures Valid()
      ensures status == if user.Some? && |user.value| != size then ItemNotFound
                        else if addr + size > |flash.image| then ReadFailed
                        else if user.Some? && user.value != flash.image[addr..addr + size] then ItemNotFound
                        else Success
      ensures status.Success? ==> key == flash.image[addr..addr + size]
    {
      if user.Some? {
        key := user.value;
        status := ValidateKey(addr, key, size);
      } else if addr + size > |flash.image| {
        status, key := ReadFailed, [];
      } else {
        status, key := Success, flash.image[addr..addr + size];
      }
    }

    /** The data of a record, run through the CRC: copied out if asked for. */
    method ReadData(addr: nat, size: nat, copied: bool, init: bv16) returns (status: Status, data: Bytes, crc: bv16)
      requires Valid() && addr <= |flash.image|
      modifies this`buffer
      ensures Valid()
      ensures status == if addr + size <= |flash.image| then Success else ReadFailed
      ensures status.Success? ==> crc == Crc(flash.image[addr..addr + size], init)
      ensures status.Success? && copied ==> data == flash.image[addr..addr + size]
    {
      data, crc := [], init;
      if copied {
        if addr + size > |flash.image| {
          return ReadFailed, data, crc;
        }
        data := flash.image[addr..addr + size];
        crc := Bitwise(data, init);
        return Success, data, crc;
      }
      status, crc := BufferedCrc(addr, size, init);
    }

    /** Reads the record at `addr`: compares its key with `user`, or copies the key out; copies the
        data out if the caller gave room for it, or only runs it through the CRC. */
    method ReadRecord(addr: nat, user: Option<Bytes>, room: Option<nat>)
      returns (status: Status, header: Header, key: Bytes, data: Bytes)
      requires Valid()
      modifies this`buffer
      ensures Valid()
      ensures status == ReadStatus(flash.image, addr, user, room)
      ensures status.Success? ==> ReadsAs(flash.image, addr, header, key)
      ensures status.Success? && room.Some? ==> Inspect(flash.image, addr) == Intact(header, key, data)
      ensures status.BufferTooSmall? ==>
                (addr + HEADER_SIZE <= |flash.image| && header == DecodeHeader(flash.image[addr..addr + HEADER_SIZE]))
    {
      hide Crc, HeaderCrc, DecodeHeader, Inspect;
      header, key, data := Header(0, 0, 0, 0, 0, 0, 0), [], [];
      if addr + HEADER_SIZE > |flash.image| {
        return ReadFailed, header, key, data;
      }
      header := DecodeHeader(flash.image[addr..addr + HEADER_SIZE]);
      if ErasedMagic(header.magic) {
        return ErasedData, header, key, data;
      }
      if header.magic != MAGIC || header.keySize == 0 || header.keySize >= MAX_KEY_SIZE {
        return InvalidData, header, key, data;
      }
      if room.Some? && room.value < header.dataSize {
        return BufferTooSmall, header, key, data;
      }
      DecodedInRange(flash.image[addr..addr + HEADER_SIZE]);
      var crc := HeaderCrc(header, CRC_INIT);
      status, key := ReadKey(addr + header.headerSize, user, header.keySize);
      if !status.Success? {
        return status, header, key, data;
      }
      crc := Bitwise(key, crc);
      status, data, crc := ReadData(addr + header.headerSize + header.keySize, header.dataSize, room.Some?, crc);
      if !status.Success? {
        return status, header, key, data;
      }
      InspectRead(flash.image, addr, crc);
      if header.crc != crc as nat {
        return InvalidData, header, key, data;
      }
      return Success, header, key, data;
    }

    /** Adds `data` to the record being written; `flush` ends the record. */
    method BufferedWrite(ghost job: Job, ghost done: nat, data: Bytes, at: nat, space: nat, flush: bool)
      returns (nextAt: nat, nextSpace: nat)
      requires Valid() && job.geo == geo && job.Streaming(flash.image, buffer, done, at, space) && space > 0
      requires done + |data| <= |job.full| && data == job.full[done..done + |data|]
      requires flush ==> done + |data| == |job.full|
      modifies this`buffer, flash
      ensures Valid() && nextSpace > 0
      ensures !flush ==> job.Streaming(flash.image, buffer, done + |data|, nextAt, nextSpace)
      ensures flush ==> job.Written(flash.image)
      ensures Since(old(flash.trail), flash.trail, job.Partly())
    {
      hide *;
      nextAt, nextSpace := at, space;
      var x := 0;
      SinceNothing(flash.trail, job.Partly());
      while x < |data|
        invariant Valid() && x <= |data| && nextSpace > 0
        invariant job.Streaming(flash.image, buffer, done + x, nextAt, nextSpace)
        invariant Since(old(flash.trail), flash.trail, job.Partly())
      {
        ghost var sofar := flash.trail;
        x, nextAt, nextSpace := CopyChunk(job, done, data, x, nextAt, nextSpace);
        SinceThen(old(flash.trail), sofar, flash.trail, job.Partly());
      }
      if flush {
        ghost var sofar := flash.trail;
        nextAt, nextSpace := Finish(job, nextAt, nextSpace);
        SinceThen(old(flash.trail), sofar, flash.trail, job.Partly());
      }
    }

    lemma BufferParts()
      ensures Valid() <==> flash.Valid() && geo == flash.geo && |buffer| == geo.buffer
    {
    }

    /** The next bytes go into the buffer. */
    method Gather(ghost job: Job, ghost done: nat, data: Bytes, x: nat, n: nat, ghost at: nat, space: nat)
      requires Valid() && job.geo == geo && x + n <= |data| && n <= space
      requires job.Streaming(flash.image, buffer, done + x, at, space)
      requires done + |data| <= |job.full| && data == job.full[done..done + |data|]
      modifies this`buffer
      ensures Valid() && job.Streaming(flash.image, buffer, done + x + n, at, space - n)
    {
      StreamingParts(job, flash.image, buffer, done + x, at, space);
      BufferParts();
      hide *;
      var used := geo.buffer - space;
      SliceOfSlice(job.full, done, done + |data|, x, x + n);
      Accept(job, flash.image, buffer, done + x, at, space, n);
      buffer := buffer[..used] + data[x..x + n] + buffer[used + n..];
    }

    /** One round of the copying loop: fill the buffer as far as it goes, and program it if full. */
    method CopyChunk(ghost job: Job, ghost done: nat, data: Bytes, x: nat, at: nat, space: nat)
      returns (nextX: nat, nextAt: nat, nextSpace: nat)
      requires Valid() && job.geo == geo && x < |data| && space > 0
      requires job.Streaming(flash.image, buffer, done + x, at, space)
      requires done + |data| <= |job.full| && data == job.full[done..done + |data|]
      modifies this`buffer, flash
      ensures Valid() && x < nextX <= |data| && nextSpace > 0
      ensures job.Streaming(flash.image, buffer, done + nextX, nextAt, nextSpace)
      ensures Since(old(flash.trail), flash.trail, job.Partly())
    {
      hide job.Written, Overlay, Blank, SameBytes;
      var n := if space >= |data| - x then |data| - x else space;
      Gather(job, done, data, x, n, at, space);
      nextX, nextAt, nextSpace := x + n, at, space - n;
      if nextSpace == 0 {
        Flushed(job, flash.image, buffer, done + nextX, at);
        flash.Program(at, buffer);
        nextAt, nextSpace := at + geo.buffer, geo.buffer;
      }
    }

    method Finish(ghost job: Job, at: nat, space: nat) returns (nextAt: nat, nextSpace: nat)
      requires Valid() && job.geo == geo && job.Streaming(flash.image, buffer, |job.full|, at, space)
      modifies this`buffer, flash
      ensures Valid() && nextSpace > 0 && job.Written(flash.image)
      ensures Since(old(flash.trail), flash.trail, job.Partly())
    {
      hide job.Written, Overlay, Blank, SameBytes;
      nextAt, nextSpace := at, geo.buffer;
      if space != geo.buffer {
        LastFlush(job, flash.image, buffer, at, space);
        var size := AlignUp(geo.buffer - space, geo.page);
        flash.Program(at, buffer[..size]);
      } else {
        NothingLeft(job, flash.image, buffer, at);
      }
    }

    /** Writes record `r` at `addr`: header, key and data in turn through the buffer. */
    method PutRecord(addr: nat, r: Record)
      requires Valid() && r.WellFormed() && Place(geo, flash.image, addr, r).Valid()
      modifies this`buffer, flash
      ensures Valid()
      ensures Place(geo, old(flash.image), addr, r).Written(flash.image)
      ensures Since(old(flash.trail), flash.trail, Place(geo, old(flash.image), addr, r).Partly())
    {
      hide Place, Raw, HeaderOf, EncodeHeader, Blank, SameBytes, Overlay;
      assert |buffer| == geo.buffer > 0;
      hide *;
      ghost var job := Place(geo, flash.image, addr, r);
      ghost var k := HEADER_SIZE + |r.key|;
      PlaceParts(geo, flash.image, addr, r, buffer);
      var header := EncodeHeader(HeaderOf(r));
      var at, space := BufferedWrite(job, 0, header, addr, geo.buffer, false);
      ghost var sofar := flash.trail;
      at, space := BufferedWrite(job, HEADER_SIZE, r.key, at, space, false);
      SinceThen(old(flash.trail), sofar, flash.trail, job.Partly());
      sofar := flash.trail;
      at, space := BufferedWrite(job, k, r.data, at, space, true);
      SinceThen(old(flash.trail), sofar, flash.trail, job.Partly());
    }

    /** Erases an area: everything after its first sector, then the first sector. */
    method EraseArea(which: Area)
      requires Valid()
      modifies flash
      ensures Valid()
      ensures Blank(geo, flash.image, geo.Base(which), geo.Base(which) + geo.area)
      ensures RewritingFrom(geo, old(flash.image), which)(flash.image)
      ensures Since(old(flash.trail), flash.trail, RewritingFrom(geo, old(flash.image), which))
    {
      hide Overlay, Blank, Rewriting, SameBytes, PartlyErased;
      ghost var p := RewritingFrom(geo, flash.image, which);
      ghost var before := flash.image;
      var base := geo.Base(which);
      SectorAligned(geo, which);
      flash.Erase(base + geo.sector, geo.area - geo.sector);
      ghost var middle, sofar := flash.image, flash.trail;
      ErasedAtLast(geo, before, base + geo.sector, geo.area - geo.sector);
      LaterSectorsErased(geo, before, which, middle);
      SinceImplies(old(flash.trail), flash.trail, PartlyErased(geo, before, base + geo.sector, geo.area - geo.sector),
                   p) by {
        forall img | PartlyErased(geo, before, base + geo.sector, geo.area - geo.sector)(img)
          ensures p(img)
        {
          LaterSectorsErased(geo, before, which, img);
        }
      }
      flash.Erase(base, geo.sector);
      ErasedAtLast(geo, middle, base, geo.sector);
      FirstSectorErased(geo, before, middle, which, flash.image);
      SinceImplies(sofar, flash.trail, PartlyErased(geo, middle, base, geo.sector), p) by {
        forall img | PartlyErased(geo, middle, base, geo.sector)(img)
          ensures p(img)
        {
          FirstSectorErased(geo, before, middle, which, img);
        }
      }
      SinceThen(old(flash.trail), sofar, flash.trail, p);
      AreaErased(geo, before, which);
    }

    /** Copies the `size` bytes of the record at `from` to erased flash at `to`. */
    method CopyBytes(ghost job: Job, from: nat, to: nat, size: nat)
      requires Valid() && Copies(job, from, size) && job.geo == geo && job.addr == to && job.start == flash.image
      modifies this`buffer, flash
      ensures Valid() && job.Written(flash.image)
      ensures Since(old(flash.trail), flash.trail, Within(job.start, to, to + size))
    {
      hide Overlay, Blank, SameBytes, AlignUp, job.Written, Within, job.Upto;
      var done := 0;
      SinceNothing(flash.trail, Within(job.start, to, to + size));
      UptoNone(job);
      while done < size
        invariant Valid() && done <= size && done % geo.page == 0
        invariant flash.image == job.Upto(done)
        invariant Since(old(flash.trail), flash.trail, Within(job.start, to, to + size))
      {
        var n := if geo.buffer >= size - done then size - done else geo.buffer;
        RoundAligned(geo, to, size, done, n);
        SourceUntouched(job, from, size, done, n);
        TargetExtended(job, from, size, done, n);
        Load(from + done, n);
        flash.Program(to + done, buffer[..n]);
        done := done + n;
      }
      CopyDone(job, from, size);
    }

    /** Copies the record at `src` to offset `offset` of area `which`. */
    method CopyRecord(src: nat, which: Area, offset: nat, ghost r: Record) returns (status: Status, next: nat)
      requires Valid() && Holds(flash.image, src, r) && src % geo.page == 0 && offset % geo.page == 0
      requires geo.Base(which.Other()) <= src && src + geo.RecordSize(r) <= geo.Base(which.Other()) + geo.area
      requires Blank(geo, flash.image, geo.Base(which) + offset, geo.Base(which) + geo.area)
      modifies this`buffer, flash
      ensures Valid()
      ensures status == if offset + geo.RecordSize(r) > geo.area then StorageFull else Success
      ensures status.StorageFull? ==> flash.image == old(flash.image) && flash.trail == old(flash.trail)
      ensures status.Success? ==> (
                var to, size := geo.Base(which) + offset, geo.RecordSize(r);
                && next == offset + size && Copied(geo, old(flash.image), flash.image, to, r)
                && Since(old(flash.trail), flash.trail, Within(old(flash.image), to, to + size)))
    {
      hide Holds, Raw, HeaderOf, EncodeHeader, DecodeHeader, AlignUp, Blank, SameBytes, Overlay, Within, Copied,
           Copies, CopyJob, Since;
      HeaderOnFlash(flash.image, src, r);
      var header := DecodeHeader(flash.image[src..src + HEADER_SIZE]);
      var size := AlignUp(HEADER_SIZE + header.keySize + header.dataSize, geo.page);
      assert size == geo.RecordSize(r) by { SizeFromHeader(geo, flash.image, src, r); }
      next := offset + size;
      if offset + size > geo.area {
        return StorageFull, next;
      }
      ghost var before := flash.image;
      ghost var job := CopyJob(geo, before, src, geo.Base(which) + offset, size);
      CopyJobIsCopy(geo, before, src, which, offset, r);
      CopyBytes(job, src, geo.Base(which) + offset, size);
      CopyHolds(geo, before, flash.image, src, which, offset, r);
      return Success, next;
    }
  }

  function CopyJob(geo: Geometry, image: Bytes, from: nat, to: nat, size: nat): (job: Job)
    requires from + size <= |image|
    ensures job.geo == geo && job.addr == to && job.start == image
  {
    Job(geo, image, to, image[from..from + size])
  }

  ghost predicate Copied(geo: Geometry, before: Bytes, image: Bytes, to: nat, r: Record)
    requires geo.page > 0
  {
    && Holds(image, to, r) && SameBytes(before, image, 0, to)
    && SameBytes(before, image, to + geo.RecordSize(r), |before|)
  }

  lemma {:induction false} HeaderOnFlash(image: Bytes, src: nat, r: Record)
    requires Holds(image, src, r)
    ensures r.WellFormed() && src + r.RawSize() <= |image| && src + HEADER_SIZE <= |image|
    ensures image[src..src + HEADER_SIZE] == EncodeHeader(HeaderOf(r))
    ensures DecodeHeader(image[src..src + HEADER_SIZE]) == HeaderOf(r)
  {
    hide Raw, HeaderOf, EncodeHeader, DecodeHeader;
    RawParts(r);
    SliceOfSlice(image, src, src + r.RawSize(), 0, HEADER_SIZE);
    HeaderRoundTrip(HeaderOf(r));
  }

  lemma {:induction false} SizeFromHeader(geo: Geometry, image: Bytes, src: nat, r: Record)
    requires geo.page > 0 && Holds(image, src, r) && src + HEADER_SIZE <= |image|
    ensures var header := DecodeHeader(image[src..src + HEADER_SIZE]);
            AlignUp(HEADER_SIZE + header.keySize + header.dataSize, geo.page) == geo.RecordSize(r)
  {
    hide Raw, HeaderOf, EncodeHeader, DecodeHeader, AlignUp, Holds;
    HeaderOnFlash(image, src, r);
    HeaderFields(r);
  }

  lemma {:induction false} CopyJobIsCopy(geo: Geometry, image: Bytes, src: nat, which: Area, offset: nat, r: Record)
    requires geo.Valid() && |image| == 2 * geo.area && src % geo.page == 0 && offset % geo.page == 0
    requires geo.Base(which.Other()) <= src && src + geo.RecordSize(r) <= geo.Base(which.Other()) + geo.area
    requires offset + geo.RecordSize(r) <= geo.area
    requires Blank(geo, image, geo.Base(which) + offset, geo.Base(which) + geo.area)
    ensures src + geo.RecordSize(r) <= |image|
    ensures Copies(CopyJob(geo, image, src, geo.Base(which) + offset, geo.RecordSize(r)), src, geo.RecordSize(r))
  {
    var size := geo.RecordSize(r);
    AlignUpIsLeast(size, geo.page, size);
    SectorAligned(geo, which);
    SumOfMultiples(geo.Base(which), offset, geo.page);
    hide AlignUp, SameBytes, Overlay;
  }

  lemma {:induction false} CopyHolds(geo: Geometry, before: Bytes, image: Bytes, src: nat, which: Area, offset: nat,
                                     r: Record)
    requires geo.page > 0 && Holds(before, src, r) && src + geo.RecordSize(r) <= |before|
    requires geo.RecordSize(r) % geo.page == 0
    requires CopyJob(geo, before, src, geo.Base(which) + offset, geo.RecordSize(r)).Written(image)
    ensures Copied(geo, before, image, geo.Base(which) + offset, r)
  {
    hide AlignUp, SameBytes, Overlay, Blank, Raw, CopyJob;
    var size, to := geo.RecordSize(r), geo.Base(which) + offset;
    var job := CopyJob(geo, before, src, to, size);
    CopyJobParts(geo, before, src, to, size);
    WrittenJob(job, image);
    AlignUpIsLeast(size, geo.page, size);
    SliceOfSlice(before, src, src + size, 0, r.RawSize());
    SliceOfSlice(image, to, to + size, 0, r.RawSize());
  }

  lemma {:induction false} CopyJobParts(geo: Geometry, image: Bytes, from: nat, to: nat, size: nat)
    requires from + size <= |image|
    ensures CopyJob(geo, image, from, to, size).full == image[from..from + size]
  {
  }

  /** The steps of a rewrite of area `which` before its area record is written. */
  ghost function RewritingFrom(geo: Geometry, before: Bytes, which: Area): Bytes -> bool {
    img => |img| == |before| == 2 * geo.area && Rewriting(geo, before, img, which)
  }

  /** Erasing from the second sector on: the first is untouched ... */
  lemma {:induction false} LaterSectorsErased(geo: Geometry, before: Bytes, which: Area, image: Bytes)
    requires geo.Valid() && |before| == 2 * geo.area
    requires PartlyErased(geo, before, geo.Base(which) + geo.sector, geo.area - geo.sector)(image)
    ensures RewritingFrom(geo, before, which)(image)
    ensures SameBytes(before, image, geo.Base(which), geo.Base(which) + AREA_RAW_SIZE)
  {
    hide Overlay, SameBytes, Blank;
    var base, other := geo.Base(which), geo.Base(which.Other());
    var n: nat :| SectorsErased(geo, before, base + geo.sector, geo.area - geo.sector, n, image);
    OverlayElsewhere(before, base + geo.sector, Fill(geo, n), base, base + AREA_RAW_SIZE);
    OverlayElsewhere(before, base + geo.sector, Fill(geo, n), other, other + geo.area);
  }

  /** ... until it goes as a whole. */
  lemma {:induction false} FirstSectorErased(geo: Geometry, before: Bytes, middle: Bytes, which: Area, image: Bytes)
    requires geo.Valid() && |before| == |middle| == 2 * geo.area
    requires Rewriting(geo, before, middle, which)
    requires SameBytes(before, middle, geo.Base(which), geo.Base(which) + AREA_RAW_SIZE)
    requires PartlyErased(geo, middle, geo.Base(which), geo.sector)(image)
    ensures RewritingFrom(geo, before, which)(image)
  {
    hide Overlay, SameBytes, Blank;
    var base, other := geo.Base(which), geo.Base(which.Other());
    var n: nat :| SectorsErased(geo, middle, base, geo.sector, n, image);
    OverlayElsewhere(middle, base, Fill(geo, n), other, other + geo.area);
    SameTrans(before, middle, image, other, other + geo.area);
    if n == 0 {
      OverlayElsewhere(middle, base, Fill(geo, n), base, base + AREA_RAW_SIZE);
      SameTrans(before, middle, image, base, base + AREA_RAW_SIZE);
    } else {
      MultipleAtLeast(n, geo.sector);
      FilledIsBlank(geo, middle, base, geo.sector, base, base + AREA_RAW_SIZE);
    }
  }

  lemma {:induction false} SameTrans(a: Bytes, b: Bytes, c: Bytes, lo: nat, hi: nat)
    requires SameBytes(a, b, lo, hi) && SameBytes(b, c, lo, hi)
    ensures SameBytes(a, c, lo, hi)
  {
  }

  lemma {:induction false} FilledIsBlank(geo: Geometry, image: Bytes, addr: nat, n: nat, lo: nat, hi: nat)
    requires addr + n <= |image| && addr <= lo <= hi <= addr + n
    ensures Blank(geo, Overlay(image, addr, Fill(geo, n)), lo, hi)
  {
    var r := Overlay(image, addr, Fill(geo, n));
    forall i | lo <= i < hi
      ensures r[i] == geo.erased
    {
      assert r[i] == Fill(geo, n)[i - addr];
    }
  }

  /** An area is blank once both parts are erased. */
  lemma {:induction false} AreaErased(geo: Geometry, before: Bytes, which: Area)
    requires geo.Valid() && |before| == 2 * geo.area
    ensures var base := geo.Base(which);
            var middle := Overlay(before, base + geo.sector, Fill(geo, geo.area - geo.sector));
            var after := Overlay(middle, base, Fill(geo, geo.sector));
            Blank(geo, after, base, base + geo.area)
  {
    var base := geo.Base(which);
    var middle := Overlay(before, base + geo.sector, Fill(geo, geo.area - geo.sector));
    var after := Overlay(middle, base, Fill(geo, geo.sector));
    FilledIsBlank(geo, before, base + geo.sector, geo.area - geo.sector, base + geo.sector, base + geo.area);
    FilledIsBlank(geo, middle, base, geo.sector, base, base + geo.sector);
    OverlayElsewhere(middle, base, Fill(geo, geo.sector), base + geo.sector, base + geo.area);
    BlankAlso(geo, middle, after, base + geo.sector, base + geo.area, base + geo.sector, base + geo.area);
    hide Overlay;
  }

  /** Writing `r` at `addr`, as a job. */
  function Place(geo: Geometry, image: Bytes, addr: nat, r: Record): Job
    requires r.WellFormed()
  {
    Job(geo, image, addr, Raw(r))
  }

  lemma {:induction false} PlaceParts(geo: Geometry, image: Bytes, addr: nat, r: Record, buffer: Bytes)
    requires r.WellFormed() && Place(geo, image, addr, r).Valid() && |buffer| == geo.buffer > 0
    ensures var job, k := Place(geo, image, addr, r), HEADER_SIZE + |r.key|;
            && job.geo == geo && job.Streaming(image, buffer, 0, addr, geo.buffer)
            && |job.full| == k + |r.data|
            && EncodeHeader(HeaderOf(r)) == job.full[0..HEADER_SIZE]
            && r.key == job.full[HEADER_SIZE..k] && r.data == job.full[k..k + |r.data|]
  {
    hide Raw, HeaderOf, EncodeHeader, Blank;
    RawParts(r);
    var raw := Raw(r);
    assert raw[0..HEADER_SIZE] == raw[..HEADER_SIZE];
    assert Overlay(image, addr, raw[..0]) == image;
  }

  /** Images that differ from `start` only between two addresses. */
  ghost function Within(start: Bytes, lo: nat, hi: nat): Bytes -> bool {
    img => SameBytes(start, img, 0, lo) && SameBytes(start, img, hi, |start|)
  }

  lemma {:induction false} UptoNone(job: Job)
    requires job.Valid()
    ensures job.Upto(0) == job.start
  {
  }

  /** `job` copies the `size` bytes at `from`, whole pages, to somewhere else. */
  ghost predicate Copies(job: Job, from: nat, size: nat) {
    && job.Valid() && from + size <= |job.start| && |job.full| == size && job.full == job.start[from..from + size]
    && size % job.geo.page == 0 && (from + size <= job.addr || job.addr + size <= from)
  }

  /** One round of the copy: whole pages, ... */
  lemma {:induction false} RoundAligned(geo: Geometry, to: nat, size: nat, done: nat, n: nat)
    requires geo.Valid() && size % geo.page == 0 && to % geo.page == 0 && done % geo.page == 0
    requires done <= size && (n == size - done || n == geo.buffer)
    ensures n % geo.page == 0 && (to + done) % geo.page == 0 && (done + n) % geo.page == 0
  {
    SumOfMultiples(size, done, geo.page);
    SumOfMultiples(to, done, geo.page);
    SumOfMultiples(done, n, geo.page);
  }

  /** ... the source still shows the original bytes, ... */
  lemma {:induction false} SourceUntouched(job: Job, from: nat, size: nat, done: nat, n: nat)
    requires Copies(job, from, size) && done + n <= size
    ensures |job.Upto(done)| == |job.start|
    ensures job.Upto(done)[from + done..from + done + n] == job.full[done..done + n]
  {
    hide Blank, Overlay, AlignUp;
    OverlayElsewhere(job.start, job.addr, job.full[..done], from + done, from + done + n);
    SliceOfSlice(job.start, from, from + size, done, done + n);
  }

  /** ... the target is erased, and is a longer prefix of the copy afterwards. */
  lemma {:induction false} TargetExtended(job: Job, from: nat, size: nat, done: nat, n: nat)
    requires Copies(job, from, size) && done + n <= size
    ensures job.addr + size <= |job.start| && Blank(job.geo, job.Upto(done), job.addr + done, job.addr + done + n)
    ensures Overlay(job.Upto(done), job.addr + done, job.full[done..done + n]) == job.Upto(done + n)
    ensures Within(job.start, job.addr, job.addr + size)(job.Upto(done + n))
  {
    hide Blank, Overlay, job.Upto, Within;
    UptoBlank(job, done, job.addr + done + n);
    FlushedImage(job, done, done + n, job.full[done..done + n]);
    UptoWithin(job, done + n, size);
  }

  lemma {:induction false} UptoWithin(job: Job, m: nat, size: nat)
    requires job.Valid() && m <= |job.full| <= size && job.addr + size <= |job.start|
    ensures Within(job.start, job.addr, job.addr + size)(job.Upto(m))
  {
    var image := job.Upto(m);
    assert image[0..job.addr] == job.start[0..job.addr];
    assert image[job.addr + size..] == job.start[job.addr + size..];
  }

  lemma {:induction false} CopyDone(job: Job, from: nat, size: nat)
    requires Copies(job, from, size)
    ensures job.Written(job.Upto(size))
  {
    AlignUpIsLeast(size, job.geo.page, size);
    assert job.full[..size] == job.full;
    PaddedIsWritten(job, job.full);
    hide Blank, Overlay;
  }

  /** An intact record with this header and key lies at `addr`. */
  ghost predicate ReadsAs(image: Bytes, addr: nat, header: Header, key: Bytes) {
    var v := Inspect(image, addr);
    v.Intact? && v.header == header && v.key == key
  }

  lemma {:induction false} DecodedInRange(b: Bytes)
    requires |b| == HEADER_SIZE
    ensures DecodeHeader(b).InRange()
  {
  }

  /** The verdict of a reader who found a plausible header and computed `crc` over the record. */
  lemma {:induction false} InspectRead(image: Bytes, addr: nat, crc: bv16)
    requires addr + HEADER_SIZE <= |image|
    requires var h := DecodeHeader(image[addr..addr + HEADER_SIZE]);
             var at := addr + h.headerSize;
             && h.InRange() && h.magic == MAGIC && 0 < h.keySize < MAX_KEY_SIZE
                 && at + h.keySize + h.dataSize <= |image|
             && crc == Crc(image[at + h.keySize..at + h.keySize + h.dataSize],
                           Crc(image[at..at + h.keySize], HeaderCrc(h, CRC_INIT)))
    ensures var h := DecodeHeader(image[addr..addr + HEADER_SIZE]);
            var at := addr + h.headerSize;
            Inspect(image, addr) == if h.crc == crc as nat
                                    then Intact(h, image[at..at + h.keySize],
                                                image[at + h.keySize..at + h.keySize + h.dataSize])
                                    else Invalid
  {
    hide Crc, HeaderCrc, DecodeHeader;
  }
}
