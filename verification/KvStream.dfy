/** What the chunked writer has done so far, stated on values: a prefix of the record is on
    flash, the rest of what was accepted waits in the transaction buffer.

    Modelled code: nimble/host/kv_store/mtb_kvstore.c:890-939. */
module KvStream {
  import opened Arith
  import opened LittleEndian
  import opened KvFormat
  import opened KvLog
  import opened KvFlash

  /** One record on its way to flash: the image before it, its address and all its bytes. */
  datatype Job = Job(geo: Geometry, start: Bytes, addr: nat, full: Bytes) {
    ghost predicate Valid() {
      && geo.Valid() && |start| == 2 * geo.area && full != [] && addr % geo.page == 0
      && addr + AlignUp(|full|, geo.page) <= |start|
      && Blank(geo, start, addr, addr + AlignUp(|full|, geo.page))
    }

    /** The image when `m` bytes are on flash. */
    ghost function Upto(m: nat): Bytes
      requires Valid() && m <= |full|
    {
      Overlay(start, addr, full[..m])
    }

    /** `done` bytes accepted, all but the last `buffer - space` of them on flash up to `at`. */
    ghost predicate Streaming(image: Bytes, buffer: Bytes, done: nat, at: nat, space: nat) {
      && Valid() && |buffer| == geo.buffer && space <= geo.buffer && done <= |full|
      && at <= addr + done && addr <= at && addr + done - at == geo.buffer - space
      && at % geo.page == 0
      && image == Upto(at - addr)
      && buffer[..geo.buffer - space] == full[at - addr..done]
    }

    /** All of the record is on flash, and nothing outside its pages has changed. */
    ghost predicate Written(image: Bytes) {
      && Valid() && |image| == |start|
      && image[addr..addr + |full|] == full
      && SameBytes(start, image, 0, addr)
      && SameBytes(start, image, addr + AlignUp(|full|, geo.page), |start|)
    }

    /** The images met on the way. */
    ghost function Partly(): Bytes -> bool {
      img => Valid() && (Written(img) || exists m: nat :: MIN_BUFFER_SIZE <= m <= |full| && img == Upto(m))
    }
  }

  lemma {:induction false} WrittenJob(job: Job, image: Bytes)
    requires job.Written(image)
    ensures job.Valid() && |image| == |job.start| && job.addr + |job.full| <= |image|
    ensures image[job.addr..job.addr + |job.full|] == job.full
    ensures SameBytes(job.start, image, 0, job.addr)
    ensures job.full != [] && SameBytes(job.start, image, job.addr + AlignUp(|job.full|, job.geo.page), |job.start|)
  {
    hide SameBytes, AlignUp, Blank;
  }

  lemma {:induction false} UptoBlank(job: Job, m: nat, to: nat)
    requires job.Valid() && m <= |job.full| && to <= job.addr + AlignUp(|job.full|, job.geo.page)
    ensures Blank(job.geo, job.Upto(m), job.addr + m, to)
  {
    var image := job.Upto(m);
    forall i | job.addr + m <= i < to
      ensures image[i] == job.geo.erased
    {
      assert image[i] == job.start[i];
    }
  }

  lemma {:induction false} StreamingParts(job: Job, image: Bytes, buffer: Bytes, done: nat, at: nat, space: nat)
    requires job.Streaming(image, buffer, done, at, space)
    ensures job.Valid() && |buffer| == job.geo.buffer && space <= job.geo.buffer && done <= |job.full|
  {
    hide Blank, job.Valid, job.Upto;
  }

  /** Copying the next `n` bytes into the buffer. */
  lemma {:induction false} Accept(job: Job, image: Bytes, buffer: Bytes, done: nat, at: nat, space: nat, n: nat)
    requires job.Streaming(image, buffer, done, at, space) && n <= space && done + n <= |job.full|
    ensures var used := job.geo.buffer - space;
            job.Streaming(image, buffer[..used] + job.full[done..done + n] + buffer[used + n..], done + n, at,
                          space - n)
  {
    var used := job.geo.buffer - space;
    var next := buffer[..used] + job.full[done..done + n] + buffer[used + n..];
    assert next[..used + n] == buffer[..used] + job.full[done..done + n];
    assert job.full[at - job.addr..done] + job.full[done..done + n] == job.full[at - job.addr..done + n];
  }

  /** What a program of the waiting bytes makes of the image. */
  lemma {:induction false} FlushedImage(job: Job, m: nat, done: nat, bytes: Bytes)
    requires job.Valid() && m <= done <= |job.full| && bytes == job.full[m..done]
    ensures job.addr + done <= |job.start|
    ensures Overlay(job.Upto(m), job.addr + m, bytes) == job.Upto(done)
  {
    assert job.full[..m] + job.full[m..done] == job.full[..done];
    OverlayJoins(job.start, job.addr, job.full[..m], bytes);
    hide Overlay, Blank;
  }

  lemma {:induction false} UptoIsPartly(job: Job, m: nat)
    requires job.Valid() && MIN_BUFFER_SIZE <= m <= |job.full|
    ensures job.Partly()(job.Upto(m))
  {
    hide job.Upto, Blank;
  }

  /** Programming a full buffer. */
  lemma {:induction false} Flushed(job: Job, image: Bytes, buffer: Bytes, done: nat, at: nat)
    requires job.Streaming(image, buffer, done, at, 0)
    ensures at + job.geo.buffer <= |image| && Blank(job.geo, image, at, at + job.geo.buffer)
    ensures job.Streaming(Overlay(image, at, buffer), buffer, done, at + job.geo.buffer, job.geo.buffer)
    ensures job.Partly()(Overlay(image, at, buffer))
  {
    hide Overlay, Blank, job.Partly;
    var m := at - job.addr;
    UptoBlank(job, m, at + job.geo.buffer);
    assert buffer == buffer[..job.geo.buffer];
    FlushedImage(job, m, done, buffer);
    SumOfMultiples(at, job.geo.buffer, job.geo.page);
    UptoIsPartly(job, done);
  }

  /** The room the last program takes. */
  lemma {:induction false} LastSize(job: Job, image: Bytes, buffer: Bytes, at: nat, space: nat)
    requires job.Streaming(image, buffer, |job.full|, at, space) && space < job.geo.buffer
    ensures var used := job.geo.buffer - space;
            var size := AlignUp(used, job.geo.page);
            && job.addr <= at && at - job.addr <= |job.full| && used <= size <= job.geo.buffer == |buffer|
            && at - job.addr + used == |job.full| && buffer[..used] == job.full[at - job.addr..]
            && at - job.addr + size == AlignUp(|job.full|, job.geo.page) && at + size <= |job.start|
            && image == job.Upto(at - job.addr) && |image| == |job.start|
  {
    var used := job.geo.buffer - space;
    AlignUpIsLeast(used, job.geo.page, job.geo.buffer);
    SumOfMultiples(at, job.addr, job.geo.page);
    AlignUpSkipsMultiples(at - job.addr, used, job.geo.page);
    hide Blank, AlignUp;
  }

  /** Programming the last, partly filled buffer, rounded up to whole pages. */
  lemma {:induction false} LastFlush(job: Job, image: Bytes, buffer: Bytes, at: nat, space: nat)
    requires job.Streaming(image, buffer, |job.full|, at, space) && space < job.geo.buffer
    ensures var size := AlignUp(job.geo.buffer - space, job.geo.page);
            && size <= job.geo.buffer && at + size <= |image| && Blank(job.geo, image, at, at + size)
            && job.Written(Overlay(image, at, buffer[..size]))
  {
    StreamingParts(job, image, buffer, |job.full|, at, space);
    LastSize(job, image, buffer, at, space);
    hide *;
    var used := job.geo.buffer - space;
    var size, m := AlignUp(used, job.geo.page), at - job.addr;
    UptoBlank(job, m, at + size);
    JoinsUpto(job, m, buffer[..size]);
    PaddedIsWritten(job, job.full[..m] + buffer[..size]) by {
      assert (job.full[..m] + buffer[..size])[..|job.full|] == job.full[..m] + buffer[..used];
      assert job.full[..m] + job.full[m..] == job.full;
    }
  }

  lemma {:induction false} JoinsUpto(job: Job, m: nat, bytes: Bytes)
    requires job.Valid() && m <= |job.full| && job.addr + m + |bytes| <= |job.start|
    ensures |job.Upto(m)| == |job.start|
    ensures Overlay(job.Upto(m), job.addr + m, bytes) == Overlay(job.start, job.addr, job.full[..m] + bytes)
  {
    OverlayJoins(job.start, job.addr, job.full[..m], bytes);
    hide Overlay, Blank;
  }

  lemma {:induction false} PaddedIsWritten(job: Job, padded: Bytes)
    requires job.Valid() && |padded| == AlignUp(|job.full|, job.geo.page) && padded[..|job.full|] == job.full
    ensures job.Written(Overlay(job.start, job.addr, padded))
  {
    var image := Overlay(job.start, job.addr, padded);
    OverlayBytes(job.start, job.addr, padded);
    SliceOfSlice(image, job.addr, job.addr + |padded|, 0, |job.full|);
    assert padded[0..|job.full|] == padded[..|job.full|];
  }

  /** Nothing is left in the buffer: the record ended on a buffer boundary. */
  lemma {:induction false} NothingLeft(job: Job, image: Bytes, buffer: Bytes, at: nat)
    requires job.Streaming(image, buffer, |job.full|, at, job.geo.buffer)
    ensures job.Written(image)
  {
    SumOfMultiples(at, job.addr, job.geo.page);
    AlignUpIsLeast(|job.full|, job.geo.page, |job.full|);
    assert job.full[..|job.full|] == job.full;
    PaddedIsWritten(job, job.full);
  }
}
