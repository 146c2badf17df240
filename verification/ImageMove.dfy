/** The boot loader's check of the backup image and its move into the image area.

    Modelled code: nimble/mcu_boot/src/flash_manager.c:9-112, nimble/mcu_boot/include/flash_manager.h:12-38
    and nimble/mcu_boot/src/main.c:14-17, 53. The flash only has to hold both areas, as the 512K of the
    sample that uses them does; what the code reads of a larger image must lie within the flash too. A
    program call and the erasure of a sector are the steps between which the power can fail; every
    image passed through is kept in `trail`. */
module ImageMove {
  import opened LittleEndian

  const BACKUP: nat := 0x41000
  const IMAGE: nat := 0xA000
  const MAX_SIZE: nat := 0x73000
  const SECTOR: nat := 4096
  const HEADER: nat := 512
  const TAIL: nat := 40
  const PIECE: nat := 256

  /** What fits between the start of the image area and the backup. */
  const ROOM: nat := BACKUP - IMAGE

  /** The sum of all bytes. */
  function Sum(b: Bytes): (n: nat)
    ensures n <= 255 * |b|
  {
    if b == [] then 0 else Sum(b[..|b| - 1]) + Value(b[|b| - 1])
  }

  lemma {:induction false} SumOfConcatenation(a: Bytes, b: Bytes)
    ensures Sum(a + b) == Sum(a) + Sum(b)
  {
    if b == [] {
      assert a + b == a;
    } else {
      SumOfConcatenation(a, b[..|b| - 1]);
      assert (a + b)[..|a + b| - 1] == a + b[..|b| - 1];
    }
  }

  lemma {:induction false} SumOfOne(b: bv8)
    ensures Sum([b]) == Value(b) && Sum([]) == 0
  {
    assert [b][..0] == [];
  }

  /** Changing one byte changes the sum by as much. */
  lemma {:induction false} SumOfChange(image: Bytes, i: nat, b: bv8)
    requires i < |image|
    ensures Sum(image[i := b]) + Value(image[i]) == Sum(image) + Value(b)
  {
    hide Sum;
    var before, behind := image[..i], image[i + 1..];
    assert image == (before + [image[i]]) + behind && image[i := b] == (before + [b]) + behind;
    SumOfConcatenation(before + [image[i]], behind);
    SumOfConcatenation(before + [b], behind);
    SumOfConcatenation(before, [image[i]]);
    SumOfConcatenation(before, [b]);
    SumOfOne(image[i]);
    SumOfOne(b);
  }

  lemma {:induction false} SumTells(image: Bytes, i: nat, b: bv8)
    requires i < |image| && image[i] != b
    ensures Sum(image[i := b]) != Sum(image)
  {
    SumOfChange(image, i, b);
    ValueTells(image[i], b);
    hide *;
  }

  /** The flash of the samples that keep a backup, in bytes. */
  const FLASH_MAP_SIZE: nat := 520192

  /** Room for both areas. */
  predicate Large(f: Bytes) {
    |f| >= BACKUP + ROOM
  }

  /** The sizes the check does not refuse at once. */
  predicate Sensible(size: nat) {
    PIECE < size <= MAX_SIZE
  }

  function SizeField(header: Bytes): (n: nat)
    requires |header| == HEADER
    ensures n < 0x1_0000_0000
  {
    Nat32(header[12..16])
  }

  function ChecksumField(header: Bytes): (n: nat)
    requires |header| == HEADER
    ensures n < 0x1_0000_0000
  {
    Nat32(header[32..36])
  }

  function HeaderAt(f: Bytes, at: nat): (h: Bytes)
    requires at + HEADER <= |f|
    ensures |h| == HEADER
  {
    f[at..at + HEADER]
  }

  /** Whether a whole image lies at `at`: a sensible size and the right checksum. */
  predicate Complete(f: Bytes, at: nat)
    requires at <= BACKUP && Large(f)
  {
    var h := HeaderAt(f, at);
    && Sensible(SizeField(h)) && at + HEADER + SizeField(h) <= |f|
    && Sum(f[at + HEADER..at + HEADER + SizeField(h)]) == ChecksumField(h)
  }

  /** The same in terms of the bytes of the flash. */
  lemma {:induction false} CompleteBytes(f: Bytes, at: nat)
    requires at <= BACKUP && Large(f)
    ensures var size := Nat32(f[at + 12..at + 16]);
            Complete(f, at) <==>
              256 < size <= 0x73000 && at + 512 + size <= |f|
              && Sum(f[at + 512..at + 512 + size]) == Nat32(f[at + 32..at + 36])
    ensures SizeField(HeaderAt(f, at)) == Nat32(f[at + 12..at + 16])
  {
    SliceOfSlice(f, at, at + HEADER, 12, 16);
    SliceOfSlice(f, at, at + HEADER, 32, 36);
    hide Nat32, Sum;
  }

  /** An image whose size is not refused lies within the flash. */
  predicate Readable(f: Bytes, at: nat)
    requires at <= BACKUP && Large(f)
  {
    Sensible(SizeField(HeaderAt(f, at))) ==> at + HEADER + SizeField(HeaderAt(f, at)) <= |f|
  }

  lemma {:induction false} CheckedBytes(f: Bytes, at: nat)
    requires at <= BACKUP && Large(f) && Readable(f, at)
    ensures at + 512 <= |f|
    ensures var size := Nat32(f[at + 12..at + 16]);
            && (Complete(f, at) ==> 256 < size <= 0x73000)
            && (256 < size <= 0x73000 ==>
                && at + 512 + size <= |f|
                && (Complete(f, at) <==> Sum(f[at + 512..at + 512 + size]) == Nat32(f[at + 32..at + 36])))
  {
    CompleteBytes(f, at);
    hide Nat32, Sum, Complete, HeaderAt, SizeField;
  }

  lemma {:induction false} BackupBytes(f: Bytes)
    requires Large(f) && Readable(f, BACKUP)
    ensures 0x41000 + 512 <= |f|
    ensures var size := Nat32(f[0x41000 + 12..0x41000 + 16]);
            && (Complete(f, BACKUP) ==> 256 < size <= 0x73000)
            && (256 < size <= 0x73000 ==>
                && 0x41000 + 512 + size <= |f|
                && (Complete(f, BACKUP) <==>
                    Sum(f[0x41000 + 512..0x41000 + 512 + size]) == Nat32(f[0x41000 + 32..0x41000 + 36])))
  {
    hide Nat32, Sum, Complete, HeaderAt, SizeField;
    CheckedBytes(f, BACKUP);
  }

  /** What the check reads, and what it makes of it. */
  lemma {:induction false} CheckParts(f: Bytes, at: nat)
    requires at <= BACKUP && Large(f) && Readable(f, at)
    ensures at + HEADER <= |f|
    ensures var h := f[at..at + HEADER];
            && |h| == HEADER && (PIECE < SizeField(h) <= MAX_SIZE ==> at + HEADER + SizeField(h) <= |f|)
            && (Complete(f, at) <==> PIECE < SizeField(h) <= MAX_SIZE
                                     && Sum(f[at + HEADER..at + HEADER + SizeField(h)]) == ChecksumField(h))
  {
    hide SizeField, ChecksumField, Sum;
  }

  /** `f` with a byte changed, of the checksum in the header at `at` or of the image behind it. */
  predicate Damaged(f: Bytes, at: nat, i: nat, b: bv8)
    requires at <= BACKUP && Large(f)
  {
    && i < |f| && f[i] != b
    && (at + 32 <= i < at + 36 || at + 512 <= i < at + 512 + Nat32(f[at + 12..at + 16]))
  }

  lemma {:induction false} DamagedHeader(f: Bytes, at: nat, i: nat, b: bv8)
    requires at <= BACKUP && Large(f) && Damaged(f, at, i, b)
    ensures var g := f[i := b]; |g| == |f| && g[at + 12..at + 16] == f[at + 12..at + 16]
    ensures SizeField(HeaderAt(f[i := b], at)) == SizeField(HeaderAt(f, at)) == Nat32(f[at + 12..at + 16])
    ensures Large(f[i := b]) && (Readable(f, at) ==> Readable(f[i := b], at))
  {
    var g := f[i := b];
    SliceOfSlice(f, at, at + HEADER, 12, 16);
    SliceOfSlice(g, at, at + HEADER, 12, 16);
    assert g[at + 12..at + 16] == f[at + 12..at + 16];
    hide Nat32;
  }

  lemma {:induction false} SliceAfterChange(f: Bytes, i: nat, b: bv8, from: nat, to: nat)
    requires i < |f| && from <= to <= |f|
    ensures f[i := b][from..to] == if from <= i < to then f[from..to][i - from := b] else f[from..to]
  {
  }

  /** Whatever the size and the checksum: bytes that add up to the checksum do not once one of them, or
      of the checksum, has changed. */
  lemma {:induction false} DamageShows(f: Bytes, at: nat, i: nat, b: bv8)
    requires at <= BACKUP && Large(f) && Damaged(f, at, i, b)
    requires at + 512 + Nat32(f[at + 12..at + 16]) <= |f|
    ensures var g, size := f[i := b], Nat32(f[at + 12..at + 16]);
            Sum(f[at + 512..at + 512 + size]) == Nat32(f[at + 32..at + 36]) ==>
              Sum(g[at + 512..at + 512 + size]) != Nat32(g[at + 32..at + 36])
  {
    hide *;
    DamagedIs(f, at, i, b);
    var size := Nat32(f[at + 12..at + 16]);
    SliceAfterChange(f, i, b, at + 32, at + 36);
    SliceAfterChange(f, i, b, at + 512, at + 512 + size);
    if i < at + 36 {
      Nat32Tells(f[at + 32..at + 36], i - at - 32, b);
    } else {
      SumTells(f[at + 512..at + 512 + size], i - at - 512, b);
    }
  }

  lemma {:induction false} DamagedIs(f: Bytes, at: nat, i: nat, b: bv8)
    requires at <= BACKUP && Large(f) && Damaged(f, at, i, b)
    ensures at + 512 <= |f| && i < |f| && f[i] != b
    ensures at + 32 <= i < at + 36 || at + 512 <= i < at + 512 + Nat32(f[at + 12..at + 16])
  {
    hide Nat32;
  }

  /** Bytes of the backup that are moved: header, image and the 40 bytes behind it. */
  function Total(f: Bytes): (n: nat)
    requires Large(f)
  {
    HEADER + SizeField(HeaderAt(f, BACKUP)) + TAIL
  }

  function Fill(blank: bv8, n: nat): (r: Bytes)
    ensures |r| == n
  {
    seq(n, _ => blank)
  }

  ghost predicate AllBlank(f: Bytes, from: nat, to: nat, blank: bv8) {
    to <= |f| && forall i :: from <= i < to ==> f[i] == blank
  }

  /** The flash when `w` bytes have been moved and the image area is erased up to `frontier`. */
  function Moved(was: Bytes, w: nat, frontier: nat, blank: bv8): (now: Bytes)
    requires IMAGE + w <= frontier <= |was| && BACKUP + w <= |was|
    ensures |now| == |was|
  {
    was[..IMAGE] + was[BACKUP..BACKUP + w] + Fill(blank, frontier - IMAGE - w) + was[frontier..]
  }

  lemma {:induction false} NothingMoved(was: Bytes, blank: bv8)
    requires IMAGE <= BACKUP <= |was|
    ensures Moved(was, 0, IMAGE, blank) == was
  {
  }

  /** Erasing the sector at the frontier. */
  lemma {:induction false} ErasedOn(was: Bytes, w: nat, frontier: nat, blank: bv8)
    requires IMAGE + w <= frontier && frontier + SECTOR <= |was| && BACKUP + w <= |was|
    ensures Overlay(Moved(was, w, frontier, blank), frontier, Fill(blank, SECTOR)) == Moved(was, w, frontier + SECTOR,
            blank)
  {
    assert Fill(blank, frontier - IMAGE - w) + Fill(blank, SECTOR) == Fill(blank, frontier + SECTOR - IMAGE - w);
  }

  /** Moving the next `k` bytes, which are still those of the backup, onto erased flash. */
  lemma {:induction false} MovedOn(was: Bytes, w: nat, k: nat, frontier: nat, blank: bv8)
    requires IMAGE + w + k <= frontier <= |was| && BACKUP + w + k <= |was|
    ensures var now, piece := Moved(was, w, frontier, blank), was[BACKUP + w..BACKUP + w + k];
      Overlay(now, IMAGE + w, piece) == Moved(was, w + k, frontier, blank)
  {
    var now, piece := Moved(was, w, frontier, blank), was[BACKUP + w..BACKUP + w + k];
    assert now[..IMAGE + w] == was[..IMAGE] + was[BACKUP..BACKUP + w];
    assert now[IMAGE + w + k..] == Fill(blank, frontier - IMAGE - w - k) + was[frontier..];
    assert was[BACKUP..BACKUP + w] + piece == was[BACKUP..BACKUP + w + k];
  }

  lemma {:induction false} BlankAhead(was: Bytes, w: nat, frontier: nat, blank: bv8)
    requires IMAGE + w <= frontier <= |was| && BACKUP + w <= |was|
    ensures AllBlank(Moved(was, w, frontier, blank), IMAGE + w, frontier, blank)
  {
  }

  /** What lies behind the frontier has not been touched. */
  lemma {:induction false} BeyondFrontier(was: Bytes, w: nat, frontier: nat, blank: bv8, from: nat, to: nat)
    requires IMAGE + w <= frontier <= from <= to <= |was| && BACKUP + w <= |was|
    ensures Moved(was, w, frontier, blank)[from..to] == was[from..to]
  {
    var now := Moved(was, w, frontier, blank);
    assert now[frontier..] == was[frontier..];
    assert now[frontier..|was|] == was[frontier..|was|];
    SliceOfSlice(now, frontier, |was|, from - frontier, to - frontier);
    SliceOfSlice(was, frontier, |was|, from - frontier, to - frontier);
    assert now[from..to] == now[frontier..|was|][from - frontier..to - frontier];
  }

  lemma {:induction false} SumExtends(f: Bytes, from: nat, size: nat, a: nat, k: nat)
    requires from + size <= |f| && a + k <= size
    ensures Sum(f[from..from + size][..a + k]) == Sum(f[from..from + size][..a]) + Sum(f[from + a..from + a + k])
  {
    hide Sum;
    var image := f[from..from + size];
    SliceOfSlice(f, from, from + size, a, a + k);
    assert image[..a] + image[a..a + k] == image[..a + k];
    SumOfConcatenation(image[..a], image[a..a + k]);
  }

  lemma {:induction false} SumOfFewBytes(b: Bytes)
    requires |b| <= MAX_SIZE
    ensures Sum(b) < 0x1_0000_0000
  {
  }

  /** An erased header is never taken for that of an image. */
  lemma {:induction false} ErasedIsRefused(f: Bytes, at: nat, blank: bv8)
    requires at <= BACKUP && Large(f) && AllBlank(f, at, at + HEADER, blank) && (blank == 0 || blank == 0xFF)
    ensures !Sensible(SizeField(HeaderAt(f, at)))
  {
    var field := HeaderAt(f, at)[12..16];
    forall i | 0 <= i < 4
      ensures field[i] == blank
    {
      assert field[i] == f[at + 12 + i];
    }
    assert field == [blank, blank, blank, blank];
    assert field[..2] == [blank, blank] && field[2..] == [blank, blank];
  }

  /** Room for both areas, and for `n` bytes behind the start of the backup. */
  ghost predicate Covers(f: Bytes, n: nat) {
    Large(f) && HEADER < n && BACKUP + n <= |f|
  }

  /** The flash while `n` bytes are moved: `w` of them are, and the sectors below `frontier` were
      erased. */
  ghost predicate Stage(was: Bytes, n: nat, now: Bytes, w: nat, frontier: nat, blank: bv8) {
    && Covers(was, n) && w <= n
    && frontier % SECTOR == 0 && IMAGE + w <= frontier < IMAGE + n + SECTOR
    && now == Moved(was, w, frontier, blank)
  }

  ghost predicate Midway(was: Bytes, n: nat, now: Bytes, blank: bv8) {
    exists w: nat, frontier: nat :: Stage(was, n, now, w, frontier, blank)
  }

  /** The backup is as it was. */
  ghost predicate SameBackup(was: Bytes, n: nat, now: Bytes) {
    Covers(was, n) && |now| == |was| && now[BACKUP..BACKUP + n] == was[BACKUP..BACKUP + n]
  }

  /** The image area holds what the backup held. */
  ghost predicate Installed(was: Bytes, n: nat, now: Bytes) {
    Covers(was, n) && |now| == |was| && now[IMAGE..IMAGE + n] == was[BACKUP..BACKUP + n]
  }

  /** The flash when the move is over and the backup's first sector is erased. */
  ghost predicate Finished(was: Bytes, n: nat, now: Bytes, frontier: nat, blank: bv8) {
    && Covers(was, n)
    && frontier % SECTOR == 0 && IMAGE + n <= frontier < IMAGE + n + SECTOR
    && now == Overlay(Moved(was, n, frontier, blank), BACKUP, Fill(blank, SECTOR))
  }

  /** The backup would not be taken for an image any more: its header alone is refused. */
  ghost predicate Spoilt(f: Bytes) {
    Large(f) && !Sensible(SizeField(HeaderAt(f, BACKUP)))
  }

  /** A move that fits the room leaves the backup alone until its last step. */
  lemma {:induction false} MidwayIsRestartable(was: Bytes, n: nat, now: Bytes, blank: bv8)
    requires Midway(was, n, now, blank) && n <= ROOM
    ensures SameBackup(was, n, now)
  {
    var w: nat, frontier: nat :| Stage(was, n, now, w, frontier, blank);
    hide Moved;
    BeyondFrontier(was, w, frontier, blank, BACKUP, BACKUP + n);
  }

  lemma {:induction false} SameSlices(f: Bytes, g: Bytes, from: nat, n: nat, a: nat, b: nat)
    requires |f| == |g| && from + n <= |f| && f[from..from + n] == g[from..from + n] && a <= b <= n
    ensures f[from + a..from + b] == g[from + a..from + b]
  {
    SliceOfSlice(f, from, from + n, a, b);
    SliceOfSlice(g, from, from + n, a, b);
  }

  lemma {:induction false} SameHeader(was: Bytes, n: nat, now: Bytes)
    requires Large(was) && SameBackup(was, n, now)
    ensures Large(now) && HeaderAt(now, BACKUP) == HeaderAt(was, BACKUP) && Total(now) == Total(was)
  {
    hide SizeField;
    SameSlices(was, now, BACKUP, n, 0, HEADER);
  }

  /** Where the backup is the same, the check says the same. */
  lemma {:induction false} SameBackupSameCheck(was: Bytes, n: nat, now: Bytes)
    requires Large(was) && Complete(was, BACKUP) && n == Total(was) && SameBackup(was, n, now)
    ensures Large(now) && Total(now) == n && Complete(now, BACKUP)
  {
    hide SizeField, ChecksumField, Sum, HeaderAt;
    SameHeader(was, n, now);
    SameSlices(was, now, BACKUP, n, HEADER, n - TAIL);
  }

  /** A move that fits can be cut off anywhere before its last step: the next start redoes it. */
  lemma {:induction false} MidwayIsIntact(was: Bytes, n: nat, now: Bytes, blank: bv8)
    requires Large(was) && Complete(was, BACKUP) && n == Total(was) && n <= ROOM && Midway(was, n, now, blank)
    ensures SameBackup(was, n, now) && !Spoilt(now) && Large(now) && Total(now) == n && Complete(now, BACKUP)
  {
    MidwayIsRestartable(was, n, now, blank);
    hide Sum, HeaderAt, SameBackup, Midway;
    SameBackupSameCheck(was, n, now);
  }

  /** Erasing the backup's first sector makes the backup incomplete. */
  lemma {:induction false} FinishedIsIncomplete(was: Bytes, n: nat, now: Bytes, frontier: nat, blank: bv8)
    requires Finished(was, n, now, frontier, blank) && (blank == 0 || blank == 0xFF)
    ensures Spoilt(now)
  {
    var before := Moved(was, n, frontier, blank);
    hide Moved;
    assert AllBlank(Overlay(before, BACKUP, Fill(blank, SECTOR)), BACKUP, BACKUP + HEADER, blank);
    ErasedIsRefused(now, BACKUP, blank);
  }

  lemma {:induction false} MovedImage(was: Bytes, w: nat, frontier: nat, blank: bv8)
    requires IMAGE + w <= frontier <= |was| && BACKUP + w <= |was|
    ensures Moved(was, w, frontier, blank)[IMAGE..IMAGE + w] == was[BACKUP..BACKUP + w]
  {
  }

  /** Byte `i` of the image area at the end. */
  lemma {:induction false} FinishedByte(was: Bytes, n: nat, now: Bytes, frontier: nat, blank: bv8, i: nat)
    requires Finished(was, n, now, frontier, blank) && i < n
    ensures |now| == |was| && now[IMAGE + i] == if ROOM <= i < ROOM + SECTOR then blank else was[BACKUP + i]
  {
    var before := Moved(was, n, frontier, blank);
    MovedImage(was, n, frontier, blank);
    hide Moved;
    assert before[IMAGE + i] == before[IMAGE..IMAGE + n][i] == was[BACKUP..BACKUP + n][i];
  }

  /** The end of what is moved that lies in the backup's first sector. */
  function Reach(n: nat): nat {
    BACKUP + if n <= ROOM + SECTOR then n else ROOM + SECTOR
  }

  /** The move is right if and only if the image fits below the backup, or what reaches into the
      backup's first sector, which is erased at the end, looks erased anyway. */
  lemma {:induction false} FinishedIsInstalled(was: Bytes, n: nat, now: Bytes, frontier: nat, blank: bv8)
    requires Finished(was, n, now, frontier, blank)
    ensures Installed(was, n, now) <==> n <= ROOM || AllBlank(was, BACKUP + ROOM, Reach(n), blank)
  {
    FinishedByte(was, n, now, frontier, blank, 0);
    if Installed(was, n, now) {
      forall i | BACKUP + ROOM <= i < Reach(n)
        ensures was[i] == blank
      {
        FinishedByte(was, n, now, frontier, blank, i - BACKUP);
        assert now[IMAGE..IMAGE + n][i - BACKUP] == was[BACKUP..BACKUP + n][i - BACKUP];
      }
    }
    if n <= ROOM || AllBlank(was, BACKUP + ROOM, Reach(n), blank) {
      hide Finished;
      var a, b := now[IMAGE..IMAGE + n], was[BACKUP..BACKUP + n];
      forall i | 0 <= i < n
        ensures a[i] == b[i]
      {
        FinishedByte(was, n, now, frontier, blank, i);
      }
      assert a == b;
    }
  }

  /** In terms of the bytes of the flash. */
  lemma {:induction false} FinishedBytes(was: Bytes, now: Bytes, frontier: nat, blank: bv8)
    requires Large(was) && Finished(was, Total(was), now, frontier, blank)
    ensures var n := 512 + Nat32(was[0x41000 + 12..0x41000 + 16]) + 40;
            n <= 0x37000 ==> && 0x41000 + n <= |was| == |now|
                             && now[0xA000..0xA000 + n] == was[0x41000..0x41000 + n]
    ensures |now| == |was| && now[..0xA000] == was[..0xA000]
  {
    assert now[..0xA000] == was[..0xA000];
    CompleteBytes(was, BACKUP);
    FinishedIsInstalled(was, Total(was), now, frontier, blank);
    hide Nat32, Complete, Finished, SizeField, HeaderAt;
  }

  lemma {:induction false} StageIsMidway(was: Bytes, n: nat, now: Bytes, w: nat, frontier: nat, blank: bv8)
    requires Stage(was, n, now, w, frontier, blank)
    ensures Midway(was, n, now, blank)
  {
  }

  /** Writing the next `k` bytes onto erased flash. */
  lemma {:induction false} PieceWritten(was: Bytes, n: nat, now: Bytes, w: nat, k: nat, frontier: nat, blank: bv8)
    requires Stage(was, n, now, w, frontier, blank) && w + k <= n && IMAGE + w + k <= frontier
    ensures var next := Overlay(now, IMAGE + w, was[BACKUP + w..BACKUP + w + k]);
      Stage(was, n, next, w + k, frontier, blank) && Midway(was, n, next, blank)
  {
    MovedOn(was, w, k, frontier, blank);
    hide Moved, Overlay;
    StageIsMidway(was, n, Overlay(now, IMAGE + w, was[BACKUP + w..BACKUP + w + k]), w + k, frontier, blank);
  }

  /** Erasing the sector at the frontier for the next bytes. */
  lemma {:induction false} SectorErased(was: Bytes, n: nat, now: Bytes, w: nat, frontier: nat, blank: bv8)
    requires Stage(was, n, now, w, frontier, blank) && frontier < IMAGE + n && (blank == 0 || blank == 0xFF)
    ensures var next := Overlay(now, frontier, Fill(blank, SECTOR));
      && Stage(was, n, next, w, frontier + SECTOR, blank) && Midway(was, n, next, blank)
      && (frontier <= BACKUP < frontier + SECTOR ==> Spoilt(next))
  {
    var next := Moved(was, w, frontier + SECTOR, blank);
    ErasedOn(was, w, frontier, blank);
    hide Moved, Overlay, Fill;
    StageIsMidway(was, n, next, w, frontier + SECTOR, blank);
    if frontier <= BACKUP < frontier + SECTOR {
      assert frontier == BACKUP;
      BlankAhead(was, w, frontier + SECTOR, blank);
      ErasedIsRefused(next, BACKUP, blank);
    }
  }

  /** The images passed through when `b` is written to `addr` with the flash erased up to `erased`. */
  function Passed(f: Bytes, erased: nat, addr: nat, b: Bytes, blank: bv8): (r: seq<Bytes>)
    requires erased + SECTOR <= |f| && addr + |b| <= |f|
    ensures r != []
  {
    if addr + |b| <= erased then
      [Overlay(f, addr, b)]
    else
      var half := Overlay(f, erased, Fill(blank, SECTOR));
      [half, Overlay(half, addr, b)]
  }

  /** The next `k` bytes when a sector is erased for them. */
  lemma {:induction false} PieceAfterErasure(was: Bytes, n: nat, now: Bytes, w: nat, k: nat, erased: nat, blank: bv8)
    requires Stage(was, n, now, w, erased, blank) && erased < IMAGE + w + SECTOR && (blank == 0 || blank == 0xFF)
    requires 0 < k <= HEADER && w + k <= n && IMAGE + w + k > erased
    ensures erased + SECTOR <= |now| && |now| == |was|
    ensures var half := Overlay(now, erased, Fill(blank, SECTOR));
      var next := Overlay(half, IMAGE + w, was[BACKUP + w..BACKUP + w + k]);
      && Midway(was, n, half, blank) && Midway(was, n, next, blank)
          && Stage(was, n, next, w + k, erased + SECTOR, blank)
      && (erased <= BACKUP < erased + SECTOR ==> Spoilt(half))
  {
    SectorErased(was, n, now, w, erased, blank);
    hide Moved, Midway, Spoilt, Overlay;
    PieceWritten(was, n, Overlay(now, erased, Fill(blank, SECTOR)), w, k, erased + SECTOR, blank);
  }

  /** The next `k` bytes: every image passed through is one of the move. */
  lemma {:induction false} PiecePassed(was: Bytes, n: nat, now: Bytes, w: nat, k: nat, erased: nat, blank: bv8)
    requires Stage(was, n, now, w, erased, blank) && erased < IMAGE + w + SECTOR && (blank == 0 || blank == 0xFF)
    requires 0 < k <= HEADER && w + k <= n
    ensures var passed := Passed(now, erased, IMAGE + w, was[BACKUP + w..BACKUP + w + k], blank);
      && (forall i :: 0 <= i < |passed| ==> Midway(was, n, passed[i], blank))
      && Stage(was, n, passed[|passed| - 1], w + k, if IMAGE + w + k <= erased then erased else erased + SECTOR, blank)
      && (IMAGE + w + k > erased && erased <= BACKUP < erased + SECTOR ==> Spoilt(passed[0]))
  {
    assert |was[BACKUP + w..BACKUP + w + k]| == k;
    if IMAGE + w + k <= erased {
      hide Stage, Midway, Spoilt, Overlay;
      PieceWritten(was, n, now, w, k, erased, blank);
    } else {
      hide Stage, Midway, Spoilt, Overlay;
      PieceAfterErasure(was, n, now, w, k, erased, blank);
    }
  }

  /** What is read for the next `k` bytes, and where they are written. */
  lemma {:induction false} PieceReady(was: Bytes, n: nat, now: Bytes, w: nat, k: nat, erased: nat, blank: bv8)
    requires Stage(was, n, now, w, erased, blank) && erased < IMAGE + w + SECTOR && 0 < k <= HEADER && w + k <= n
    ensures k <= SECTOR && |now| == |was| && BACKUP + w + k <= |now| && IMAGE + w <= erased
            && IMAGE + w + k <= erased + SECTOR
    ensures erased % SECTOR == 0 && erased + SECTOR <= |now| && AllBlank(now, IMAGE + w, erased, blank)
    ensures now[BACKUP + w..BACKUP + w + k] == was[BACKUP + w..BACKUP + w + k]
  {
    BeyondFrontier(was, w, erased, blank, BACKUP + w, BACKUP + w + k);
    BlankAhead(was, w, erased, blank);
    hide Moved, AllBlank;
  }

  lemma {:induction false} StageIsLarge(was: Bytes, n: nat, now: Bytes, w: nat, erased: nat, blank: bv8)
    requires Stage(was, n, now, w, erased, blank)
    ensures Large(now)
  {
    hide Moved;
  }

  class Loader {
    const blank: bv8
    var flash: Bytes
    var erased: nat                 // the image area is erased up to here
    var trail: seq<Bytes>

    ghost predicate Valid()
      reads this
    {
      Large(flash) && (blank == 0 || blank == 0xFF)
    }

    lemma ValidParts()
      ensures Valid() <==> Large(flash) && (blank == 0 || blank == 0xFF)
    {
    }

    constructor (flash: Bytes, blank: bv8)
      requires Large(flash) && (blank == 0 || blank == 0xFF)
      ensures Valid() && this.flash == flash && this.blank == blank && trail == []
    {
      this.flash, this.blank, erased, trail := flash, blank, 0, [];
    }

    method ReadFlash(addr: nat, length: nat) returns (b: Bytes)
      requires addr + length <= |flash|
      ensures b == flash[addr..addr + length]
    {
      b := flash[addr..addr + length];
    }

    /** Programs the flash, which must be erased there. */
    method WriteStream(addr: nat, b: Bytes)
      requires addr + |b| <= |flash| && AllBlank(flash, addr, addr + |b|, blank)
      modifies this`flash, this`trail
      ensures flash == Overlay(old(flash), addr, b) && trail == old(trail) + [flash]
    {
      flash := Overlay(flash, addr, b);
      trail := trail + [flash];
    }

    /** Erases the sector an address lies in. */
    method EraseSector(addr: nat)
      requires addr / SECTOR * SECTOR + SECTOR <= |flash|
      modifies this`flash, this`trail
      ensures flash == Overlay(old(flash), addr / SECTOR * SECTOR, Fill(blank, SECTOR)) && trail == old(trail) + [flash]
    {
      flash := Overlay(flash, addr / SECTOR * SECTOR, Fill(blank, SECTOR));
      trail := trail + [flash];
    }

    /** Writes up to a sector further than was written before, erasing the next sector when needed. */
    method WriteFlash(addr: nat, b: Bytes)
      requires addr <= erased && |b| <= SECTOR && erased % SECTOR == 0 && erased + SECTOR <= |flash|
      requires addr + |b| <= erased + SECTOR && AllBlank(flash, addr, erased, blank)
      modifies this`flash, this`trail, this`erased
      ensures erased == if addr + |b| <= old(erased) then old(erased) else old(erased) + SECTOR
      ensures trail == old(trail) + Passed(old(flash), old(erased), addr, b, blank) && flash == trail[|trail| - 1]
    {
      if addr + |b| <= erased {
        WriteStream(addr, b);
      } else {
        EraseSector(erased);
        erased := erased + SECTOR;
        WriteStream(addr, b);
      }
    }

    /** Adds bytes to a checksum. */
    method AddUp(init: nat, b: Bytes) returns (sum: nat)
      ensures sum == init + Sum(b)
    {
      sum := init;
      assert b[..0] == [];
      for i := 0 to |b|
        invariant sum == init + Sum(b[..i])
      {
        assert b[..i + 1][..i] == b[..i];
        sum := sum + Value(b[i]);
      }
      assert b[..|b|] == b;
    }

    /** The sum of `size` bytes, read piece by piece. It never reaches 32 bits. */
    method SumUp(from: nat, size: nat) returns (sum: nat)
      requires from + size <= |flash| && size <= MAX_SIZE
      ensures sum == Sum(flash[from..from + size]) < 0x1_0000_0000
    {
      sum := 0;
      var current := 0;
      assert Sum([]) == 0;
      hide Sum;
      ghost var image := flash[from..from + size];
      assert image[..0] == [];
      while current < size
        invariant current <= size && sum == Sum(image[..current])
      {
        var length := if current + PIECE <= size then PIECE else size - current;
        var piece := ReadFlash(from + current, length);
        SumExtends(flash, from, size, current, length);
        sum := AddUp(sum, piece);
        current := current + length;
      }
      SumOfFewBytes(image);
      assert image[..size] == image;
    }

    /** Whether a whole image lies at `addr`. */
    method CompletedCheck(addr: nat) returns (ok: bool)
      requires Valid() && addr <= BACKUP && Readable(flash, addr)
      ensures ok <==> Complete(flash, addr)
      ensures var size := Nat32(flash[addr + 12..addr + 16]);
              && (ok ==> 256 < size <= 0x73000)
              && (256 < size <= 0x73000 ==>
                  && addr + 512 + size <= |flash|
                  && (ok <==> Sum(flash[addr + 512..addr + 512 + size]) == Nat32(flash[addr + 32..addr + 36])))
    {
      hide *;
      ValidParts();
      CheckedBytes(flash, addr);
      CheckParts(flash, addr);
      var header := ReadFlash(addr, HEADER);
      var size := SizeField(header);
      if size > MAX_SIZE || size <= PIECE {
        return false;
      }
      var sum := SumUp(addr + HEADER, size);
      ok := ChecksumField(header) == sum;
    }

    /** The next piece of the move. Erasing the backup's first sector for it leaves no complete
        backup. */
    method MovePiece(ghost was: Bytes, ghost n: nat, w: nat, k: nat)
      requires Valid() && Stage(was, n, flash, w, erased, blank) && erased < IMAGE + w + SECTOR
      requires 0 < k <= HEADER && w + k <= n
      modifies this`flash, this`trail, this`erased
      ensures Valid() && Stage(was, n, flash, w + k, erased, blank) && erased < IMAGE + w + k + SECTOR
      ensures old(trail) <= trail
      ensures forall i :: |old(trail)| <= i < |trail| ==> Midway(was, n, trail[i], blank)
      ensures old(erased) <= BACKUP < erased ==> |trail| > |old(trail)| && Spoilt(trail[|old(trail)|])
    {
      hide *;
      PieceReady(was, n, flash, w, k, erased, blank);
      ValidParts();
      PiecePassed(was, n, flash, w, k, erased, blank);
      var piece := ReadFlash(BACKUP + w, k);
      WriteFlash(IMAGE + w, piece);
      StageIsLarge(was, n, flash, w + k, erased, blank);
      ValidParts();
    }

    /** Moves a complete backup into the image area and erases its first sector. Some image passed
        through on the way has lost the backup if and only if the backup does not fit below itself. */
    method Move()
      requires Valid() && Complete(flash, BACKUP) && BACKUP + Total(flash) <= |flash|
      modifies this`flash, this`trail, this`erased
      ensures Valid() && Finished(old(flash), Total(old(flash)), flash, erased, blank)
      ensures old(trail) < trail && trail[|trail| - 1] == flash
      ensures forall i :: |old(trail)| <= i < |trail| - 1 ==> Midway(old(flash), Total(old(flash)), trail[i], blank)
      ensures (exists i :: |old(trail)| <= i < |trail| - 1 && Spoilt(trail[i])) <==> Total(old(flash)) > ROOM
    {
      hide SizeField, ChecksumField, Sum, Spoilt, Midway, Moved;
      ghost var was, n, before, spoilt := flash, Total(flash), trail, 0;
      erased := IMAGE;
      NothingMoved(flash, blank);
      var header := ReadFlash(BACKUP, HEADER);
      var size := SizeField(header) + TAIL;
      assert header == HeaderAt(flash, BACKUP) && n == HEADER + size;
      MovePiece(was, n, 0, HEADER);
      var current := 0;
      while current < size
        invariant current <= size && Valid()
        invariant Stage(was, n, flash, HEADER + current, erased, blank) && erased < IMAGE + HEADER + current + SECTOR
        invariant before <= trail && forall i :: |before| <= i < |trail| ==> Midway(was, n, trail[i], blank)
        invariant erased > BACKUP ==> |before| <= spoilt < |trail| && Spoilt(trail[spoilt])
      {
        var length := if current + PIECE <= size then PIECE else size - current;
        spoilt := if erased > BACKUP then spoilt else |trail|;
        MovePiece(was, n, HEADER + current, length);
        current := current + length;
      }
      EraseSector(BACKUP + HEADER);
      if n <= ROOM {
        forall i | |before| <= i < |trail| - 1
          ensures !Spoilt(trail[i])
        {
          MidwayIsIntact(was, n, trail[i], blank);
        }
      } else {
        assert |before| <= spoilt < |trail| - 1 && Spoilt(trail[spoilt]);
      }
    }

    /** One start of the boot loader: an image that waits in the backup is moved, and a backup of
        another size or with another sum is left alone. */
    method Boot() returns (moved: bool)
      requires Valid() && Readable(flash, BACKUP)
      requires Complete(flash, BACKUP) ==> BACKUP + Total(flash) <= |flash|
      modifies this`flash, this`trail, this`erased
      ensures Valid() && (moved <==> Complete(old(flash), BACKUP))
      ensures !moved ==> flash == old(flash) && trail == old(trail)
      ensures var f := old(flash);
              var size := Nat32(f[0x41000 + 12..0x41000 + 16]);
              && (moved ==> 256 < size <= 0x73000)
              && (256 < size <= 0x73000 ==>
                  && 0x41000 + 512 + size <= |f|
                  && (moved <==> Sum(f[0x41000 + 512..0x41000 + 512 + size]) == Nat32(f[0x41000 + 32..0x41000 + 36])))
              && |flash| == |f| && flash[..0xA000] == f[..0xA000]
              && (moved && 512 + size + 40 <= 0x37000 ==>
                  flash[0xA000..0xA000 + 512 + size + 40] == f[0x41000..0x41000 + 512 + size + 40])
      ensures moved ==>
        && Finished(old(flash), Total(old(flash)), flash, erased, blank)
        && old(trail) < trail && trail[|trail| - 1] == flash
        && forall i :: |old(trail)| <= i < |trail| - 1 ==> Midway(old(flash), Total(old(flash)), trail[i], blank)
    {
      hide *;
      ghost var was := flash;
      ValidParts();
      BackupBytes(was);
      moved := CompletedCheck(BACKUP);
      if moved {
        Move();
        FinishedBytes(was, flash, erased, blank);
      }
    }
  }

  /** An image that the check accepts it refuses when any byte of the image, or of the checksum in its
      header, has changed. */
  method CheckAgain(f: Bytes, blank: bv8, at: nat, i: nat, b: bv8) returns (before: bool, after: bool)
    requires Large(f) && (blank == 0 || blank == 0xFF) && at <= BACKUP && Readable(f, at) && Damaged(f, at, i, b)
    ensures before ==> !after
  {
    hide *;
    DamagedHeader(f, at, i, b);
    DamagedIs(f, at, i, b);
    var first := new Loader(f, blank);
    first.ValidParts();
    before := first.CompletedCheck(at);
    var second := new Loader(f[i := b], blank);
    second.ValidParts();
    after := second.CompletedCheck(at);
    if before {
      DamageShows(f, at, i, b);
    }
  }

  /** A flash whose backup holds an image of 0x37000 zeros with the right checksum. */
  function Oversized(): (f: Bytes)
    ensures Large(f) && |f| == FLASH_MAP_SIZE
  {
    seq(FLASH_MAP_SIZE, i => if i == BACKUP + 13 then 0x70 else if i == BACKUP + 14 then 3 else 0)
  }

  lemma {:induction false} SumOfZeros(b: Bytes)
    requires forall i :: 0 <= i < |b| ==> b[i] == 0
    ensures Sum(b) == 0
  {
    if b != [] {
      SumOfZeros(b[..|b| - 1]);
    }
  }

  lemma {:induction false} OversizedHeader()
    ensures SizeField(HeaderAt(Oversized(), BACKUP)) == 0x37000 && ChecksumField(HeaderAt(Oversized(), BACKUP)) == 0
  {
    var f := Oversized();
    var h := HeaderAt(f, BACKUP);
    var size, checksum := h[12..16], h[32..36];
    forall i | 0 <= i < 4
      ensures size[i] == f[BACKUP + 12 + i] && checksum[i] == f[BACKUP + 32 + i]
    {
    }
    assert size == [0, 0x70, 3, 0] && checksum == [0, 0, 0, 0];
    assert size[..2] == [0, 0x70] && size[2..] == [3, 0];
    assert checksum[..2] == [0, 0] && checksum[2..] == [0, 0];
  }

  /** The check lets images through that are not moved right: this one is complete, but the move
      leaves it incomplete in both places. */
  lemma {:induction false} OversizedFails(now: Bytes, frontier: nat)
    requires Finished(Oversized(), Total(Oversized()), now, frontier, 0xFF)
    ensures Complete(Oversized(), BACKUP) && Total(Oversized()) > ROOM
    ensures Spoilt(now) && !Installed(Oversized(), Total(Oversized()), now)
  {
    var f, n := Oversized(), Total(Oversized());
    OversizedHeader();
    hide SizeField, ChecksumField;
    SumOfZeros(f[BACKUP + HEADER..BACKUP + HEADER + 0x37000]);
    hide Sum;
    FinishedIsIncomplete(f, n, now, frontier, 0xFF);
    FinishedIsInstalled(f, n, now, frontier, 0xFF);
    assert f[BACKUP + ROOM] == 0;
  }

  /** The image has been moved, or the backup is still as it was at first. */
  ghost predicate Pending(first: Bytes, n: nat, now: Bytes) {
    Large(now) && if Spoilt(now) then Installed(first, n, now) else SameBackup(first, n, now)
  }

  lemma {:induction false} PendingAtFirst(first: Bytes)
    requires Large(first) && Complete(first, BACKUP) && Total(first) <= ROOM
    ensures Pending(first, Total(first), first)
  {
    hide Sum, SizeField;
  }

  /** The check takes the backup for complete exactly while it has not been moved. */
  lemma {:induction false} PendingIsChecked(first: Bytes, n: nat, now: Bytes)
    requires Large(first) && Complete(first, BACKUP) && n == Total(first) <= ROOM && Pending(first, n, now)
    ensures Readable(now, BACKUP) && (Complete(now, BACKUP) <==> !Spoilt(now))
    ensures Complete(now, BACKUP) ==> Total(now) == n && SameBackup(first, n, now)
  {
    if !Spoilt(now) {
      SameBackupSameCheck(first, n, now);
    }
    hide Sum, SizeField, ChecksumField;
  }

  /** A move that is cut off leaves the next start as much to do. */
  lemma {:induction false} PendingAfterCut(first: Bytes, was: Bytes, n: nat, now: Bytes, blank: bv8)
    requires Large(first) && Complete(first, BACKUP) && n == Total(first) <= ROOM
    requires Pending(first, n, was) && Complete(was, BACKUP) && Midway(was, Total(was), now, blank)
    ensures Pending(first, n, now)
  {
    PendingIsChecked(first, n, was);
    hide Complete, Total, Midway;
    MidwayIsIntact(was, n, now, blank);
  }

  lemma {:induction false} PendingAfterMove(first: Bytes, was: Bytes, n: nat, now: Bytes, frontier: nat, blank: bv8)
    requires Large(first) && Complete(first, BACKUP) && n == Total(first) <= ROOM && (blank == 0 || blank == 0xFF)
    requires Pending(first, n, was) && Complete(was, BACKUP) && Finished(was, Total(was), now, frontier, blank)
    ensures Pending(first, n, now) && Spoilt(now)
  {
    PendingIsChecked(first, n, was);
    hide Complete, Total, Finished;
    FinishedIsIncomplete(was, n, now, frontier, blank);
    FinishedIsInstalled(was, n, now, frontier, blank);
  }

  /** One start, cut off after `cut` flash operations if it makes more than that. */
  method CutStart(ghost first: Bytes, was: Bytes, blank: bv8, cut: nat) returns (now: Bytes)
    requires Large(first) && Complete(first, BACKUP) && Total(first) <= ROOM && (blank == 0 || blank == 0xFF)
    requires Pending(first, Total(first), was)
    ensures Pending(first, Total(first), now)
  {
    PendingIsChecked(first, Total(first), was);
    hide Complete, Readable, Total, Finished, Midway, Installed, SameBackup;
    var loader := new Loader(was, blank);
    var moved := loader.Boot();
    now := was;
    if moved && 0 < cut < |loader.trail| {
      now := loader.trail[cut - 1];
      PendingAfterCut(first, was, Total(first), now, blank);
    } else if moved && cut > 0 {
      now := loader.flash;
      PendingAfterMove(first, was, Total(first), now, loader.erased, blank);
    }
  }

  /** Any number of starts, each cut off somewhere, and one that is not: the image that was complete
      in the backup at first is installed, and is not moved again. */
  method Starts(first: Bytes, blank: bv8, cuts: seq<nat>) returns (last: Bytes)
    requires Large(first) && (blank == 0 || blank == 0xFF)
    requires Complete(first, BACKUP) && Total(first) <= ROOM
    ensures Installed(first, Total(first), last) && Spoilt(last)
  {
    hide Complete, Readable, Total, Finished, Midway, Installed, SameBackup;
    last := first;
    PendingAtFirst(first);
    for i := 0 to |cuts|
      invariant Pending(first, Total(first), last)
    {
      last := CutStart(first, last, blank, cuts[i]);
    }
    PendingIsChecked(first, Total(first), last);
    var loader := new Loader(last, blank);
    var moved := loader.Boot();
    if moved {
      PendingAfterMove(first, last, Total(first), loader.flash, loader.erased, blank);
    }
    last := loader.flash;
  }
}
