/** Stream and message buffers between one writer and one reader.

    Modelled code: nimble/os/freertos/stream_buffer.c:597-627, 824-871, 945-1014, 1075-1185,
    1248-1356. The writer alone moves the head and the reader alone the tail; copies and index
    updates of the two may fall between each other in any order. */
module StreamBuffers {
  import opened LittleEndian

  /** Bytes that hold the length of a message. */
  const PREFIX: nat := 4

  function Min(a: nat, b: nat): nat {
    if a <= b then a else b
  }

  function Wrap(p: nat, n: nat): (r: nat)
    requires p < 2 * n
    ensures r < n
  {
    if p >= n then p - n else p
  }

  /** How far the head is ahead of the tail. */
  function Distance(tail: nat, head: nat, n: nat): (d: nat)
    requires tail < n && head < n
    ensures d < n && head == Wrap(tail + d, n)
  {
    if head >= tail then head - tail else head + n - tail
  }

  /** The bytes of `count` cells from `at` on, around the end of the buffer. */
  function Cells(buf: Bytes, at: nat, count: nat): (r: Bytes)
    requires at < |buf| && count <= |buf|
    ensures |r| == count
  {
    if at + count <= |buf| then buf[at..at + count] else buf[at..] + buf[..at + count - |buf|]
  }

  lemma {:induction false} CellAt(buf: Bytes, at: nat, count: nat, i: nat)
    requires at < |buf| && i < count <= |buf|
    ensures Cells(buf, at, count)[i] == buf[Wrap(at + i, |buf|)]
  {
  }

  lemma {:induction false} WrapTwice(at: nat, a: nat, b: nat, n: nat)
    requires at < n && a + b < n
    ensures Wrap(Wrap(at + a, n) + b, n) == Wrap(at + a + b, n)
  {
  }

  lemma {:induction false} CellsAppend(buf: Bytes, at: nat, a: nat, b: nat)
    requires at < |buf| && a + b <= |buf| && a < |buf|
    ensures Cells(buf, at, a + b) == Cells(buf, at, a) + Cells(buf, Wrap(at + a, |buf|), b)
  {
    hide Cells;
    var l, r := Cells(buf, at, a + b), Cells(buf, at, a) + Cells(buf, Wrap(at + a, |buf|), b);
    forall i | 0 <= i < a + b
      ensures l[i] == r[i]
    {
      CellAt(buf, at, a + b, i);
      if i < a {
        CellAt(buf, at, a, i);
      } else {
        CellAt(buf, Wrap(at + a, |buf|), b, i - a);
        WrapTwice(at, a, i - a, |buf|);
      }
    }
  }

  /** Writing `d` behind `at` leaves the cells before that alone. */
  lemma {:induction false} CellsElsewhere(was: Bytes, at: nat, count: nat, d: nat, bytes: Bytes)
    requires at < |was| && count <= d < |was| && d + |bytes| <= |was| && Wrap(at + d, |was|) + |bytes| <= |was|
    ensures Cells(Overlay(was, Wrap(at + d, |was|), bytes), at, count) == Cells(was, at, count)
  {
    hide Cells;
    var buf := Overlay(was, Wrap(at + d, |was|), bytes);
    forall i | 0 <= i < count
      ensures Cells(buf, at, count)[i] == Cells(was, at, count)[i]
    {
      CellAt(buf, at, count, i);
      CellAt(was, at, count, i);
    }
  }

  /** Cells that do not cross the end. */
  lemma {:induction false} StraightCells(buf: Bytes, at: nat, count: nat)
    requires at < |buf| && at + count <= |buf|
    ensures Cells(buf, at, count) == buf[at..at + count]
  {
  }

  lemma {:induction false} HeadAdvances(tail: nat, head: nat, k: nat, n: nat)
    requires tail < n && head < n && Distance(tail, head, n) + k < n
    ensures Distance(tail, Wrap(head + k, n), n) == Distance(tail, head, n) + k
  {
  }

  lemma {:induction false} TailAdvances(tail: nat, head: nat, k: nat, n: nat)
    requires tail < n && head < n && k <= Distance(tail, head, n)
    ensures Distance(Wrap(tail + k, n), head, n) == Distance(tail, head, n) - k
  {
  }

  /** How a payload is stored: with its length in front in a message buffer, bare in a stream buffer. */
  function Packed(m: Bytes, message: bool): (r: Bytes)
    requires |m| < 0x1_0000_0000
    ensures |r| == |m| + if message then PREFIX else 0
  {
    if message then Le32(|m|) + m else m
  }

  ghost predicate Sendable(ms: seq<Bytes>) {
    forall m :: m in ms ==> 0 < |m| < 0x1_0000_0000
  }

  /** All payloads, packed one behind the other. */
  function Flat(ms: seq<Bytes>, message: bool): Bytes
    requires Sendable(ms)
  {
    if ms == [] then [] else Flat(ms[..|ms| - 1], message) + Packed(ms[|ms| - 1], message)
  }

  lemma {:induction false} FlatAppend(ms: seq<Bytes>, m: Bytes, message: bool)
    requires Sendable(ms) && 0 < |m| < 0x1_0000_0000
    ensures Sendable(ms + [m]) && Flat(ms + [m], message) == Flat(ms, message) + Packed(m, message)
  {
    assert (ms + [m])[..|ms|] == ms;
  }

  lemma {:induction false} FlatPrefix(a: seq<Bytes>, b: seq<Bytes>, message: bool)
    requires Sendable(b) && a <= b
    ensures Sendable(a) && Flat(a, message) <= Flat(b, message)
  {
    if |a| < |b| {
      FlatPrefix(a, b[..|b| - 1], message);
    } else {
      assert a == b;
    }
  }

  /** What is unread begins with the oldest message not received yet. */
  lemma {:induction false} NextMessage(got: seq<Bytes>, sent: seq<Bytes>, unread: Bytes)
    requires Sendable(sent) && got < sent && Sendable(got) && Flat(got, true) + unread == Flat(sent, true)
    ensures 0 < |sent[|got|]| < 0x1_0000_0000 && Packed(sent[|got|], true) <= unread
  {
    var m := sent[|got|];
    assert m in sent;
    FlatAppend(got, m, true);
    assert got + [m] == sent[..|got| + 1];
    FlatPrefix(got + [m], sent, true);
    Behind(Flat(got, true), Packed(m, true), unread);
  }

  lemma {:induction false} Behind(a: Bytes, b: Bytes, c: Bytes)
    requires a + b <= a + c
    ensures b <= c
  {
    assert (a + b)[|a|..] == b && (a + c)[|a|..] == c;
    assert (a + c)[..|a + b|] == a + b;
    assert c[..|b|] == (a + c)[..|a + b|][|a|..];
  }

  /** There are unread bytes exactly when a message has not been received yet. */
  lemma {:induction false} UnreadMessages(got: seq<Bytes>, sent: seq<Bytes>, unread: Bytes)
    requires Sendable(sent) && got <= sent && Sendable(got) && Flat(got, true) + unread == Flat(sent, true)
    ensures unread == [] <==> got == sent
    ensures unread != [] ==> got < sent && |unread| >= PREFIX + |sent[|got|]| > PREFIX
  {
    if got == sent {
      assert |Flat(got, true) + unread| == |Flat(got, true)| + |unread|;
    } else {
      hide Flat, Packed;
      NextMessage(got, sent, unread);
    }
  }

  /** The prefix read back is the length, and the bytes behind it are the payload. */
  lemma {:induction false} Unpacked(m: Bytes, unread: Bytes)
    requires |m| < 0x1_0000_0000 && Packed(m, true) <= unread
    ensures Nat32(unread[..PREFIX]) == |m| && unread[PREFIX..PREFIX + |m|] == m
  {
    Le32RoundTrip(|m|);
    assert unread[..PREFIX] == Packed(m, true)[..PREFIX] == Le32(|m|);
    assert unread[PREFIX..PREFIX + |m|] == Packed(m, true)[PREFIX..];
  }

  /** The writer between two steps: nothing to do, or part of the way through copying. */
  datatype Writer = Resting | Writing(payload: Bytes, done: Bytes, todo: Bytes, next: nat)

  /** The reader between two steps: it may be reading a length (`prefix`) or a payload. */
  datatype Reader = Waiting | Reading(room: nat, avail: nat, prefix: bool, want: nat, taken: Bytes, next: nat)

  ghost predicate WriterFits(w: Writer, buf: Bytes, head: nat, space: nat, message: bool)
    requires head < |buf| && space < |buf|
  {
    w.Writing? ==>
      && |w.payload| < 0x1_0000_0000 && (!message ==> w.payload != [])
      && w.done + w.todo == Packed(w.payload, message)
      && |w.done| + |w.todo| <= space
      && w.next == Wrap(head + |w.done|, |buf|)
      && Cells(buf, head, |w.done|) == w.done
  }

  /** Where the part being read starts. */
  function Skipped(r: Reader, message: bool): nat
    requires r.Reading?
  {
    if message && !r.prefix then PREFIX else 0
  }

  ghost predicate ReaderFits(r: Reader, unread: Bytes, n: nat, tail: nat, message: bool, got: seq<Bytes>,
                             sent: seq<Bytes>)
    requires tail < n && |unread| < n
  {
    r.Reading? ==>
      var from := Skipped(r, message);
      && from + r.want <= r.avail <= |unread| && |r.taken| <= r.want
      && r.taken == unread[from..from + |r.taken|]
      && r.next == Wrap(tail + from + |r.taken|, n)
      && (if r.prefix then message && r.want == PREFIX else 0 < r.want <= r.room)
      && (message ==> |got| < |sent| && PREFIX + |sent[|got|]| <= r.avail && (!r.prefix ==> r.want == |sent[|got|]|))
  }

  /** More unread bytes and more messages behind do not disturb the reader. */
  lemma {:induction false} ReaderUndisturbed(r: Reader, unread: Bytes, more: Bytes, n: nat, tail: nat, message: bool,
                                             got: seq<Bytes>, sent: seq<Bytes>, m: Bytes)
    requires tail < n && |unread + more| < n && ReaderFits(r, unread, n, tail, message, got, sent)
    ensures ReaderFits(r, unread + more, n, tail, message, got, sent + [m])
  {
    if r.Reading? {
      var from := Skipped(r, message);
      assert (unread + more)[from..from + |r.taken|] == unread[from..from + |r.taken|];
    }
  }

  /** The writer after a copy of `k` bytes. */
  function CopiedIn(w: Writer, k: nat, n: nat): Writer
    requires w.Writing? && k <= |w.todo| && w.next + k <= n && 0 < n
  {
    Writing(w.payload, w.done + w.todo[..k], w.todo[k..], if w.next + k >= n then w.next + k - n else w.next + k)
  }

  /** The reader after a copy of `bytes`. */
  function CopiedOut(r: Reader, bytes: Bytes, n: nat): Reader
    requires r.Reading? && r.next + |bytes| <= n && 0 < n
  {
    r.(taken := r.taken + bytes, next := if r.next + |bytes| >= n then r.next + |bytes| - n else r.next + |bytes|)
  }

  /** The reader when it has read a length. */
  function AfterMeasuring(r: Reader): Reader
    requires r.Reading? && |r.taken| == PREFIX
  {
    if Nat32(r.taken) <= r.room then r.(prefix := false, want := Nat32(r.taken), taken := []) else Waiting
  }

  /** `k` bytes from `from` on, as far as there are any. */
  function Part(b: Bytes, from: nat, k: nat): Bytes {
    if from + k <= |b| then b[from..from + k] else []
  }

  /** The bytes copied out are the next unread ones. */
  lemma {:induction false} CopiedPart(unread: Bytes, bytes: Bytes, r: Reader, n: nat, tail: nat, message: bool,
                                      got: seq<Bytes>, sent: seq<Bytes>)
    requires tail < n && |unread| < n && r.Reading? && r.next + |bytes| <= n
    requires ReaderFits(r, unread, n, tail, message, got, sent)
    requires ReaderFits(CopiedOut(r, bytes, n), unread, n, tail, message, got, sent)
    ensures Skipped(r, message) + |r.taken| + |bytes| <= |unread|
    ensures bytes == Part(unread, Skipped(r, message) + |r.taken|, |bytes|)
  {
    var from, taken := Skipped(r, message), r.taken + bytes;
    assert taken == unread[from..from + |taken|];
    assert bytes == taken[|r.taken|..];
  }

  /** Bytes copied behind those that were copied before. */
  lemma {:induction false} Filled(was: Bytes, head: nat, done: Bytes, bytes: Bytes)
    requires head < |was| && |done| + |bytes| < |was| && Wrap(head + |done|, |was|) + |bytes| <= |was|
    requires Cells(was, head, |done|) == done && bytes != []
    ensures Cells(Overlay(was, Wrap(head + |done|, |was|), bytes), head, |done| + |bytes|) == done + bytes
  {
    var next := Wrap(head + |done|, |was|);
    var buf := Overlay(was, next, bytes);
    assert buf[next..next + |bytes|] == bytes;
    hide Cells, Overlay, Wrap;
    CellsAppend(buf, head, |done|, |bytes|);
    CellsElsewhere(was, head, |done|, |done|, bytes);
    StraightCells(buf, next, |bytes|);
  }

  /** Copying fills free cells only. */
  lemma {:induction false} CopyInSpares(was: Bytes, tail: nat, head: nat, w: Writer, k: nat, message: bool)
    requires tail < |was| && head < |was|
    requires w.Writing? && WriterFits(w, was, head, |was| - 1 - Distance(tail, head, |was|), message)
    requires 0 < k <= |w.todo| && w.next + k <= |was|
    ensures var d := Distance(tail, head, |was|);
      Cells(Overlay(was, w.next, w.todo[..k]), tail, d) == Cells(was, tail, d)
  {
    var d := Distance(tail, head, |was|);
    hide Cells, Packed, Flat, Distance, Overlay;
    WrapTwice(tail, d, |w.done|, |was|);
    CellsElsewhere(was, tail, d, d + |w.done|, w.todo[..k]);
  }

  /** Copying fills the cells behind those filled before. */
  lemma {:induction false} CopyInFits(was: Bytes, head: nat, w: Writer, k: nat, space: nat, message: bool)
    requires head < |was| && space < |was| && w.Writing? && WriterFits(w, was, head, space, message)
    requires 0 < k <= |w.todo| && w.next + k <= |was|
    ensures WriterFits(CopiedIn(w, k, |was|), Overlay(was, w.next, w.todo[..k]), head, space, message)
  {
    hide Cells, Packed, Flat, Overlay;
    WrapTwice(head, |w.done|, k, |was|);
    Filled(was, head, w.done, w.todo[..k]);
    Regrouped(w.done, w.todo, k);
    NextCell(w.next, k, |was|);
    hide Wrap;
  }

  lemma {:induction false} NextCell(next: nat, k: nat, n: nat)
    requires next < n && next + k <= n
    ensures Wrap(next + k, n) == if next + k >= n then next + k - n else next + k
  {
  }

  lemma {:induction false} Regrouped(a: Bytes, b: Bytes, k: nat)
    requires k <= |b|
    ensures (a + b[..k]) + b[k..] == a + b
  {
  }

  lemma {:induction false} Associative(a: Bytes, b: Bytes, c: Bytes)
    ensures (a + b) + c == a + (b + c)
  {
  }

  lemma {:induction false} Adjoining(s: Bytes, a: nat, b: nat, c: nat)
    requires a <= b <= c <= |s|
    ensures s[a..b] + s[b..c] == s[a..c]
  {
  }

  /** A slice of cells is cells. */
  lemma {:induction false} CellsSlice(buf: Bytes, at: nat, count: nat, a: nat, b: nat)
    requires at < |buf| && a + b <= count < |buf|
    ensures Cells(buf, at, count)[a..a + b] == Cells(buf, Wrap(at + a, |buf|), b)
  {
    hide Cells;
    CellsAppend(buf, at, a + b, count - a - b);
    CellsAppend(buf, at, a, b);
  }

  /** Unread bytes from `from` to `to`, and `k` more. */
  lemma {:induction false} TakenOn(buf: Bytes, tail: nat, count: nat, from: nat, to: nat, k: nat)
    requires tail < |buf| && count < |buf| && from <= to && to + k <= count && Wrap(tail + to, |buf|) + k <= |buf|
    ensures var u, next := Cells(buf, tail, count), Wrap(tail + to, |buf|);
      u[from..to] + buf[next..next + k] == u[from..to + k]
  {
    hide Cells;
    CellsSlice(buf, tail, count, to, k);
    StraightCells(buf, Wrap(tail + to, |buf|), k);
    Adjoining(Cells(buf, tail, count), from, to, to + k);
  }

  /** Copying takes unread bytes only, behind those taken before. */
  lemma {:induction false} CopyOutFits(buf: Bytes, unread: Bytes, tail: nat, r: Reader, k: nat, message: bool,
                                       got: seq<Bytes>, sent: seq<Bytes>)
    requires tail < |buf| && |unread| < |buf| && unread == Cells(buf, tail, |unread|)
    requires r.Reading? && ReaderFits(r, unread, |buf|, tail, message, got, sent)
    requires 0 < k && |r.taken| + k <= r.want && r.next + k <= |buf|
    ensures ReaderFits(CopiedOut(r, buf[r.next..r.next + k], |buf|), unread, |buf|, tail, message, got, sent)
  {
    var from, to := Skipped(r, message), Skipped(r, message) + |r.taken|;
    hide Cells, Packed, Flat, Skipped;
    WrapTwice(tail, to, k, |buf|);
    NextCell(r.next, k, |buf|);
    hide Wrap;
    TakenOn(buf, tail, |unread|, from, to, k);
  }

  /** The head moving publishes what was copied. */
  lemma {:induction false} Published(buf: Bytes, tail: nat, head: nat, w: Writer, message: bool)
    requires tail < |buf| && head < |buf|
    requires var d := Distance(tail, head, |buf|);
      w.Writing? && w.todo == [] && WriterFits(w, buf, head, |buf| - 1 - d, message)
    ensures var d, k := Distance(tail, head, |buf|), |Packed(w.payload, message)|;
      && w.next == Wrap(head + k, |buf|) && Distance(tail, w.next, |buf|) == d + k
      && Cells(buf, tail, d + k) == Cells(buf, tail, d) + Packed(w.payload, message)
  {
    hide Cells, Packed;
    assert w.done + [] == w.done;
    HeadAdvances(tail, head, |w.done|, |buf|);
    CellsAppend(buf, tail, Distance(tail, head, |buf|), |w.done|);
  }

  /** The tail moving releases what was read. */
  lemma {:induction false} Released(buf: Bytes, tail: nat, head: nat, k: nat)
    requires tail < |buf| && head < |buf| && k <= Distance(tail, head, |buf|)
    ensures var d, t := Distance(tail, head, |buf|), Wrap(tail + k, |buf|);
      Distance(t, head, |buf|) == d - k && Cells(buf, tail, d) == Cells(buf, tail, k) + Cells(buf, t, d - k)
  {
    hide Cells;
    TailAdvances(tail, head, k, |buf|);
    hide Distance;
    CellsAppend(buf, tail, k, Distance(tail, head, |buf|) - k);
  }

  lemma {:induction false} MoreRoom(w: Writer, buf: Bytes, head: nat, space: nat, more: nat, message: bool)
    requires head < |buf| && space <= more < |buf| && WriterFits(w, buf, head, space, message)
    ensures WriterFits(w, buf, head, more, message)
  {
  }

  /** First in, first out: what was received and what is unread is what was sent. */
  ghost predicate Fifo(got: seq<Bytes>, sent: seq<Bytes>, unread: Bytes, message: bool) {
    && Sendable(sent) && Sendable(got)
    && Flat(got, message) + unread == Flat(sent, message)
    && (message ==> got <= sent)
  }

  lemma {:induction false} FifoSends(got: seq<Bytes>, sent: seq<Bytes>, unread: Bytes, message: bool, m: Bytes)
    requires Fifo(got, sent, unread, message) && 0 < |m| < 0x1_0000_0000
    ensures Fifo(got, sent + [m], unread + Packed(m, message), message)
  {
    FlatAppend(sent, m, message);
    Associative(Flat(got, message), unread, Packed(m, message));
  }

  lemma {:induction false} FifoReceives(got: seq<Bytes>, sent: seq<Bytes>, unread: Bytes, left: Bytes, message: bool,
                                        m: Bytes)
    requires Fifo(got, sent, unread, message) && 0 < |m| < 0x1_0000_0000 && unread == Packed(m, message) + left
    requires message ==> |got| < |sent| && m == sent[|got|]
    ensures Fifo(got + [m], sent, left, message)
  {
    FlatAppend(got, m, message);
    Associative(Flat(got, message), Packed(m, message), left);
  }

  lemma {:induction false} TakenMessage(r: Reader, unread: Bytes, got: seq<Bytes>, sent: seq<Bytes>)
    requires Fifo(got, sent, unread, true) && |got| < |sent| && PREFIX + |sent[|got|]| <= |unread|
    requires r.Reading? && r.taken == unread[PREFIX..PREFIX + |sent[|got|]|]
    ensures r.taken == sent[|got|] && 0 < |r.taken| < 0x1_0000_0000 && Packed(r.taken, true) <= unread
  {
    hide Flat, Packed;
    NextMessage(got, sent, unread);
    Unpacked(sent[|got|], unread);
  }

  /** The reader has taken all it wants: a message is taken whole. */
  lemma {:induction false} TakenWhole(r: Reader, unread: Bytes, n: nat, tail: nat, message: bool, got: seq<Bytes>,
                                      sent: seq<Bytes>)
    requires tail < n && |unread| < n && Fifo(got, sent, unread, message)
    requires r.Reading? && !r.prefix && |r.taken| == r.want && r.want < 0x1_0000_0000
             && ReaderFits(r, unread, n, tail, message, got, sent)
    ensures r.taken != [] && r.next == Wrap(tail + |Packed(r.taken, message)|, n) && Packed(r.taken, message) <= unread
    ensures message ==> |got| < |sent| && r.taken == sent[|got|]
  {
    hide Flat, Wrap, Fifo;
    if message {
      TakenMessage(r, unread, got, sent);
      hide Packed;
    } else {
      assert r.taken == unread[..|r.taken|];
    }
  }

  /** The length read is that of the next message, which fits the bytes available. */
  lemma {:induction false} Measured(r: Reader, unread: Bytes, n: nat, tail: nat, message: bool, got: seq<Bytes>,
                                    sent: seq<Bytes>)
    requires tail < n && |unread| < n && Fifo(got, sent, unread, message)
    requires r.Reading? && r.prefix && |r.taken| == PREFIX && ReaderFits(r, unread, n, tail, message, got, sent)
    ensures message && |got| < |sent| && Nat32(r.taken) == |sent[|got|]| > 0 && r.avail >= PREFIX + |sent[|got|]|
    ensures var m := |sent[|got|]|;
      m <= r.room ==> ReaderFits(r.(prefix := false, want := m, taken := []), unread, n, tail, message, got, sent)
  {
    NextMessage(got, sent, unread);
    Unpacked(sent[|got|], unread);
    hide Flat, Packed, Nat32;
  }

  class StreamBuffer {
    const message: bool
    const data: array<bv8>
    var head: nat
    var tail: nat
    var writer: Writer
    var reader: Reader
    ghost var sent: seq<Bytes>      // payloads the writer was told are accepted
    ghost var got: seq<Bytes>       // payloads handed to the reader

    ghost predicate Shaped()
      reads this`head, this`tail
    {
      0 < 2 * data.Length < 0x1_0000_0000 && head < data.Length && tail < data.Length
    }

    /** The bytes published and not yet released. */
    ghost function Unread(): (u: Bytes)
      requires Shaped()
      reads this`head, this`tail, data
      ensures |u| == Distance(tail, head, data.Length)
    {
      Cells(data[..], tail, Distance(tail, head, data.Length))
    }

    ghost function Space(): nat
      requires Shaped()
      reads this`head, this`tail
    {
      data.Length - 1 - Distance(tail, head, data.Length)
    }

    ghost predicate Valid()
      reads this, data
    {
      && Shaped() && Fifo(got, sent, Unread(), message)
      && WriterFits(writer, data[..], head, Space(), message)
      && ReaderFits(reader, Unread(), data.Length, tail, message, got, sent)
    }

    constructor (size: nat, message: bool)
      requires size > (if message then PREFIX else 0) && 2 * (size + 1) < 0x1_0000_0000
      ensures Valid() && fresh(data) && data.Length == size + 1 && this.message == message
      ensures sent == got == [] && writer.Resting? && reader.Waiting? && Unread() == [] && head == tail == 0
    {
      this.message := message;
      data := new bv8[size + 1];
      head, tail := 0, 0;
      writer, reader := Resting, Waiting;
      sent, got := [], [];
    }

    method BytesInBuffer() returns (count: nat)
      requires Shaped()
      ensures count == |Unread()|
    {
      count := data.Length + head - tail;
      if count >= data.Length {
        count := count - data.Length;
      }
    }

    method SpacesAvailable() returns (space: nat)
      requires Shaped()
      ensures space == Space() == data.Length - 1 - |Unread()|
    {
      space := data.Length + tail - head;
      space := space - 1;
      if space >= data.Length {
        space := space - data.Length;
      }
    }

    method IsEmpty() returns (empty: bool)
      requires Shaped()
      ensures empty <==> Unread() == []
    {
      empty := head == tail;
    }

    method IsFull() returns (full: bool)
      requires Shaped()
      ensures full <==> data.Length - 1 - |Unread()| <= (if message then PREFIX else 0)
    {
      var space := SpacesAvailable();
      full := space <= if message then PREFIX else 0;
    }

    // ----- Steps of the writer -----

    /** Looks at the space and plans: a message goes in whole or not at all, a stream takes what
        fits. */
    method StartSend(tx: Bytes)
      requires Valid() && writer.Resting? && |tx| + PREFIX < 0x1_0000_0000
      modifies this`writer
      ensures Valid()
      ensures message ==> if |tx| + PREFIX <= Space() then writer == Writing(tx, [], Packed(tx, true), head)
              else writer.Resting?
      ensures !message ==> var n := Min(|tx|, Space());
                           if n > 0 then writer == Writing(tx[..n], [], tx[..n], head) else writer.Resting?
    {
      hide ReaderFits, Fifo, Flat, Distance;
      var space := SpacesAvailable();
      if message {
        if space >= |tx| + PREFIX {
          writer := Writing(tx, [], Le32(|tx|) + tx, head);
          assert writer.done + writer.todo == writer.todo;
        }
      } else {
        var n := Min(|tx|, space);
        if n != 0 {
          writer := Writing(tx[..n], [], tx[..n], head);
          assert writer.done + writer.todo == writer.todo;
        }
      }
    }

    /** One copy of `k` bytes into the buffer. */
    method CopyIn(k: nat)
      requires Valid() && writer.Writing? && 0 < k <= |writer.todo| && writer.next + k <= data.Length
      modifies this`writer, data
      ensures Valid() && Unread() == old(Unread())
      ensures writer == CopiedIn(old(writer), k, data.Length)
    {
      hide WriterFits, ReaderFits, Fifo, Cells, Distance, Packed, Flat, Wrap;
      ghost var was := data[..];
      forall i | 0 <= i < k {
        data[writer.next + i] := writer.todo[i];
      }
      assert data[..] == Overlay(was, writer.next, writer.todo[..k]);
      CopyInSpares(was, tail, head, writer, k, message);
      CopyInFits(was, head, writer, k, Space(), message);
      writer := Writing(writer.payload, writer.done + writer.todo[..k], writer.todo[k..],
                        if writer.next + k >= data.Length then writer.next + k - data.Length else writer.next + k);
    }

    /** The head moves behind what was copied, unless the payload is empty. */
    method FinishSend() returns (n: nat)
      requires Valid() && writer.Writing? && writer.todo == []
      modifies this`head, this`writer, this`sent
      ensures Valid() && writer.Resting? && n == |old(writer.payload)| < 0x1_0000_0000
      ensures sent == if n == 0 then old(sent) else old(sent) + [old(writer.payload)]
      ensures head == if n == 0 then old(head) else old(writer.next)
      ensures Unread() == if n == 0 then old(Unread()) else old(Unread()) + Packed(old(writer.payload), message)
    {
      hide ReaderFits, Fifo, Cells, Distance, Flat;
      n := |writer.payload|;
      Published(data[..], tail, head, writer, message);
      if n != 0 {
        FifoSends(got, sent, Unread(), message, writer.payload);
        ReaderUndisturbed(reader, Unread(), Packed(writer.payload, message), data.Length, tail, message, got, sent,
                          writer.payload);
        hide Packed, WriterFits;
        head := writer.next;
        sent := sent + [writer.payload];
      }
      writer := Resting;
    }

    // ----- Steps of the reader -----

    /** Looks at the bytes available and starts reading if there are enough. */
    method StartReceive(room: nat)
      requires Valid() && reader.Waiting?
      modifies this`reader
      ensures Valid()
      ensures reader.Waiting? <==> Unread() == [] || (!message && room == 0)
      ensures reader.Reading? ==>
              reader == Reading(room, |Unread()|, message, if message then PREFIX else Min(room, |Unread()|), [], tail)
    {
      if message {
        UnreadMessages(got, sent, Unread());
      }
      hide Fifo, WriterFits, Cells;
      var avail := BytesInBuffer();
      if avail > if message then PREFIX else 0 {
        if message {
          reader := Reading(room, avail, true, PREFIX, [], tail);
        } else if Min(room, avail) != 0 {
          reader := Reading(room, avail, false, Min(room, avail), [], tail);
        }
      }
    }

    /** One copy of `k` bytes out of the buffer. */
    method CopyOut(k: nat)
      requires Valid() && reader.Reading? && 0 < k && |reader.taken| + k <= reader.want
               && reader.next + k <= data.Length
      modifies this`reader
      ensures Valid() && old(Skipped(reader, message) + |reader.taken|) + k <= |Unread()|
      ensures reader == CopiedOut(old(reader), Part(Unread(), old(Skipped(reader, message) + |reader.taken|), k),
                                  data.Length)
    {
      hide WriterFits, Fifo, Cells, Distance, Packed, Flat, ReaderFits, Wrap;
      CopyOutFits(data[..], Unread(), tail, reader, k, message, got, sent);
      CopiedPart(Unread(), data[reader.next..reader.next + k], reader, data.Length, tail, message, got, sent);
      reader := reader.(taken := reader.taken + data[reader.next..reader.next + k],
                        next := if reader.next + k >= data.Length then reader.next + k - data.Length
                            else reader.next + k);
    }

    /** The length is read: go on with the payload, or give up if the reader has too little room. */
    method MeasureMessage()
      requires Valid() && reader.Reading? && reader.prefix && |reader.taken| == PREFIX
      modifies this`reader
      ensures Valid() && |got| < |sent|
      ensures if |sent[|got|]| <= old(reader.room) then reader.Reading? && !reader.prefix
              && reader.want == |sent[|got|]| && reader.taken == []
              else reader.Waiting?
      ensures reader == AfterMeasuring(old(reader))
    {
      Measured(reader, Unread(), data.Length, tail, message, got, sent);
      hide WriterFits, ReaderFits, Fifo, Cells, Distance;
      var n := Nat32(reader.taken);
      var avail := reader.avail - PREFIX;
      if n > reader.room {
        n := 0;
      }
      var count := Min(n, avail);
      if count != 0 {
        reader := reader.(prefix := false, want := count, taken := []);
      } else {
        reader := Waiting;
      }
    }

    /** The tail moves behind what was read: in a message buffer the oldest message, whole. */
    method FinishReceive() returns (rx: Bytes)
      requires Valid() && reader.Reading? && !reader.prefix && |reader.taken| == reader.want
      modifies this`tail, this`reader, this`got
      ensures Valid() && reader.Waiting? && rx == old(reader.taken) != [] && |rx| < 0x1_0000_0000
      ensures got == old(got) + [rx] && (message ==> rx == sent[|old(got)|]) && tail == old(reader.next)
      ensures Packed(rx, message) + Unread() == old(Unread())
    {
      hide WriterFits, Fifo, Cells, Distance, Flat;
      ghost var was := Unread();
      rx := reader.taken;
      TakenWhole(reader, Unread(), data.Length, tail, message, got, sent);
      Released(data[..], tail, head, |Packed(rx, message)|);
      MoreRoom(writer, data[..], head, Space(), Space() + |Packed(rx, message)|, message);
      hide Packed, Wrap;
      tail := reader.next;
      assert was == Packed(rx, message) + Unread();
      FifoReceives(got, sent, was, Unread(), message, rx);
      got := got + [rx];
      reader := Waiting;
    }

    // ----- Whole calls -----

    /** The next `count` bytes to write, in two copies if they cross the end of the buffer. */
    method WriteBytes(count: nat)
      requires Valid() && writer.Writing? && 0 < count <= |writer.todo|
      modifies this`writer, data
      ensures Valid() && Unread() == old(Unread()) && writer.Writing? && writer.payload == old(writer.payload)
      ensures writer.todo == old(writer.todo)[count..]
    {
      hide ReaderFits, Fifo, Cells, Packed, Flat;
      var todo := writer.todo;
      var first := Min(data.Length - writer.next, count);
      CopyIn(first);
      if count > first {
        CopyIn(count - first);
        assert todo[first..][count - first..] == todo[count..];
      }
    }

    /** A send that does not wait. */
    method Send(tx: Bytes) returns (n: nat)
      requires Valid() && writer.Resting? && |tx| + PREFIX < 0x1_0000_0000
      modifies this`head, this`writer, this`sent, data
      ensures Valid() && writer.Resting?
      ensures n == if !message then Min(|tx|, old(Space())) else if |tx| + PREFIX <= old(Space()) then |tx| else 0
      ensures sent == if n == 0 then old(sent) else old(sent) + [tx[..n]]
      ensures Unread() == if n == 0 then old(Unread()) else old(Unread()) + Packed(tx[..n], message)
    {
      hide Valid, Fifo, Cells, Flat, WriterFits, ReaderFits;
      n := 0;
      assert tx[..|tx|] == tx;
      StartSend(tx);
      if writer.Writing? {
        if message {
          WriteBytes(PREFIX);
        }
        if |writer.todo| != 0 {
          WriteBytes(|writer.todo|);
        }
        n := FinishSend();
      }
    }

    /** The next `count` bytes to read, in two copies if they cross the end of the buffer. */
    method ReadBytes(count: nat)
      requires Valid() && reader.Reading? && 0 < count && |reader.taken| + count <= reader.want
      modifies this`reader
      ensures Valid() && reader.Reading? && reader.room == old(reader.room) && reader.prefix == old(reader.prefix)
      ensures reader.want == old(reader.want) && |reader.taken| == |old(reader.taken)| + count
    {
      hide WriterFits, Fifo, Cells, Packed, Flat;
      var first := Min(data.Length - reader.next, count);
      CopyOut(first);
      if count > first {
        CopyOut(count - first);
      }
    }

    /** A receive that does not wait: the oldest message if there is room for it, or the next bytes
        of the stream. Too little room changes nothing. */
    method Receive(room: nat) returns (rx: Bytes)
      requires Valid() && reader.Waiting?
      modifies this`tail, this`reader, this`got
      ensures Valid() && reader.Waiting?
      ensures rx == [] ==> tail == old(tail) && got == old(got)
      ensures rx != [] ==> got == old(got) + [rx] && Packed(rx, message) + Unread() == old(Unread())
      ensures message ==> (rx != [] <==> |old(got)| < |sent| && |sent[|old(got)|]| <= room)
                          && (rx != [] ==> rx == sent[|old(got)|])
      ensures !message ==> |rx| == Min(room, |old(Unread())|)
    {
      if message {
        UnreadMessages(got, sent, Unread());
      }
      hide Valid, Cells, Flat, WriterFits, ReaderFits;
      rx := [];
      StartReceive(room);
      if reader.Reading? {
        if message {
          ReadBytes(PREFIX);
          MeasureMessage();
        }
        if reader.Reading? {
          ReadBytes(reader.want);
          rx := FinishReceive();
        }
      }
    }

    /** The length just read, with nothing taken out of the buffer. */
    method PeekLength() returns (n: nat)
      requires Valid() && reader.Reading? && reader.prefix && |reader.taken| == PREFIX
      modifies this`reader
      ensures Valid() && reader.Waiting? && |got| < |sent| && n == |sent[|got|]|
    {
      Measured(reader, Unread(), data.Length, tail, message, got, sent);
      n := Nat32(reader.taken);
      reader := Waiting;
    }

    /** The length of the oldest message, left in the buffer, or zero. */
    method NextMessageLength() returns (n: nat)
      requires Valid() && reader.Waiting?
      modifies this`reader
      ensures Valid() && reader.Waiting?
      ensures n == if message && |got| < |sent| then |sent[|got|]| else 0
    {
      if message {
        UnreadMessages(got, sent, Unread());
      }
      hide Valid, Cells, Flat, WriterFits, ReaderFits;
      n := 0;
      if message {
        var avail := BytesInBuffer();
        if avail > PREFIX {
          StartReceive(0);
          ReadBytes(PREFIX);
          n := PeekLength();
        } else {
          assert avail == 0;
        }
      }
    }
  }

  // ----- Whole runs -----

  datatype Action = Plan(tx: Bytes) | CopyToBuffer(count: nat) | Publish
                  | Look(room: nat) | CopyFromBuffer(count: nat) | Measure | Release

  /** A stream buffer told without its memory: the unread bytes are a queue. */
  datatype Pipe = Pipe(n: nat, message: bool, head: nat, tail: nat, writer: Writer, reader: Reader, unread: Bytes,
                       sent: seq<Bytes>, got: seq<Bytes>) {
    /** The writer plans what fits. */
    function Plan(tx: Bytes): Pipe {
      var space := n - 1 - |unread|;
      if !writer.Resting? || |tx| + PREFIX >= 0x1_0000_0000 then this
      else if message then
        if |tx| + PREFIX <= space then this.(writer := Writing(tx, [], Packed(tx, true), head)) else this
      else if tx != [] && space > 0 then
        var part := if |tx| <= space then tx else tx[..space];
        this.(writer := Writing(part, [], part, head))
      else this
    }

    function CopyToBuffer(k: nat): Pipe
      requires n > 0
    {
      if writer.Writing? && 0 < k <= |writer.todo|
          && writer.next + k <= n then this.(writer := CopiedIn(writer, k, n)) else this
    }

    /** What is copied is published, unless it is empty. */
    function Publish(): Pipe {
      if !writer.Writing? || writer.todo != [] then this
      else if writer.payload == [] || |writer.payload| >= 0x1_0000_0000 then this.(writer := Resting)
      else this.(writer := Resting, head := writer.next, unread := unread + Packed(writer.payload, message),
                 sent := sent + [writer.payload])
    }

    /** The reader starts if there is something for it. */
    function Look(room: nat): Pipe {
      if !reader.Waiting? || unread == [] || (!message && room == 0) then this
      else this.(reader := Reading(room, |unread|, message, if message then PREFIX else Min(room, |unread|), [], tail))
    }

    function CopyFromBuffer(k: nat): Pipe
      requires n > 0
    {
      if reader.Reading? && 0 < k && |reader.taken| + k <= reader.want && reader.next + k <= n then
        var part := Part(unread, Skipped(reader, message) + |reader.taken|, k);
        if reader.next + |part| <= n then this.(reader := CopiedOut(reader, part, n)) else this
      else this
    }

    function Measure(): Pipe {
      if reader.Reading? && reader.prefix
          && |reader.taken| == PREFIX then this.(reader := AfterMeasuring(reader)) else this
    }

    /** What was read is released and handed over. */
    function Release(): Pipe {
      if !reader.Reading? || reader.prefix || |reader.taken| != reader.want || |reader.taken| >= 0x1_0000_0000 then this
      else
        var k := |Packed(reader.taken, message)|;
        this.(reader := Waiting, tail := reader.next, unread := if k <= |unread| then unread[k..] else [],
              got := got + [reader.taken])
    }

    function Act(action: Action): Pipe
      requires n > 0
    {
      match action
      case Plan(tx) => Plan(tx)
      case CopyToBuffer(k) => CopyToBuffer(k)
      case Publish => Publish()
      case Look(room) => Look(room)
      case CopyFromBuffer(k) => CopyFromBuffer(k)
      case Measure => Measure()
      case Release => Release()
    }
  }

  /** What a new buffer with `size` usable bytes comes to under a schedule. */
  function Piped(size: nat, message: bool, schedule: seq<Action>): (p: Pipe)
    ensures p.n == size + 1
  {
    if schedule == [] then Pipe(size + 1, message, 0, 0, Resting, Waiting, [], [], [])
    else Piped(size, message, schedule[..|schedule| - 1]).Act(schedule[|schedule| - 1])
  }

  lemma {:induction false} PipedMore(size: nat, message: bool, schedule: seq<Action>, i: nat)
    requires i < |schedule|
    ensures Piped(size, message, schedule[..i + 1]) == Piped(size, message, schedule[..i]).Act(schedule[i])
  {
    assert schedule[..i + 1][..i] == schedule[..i];
  }

  lemma {:induction false} PipedThen(size: nat, message: bool, schedule: seq<Action>, action: Action)
    ensures Piped(size, message, schedule + [action]) == Piped(size, message, schedule).Act(action)
  {
    assert (schedule + [action])[..|schedule|] == schedule;
  }

  /** The writer sends `tx` in one copy. */
  function Sending(tx: Bytes, message: bool): seq<Action>
    requires |tx| < 0x1_0000_0000
  {
    [] + [Plan(tx)] + [CopyToBuffer(|Packed(tx, message)|)] + [Publish]
  }

  /** The reader, with just enough room, receives it. */
  function Fetching(tx: Bytes, message: bool): seq<Action> {
    if message then [Look(|tx|), CopyFromBuffer(PREFIX), Measure, CopyFromBuffer(|tx|), Release]
    else [Look(|tx|), CopyFromBuffer(|tx|), Release]
  }

  lemma {:induction false} Sends(size: nat, message: bool, tx: Bytes)
    requires 0 < |tx| && |tx| + PREFIX < 0x1_0000_0000 && |Packed(tx, message)| <= size
    ensures var packed := Packed(tx, message);
            Piped(size, message, Sending(tx, message))
            == Pipe(size + 1, message, |packed|, 0, Resting, Waiting, packed, [tx], [])
  {
    var packed := Packed(tx, message);
    PipedThen(size, message, [], Plan(tx));
    PipedThen(size, message, [] + [Plan(tx)], CopyToBuffer(|packed|));
    PipedThen(size, message, [] + [Plan(tx)] + [CopyToBuffer(|packed|)], Publish);
    assert [] + packed[..|packed|] == packed && packed[|packed|..] == [] && [] + packed == packed && [] + [tx] == [tx];
  }

  lemma {:induction false} Looks(p: Pipe, room: nat)
    requires p.reader == Waiting && p.unread != [] && room > 0
    ensures p.Look(room) == p.(reader := Reading(room, |p.unread|, p.message, if p.message then PREFIX else
                                                   Min(room, |p.unread|), [], p.tail))
  {
  }

  /** Reading the length of a payload from a pipe that holds nothing else. */
  lemma {:induction false} Measures(p: Pipe, tx: Bytes)
    requires 0 < |tx| < 0x1_0000_0000 && p.message && p.unread == Packed(tx, true) && |p.unread| < p.n && p.tail == 0
    requires p.reader == Reading(|tx|, |p.unread|, true, PREFIX, [], 0)
    ensures p.CopyFromBuffer(PREFIX).Measure()
            == p.(reader := Reading(|tx|, |p.unread|, false, |tx|, [], PREFIX))
  {
    Unpacked(tx, p.unread);
    assert p.unread[..PREFIX] == p.unread[0..PREFIX] == [] + p.unread[0..PREFIX];
    hide Nat32, Packed;
  }

  /** Reading the payload. */
  lemma {:induction false} Fetches(p: Pipe, tx: Bytes)
    requires 0 < |tx| < 0x1_0000_0000 && p.unread == Packed(tx, p.message) && |p.unread| < p.n
    requires var from := if p.message then PREFIX else 0;
             p.reader == Reading(|tx|, |p.unread|, false, |tx|, [], from)
    ensures p.CopyFromBuffer(|tx|).Release()
            == p.(reader := Waiting, tail := |p.unread|, unread := [], got := p.got + [tx])
  {
    var from := if p.message then PREFIX else 0;
    assert [] + p.unread[from..from + |tx|] == tx && p.unread[|p.unread|..] == [];
    hide Le32;
  }

  lemma {:induction false} FetchingIs(tx: Bytes, s: seq<Action>)
    ensures s + Fetching(tx, true) == s + [Look(|tx|)] + [CopyFromBuffer(PREFIX)] + [Measure] + [CopyFromBuffer(|tx|)]
                                      + [Release]
    ensures s + Fetching(tx, false) == s + [Look(|tx|)] + [CopyFromBuffer(|tx|)] + [Release]
  {
  }

  /** What is sent does come through: every payload that fits the buffer, sent and then received, is what
      was accepted and what is delivered. */
  lemma {:induction false} ComesThrough(size: nat, message: bool, tx: Bytes)
    requires 0 < |tx| && |tx| + PREFIX < 0x1_0000_0000 && |tx| + (if message then 4 else 0) <= size
    ensures var p := Piped(size, message, Sending(tx, message) + Fetching(tx, message));
            p.sent == [tx] && p.got == [tx] && p.unread == []
  {
    hide Packed, Sending, Fetching, Piped, Pipe.Look, Pipe.CopyFromBuffer, Pipe.Measure, Pipe.Release;
    var s := Sending(tx, message);
    FetchingIs(tx, s);
    Sends(size, message, tx);
    var start := Piped(size, message, s);
    var look := start.Look(|tx|);
    Looks(start, |tx|);
    PipedThen(size, message, s, Look(|tx|));
    var a := s + [Look(|tx|)];
    if message {
      PipedThen(size, message, a, CopyFromBuffer(PREFIX));
      PipedThen(size, message, a + [CopyFromBuffer(PREFIX)], Measure);
      Measures(look, tx);
      look, a := look.CopyFromBuffer(PREFIX).Measure(), a + [CopyFromBuffer(PREFIX)] + [Measure];
    }
    PipedThen(size, message, a, CopyFromBuffer(|tx|));
    PipedThen(size, message, a + [CopyFromBuffer(|tx|)], Release);
    Fetches(look, tx);
    assert [] + [tx] == [tx];
  }

  /** The buffer as a pipe. */
  ghost function Seen(b: StreamBuffer): Pipe
    requires b.Shaped()
    reads b, b.data
  {
    Pipe(b.data.Length, b.message, b.head, b.tail, b.writer, b.reader, b.Unread(), b.sent, b.got)
  }

  method ActWriter(b: StreamBuffer, action: Action) returns (accepted: seq<Bytes>)
    requires b.Valid() && (action.Plan? || action.CopyToBuffer? || action.Publish?)
    modifies b`head, b`writer, b`sent, b.data
    ensures b.Valid() && Seen(b) == old(Seen(b)).Act(action) && b.sent == old(b.sent) + accepted
  {
    hide Cells, Distance, WriterFits, ReaderFits, Packed, Fifo, Flat;
    accepted := [];
    match action
    case Plan(tx) =>
      if b.writer.Resting? && |tx| + PREFIX < 0x1_0000_0000 {
        assert tx[..|tx|] == tx;
        b.StartSend(tx);
      }
    case CopyToBuffer(k) =>
      if b.writer.Writing? && 0 < k <= |b.writer.todo| && b.writer.next + k <= b.data.Length {
        b.CopyIn(k);
      }
    case Publish =>
      if b.writer.Writing? && b.writer.todo == [] {
        var payload := b.writer.payload;
        var n := b.FinishSend();
        if n != 0 {
          accepted := [payload];
        }
      }
  }

  method ActReader(b: StreamBuffer, action: Action) returns (delivered: seq<Bytes>)
    requires b.Valid() && (action.Look? || action.CopyFromBuffer? || action.Measure? || action.Release?)
    modifies b`tail, b`reader, b`got
    ensures b.Valid() && Seen(b) == old(Seen(b)).Act(action) && b.got == old(b.got) + delivered
  {
    hide Cells, Distance, WriterFits, ReaderFits, Packed, Fifo, Flat;
    delivered := [];
    match action
    case Look(room) =>
      if b.reader.Waiting? {
        b.StartReceive(room);
      }
    case CopyFromBuffer(k) =>
      if b.reader.Reading? && 0 < k && |b.reader.taken| + k <= b.reader.want && b.reader.next + k <= b.data.Length {
        b.CopyOut(k);
      }
    case Measure =>
      if b.reader.Reading? && b.reader.prefix && |b.reader.taken| == PREFIX {
        b.MeasureMessage();
      }
    case Release =>
      if b.reader.Reading? && !b.reader.prefix && |b.reader.taken| == b.reader.want {
        ghost var was := b.Unread();
        var rx := b.FinishReceive();
        assert was[|Packed(rx, b.message)|..] == b.Unread();
        delivered := [rx];
      }
  }

  /** Any schedule of steps of the writer and the reader; steps that are not possible are skipped.
      What is accepted and delivered is what the pipe says, and in it what is delivered is what was
      accepted, in order: byte for byte in a stream buffer, message for message in a message buffer. */
  method Run(size: nat, message: bool, schedule: seq<Action>) returns (accepted: seq<Bytes>, delivered: seq<Bytes>)
    requires size > (if message then PREFIX else 0) && 2 * (size + 1) < 0x1_0000_0000
    ensures accepted == Piped(size, message, schedule).sent && delivered == Piped(size, message, schedule).got
    ensures Sendable(accepted) && Sendable(delivered) && Flat(delivered, message) <= Flat(accepted, message)
    ensures message ==> delivered <= accepted
  {
    hide Cells, Distance, WriterFits, ReaderFits, Packed, Pipe.Act;
    var b := new StreamBuffer(size, message);
    accepted, delivered := [], [];
    assert schedule[..0] == [];
    for i := 0 to |schedule|
      invariant b.Valid() && b.sent == accepted && b.got == delivered && fresh(b) && fresh(b.data)
      invariant Seen(b) == Piped(size, message, schedule[..i])
    {
      PipedMore(size, message, schedule, i);
      if schedule[i].Plan? || schedule[i].CopyToBuffer? || schedule[i].Publish? {
        var more := ActWriter(b, schedule[i]);
        accepted := accepted + more;
      } else {
        var more := ActReader(b, schedule[i]);
        delivered := delivered + more;
      }
    }
    assert schedule[..|schedule|] == schedule;
  }
}
