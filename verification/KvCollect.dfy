/** Garbage collection as the store runs it: the entries it starts from, what it is asked to
    drop or replace on the way, and what each round of its loop keeps.

    Modelled code: nimble/host/kv_store/mtb_kvstore.c:1173-1277. */
module KvCollect {
  import opened Sequences
  import opened Arith
  import opened LittleEndian
  import opened KvFormat
  import opened KvLog
  import opened KvReplay
  import opened KvLive
  import opened KvImage
  import opened KvIndex
  import opened KvFlash
  import opened KvPort
  import opened KvCommit
  import opened KvCompact
  import opened KvGather

  /** The change a collection makes on the way: none, one key left out, or one key replaced. */
  datatype Change = Nothing | Drop(index: nat, oldSize: nat)
                  | Replace(index: nat, oldSize: nat, newSize: nat, key: Bytes, data: Bytes, hash: nat) {
    /** The entry that is not copied. */
    function Skip(n: nat): nat {
      if Nothing? then n else index
    }

    /** The map the collection leaves. */
    ghost function Result(keep: map<Bytes, Bytes>, names: seq<Bytes>): map<Bytes, Bytes>
      requires !Nothing? ==> index < |names|
    {
      match this
      case Nothing => keep
      case Drop(i, _) => keep - {names[i]}
      case Replace(i, _, _, key, data, _) => keep[key := data]
    }
  }

  /** What the caller of a collection vouches for: the sizes and the hash in the change are those
      of the pairs they stand for, and what is kept fits an area. */
  ghost predicate Vouched(geo: Geometry, names: seq<Bytes>, consumed: nat, change: Change, keep: map<Bytes, Bytes>)
    requires geo.page > 0
    ensures Vouched(geo, names, consumed, change, keep) && !change.Nothing? ==>
            change.index < |names| && names[change.index] in keep
    ensures Vouched(geo, names, consumed, change, keep) && change.Replace? ==> names[change.index] == change.key
  {
    && geo.First() + LiveSize(geo, keep) <= geo.area
    && (match change {
          case Nothing => true
          case Drop(i, oldSize) =>
            i < |names| && names[i] in keep && oldSize == PairSize(geo, names[i], keep[names[i]]) <= consumed
          case Replace(i, oldSize, newSize, key, data, hash) =>
            && i < |names| && names[i] == key && key in keep && hash == Hash(key)
            && Record(false, key, data).WellFormed() && newSize == PairSize(geo, key, data)
            && oldSize == PairSize(geo, key, keep[key]) && consumed == geo.First() + LiveSize(geo, keep)
        })
  }

  /** Entry `i` points at a complete record for name `i`. */
  ghost predicate PointsAt(geo: Geometry, image: Bytes, active: Area, entry: Entry, name: Bytes, data: Bytes)
    requires geo.page > 0
  {
    var r := Record(false, name, data);
    && entry.hash == Hash(name) && entry.offset % geo.page == 0 && entry.offset + geo.RecordSize(r) <= geo.area
    && Holds(image, geo.Base(active) + entry.offset, r)
  }

  /** The table names exactly the pairs of `keep`, each with its record on flash. */
  ghost predicate Kept(geo: Geometry, image: Bytes, active: Area, table: seq<Entry>, names: seq<Bytes>,
                       keep: map<Bytes, Bytes>)
    requires geo.page > 0
    ensures Kept(geo, image, active, table, names, keep) ==> Lists(names, keep) && |table| == |names|
  {
    && Lists(names, keep) && |table| == |names| && Sorted(table)
    && forall i :: 0 <= i < |names| ==> PointsAt(geo, image, active, table[i], names[i], keep[names[i]])
  }

  /** A collection before round `n`. */
  ghost predicate Round(geo: Geometry, before: Bytes, image: Bytes, active: Area, names: seq<Bytes>,
                        keep: map<Bytes, Bytes>,
                        skip: nat, original: seq<Entry>, table: seq<Entry>, n: nat, dst: nat)
    requires geo.page > 0
    ensures Round(geo, before, image, active, names, keep, skip, original, table, n, dst) ==>
            n <= |names| && |table| == |names| && Lists(names, keep)
  {
    && Moving(geo, names, keep, skip, original, table, n)
    && Gathering(geo, before, image, active, CopyLog(names, keep, skip, n))
    && dst == End(geo, CopyLog(names, keep, skip, n))
  }

  lemma {:induction false} KeptEntry(geo: Geometry, image: Bytes, active: Area, table: seq<Entry>, names: seq<Bytes>,
                                     keep: map<Bytes, Bytes>, i: nat)
    requires geo.page > 0 && Kept(geo, image, active, table, names, keep) && i < |names|
    ensures PointsAt(geo, image, active, table[i], names[i], keep[names[i]]) && Sorted(table)
  {
    hide PointsAt;
  }

  lemma {:induction false} FirstRound(geo: Geometry, before: Bytes, image: Bytes, active: Area, names: seq<Bytes>,
                                      keep: map<Bytes, Bytes>, skip: nat, table: seq<Entry>)
    requires geo.Valid() && Kept(geo, before, active, table, names, keep)
    requires Gathering(geo, before, image, active, [])
    ensures Round(geo, before, image, active, names, keep, skip, table, table, 0, geo.First())
  {
    hide Gathering, Holds, Hash, AlignUp;
  }

  lemma {:induction false} SkipRound(geo: Geometry, before: Bytes, image: Bytes, active: Area, names: seq<Bytes>,
                                     keep: map<Bytes, Bytes>, skip: nat, original: seq<Entry>, table: seq<Entry>,
                                         dst: nat)
    requires geo.Valid() && skip < |names|
             && Round(geo, before, image, active, names, keep, skip, original, table, skip, dst)
    ensures Round(geo, before, image, active, names, keep, skip, original, table, skip + 1, dst)
  {
    hide Gathering, Hash, AlignUp, End;
  }

  /** What a round needs to copy entry `n`. */
  lemma {:induction false} RoundReady(geo: Geometry, before: Bytes, image: Bytes, active: Area, names: seq<Bytes>,
                                      keep: map<Bytes, Bytes>, skip: nat, original: seq<Entry>, table: seq<Entry>,
                                          n: nat, dst: nat)
    requires geo.Valid() && Kept(geo, before, active, original, names, keep) && n < |names| && n != skip
             && skip <= |names|
    requires Round(geo, before, image, active, names, keep, skip, original, table, n, dst)
    requires geo.First() + LiveSize(geo, if skip < |names| then keep - {names[skip]} else keep) <= geo.area
    ensures var r, src := Record(false, names[n], keep[names[n]]), geo.Base(active) + original[n].offset;
            && table[n] == original[n] && original[n].hash == Hash(names[n])
            && Holds(image, src, r) && r.WellFormed()
            && src % geo.page == 0 && dst % geo.page == 0 && geo.First() <= dst
            && src + geo.RecordSize(r) <= geo.Base(active) + geo.area
            && dst + geo.RecordSize(r) <= geo.area
            && Blank(geo, image, geo.Base(active.Other()) + dst, geo.Base(active.Other()) + geo.area)
  {
    hide *;
    var log, r := CopyLog(names, keep, skip, n), Record(false, names[n], keep[names[n]]);
    RoundParts(geo, before, image, active, names, keep, skip, original, table, n, dst);
    KeptEntry(geo, before, active, original, names, keep, n);
    PointsAtParts(geo, before, active, original[n], names[n], keep[names[n]]);
    GatheringParts(geo, before, image, active, log);
    var base := geo.Base(active);
    HoldsAlso(before, image, base, base + geo.area, base + original[n].offset, r);
    SectorAligned(geo, active);
    SumOfMultiples(base, original[n].offset, geo.page);
    CopyFits(geo, names, keep, skip, n);
    EndIsAligned(geo, log);
  }

  lemma {:induction false} RoundParts(geo: Geometry, before: Bytes, image: Bytes, active: Area, names: seq<Bytes>,
                                      keep: map<Bytes, Bytes>, skip: nat, original: seq<Entry>, table: seq<Entry>,
                                          n: nat, dst: nat)
    requires geo.page > 0 && Round(geo, before, image, active, names, keep, skip, original, table, n, dst)
    ensures Moving(geo, names, keep, skip, original, table, n) && |original| == |names|
    ensures Gathering(geo, before, image, active, CopyLog(names, keep, skip, n))
    ensures dst == End(geo, CopyLog(names, keep, skip, n))
    ensures n < |names| ==> table[n] == original[n]
  {
    hide Gathering, Hash, AlignUp, End;
  }

  lemma {:induction false} PointsAtParts(geo: Geometry, image: Bytes, active: Area, entry: Entry, name: Bytes,
                                         data: Bytes)
    requires geo.page > 0 && PointsAt(geo, image, active, entry, name, data)
    ensures var r := Record(false, name, data);
            && entry.hash == Hash(name) && entry.offset % geo.page == 0 && entry.offset + geo.RecordSize(r) <= geo.area
            && Holds(image, geo.Base(active) + entry.offset, r) && r.WellFormed()
            && geo.Base(active) + entry.offset + r.RawSize() <= geo.Base(active) + geo.area
  {
    hide Raw, Hash, AlignUp;
  }

  /** The state after entry `n` was copied to the end of the new area. */
  lemma {:induction false} CopyRound(geo: Geometry, before: Bytes, image: Bytes, later: Bytes, active: Area,
                                     names: seq<Bytes>,
                                     keep: map<Bytes, Bytes>, skip: nat, original: seq<Entry>, table: seq<Entry>,
                                         n: nat, dst: nat)
    requires geo.Valid() && n < |names| && n != skip && skip <= |names|
    requires Round(geo, before, image, active, names, keep, skip, original, table, n, dst)
    requires var r := Record(false, names[n], keep[names[n]]);
             && dst + geo.RecordSize(r) <= geo.area && r.WellFormed()
             && Copied(geo, image, later, geo.Base(active.Other()) + dst, r)
    requires table[n].hash == Hash(names[n])
    ensures var r := Record(false, names[n], keep[names[n]]);
            Round(geo, before, later, active, names, keep, skip, original, table[n := table[n].(offset := dst)], n + 1,
                  dst + geo.RecordSize(r))
  {
    hide *;
    var log, r := CopyLog(names, keep, skip, n), Record(false, names[n], keep[names[n]]);
    RoundParts(geo, before, image, active, names, keep, skip, original, table, n, dst);
    CopiedParts(geo, image, later, geo.Base(active.Other()) + dst, r);
    GatherRecord(geo, before, image, later, active, log, r);
    CopyFits(geo, names, keep, skip, n);
    MoveEntry(geo, names, keep, skip, original, table, n, dst);
    RoundFrom(geo, before, later, active, names, keep, skip, original, table[n := table[n].(offset := dst)], n + 1,
              dst + geo.RecordSize(r));
  }

  lemma {:induction false} CopiedParts(geo: Geometry, before: Bytes, image: Bytes, to: nat, r: Record)
    requires geo.page > 0 && Copied(geo, before, image, to, r)
    ensures Holds(image, to, r) && SameBytes(before, image, 0, to)
    ensures SameBytes(before, image, to + geo.RecordSize(r), |before|)
  {
    hide Holds, SameBytes, AlignUp;
  }

  lemma {:induction false} MoveEntry(geo: Geometry, names: seq<Bytes>, keep: map<Bytes, Bytes>, skip: nat,
                                     original: seq<Entry>, table: seq<Entry>, n: nat, dst: nat)
    requires geo.page > 0 && n < |names| && n != skip && Moving(geo, names, keep, skip, original, table, n)
    requires dst == End(geo, CopyLog(names, keep, skip, n)) && |table| == |names| && table[n].hash == Hash(names[n])
    ensures Moving(geo, names, keep, skip, original, table[n := table[n].(offset := dst)], n + 1)
  {
    hide Hash, CopyLog, End;
  }

  lemma {:induction false} RoundFrom(geo: Geometry, before: Bytes, image: Bytes, active: Area, names: seq<Bytes>,
                                     keep: map<Bytes, Bytes>, skip: nat, original: seq<Entry>, table: seq<Entry>,
                                         n: nat, dst: nat)
    requires geo.page > 0 && Moving(geo, names, keep, skip, original, table, n)
    requires n <= |names| && Lists(names, keep)
    requires Gathering(geo, before, image, active, CopyLog(names, keep, skip, n))
    requires dst == End(geo, CopyLog(names, keep, skip, n))
    ensures Round(geo, before, image, active, names, keep, skip, original, table, n, dst)
  {
    hide Gathering, Hash, CopyLog, End, Lists;
  }

  /** The steps of a copy are steps of the rewrite. */
  lemma {:induction false} RoundSteps(geo: Geometry, before: Bytes, image: Bytes, active: Area, log: seq<Record>,
                                      lo: nat, hi: nat, a: seq<Bytes>, b: seq<Bytes>)
    requires geo.Valid() && Gathering(geo, before, image, active, log) && geo.First() <= lo <= hi <= geo.area
    requires Since(a, b, Within(image, geo.Base(active.Other()) + lo, geo.Base(active.Other()) + hi))
    ensures Since(a, b, RewritingFrom(geo, before, active.Other()))
  {
    hide *;
    var p := Within(image, geo.Base(active.Other()) + lo, geo.Base(active.Other()) + hi);
    var q := RewritingFrom(geo, before, active.Other());
    forall img | p(img)
      ensures q(img)
    {
      GatherStep(geo, before, image, img, active, log, lo, hi);
    }
    SinceImplies(a, b, p, q);
  }

  /** The new area is full of what it should hold and the table indexes it. */
  ghost predicate Rebuilt(geo: Geometry, before: Bytes, image: Bytes, active: Area, table: seq<Entry>,
                          names: seq<Bytes>,
                          log: seq<Record>, result: map<Bytes, Bytes>)
    requires geo.page > 0
  {
    && Gathering(geo, before, image, active, log) && Indexes(table, names, Offsets(geo, log))
    && Contents(log) == result && End(geo, log) == geo.First() + LiveSize(geo, result)
  }

  lemma {:induction false} AllCopied(geo: Geometry, names: seq<Bytes>, keep: map<Bytes, Bytes>, skip: nat)
    requires geo.page > 0 && Lists(names, keep) && skip <= |names|
    ensures var log, kept := CopyLog(names, keep, skip, |names|), if skip < |names| then keep - {names[skip]} else keep;
            Contents(log) == kept && End(geo, log) == geo.First() + LiveSize(geo, kept)
  {
    hide CopyLog, Contents, LiveSize, End, Lists;
    CopiedAll(names, keep, skip);
    CopyLogOnce(names, keep, skip, |names|);
    AllLive(geo, CopyLog(names, keep, skip, |names|));
  }

  lemma {:induction false} RebuiltPlain(geo: Geometry, before: Bytes, image: Bytes, active: Area, names: seq<Bytes>,
                                        keep: map<Bytes, Bytes>, original: seq<Entry>, table: seq<Entry>, dst: nat)
    requires geo.Valid() && Sorted(original)
    requires Round(geo, before, image, active, names, keep, |names|, original, table, |names|, dst)
    ensures Rebuilt(geo, before, image, active, table, names, CopyLog(names, keep, |names|, |names|), keep)
    ensures dst == End(geo, CopyLog(names, keep, |names|, |names|))
  {
    hide CopyLog, Contents, LiveSize, End, Lists, Gathering, Moving, Indexes, Round, Offsets;
    RoundParts(geo, before, image, active, names, keep, |names|, original, table, |names|, dst);
    MovedAll(geo, names, keep, original, table);
    AllCopied(geo, names, keep, |names|);
  }

  lemma {:induction false} RebuiltWithout(geo: Geometry, before: Bytes, image: Bytes, active: Area, names: seq<Bytes>,
                                          keep: map<Bytes, Bytes>, skip: nat, original: seq<Entry>, table: seq<Entry>,
                                              dst: nat)
    requires geo.Valid() && Sorted(original) && skip < |names|
    requires Round(geo, before, image, active, names, keep, skip, original, table, |names|, dst)
    ensures Rebuilt(geo, before, image, active, Removed(table, skip), Removed(names, skip),
                    CopyLog(names, keep, skip, |names|), keep - {names[skip]})
    ensures dst == End(geo, CopyLog(names, keep, skip, |names|))
  {
    hide CopyLog, Contents, LiveSize, End, Lists, Gathering, Moving, Indexes, Round, Offsets, Removed;
    RoundParts(geo, before, image, active, names, keep, skip, original, table, |names|, dst);
    MovedWithout(geo, names, keep, skip, original, table);
    AllCopied(geo, names, keep, skip);
  }

  /** The room the replacing record needs is there. */
  lemma {:induction false} ReplaceFits(geo: Geometry, before: Bytes, image: Bytes, active: Area, names: seq<Bytes>,
                                       keep: map<Bytes, Bytes>, skip: nat, original: seq<Entry>, table: seq<Entry>,
                                           dst: nat, data: Bytes)
    requires geo.Valid() && skip < |names|
    requires Round(geo, before, image, active, names, keep, skip, original, table, |names|, dst)
    requires geo.First() + LiveSize(geo, keep[names[skip] := data]) <= geo.area
    ensures var log, r := CopyLog(names, keep, skip, |names|), Record(false, names[skip], data);
            && Gathering(geo, before, image, active, log) && dst == End(geo, log)
            && dst + geo.RecordSize(r) == geo.First() + LiveSize(geo, keep[names[skip] := data])
            && |image| == 2 * geo.area && geo.First() <= dst && dst + geo.RecordSize(r) <= geo.area
            && Blank(geo, image, geo.Base(active.Other()) + End(geo, log), geo.Base(active.Other()) + geo.area)
  {
    hide CopyLog, Contents, LiveSize, End, Lists, Gathering, Moving, Indexes, Round, Offsets, AlignUp, Blank;
    RoundParts(geo, before, image, active, names, keep, skip, original, table, |names|, dst);
    AllCopied(geo, names, keep, skip);
    LiveSizeWith(geo, keep, names[skip], data);
    GatheringParts(geo, before, image, active, CopyLog(names, keep, skip, |names|));
  }

  lemma {:induction false} RebuiltReplaced(geo: Geometry, before: Bytes, image: Bytes, later: Bytes, active: Area,
                                           names: seq<Bytes>,
                                           keep: map<Bytes, Bytes>, skip: nat, original: seq<Entry>, table: seq<Entry>,
                                               dst: nat, data: Bytes)
    requires geo.Valid() && Sorted(original) && skip < |names|
    requires Round(geo, before, image, active, names, keep, skip, original, table, |names|, dst)
    requires geo.First() + LiveSize(geo, keep[names[skip] := data]) <= geo.area
    requires Record(false, names[skip], data).WellFormed()
    requires Append(geo, image, active.Other(), CopyLog(names, keep, skip, |names|),
                    Record(false, names[skip], data)).Written(later)
    ensures var log, r := CopyLog(names, keep, skip, |names|), Record(false, names[skip], data);
            Rebuilt(geo, before, later, active, table[skip := Entry(Hash(names[skip]), dst)], names, log + [r],
                    keep[names[skip] := data])
  {
    hide *;
    var log, r := CopyLog(names, keep, skip, |names|), Record(false, names[skip], data);
    RoundParts(geo, before, image, active, names, keep, skip, original, table, |names|, dst);
    ReplaceFits(geo, before, image, active, names, keep, skip, original, table, dst, data);
    WrittenParts(geo, image, later, active.Other(), log, r);
    GatherRecord(geo, before, image, later, active, log, r);
    MovedAndUpdated(geo, names, keep, skip, original, table, data);
    LogLonger(geo, log, r);
    ReplacedContents(geo, names, keep, skip, data);
    RebuiltFrom(geo, before, later, active, table[skip := Entry(Hash(names[skip]), dst)], names, log + [r],
                keep[names[skip] := data]);
  }

  lemma {:induction false} RebuiltParts(geo: Geometry, before: Bytes, image: Bytes, active: Area, table: seq<Entry>,
                                        names: seq<Bytes>,
                                        log: seq<Record>, result: map<Bytes, Bytes>)
    requires geo.page > 0 && Rebuilt(geo, before, image, active, table, names, log, result)
    ensures Gathering(geo, before, image, active, log) && Indexes(table, names, Offsets(geo, log))
    ensures Contents(log) == result && End(geo, log) == geo.First() + LiveSize(geo, result)
  {
    hide Gathering, Indexes, Offsets, Contents, End, LiveSize, AlignUp;
  }

  lemma {:induction false} KeptIsSorted(geo: Geometry, image: Bytes, active: Area, table: seq<Entry>,
                                        names: seq<Bytes>, keep: map<Bytes, Bytes>)
    requires geo.page > 0 && Kept(geo, image, active, table, names, keep)
    ensures Sorted(table)
  {
    hide PointsAt, Lists;
  }

  /** The sizes of what is skipped and of what is left. */
  lemma {:induction false} SkippedSize(geo: Geometry, change: Change, keep: map<Bytes, Bytes>, names: seq<Bytes>)
    requires geo.page > 0 && (!change.Nothing? ==> change.index < |names| && names[change.index] in keep)
    requires change.Replace? ==> names[change.index] == change.key
    ensures var skip := change.Skip(|names|);
            && skip <= |names|
            && LiveSize(geo, if skip < |names| then keep - {names[skip]} else keep) <= LiveSize(geo, keep)
    ensures change.Replace? ==>
              LiveSize(geo, change.Result(keep, names)) + PairSize(geo, change.key, keep[change.key])
              == LiveSize(geo, keep) + PairSize(geo, change.key, change.data)
  {
    hide LiveSize, PairSize;
    if !change.Nothing? {
      LiveSizeWithout(geo, keep, names[change.index]);
      if change.Replace? {
        LiveSizeWith(geo, keep, change.key, change.data);
      }
    }
  }

  lemma {:induction false} ReplacedContents(geo: Geometry, names: seq<Bytes>, keep: map<Bytes, Bytes>, skip: nat,
                                            data: Bytes)
    requires geo.page > 0 && Lists(names, keep) && skip < |names|
    ensures Contents(CopyLog(names, keep, skip, |names|) + [Record(false, names[skip], data)]) == keep[names[skip] :=
            data]
  {
    hide CopyLog, Contents, Lists;
    AllCopied(geo, names, keep, skip);
    OffsetsAfter(geo, CopyLog(names, keep, skip, |names|), Record(false, names[skip], data));
    assert (keep - {names[skip]})[names[skip] := data] == keep[names[skip] := data];
  }

  lemma {:induction false} RebuiltFrom(geo: Geometry, before: Bytes, image: Bytes, active: Area, table: seq<Entry>,
                                       names: seq<Bytes>,
                                       log: seq<Record>, result: map<Bytes, Bytes>)
    requires geo.page > 0
    requires Gathering(geo, before, image, active, log) && Indexes(table, names, Offsets(geo, log))
    requires Contents(log) == result && End(geo, log) == geo.First() + LiveSize(geo, result)
    ensures Rebuilt(geo, before, image, active, table, names, log, result)
  {
    hide Gathering, Indexes, Offsets, Contents, End, LiveSize, AlignUp;
  }

  lemma {:induction false} LogLonger(geo: Geometry, log: seq<Record>, r: Record)
    requires geo.page > 0
    ensures End(geo, log + [r]) == End(geo, log) + geo.RecordSize(r)
  {
    assert (log + [r])[..|log|] == log;
    hide AlignUp;
  }

  /** The steps of the injected write, and of the closing area record, are steps of the collection. */
  lemma {:induction false} AppendSteps(geo: Geometry, before: Bytes, image: Bytes, active: Area, log: seq<Record>,
                                       r: Record,
                                       a: seq<Bytes>, b: seq<Bytes>)
    requires geo.Valid() && Gathering(geo, before, image, active, log) && r.WellFormed()
    requires End(geo, log) + geo.RecordSize(r) <= geo.area
    requires Append(geo, image, active.Other(), log, r).Valid()
    requires Since(a, b, Append(geo, image, active.Other(), log, r).Partly())
    ensures Since(a, b, RewritingFrom(geo, before, active.Other()))
  {
    hide *;
    var job, other := Append(geo, image, active.Other(), log, r), geo.Base(active.Other());
    AppendParts(geo, image, active.Other(), log, r);
    var p := Within(image, other + End(geo, log), other + End(geo, log) + geo.RecordSize(r));
    forall img | job.Partly()(img)
      ensures p(img)
    {
      WrittenWithin(job, img);
    }
    SinceImplies(a, b, job.Partly(), p);
    GatheringParts(geo, before, image, active, log);
    RoundSteps(geo, before, image, active, log, End(geo, log), End(geo, log) + geo.RecordSize(r), a, b);
  }

  lemma {:induction false} RewritingSteps(geo: Geometry, before: Bytes, active: Area, version: nat, log: seq<Record>,
                                          a: seq<Bytes>, b: seq<Bytes>)
    requires geo.page > 0 && Since(a, b, RewritingFrom(geo, before, active.Other()))
    ensures Since(a, b, Collecting(geo, before, active, version, log))
  {
    hide RewritingFrom, Committed;
  }

  lemma {:induction false} OpeningSteps(geo: Geometry, before: Bytes, image: Bytes, active: Area, version: nat,
                                        log: seq<Record>,
                                        a: seq<Bytes>, b: seq<Bytes>)
    requires geo.Valid() && Gathering(geo, before, image, active, log)
    requires Opening(geo, image, active.Other(), NextVersion(version)).Valid()
    requires |Opening(geo, image, active.Other(), NextVersion(version)).full| == AREA_RAW_SIZE
    requires Since(a, b, Opening(geo, image, active.Other(), NextVersion(version)).Partly())
    ensures Since(a, b, Collecting(geo, before, active, version, log))
  {
    var job := Opening(geo, image, active.Other(), NextVersion(version));
    hide RewritingFrom, Committed, Opening, Gathering;
    var q := Collecting(geo, before, active, version, log);
    forall img | job.Partly()(img)
      ensures q(img)
    {
      SmallRecordInOneStep(job, img);
      GatherCommit(geo, before, image, img, active, version, log);
    }
    hide Since, Collecting;
    SinceImplies(a, b, job.Partly(), q);
  }

  // ----- Looking keys up -----

  /** A loaded store keeps exactly the pairs of its log. */
  lemma {:induction false} LoadedIsKept(geo: Geometry, image: Bytes, active: Area, table: seq<Entry>,
                                        names: seq<Bytes>, log: seq<Record>)
    requires geo.Valid() && LogAt(geo, image, geo.Base(active), log) && End(geo, log) <= geo.area
    requires Indexes(table, names, Offsets(geo, log))
    ensures Kept(geo, image, active, table, names, Contents(log))
  {
    hide LogAt, Holds, Hash, AlignUp, End, Contents, Offsets;
    SameKeys(geo, log);
    var places, keep := Offsets(geo, log), Contents(log);
    forall i | 0 <= i < |names|
      ensures names[i] in keep && PointsAt(geo, image, active, table[i], names[i], keep[names[i]])
    {
      assert names[i] in places;
      LiveRecordAt(geo, image, geo.Base(active), log, names[i]);
    }
  }

  /** Reading an entry while looking for `key`. */
  lemma {:induction false} EntryReads(geo: Geometry, image: Bytes, active: Area, table: seq<Entry>, names: seq<Bytes>,
                                      keep: map<Bytes, Bytes>, i: nat, key: Bytes, room: Option<nat>)
    requires geo.page > 0 && Kept(geo, image, active, table, names, keep) && i < |names|
    ensures var addr, r := geo.Base(active) + table[i].offset, Record(false, names[i], keep[names[i]]);
            && table[i].hash == Hash(names[i]) && r.WellFormed()
            && ReadStatus(image, addr, Some(key), room) ==
               (if room.Some? && room.value < |r.data| then BufferTooSmall
                else if key != names[i] then ItemNotFound
                else Success)
            && Inspect(image, addr) == Intact(HeaderOf(r), r.key, r.data) && HeaderOf(r).dataSize == |r.data|
            && addr + HEADER_SIZE <= |image| && DecodeHeader(image[addr..addr + HEADER_SIZE]) == HeaderOf(r)
  {
    hide *;
    var addr, r := geo.Base(active) + table[i].offset, Record(false, names[i], keep[names[i]]);
    KeptEntry(geo, image, active, table, names, keep, i);
    PointsAtParts(geo, image, active, table[i], names[i], keep[names[i]]);
    ReadWritten(image, addr, r, Some(key), room);
    InspectWritten(image, addr, r);
    HeaderFields(r);
    HeaderOnFlash(image, addr, r);
  }

  /** Hashes fall along the table, so a lookup can stop at the first smaller one. */
  lemma {:induction false} PassedAll(geo: Geometry, image: Bytes, active: Area, table: seq<Entry>, names: seq<Bytes>,
                                     keep: map<Bytes, Bytes>, at: nat, key: Bytes)
    requires geo.page > 0 && Kept(geo, image, active, table, names, keep) && at <= |table|
    requires forall i :: 0 <= i < at ==> table[i].hash >= Hash(key) && names[i] != key
    requires at < |table| ==> table[at].hash < Hash(key)
    ensures key !in keep && Slot(table, Hash(key), at)
  {
    hide Hash, Holds, Lists;
    KeptIsSorted(geo, image, active, table, names, keep);
    forall j | 0 <= j < |names|
      ensures names[j] != key
    {
      KeptEntry(geo, image, active, table, names, keep, j);
    }
    ListsOnly(names, keep, key);
  }

  lemma {:induction false} ListsOnly(names: seq<Bytes>, keep: map<Bytes, Bytes>, key: Bytes)
    requires Lists(names, keep) && forall j :: 0 <= j < |names| ==> names[j] != key
    ensures key !in keep
  {
  }
}
