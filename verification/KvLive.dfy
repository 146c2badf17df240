/** The live part of a log: which records still matter, where they lie and how much room they
    take. Modelled code: nimble/host/kv_store/mtb_kvstore.c:466-487, 1352-1405, 1568-1592. */
module KvLive {
  import opened Arith
  import opened LittleEndian
  import opened KvFormat
  import opened KvLog
  import opened KvReplay

  /** The room a key and its value take in an area. */
  function PairSize(geo: Geometry, key: Bytes, data: Bytes): nat
    requires geo.page > 0
  {
    geo.RecordSize(Record(false, key, data))
  }

  /** The room all pairs of a map take. */
  ghost function LiveSize(geo: Geometry, view: map<Bytes, Bytes>): nat
    requires geo.page > 0
  {
    if view == map[] then 0
    else
      var key :| key in view;
      PairSize(geo, key, view[key]) + LiveSize(geo, view - {key})
  }

  /** Any pair may be counted first. */
  lemma {:induction false} LiveSizeWithout(geo: Geometry, view: map<Bytes, Bytes>, key: Bytes)
    requires geo.page > 0 && key in view
    ensures LiveSize(geo, view) == PairSize(geo, key, view[key]) + LiveSize(geo, view - {key})
    decreases view
  {
    hide PairSize;
    var first :| first in view
        && LiveSize(geo, view) == PairSize(geo, first, view[first]) + LiveSize(geo, view - {first});
    if first != key {
      LiveSizeWithout(geo, view - {first}, key);
      LiveSizeWithout(geo, view - {key}, first);
      assert view - {first} - {key} == view - {key} - {first};
    }
  }

  lemma {:induction false} LiveSizeWith(geo: Geometry, view: map<Bytes, Bytes>, key: Bytes, data: Bytes)
    requires geo.page > 0
    ensures LiveSize(geo, view[key := data]) == PairSize(geo, key, data) + LiveSize(geo, view - {key})
  {
    LiveSizeWithout(geo, view[key := data], key);
    assert view[key := data] - {key} == view - {key};
  }

  lemma {:induction false} NothingToRemove(view: map<Bytes, Bytes>, key: Bytes)
    requires key !in view
    ensures view - {key} == view
  {
  }

  /** Live records never take more room than the log. */
  lemma {:induction false} LiveFits(geo: Geometry, log: seq<Record>)
    requires geo.page > 0
    ensures geo.First() + LiveSize(geo, Contents(log)) <= End(geo, log)
  {
    hide AlignUp;
    if log != [] {
      var before, last := log[..|log| - 1], log[|log| - 1];
      var view := Contents(before);
      LiveFits(geo, before);
      if last.key in view {
        LiveSizeWithout(geo, view, last.key);
      } else {
        NothingToRemove(view, last.key);
      }
      if !last.deleted {
        LiveSizeWith(geo, view, last.key, last.data);
        assert last == Record(false, last.key, last.data);
      }
    }
  }

  /** A log in which every record stores a key of its own. */
  ghost predicate WritesOnce(log: seq<Record>) {
    && (forall i :: 0 <= i < |log| ==> !log[i].deleted)
    && (forall i, j :: 0 <= i < j < |log| ==> log[i].key != log[j].key)
  }

  lemma {:induction false} OnlyItsKeys(log: seq<Record>, key: Bytes)
    requires key in Contents(log)
    ensures exists i :: 0 <= i < |log| && log[i].key == key
  {
    var before, last := log[..|log| - 1], log[|log| - 1];
    if last.key != key {
      OnlyItsKeys(before, key);
      var i :| 0 <= i < |before| && before[i].key == key;
      assert log[i].key == key;
    }
  }

  lemma {:induction false} LastKeyIsNew(log: seq<Record>)
    requires log != [] && WritesOnce(log)
    ensures WritesOnce(log[..|log| - 1])
    ensures !log[|log| - 1].deleted && log[|log| - 1].key !in Contents(log[..|log| - 1])
  {
    if log[|log| - 1].key in Contents(log[..|log| - 1]) {
      OnlyItsKeys(log[..|log| - 1], log[|log| - 1].key);
    }
  }

  /** Such a log is all live. */
  lemma {:induction false} AllLive(geo: Geometry, log: seq<Record>)
    requires geo.page > 0 && WritesOnce(log)
    ensures geo.First() + LiveSize(geo, Contents(log)) == End(geo, log)
  {
    hide AlignUp, WritesOnce;
    if log != [] {
      var before, last := log[..|log| - 1], log[|log| - 1];
      LastKeyIsNew(log);
      AllLive(geo, before);
      LiveSizeWith(geo, Contents(before), last.key, last.data);
      NothingToRemove(Contents(before), last.key);
      assert last == Record(false, last.key, last.data);
    }
  }

  /** The i-th key of such a log keeps the i-th value and lies at the end of the first i records. */
  lemma {:induction false} OnceWritten(geo: Geometry, log: seq<Record>, i: nat)
    requires geo.page > 0 && WritesOnce(log) && i < |log|
    ensures log[i].key in Contents(log) && Contents(log)[log[i].key] == log[i].data
    ensures log[i].key in Offsets(geo, log) && Offsets(geo, log)[log[i].key] == End(geo, log[..i])
    decreases |log|
  {
    hide AlignUp;
    var before := log[..|log| - 1];
    if i + 1 < |log| {
      OnceWritten(geo, before, i);
      assert before[i] == log[i] && before[..i] == log[..i];
      assert log[i].key != log[|log| - 1].key;
    }
  }

  // ----- Where live records lie -----

  lemma {:induction false} SameKeys(geo: Geometry, log: seq<Record>)
    requires geo.page > 0
    ensures Offsets(geo, log).Keys == Contents(log).Keys
  {
    if log != [] {
      SameKeys(geo, log[..|log| - 1]);
    }
  }

  /** The record behind a live key. */
  lemma {:induction false} LiveRecord(geo: Geometry, log: seq<Record>, key: Bytes) returns (i: nat)
    requires geo.page > 0 && key in Contents(log)
    ensures i < |log| && log[i] == Record(false, key, Contents(log)[key])
    ensures key in Offsets(geo, log) && Offsets(geo, log)[key] == End(geo, log[..i])
  {
    var before, last := log[..|log| - 1], log[|log| - 1];
    if last.key == key {
      i := |log| - 1;
    } else {
      i := LiveRecord(geo, before, key);
      assert before[..i] == log[..i];
    }
  }

  lemma {:induction false} LiveRecordAt(geo: Geometry, image: Bytes, base: nat, log: seq<Record>, key: Bytes)
    requires geo.Valid() && LogAt(geo, image, base, log) && key in Contents(log)
    ensures key in Offsets(geo, log)
    ensures var offset, r := Offsets(geo, log)[key], Record(false, key, Contents(log)[key]);
            && Holds(image, base + offset, r) && r.WellFormed()
            && geo.First() <= offset && offset + geo.RecordSize(r) <= End(geo, log)
            && offset % geo.page == 0
  {
    hide Holds, LogAt;
    var i := LiveRecord(geo, log, key);
    RecordOfLog(geo, image, base, log, i);
    EndOfPrefix(geo, log, i);
    EndIsAligned(geo, log[..i]);
    RecordIsWellFormed(image, base + End(geo, log[..i]), log[i]);
  }

  /** Offsets of different keys differ: a live offset names its key. */
  lemma {:induction false} OffsetsAfter(geo: Geometry, log: seq<Record>, r: Record)
    requires geo.page > 0
    ensures Offsets(geo, log + [r]) == if r.deleted then Offsets(geo, log) - {r.key}
                                       else Offsets(geo, log)[r.key := End(geo, log)]
    ensures Contents(log + [r]) == Apply(Contents(log), r)
  {
    assert (log + [r])[..|log|] == log;
  }
}
