/** What garbage collection leaves in the new area, stated on values.

    Modelled code: nimble/host/kv_store/mtb_kvstore.c:1173-1277. */
module KvCompact {
  import opened Sequences
  import opened Arith
  import opened LittleEndian
  import opened KvFormat
  import opened KvLog
  import opened KvReplay
  import opened KvLive
  import opened KvIndex

  /** The records copied for the first `n` names, leaving out the one at `skip`. */
  ghost function CopyLog(names: seq<Bytes>, keep: map<Bytes, Bytes>, skip: nat, n: nat): seq<Record>
    requires n <= |names| && forall i :: 0 <= i < |names| ==> names[i] in keep
  {
    if n == 0 then []
    else if n - 1 == skip then CopyLog(names, keep, skip, n - 1)
    else CopyLog(names, keep, skip, n - 1) + [Record(false, names[n - 1], keep[names[n - 1]])]
  }

  /** `names` lists the keys of `keep`. */
  ghost predicate Lists(names: seq<Bytes>, keep: map<Bytes, Bytes>)
    ensures Lists(names, keep) ==> forall i :: 0 <= i < |names| ==> names[i] in keep
  {
    NoRepeats(names) && (forall i :: 0 <= i < |names| ==> names[i] in keep) && (forall k :: k in keep ==> k in names)
  }

  lemma {:induction false} CopyLogKeys(names: seq<Bytes>, keep: map<Bytes, Bytes>, skip: nat, n: nat, i: nat)
    requires Lists(names, keep) && n <= |names| && i < |CopyLog(names, keep, skip, n)|
    ensures var r := CopyLog(names, keep, skip, n)[i];
            !r.deleted && exists j :: 0 <= j < n && j != skip && names[j] == r.key
  {
    if n - 1 != skip && i == |CopyLog(names, keep, skip, n)| - 1 {
      assert names[n - 1] == CopyLog(names, keep, skip, n)[i].key;
    } else {
      CopyLogKeys(names, keep, skip, n - 1, i);
    }
  }

  lemma {:induction false} CopyLogOnce(names: seq<Bytes>, keep: map<Bytes, Bytes>, skip: nat, n: nat)
    requires Lists(names, keep) && n <= |names|
    ensures WritesOnce(CopyLog(names, keep, skip, n))
  {
    if n > 0 {
      CopyLogOnce(names, keep, skip, n - 1);
      if n - 1 != skip {
        var before := CopyLog(names, keep, skip, n - 1);
        forall i | 0 <= i < |before|
          ensures before[i].key != names[n - 1]
        {
          CopyLogKeys(names, keep, skip, n - 1, i);
        }
      }
    }
  }

  /** Whether `k` is one of the first `n` names and not the one at `skip`. */
  ghost predicate Among(names: seq<Bytes>, skip: nat, n: nat, k: Bytes)
    requires n <= |names|
  {
    exists j :: 0 <= j < n && j != skip && names[j] == k
  }

  lemma {:induction false} AmongMore(names: seq<Bytes>, skip: nat, n: nat, k: Bytes)
    requires 0 < n <= |names|
    ensures Among(names, skip, n, k) <==> Among(names, skip, n - 1, k) || (n - 1 != skip && names[n - 1] == k)
  {
  }

  lemma {:induction false} AddedLast(log: seq<Record>, key: Bytes, data: Bytes)
    ensures Contents(log + [Record(false, key, data)]) == Contents(log)[key := data]
  {
    assert (log + [Record(false, key, data)])[..|log|] == log;
  }

  /** The copied records leave exactly the kept pairs. */
  lemma {:induction false} CopyLogContents(names: seq<Bytes>, keep: map<Bytes, Bytes>, skip: nat, n: nat)
    requires Lists(names, keep) && n <= |names|
    ensures forall k :: k in Contents(CopyLog(names, keep, skip, n)) <==> Among(names, skip, n, k)
    ensures forall k :: k in Contents(CopyLog(names, keep, skip, n)) ==>
            k in keep && Contents(CopyLog(names, keep, skip, n))[k] == keep[k]
  {
    if n > 0 {
      CopyLogContents(names, keep, skip, n - 1);
      if n - 1 != skip {
        AddedLast(CopyLog(names, keep, skip, n - 1), names[n - 1], keep[names[n - 1]]);
      }
      hide Contents, Among;
      forall k
        ensures Among(names, skip, n, k) <==> Among(names, skip, n - 1, k) || (n - 1 != skip && names[n - 1] == k)
      {
        AmongMore(names, skip, n, k);
      }
    }
  }

  lemma {:induction false} CopiedAll(names: seq<Bytes>, keep: map<Bytes, Bytes>, skip: nat)
    requires Lists(names, keep) && skip <= |names|
    ensures Contents(CopyLog(names, keep, skip, |names|)) == if skip < |names| then keep - {names[skip]} else keep
  {
    hide Contents, CopyLog;
    CopyLogContents(names, keep, skip, |names|);
    var all, kept := Contents(CopyLog(names, keep, skip, |names|)),
        if skip < |names| then keep - {names[skip]} else keep;
    forall k
      ensures k in all <==> k in kept
    {
      if k in kept {
        var j :| 0 <= j < |names| && names[j] == k;
        assert j != skip;
      }
    }
  }

  lemma {:induction false} CopyLogPrefix(names: seq<Bytes>, keep: map<Bytes, Bytes>, skip: nat, i: nat, n: nat)
    requires Lists(names, keep) && i <= n <= |names|
    ensures |CopyLog(names, keep, skip, i)| <= |CopyLog(names, keep, skip, n)|
    ensures CopyLog(names, keep, skip, n)[..|CopyLog(names, keep, skip, i)|] == CopyLog(names, keep, skip, i)
  {
    if i < n {
      CopyLogPrefix(names, keep, skip, i, n - 1);
    }
  }

  lemma {:induction false} PrefixEnd(geo: Geometry, log: seq<Record>, i: nat)
    requires geo.page > 0 && i <= |log|
    ensures End(geo, log[..i]) <= End(geo, log)
  {
    if i < |log| {
      EndOfPrefix(geo, log, i);
      hide End;
    } else {
      assert log[..i] == log;
    }
  }

  /** The next copy fits, because everything kept fits. */
  lemma {:induction false} CopyFits(geo: Geometry, names: seq<Bytes>, keep: map<Bytes, Bytes>, skip: nat, i: nat)
    requires geo.page > 0 && Lists(names, keep) && i < |names| && i != skip && skip <= |names|
    ensures var r := Record(false, names[i], keep[names[i]]);
            && CopyLog(names, keep, skip, i + 1) == CopyLog(names, keep, skip, i) + [r]
            && End(geo, CopyLog(names, keep, skip, i)) + geo.RecordSize(r) == End(geo,
                CopyLog(names, keep, skip, i + 1))
            && End(geo, CopyLog(names, keep, skip, i + 1))
               <= geo.First() + LiveSize(geo, if skip < |names| then keep - {names[skip]} else keep)
  {
    hide AlignUp, Contents, LiveSize;
    var all := CopyLog(names, keep, skip, |names|);
    CopyLogOnce(names, keep, skip, |names|);
    AllLive(geo, all);
    CopiedAll(names, keep, skip);
    CopyLogPrefix(names, keep, skip, i + 1, |names|);
    PrefixEnd(geo, all, |CopyLog(names, keep, skip, i + 1)|);
    var before, r := CopyLog(names, keep, skip, i), Record(false, names[i], keep[names[i]]);
    assert (before + [r])[..|before|] == before;
  }

  /** Where the copies lie. */
  lemma {:induction false} CopyPlaces(geo: Geometry, names: seq<Bytes>, keep: map<Bytes, Bytes>, skip: nat, j: nat)
    requires geo.page > 0 && Lists(names, keep) && skip <= |names| && j < |names| && j != skip
    ensures var all := CopyLog(names, keep, skip, |names|);
            && names[j] in Offsets(geo, all)
            && Offsets(geo, all)[names[j]] == End(geo, CopyLog(names, keep, skip, j))
  {
    hide AlignUp, Offsets, End, Contents;
    var all, i := CopyLog(names, keep, skip, |names|), |CopyLog(names, keep, skip, j)|;
    CopyLogOnce(names, keep, skip, |names|);
    CopyLogPrefix(names, keep, skip, j, |names|);
    CopyLogPrefix(names, keep, skip, j + 1, |names|);
    assert CopyLog(names, keep, skip, j + 1) == CopyLog(names, keep, skip,
                                                        j) + [Record(false, names[j], keep[names[j]])];
    assert all[i] == all[..i + 1][i] == Record(false, names[j], keep[names[j]]);
    OnceWritten(geo, all, i);
  }

  /** The table while copying: the first `n` entries point to the copies, the rest to the originals. */
  ghost predicate Moving(geo: Geometry, names: seq<Bytes>, keep: map<Bytes, Bytes>, skip: nat,
                         original: seq<Entry>, table: seq<Entry>, n: nat)
    requires geo.page > 0
  {
    && Lists(names, keep) && |table| == |original| == |names| && n <= |names|
    && (forall i :: 0 <= i < |names| ==> original[i].hash == Hash(names[i]))
    && (forall i :: 0 <= i < |names| && (i >= n || i == skip) ==> table[i] == original[i])
    && (forall i :: 0 <= i < n && i != skip ==>
        table[i] == Entry(Hash(names[i]), End(geo, CopyLog(names, keep, skip, i))))
  }

  /** After a plain collection the table indexes the new area. */
  lemma {:induction false} MovedAll(geo: Geometry, names: seq<Bytes>, keep: map<Bytes, Bytes>, original: seq<Entry>,
                                    table: seq<Entry>)
    requires geo.page > 0 && Sorted(original) && Moving(geo, names, keep, |names|, original, table, |names|)
    ensures Indexes(table, names, Offsets(geo, CopyLog(names, keep, |names|, |names|)))
  {
    hide Hash, End, Offsets, Contents, CopyLog;
    var all := CopyLog(names, keep, |names|, |names|);
    forall j | 0 <= j < |names|
      ensures names[j] in Offsets(geo, all) && table[j] == Entry(Hash(names[j]), Offsets(geo, all)[names[j]])
    {
      CopyPlaces(geo, names, keep, |names|, j);
    }
    SameKeys(geo, all);
    CopiedAll(names, keep, |names|);
  }

  lemma {:induction false} MovedSorted(geo: Geometry, names: seq<Bytes>, keep: map<Bytes, Bytes>, skip: nat,
                                       original: seq<Entry>, table: seq<Entry>)
    requires geo.page > 0 && Sorted(original) && Moving(geo, names, keep, skip, original, table, |names|)
    ensures Sorted(table)
  {
    hide Hash, End, CopyLog;
    assert forall i :: 0 <= i < |names| ==> table[i].hash == original[i].hash;
  }

  /** Leaving one key out and writing it anew at the end, the table indexes the new area. */
  lemma {:induction false} MovedAndUpdated(geo: Geometry, names: seq<Bytes>, keep: map<Bytes, Bytes>, skip: nat,
                                           original: seq<Entry>, table: seq<Entry>, data: Bytes)
    requires geo.page > 0 && Sorted(original) && skip < |names|
             && Moving(geo, names, keep, skip, original, table, |names|)
    ensures var all := CopyLog(names, keep, skip, |names|);
            Indexes(table[skip := Entry(Hash(names[skip]), End(geo, all))], names,
                    Offsets(geo, all + [Record(false, names[skip], data)]))
  {
    hide Hash, End, Contents, CopyLog;
    var all := CopyLog(names, keep, skip, |names|);
    OffsetsAfter(geo, all, Record(false, names[skip], data));
    hide Offsets;
    SameKeys(geo, all);
    CopiedAll(names, keep, skip);
    var places := Offsets(geo, all)[names[skip] := End(geo, all)];
    var t := table[skip := Entry(Hash(names[skip]), End(geo, all))];
    assert Sorted(t) by {
      MovedSorted(geo, names, keep, skip, original, table);
      assert table[skip].hash == Hash(names[skip]);
    }
    assert Points(t, names, places) by {
      forall i | 0 <= i < |names|
        ensures names[i] in places && t[i] == Entry(Hash(names[i]), places[names[i]])
      {
        if i != skip {
          CopyPlaces(geo, names, keep, skip, i);
        }
      }
    }
  }

  /** Leaving one key out and dropping its entry, the table indexes the new area. */
  lemma {:induction false} MovedWithout(geo: Geometry, names: seq<Bytes>, keep: map<Bytes, Bytes>, skip: nat,
                                        original: seq<Entry>, table: seq<Entry>)
    requires geo.page > 0 && Sorted(original) && skip < |names|
             && Moving(geo, names, keep, skip, original, table, |names|)
    ensures Indexes(Removed(table, skip), Removed(names, skip), Offsets(geo, CopyLog(names, keep, skip, |names|)))
  {
    hide Hash, End, Contents, CopyLog, Indexes, Moving;
    MovingLengths(geo, names, keep, skip, original, table);
    var all, key := CopyLog(names, keep, skip, |names|), names[skip];
    var entry := Entry(Hash(key), End(geo, all));
    var places := Offsets(geo, all);
    MovedAndUpdated(geo, names, keep, skip, original, table, []);
    OffsetsAfter(geo, all, Record(false, key, []));
    RemoveIndexes(table[skip := entry], names, places[key := End(geo, all)], skip);
    assert Removed(table[skip := entry], skip) == Removed(table, skip);
    hide Offsets;
    SameKeys(geo, all);
    CopiedAll(names, keep, skip);
    assert places[key := End(geo, all)] - {key} == places;
  }

  lemma {:induction false} MovingLengths(geo: Geometry, names: seq<Bytes>, keep: map<Bytes, Bytes>, skip: nat,
                                         original: seq<Entry>, table: seq<Entry>)
    requires geo.page > 0 && Moving(geo, names, keep, skip, original, table, |names|)
    ensures Lists(names, keep) && |table| == |original| == |names|
  {
  }
}
