/** The RAM table: hashes and offsets of the live records, by falling hash.

    Modelled code: nimble/host/kv_store/mtb_kvstore.c:422-460 (table updates),
    1069-1103 (the order a lookup relies on). */
module KvIndex {
  import opened Sequences
  import opened Crc16
  import opened LittleEndian
  import opened KvFormat

  datatype Entry = Entry(hash: nat, offset: nat)

  function Hash(key: Bytes): nat {
    Crc(key, CRC_INIT) as nat
  }

  ghost predicate Sorted(table: seq<Entry>) {
    forall i, j :: 0 <= i < j < |table| ==> table[i].hash >= table[j].hash
  }

  /** `names` lists the keys of `places`, each once, and the table gives each name's place. */
  ghost predicate Indexes(table: seq<Entry>, names: seq<Bytes>, places: map<Bytes, nat>) {
    Sorted(table) && NoRepeats(names) && Points(table, names, places) && Covers(names, places)
  }

  ghost predicate Points(table: seq<Entry>, names: seq<Bytes>, places: map<Bytes, nat>) {
    && |table| == |names|
    && forall i :: 0 <= i < |names| ==> names[i] in places && table[i] == Entry(Hash(names[i]), places[names[i]])
  }

  ghost predicate Covers(names: seq<Bytes>, places: map<Bytes, nat>) {
    forall key :: key in places ==> key in names
  }

  /** Where a lookup for an absent hash stops: after every entry with at least that hash. */
  ghost predicate Slot(table: seq<Entry>, hash: nat, at: nat) {
    && at <= |table|
    && (forall i :: 0 <= i < at ==> table[i].hash >= hash)
    && (forall i :: at <= i < |table| ==> table[i].hash < hash)
  }

  lemma {:induction false} AddSorted(table: seq<Entry>, hash: nat, at: nat, offset: nat)
    requires Sorted(table) && Slot(table, hash, at)
    ensures Sorted(Inserted(table, at, Entry(hash, offset)))
  {
    hide Inserted;
  }

  lemma {:induction false} AddPoints(table: seq<Entry>, names: seq<Bytes>, places: map<Bytes, nat>,
                                     key: Bytes, at: nat, offset: nat)
    requires Points(table, names, places) && key !in names && at <= |names|
    ensures Points(Inserted(table, at, Entry(Hash(key), offset)), Inserted(names, at, key), places[key := offset])
  {
    hide Hash, Inserted;
  }

  lemma {:induction false} AddCovers(names: seq<Bytes>, places: map<Bytes, nat>, key: Bytes, at: nat, offset: nat)
    requires Covers(names, places) && at <= |names|
    ensures Covers(Inserted(names, at, key), places[key := offset])
  {
    hide Inserted;
    var n := Inserted(names, at, key);
    forall k | k in places[key := offset]
      ensures k in n
    {
      if k == key {
        assert n[at] == k;
      } else {
        var i :| 0 <= i < |names| && names[i] == k;
        assert n[if i < at then i else i + 1] == k;
      }
    }
  }

  lemma {:induction false} AddIndexes(table: seq<Entry>, names: seq<Bytes>, places: map<Bytes, nat>,
                                      key: Bytes, at: nat, offset: nat)
    requires Indexes(table, names, places) && key !in places && Slot(table, Hash(key), at)
    ensures Indexes(Inserted(table, at, Entry(Hash(key), offset)), Inserted(names, at, key), places[key := offset])
  {
    assert |table| == |names| && key !in names;
    hide Hash, Inserted, Sorted, NoRepeats, Covers;
    AddSorted(table, Hash(key), at, offset);
    InsertedNoRepeats(names, at, key);
    AddPoints(table, names, places, key, at, offset);
    AddCovers(names, places, key, at, offset);
  }

  lemma {:induction false} UpdateIndexes(table: seq<Entry>, names: seq<Bytes>, places: map<Bytes, nat>, at: nat,
                                         offset: nat)
    requires Indexes(table, names, places) && at < |names|
    ensures Indexes(table[at := Entry(Hash(names[at]), offset)], names, places[names[at] := offset])
  {
    hide Hash;
  }

  lemma {:induction false} RemovePoints(table: seq<Entry>, names: seq<Bytes>, places: map<Bytes, nat>, at: nat)
    requires Points(table, names, places) && NoRepeats(names) && at < |names|
    ensures Points(Removed(table, at), Removed(names, at), places - {names[at]})
  {
    hide Hash, Removed;
    var n := Removed(names, at);
    forall i | 0 <= i < |n|
      ensures n[i] != names[at]
    {
      assert n[i] == names[if i < at then i else i + 1];
    }
  }

  lemma {:induction false} RemoveCovers(names: seq<Bytes>, places: map<Bytes, nat>, at: nat)
    requires Covers(names, places) && at < |names|
    ensures Covers(Removed(names, at), places - {names[at]})
  {
    hide Removed;
    var n := Removed(names, at);
    forall k | k in places - {names[at]}
      ensures k in n
    {
      var i :| 0 <= i < |names| && names[i] == k;
      assert n[if i < at then i else i - 1] == k;
    }
  }

  lemma {:induction false} RemoveIndexes(table: seq<Entry>, names: seq<Bytes>, places: map<Bytes, nat>, at: nat)
    requires Indexes(table, names, places) && at < |names|
    ensures Indexes(Removed(table, at), Removed(names, at), places - {names[at]})
  {
    assert |table| == |names|;
    RemovePoints(table, names, places, at);
    RemoveCovers(names, places, at);
    hide Hash, Points, Covers;
  }

  /** Two tables for the same places hold the same entries, whatever the order among equal hashes. */
  lemma {:induction false} SameEntries(table1: seq<Entry>, names1: seq<Bytes>, table2: seq<Entry>, names2: seq<Bytes>,
                                       places: map<Bytes, nat>)
    requires Indexes(table1, names1, places) && Indexes(table2, names2, places)
    ensures forall e :: e in table1 <==> e in table2
    ensures |table1| == |table2|
  {
    forall e
      ensures e in table1 <==> e in table2
    {
      if e in table1 {
        var i :| 0 <= i < |table1| && table1[i] == e;
        var j :| 0 <= j < |names2| && names2[j] == names1[i];
        assert table2[j] == e;
      }
      if e in table2 {
        var i :| 0 <= i < |table2| && table2[i] == e;
        var j :| 0 <= j < |names1| && names1[j] == names2[i];
        assert table1[j] == e;
      }
    }
    NoRepeatsCount(names1, places.Keys);
    NoRepeatsCount(names2, places.Keys);
  }
}
