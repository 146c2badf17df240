/** Optional values, and sequences used as lists and queues. */
module Sequences {
  datatype Option<T> = None | Some(value: T)

  ghost predicate NoRepeats<T>(s: seq<T>) {
    forall i, j :: 0 <= i < j < |s| ==> s[i] != s[j]
  }

  function Inserted<T>(s: seq<T>, at: nat, x: T): (r: seq<T>)
    requires at <= |s|
    ensures |r| == |s| + 1 && r[at] == x
    ensures forall i :: 0 <= i < at ==> r[i] == s[i]
    ensures forall i :: at < i < |r| ==> r[i] == s[i - 1]
  {
    s[..at] + [x] + s[at..]
  }

  function Removed<T>(s: seq<T>, at: nat): (r: seq<T>)
    requires at < |s|
    ensures |r| == |s| - 1
    ensures forall i :: 0 <= i < at ==> r[i] == s[i]
    ensures forall i :: at <= i < |r| ==> r[i] == s[i + 1]
  {
    s[..at] + s[at + 1..]
  }

  /** `s` with every `x` left out. */
  function Without<T(==, !new)>(s: seq<T>, x: T): (r: seq<T>)
    ensures forall y :: y in r <==> y in s && y != x
  {
    if s == [] then [] else if s[0] == x then Without(s[1..], x) else [s[0]] + Without(s[1..], x)
  }

  lemma {:induction false} InsertedMembers<T>(s: seq<T>, at: nat, x: T)
    requires at <= |s|
    ensures forall y :: y in Inserted(s, at, x) <==> y in s || y == x
  {
    assert s == s[..at] + s[at..];
  }

  lemma {:induction false} InsertedNoRepeats<T>(s: seq<T>, at: nat, x: T)
    requires NoRepeats(s) && x !in s && at <= |s|
    ensures NoRepeats(Inserted(s, at, x))
  {
    hide Inserted;
  }

  lemma {:induction false} FirstRemoved<T>(s: seq<T>)
    requires NoRepeats(s) && s != []
    ensures NoRepeats(s[1..]) && forall y :: y in s[1..] <==> y in s && y != s[0]
  {
    assert s == [s[0]] + s[1..];
  }

  lemma {:induction false} WithoutNoRepeats<T(!new)>(s: seq<T>, x: T)
    requires NoRepeats(s)
    ensures NoRepeats(Without(s, x))
  {
    if s != [] {
      FirstRemoved(s);
      WithoutNoRepeats(s[1..], x);
      var r := Without(s[1..], x);
      forall j | 0 <= j < |r|
        ensures r[j] != s[0]
      {
        assert r[j] in r;
      }
    }
  }

  lemma {:induction false} NoRepeatsIsShort<T>(s: seq<T>, all: set<T>)
    requires NoRepeats(s) && forall x :: x in s ==> x in all
    ensures |s| <= |all|
  {
    if s != [] {
      FirstRemoved(s);
      NoRepeatsIsShort(s[1..], all - {s[0]});
    }
  }

  /** A list without repeats that covers a set is as long as the set is large. */
  lemma {:induction false} NoRepeatsCount<T>(s: seq<T>, all: set<T>)
    requires NoRepeats(s) && forall x :: x in all <==> x in s
    ensures |s| == |all|
  {
    if s != [] {
      FirstRemoved(s);
      NoRepeatsCount(s[1..], all - {s[0]});
    } else {
      assert all == {};
    }
  }

  lemma {:induction false} FirstIsMember<T>(s: seq<T>)
    ensures s == [] || s[0] in s
  {
  }
}
