/** Facts about sequences and finite sets that several modules share. */
module Sequences {

  predicate NoDup<T(==)>(s: seq<T>) {
    s == [] || (s[0] !in s[1..] && NoDup(s[1..]))
  }

  lemma {:induction false} NoDupPairwise<T>(s: seq<T>)
    ensures NoDup(s) <==> forall i, j :: 0 <= i < j < |s| ==> s[i] != s[j]
  {
    if s == [] {
    } else {
      var rest := s[1..];
      NoDupPairwise(rest);
      if NoDup(s) {
        forall i, j | 0 <= i < j < |s|
          ensures s[i] != s[j]
        {
          assert s[j] == rest[j - 1];
          if i > 0 { assert s[i] == rest[i - 1]; }
        }
      }
      if forall i, j :: 0 <= i < j < |s| ==> s[i] != s[j] {
        assert forall j :: 0 <= j < |rest| ==> rest[j] == s[j + 1] && s[0] != s[j + 1];
      }
    }
  }

  lemma {:induction false} NoDupAppend<T>(s: seq<T>, x: T)
    requires NoDup(s) && x !in s
    ensures NoDup(s + [x])
  {
    if s == [] {
    } else {
      NoDupAppend(s[1..], x);
      assert (s + [x])[1..] == s[1..] + [x];
    }
  }

  lemma {:induction false} NoDupSuffix<T>(s: seq<T>, n: nat)
    requires NoDup(s) && n <= |s|
    ensures NoDup(s[n..])
  {
    if n == 0 {
      assert s[0..] == s;
    } else {
      NoDupSuffix(s[1..], n - 1);
      assert s[1..][n - 1..] == s[n..];
    }
  }

  function Elements<T>(s: seq<T>): set<T> {
    set x | x in s
  }

  /** The items of `s` outside `gone`, in their order. */
  function Without<T(==)>(s: seq<T>, gone: set<T>): seq<T> {
    if s == [] then []
    else if s[0] in gone then Without(s[1..], gone)
    else [s[0]] + Without(s[1..], gone)
  }

  lemma {:induction false} WithoutElements<T>(s: seq<T>, gone: set<T>)
    ensures forall x :: x in Without(s, gone) <==> x in s && x !in gone
    ensures |Without(s, gone)| <= |s|
  {
    if s == [] {
    } else {
      WithoutElements(s[1..], gone);
      assert s == [s[0]] + s[1..];
    }
  }

  lemma {:induction false} WithoutNoDup<T>(s: seq<T>, gone: set<T>)
    requires NoDup(s)
    ensures NoDup(Without(s, gone))
  {
    if s == [] {
    } else {
      WithoutNoDup(s[1..], gone);
      WithoutElements(s[1..], gone);
    }
  }

  lemma {:induction false} WithoutNothing<T>(s: seq<T>, gone: set<T>)
    requires forall x :: x in s ==> x !in gone
    ensures Without(s, gone) == s
  {
    if s == [] {
    } else {
      assert s[0] in s;
      WithoutNothing(s[1..], gone);
      assert s == [s[0]] + s[1..];
    }
  }

  /** Removing one present item of a duplicate-free sequence shortens it by one. */
  lemma {:induction false} WithoutOne<T>(s: seq<T>, x: T)
    requires NoDup(s) && x in s
    ensures |Without(s, {x})| == |s| - 1
  {
    if s[0] == x {
      WithoutNothing(s[1..], {x});
    } else {
      assert x in s[1..] by { assert s == [s[0]] + s[1..]; }
      WithoutOne(s[1..], x);
    }
  }

  lemma {:induction false} NoDupSize<T>(s: seq<T>)
    requires NoDup(s)
    ensures |Elements(s)| == |s|
  {
    if s == [] {
    } else {
      NoDupSize(s[1..]);
      assert s == [s[0]] + s[1..];
      assert Elements(s) == {s[0]} + Elements(s[1..]);
    }
  }

  lemma SubsetSizes<T>(a: set<T>, b: set<T>)
    requires a <= b
    ensures |a| <= |b| && (|a| == |b| ==> a == b)
  {
    if a != b {
      assert b == a + (b - a) && |b - a| > 0;
    }
  }

  /** The concatenation of a sequence of sequences. */
  function Flatten<T>(parts: seq<seq<T>>): seq<T> {
    if parts == [] then [] else Flatten(parts[..|parts| - 1]) + parts[|parts| - 1]
  }

  lemma FlattenAppend<T>(parts: seq<seq<T>>, last: seq<T>)
    ensures Flatten(parts + [last]) == Flatten(parts) + last
  {
    assert (parts + [last])[..|parts|] == parts;
  }

  predicate OccursAt(s: string, d: string, i: nat) {
    i + |d| <= |s| && s[i..i + |d|] == d
  }
}
