/** Ordering by a numeric key, largest first: the store's
    `.order('created_at', { ascending: false })` and JavaScript's
    `entries.sort((a, b) => b[1] - a[1])`. Modelled as a stable insertion sort;
    which of two equal keys comes first is not part of what the callers rely on. */
module Sorting {
  import opened Seqs

  predicate SortedDesc<T>(s: seq<T>, key: T -> int) {
    forall i, j | 0 <= i < j < |s| :: key(s[i]) >= key(s[j])
  }

  /** Puts `x` in front of the first element whose key is not larger. */
  function Insert<T(==)>(x: T, s: seq<T>, key: T -> int): (r: seq<T>)
    requires SortedDesc(s, key)
    ensures multiset(r) == multiset(s) + multiset{x}
    ensures SortedDesc(r, key)
  {
    if s == [] || key(x) >= key(s[0]) then [x] + s
    else
      var rest := Insert(x, s[1..], key);
      InsertKeys(x, s, key, rest);
      assert s == [s[0]] + s[1..];
      [s[0]] + rest
  }

  /** The induction step of Insert: prepending the head of `s` keeps the order. */
  lemma InsertKeys<T>(x: T, s: seq<T>, key: T -> int, rest: seq<T>)
    requires SortedDesc(s, key) && s != [] && key(x) < key(s[0])
    requires multiset(rest) == multiset(s[1..]) + multiset{x}
    requires SortedDesc(rest, key)
    ensures SortedDesc([s[0]] + rest, key)
  {
    var r := [s[0]] + rest;
    forall j | 0 < j < |r| ensures key(r[0]) >= key(r[j]) {
      var y := r[j];
      assert y == rest[j - 1];
      assert y in multiset(rest);
      if y != x {
        assert y in multiset(s[1..]);
        var k :| 0 <= k < |s[1..]| && s[1..][k] == y;
        assert s[k + 1] == y;
      }
    }
  }

  /** The rows of `s` reordered so that their keys never increase. */
  function SortDesc<T(==)>(s: seq<T>, key: T -> int): (r: seq<T>)
    ensures multiset(r) == multiset(s)
    ensures SortedDesc(r, key)
  {
    if s == [] then []
    else
      assert s == [s[0]] + s[1..];
      Insert(s[0], SortDesc(s[1..], key), key)
  }

  /** Sorting keeps the length and exactly the same elements. */
  lemma SortDescMembers<T>(s: seq<T>, key: T -> int)
    ensures |SortDesc(s, key)| == |s|
    ensures forall x :: x in SortDesc(s, key) <==> x in s
  {
    var r := SortDesc(s, key);
    assert |multiset(r)| == |multiset(s)|;
    forall x ensures x in r <==> x in s {
      assert x in r <==> x in multiset(r);
      assert x in s <==> x in multiset(s);
    }
  }

  /** A sequence without repeated elements is still without them after sorting. */
  lemma SortDescNoDuplicates<T>(s: seq<T>, key: T -> int)
    requires NoDuplicates(s)
    ensures NoDuplicates(SortDesc(s, key))
  {
    MultiplicityAtMostOne(s);
    SingleMultiplicityNoDuplicates(SortDesc(s, key));
  }

  lemma {:induction false} MultiplicityAtMostOne<T>(s: seq<T>)
    requires NoDuplicates(s)
    ensures forall x :: multiset(s)[x] <= 1
  {
    if s != [] {
      assert s == [s[0]] + s[1..];
      assert NoDuplicates(s[1..]) by {
        forall i, j | 0 <= i < j < |s[1..]| ensures s[1..][i] != s[1..][j] {
          assert s[1..][i] == s[i + 1] && s[1..][j] == s[j + 1];
        }
      }
      MultiplicityAtMostOne(s[1..]);
      forall k | 0 <= k < |s[1..]| ensures s[1..][k] != s[0] {
        assert s[1..][k] == s[k + 1];
      }
      assert multiset(s[1..])[s[0]] == 0;
      assert multiset(s) == multiset{s[0]} + multiset(s[1..]);
    }
  }

  lemma {:induction false} SingleMultiplicityNoDuplicates<T>(s: seq<T>)
    requires forall x :: multiset(s)[x] <= 1
    ensures NoDuplicates(s)
  {
    if s != [] {
      assert s == [s[0]] + s[1..];
      assert multiset(s) == multiset{s[0]} + multiset(s[1..]);
      assert forall x :: multiset(s[1..])[x] <= 1 by {
        forall x ensures multiset(s[1..])[x] <= 1 {
          assert multiset(s)[x] >= multiset(s[1..])[x];
        }
      }
      SingleMultiplicityNoDuplicates(s[1..]);
      assert multiset(s)[s[0]] == 1 + multiset(s[1..])[s[0]];
      forall i, j | 0 <= i < j < |s| ensures s[i] != s[j] {
        assert s[j] == s[1..][j - 1];
        assert s[j] in multiset(s[1..]);
        if 0 < i {
          assert s[i] == s[1..][i - 1];
        }
      }
    }
  }
}
