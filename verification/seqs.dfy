/** Sequence operations the wrappers use through JavaScript's array methods
    (`filter`, `indexOf`, `includes`, `find`) and through the store's
    `select ... where` / `update ... where` / `delete ... where`. */
module Seqs {
  import opened Results

  predicate NoDuplicates<T(==)>(s: seq<T>) {
    forall i, j | 0 <= i < j < |s| :: s[i] != s[j]
  }

  /** A sequence without duplicates drawn from `S` is no longer than `S` is large. */
  lemma {:induction false} DistinctWithin<T>(s: seq<T>, S: set<T>)
    requires NoDuplicates(s)
    requires forall x | x in s :: x in S
    ensures |s| <= |S|
    decreases |s|
  {
    if s != [] {
      var rest := s[1..];
      forall x | x in rest ensures x in S - {s[0]} {
        var j :| 0 <= j < |rest| && rest[j] == x;
        assert s[j + 1] == x;
      }
      DistinctWithin(rest, S - {s[0]});
    }
  }

  /** No two rows of `s` share a key (a primary key of a table). */
  predicate UniqueKeys<T, K(==)>(s: seq<T>, key: T -> K) {
    forall i, j | 0 <= i < j < |s| :: key(s[i]) != key(s[j])
  }

  /** Number of occurrences of `x` in `s`. */
  function Count<T(==)>(s: seq<T>, x: T): (n: nat)
    ensures n <= |s|
    ensures n == 0 <==> x !in s
  {
    if s == [] then 0 else (if s[0] == x then 1 else 0) + Count(s[1..], x)
  }

  lemma {:induction false} CountAppend<T>(a: seq<T>, b: seq<T>, x: T)
    ensures Count(a + b, x) == Count(a, x) + Count(b, x)
  {
    if a == [] {
      assert a + b == b;
    } else {
      assert (a + b)[1..] == a[1..] + b;
      CountAppend(a[1..], b, x);
    }
  }

  /** `a` is `b` with some elements left out, the rest in their original order. */
  predicate IsSubsequence<T(==)>(a: seq<T>, b: seq<T>)
    decreases |b|
  {
    a == [] ||
    (b != [] && ((a[0] == b[0] && IsSubsequence(a[1..], b[1..])) || IsSubsequence(a, b[1..])))
  }

  lemma {:induction false} SubsequenceMembers<T>(a: seq<T>, b: seq<T>)
    requires IsSubsequence(a, b)
    ensures forall x | x in a :: x in b
    decreases |b|
  {
    if a != [] {
      if a[0] == b[0] && IsSubsequence(a[1..], b[1..]) {
        SubsequenceMembers(a[1..], b[1..]);
        forall x | x in a ensures x in b {
          if x != a[0] { assert x in a[1..]; }
        }
      } else {
        SubsequenceMembers(a, b[1..]);
      }
    }
  }

  /** A sequence is a subsequence of itself. */
  lemma {:induction false} SubsequenceRefl<T>(s: seq<T>)
    ensures IsSubsequence(s, s)
    decreases |s|
  {
    if s != [] {
      SubsequenceRefl(s[1..]);
    }
  }

  /** Leaving elements out twice is leaving elements out once. */
  lemma {:induction false} SubsequenceTrans<T>(a: seq<T>, b: seq<T>, c: seq<T>)
    requires IsSubsequence(a, b) && IsSubsequence(b, c)
    ensures IsSubsequence(a, c)
    decreases |c|
  {
    if a != [] {
      if b[0] == c[0] && IsSubsequence(b[1..], c[1..]) {
        if a[0] == b[0] && IsSubsequence(a[1..], b[1..]) {
          SubsequenceTrans(a[1..], b[1..], c[1..]);
        } else {
          SubsequenceTrans(a, b[1..], c[1..]);
        }
      } else {
        SubsequenceTrans(a, b, c[1..]);
      }
    }
  }

  /** JavaScript's `s.filter(keep)`: the elements `keep` accepts, in order, each
      as often as it occurs in `s`. */
  function Filter<T(==)>(s: seq<T>, keep: T -> bool): (r: seq<T>)
    ensures |r| <= |s|
    ensures forall x | x in r :: x in s && keep(x)
    ensures forall x | x in s :: Count(r, x) == if keep(x) then Count(s, x) else 0
    ensures IsSubsequence(r, s)
  {
    if s == [] then []
    else if keep(s[0]) then [s[0]] + Filter(s[1..], keep)
    else Filter(s[1..], keep)
  }

  /** Every accepted element of `s` is in the filtered sequence. */
  lemma FilterKeeps<T>(s: seq<T>, keep: T -> bool)
    ensures forall x | x in s && keep(x) :: x in Filter(s, keep)
  {
    forall x | x in s && keep(x) ensures x in Filter(s, keep) {
      assert Count(Filter(s, keep), x) == Count(s, x);
    }
  }

  /** A filter that accepts everything returns its input unchanged. */
  lemma {:induction false} FilterAll<T>(s: seq<T>, keep: T -> bool)
    requires forall x | x in s :: keep(x)
    ensures Filter(s, keep) == s
  {
    if s != [] {
      assert forall x | x in s[1..] :: keep(x) by {
        forall x | x in s[1..] ensures keep(x) { assert x in s; }
      }
      FilterAll(s[1..], keep);
    }
  }

  /** A filter that accepts nothing returns nothing. */
  lemma {:induction false} FilterNone<T>(s: seq<T>, keep: T -> bool)
    requires forall x | x in s :: !keep(x)
    ensures Filter(s, keep) == []
  {
    if s != [] {
      assert forall x | x in s[1..] :: !keep(x) by {
        forall x | x in s[1..] ensures !keep(x) { assert x in s; }
      }
      FilterNone(s[1..], keep);
    }
  }

  /** Appending a row whose key is larger than every key present keeps keys unique. */
  lemma AppendFreshKey<T>(s: seq<T>, key: T -> int, x: T)
    requires UniqueKeys(s, key)
    requires forall y | y in s :: key(y) < key(x)
    ensures UniqueKeys(s + [x], key)
  {
    var r := s + [x];
    forall i, j | 0 <= i < j < |r| ensures key(r[i]) != key(r[j]) {
      if j == |s| {
        assert r[i] == s[i] && s[i] in s;
      } else {
        assert r[i] == s[i] && r[j] == s[j];
      }
    }
  }

  /** A table whose ids come from a counter: keys unique, and all below the
      next id the counter hands out. */
  predicate Keyed<T(==)>(s: seq<T>, key: T -> int, bound: int) {
    UniqueKeys(s, key) && forall x | x in s :: key(x) < bound
  }

  /** Inserting a row with the counter's id and advancing the counter keeps
      the table keyed. */
  lemma KeyedAppend<T>(s: seq<T>, key: T -> int, bound: int, x: T)
    requires Keyed(s, key, bound) && key(x) == bound
    ensures Keyed(s + [x], key, bound + 1)
  {
    AppendFreshKey(s, key, x);
  }

  /** Deleting rows keeps a table keyed. */
  lemma KeyedFilter<T>(s: seq<T>, keep: T -> bool, key: T -> int, bound: int)
    requires Keyed(s, key, bound)
    ensures Keyed(Filter(s, keep), key, bound)
  {
    FilterUniqueKeys(s, keep, key);
  }

  /** Updating rows without touching their key keeps a table keyed. */
  lemma KeyedUpdate<T>(s: seq<T>, p: T -> bool, patch: T -> T, key: T -> int, bound: int)
    requires Keyed(s, key, bound)
    requires forall x | x in s :: key(patch(x)) == key(x)
    ensures Keyed(UpdateWhere(s, p, patch), key, bound)
  {
    UpdateUniqueKeys(s, p, patch, key);
    var r := UpdateWhere(s, p, patch);
    forall x | x in r ensures key(x) < bound {
      var i :| 0 <= i < |r| && r[i] == x;
      assert s[i] in s;
    }
  }

  /** Filtering cannot create two rows with the same key. */
  lemma {:induction false} FilterUniqueKeys<T, K>(s: seq<T>, keep: T -> bool, key: T -> K)
    requires UniqueKeys(s, key)
    ensures UniqueKeys(Filter(s, keep), key)
  {
    if s != [] {
      assert UniqueKeys(s[1..], key) by {
        forall i, j | 0 <= i < j < |s[1..]| ensures key(s[1..][i]) != key(s[1..][j]) {
          assert s[1..][i] == s[i + 1] && s[1..][j] == s[j + 1];
        }
      }
      FilterUniqueKeys(s[1..], keep, key);
      if keep(s[0]) {
        var rest := Filter(s[1..], keep);
        var r := [s[0]] + rest;
        forall i, j | 0 <= i < j < |r| ensures key(r[i]) != key(r[j]) {
          if i == 0 {
            assert r[j] == rest[j - 1] && r[j] in s[1..];
            var k :| 0 <= k < |s[1..]| && s[1..][k] == r[j];
            assert s[k + 1] == r[j];
          } else {
            assert r[i] == rest[i - 1] && r[j] == rest[j - 1];
          }
        }
      }
    }
  }

  /** Deleting the rows that carry one key value of a primary key removes at
      most one row. */
  lemma {:induction false} FilterRemovesAtMostOne<T, K>(s: seq<T>, keep: T -> bool, key: T -> K, k: K)
    requires UniqueKeys(s, key)
    requires forall x | x in s && key(x) != k :: keep(x)
    ensures |Filter(s, keep)| >= |s| - 1
  {
    if s != [] {
      assert forall x | x in s[1..] && key(x) != k :: keep(x) by {
        forall x | x in s[1..] && key(x) != k ensures keep(x) { assert x in s; }
      }
      assert UniqueKeys(s[1..], key) by {
        forall i, j | 0 <= i < j < |s[1..]| ensures key(s[1..][i]) != key(s[1..][j]) {
          assert s[1..][i] == s[i + 1] && s[1..][j] == s[j + 1];
        }
      }
      if keep(s[0]) {
        FilterRemovesAtMostOne(s[1..], keep, key, k);
      } else {
        assert key(s[0]) == k;
        forall x | x in s[1..] ensures keep(x) {
          var j :| 0 <= j < |s[1..]| && s[1..][j] == x;
          assert s[j + 1] == x && key(s[0]) != key(s[j + 1]);
        }
        FilterAll(s[1..], keep);
      }
    }
  }

  /** JavaScript's `s.indexOf(x)`: the first position of `x`, or -1. */
  function FirstIndex<T(==)>(s: seq<T>, x: T): (i: int)
    ensures -1 <= i < |s|
    ensures i == -1 <==> x !in s
    ensures 0 <= i ==> s[i] == x && x !in s[..i]
  {
    if s == [] then -1
    else if s[0] == x then 0
    else
      var k := FirstIndex(s[1..], x);
      if k == -1 then -1 else k + 1
  }

  /** JavaScript's `s.map(f)`: `f` of each element, in order. */
  function Map<A, B>(s: seq<A>, f: A -> B): (r: seq<B>)
    ensures |r| == |s|
    ensures forall i | 0 <= i < |s| :: r[i] == f(s[i])
  {
    seq(|s|, i requires 0 <= i < |s| => f(s[i]))
  }

  /** The first element that `p` accepts: what the store returns for a
      `.select().eq('id', id).single()` lookup on a primary key. */
  function Find<T>(s: seq<T>, p: T -> bool): (r: Option<T>)
    ensures r.Some? ==> r.value in s && p(r.value)
    ensures r.None? ==> forall x | x in s :: !p(x)
  {
    if s == [] then None
    else if p(s[0]) then Some(s[0])
    else Find(s[1..], p)
  }

  /** The store's `update(patch).eq(...)`: every row that `p` accepts is replaced
      by `patch` of it, every other row stays as it was, positions are kept. */
  function UpdateWhere<T>(s: seq<T>, p: T -> bool, patch: T -> T): (r: seq<T>)
    ensures |r| == |s|
    ensures forall i | 0 <= i < |s| :: r[i] == if p(s[i]) then patch(s[i]) else s[i]
  {
    seq(|s|, i requires 0 <= i < |s| => if p(s[i]) then patch(s[i]) else s[i])
  }

  /** Updating rows without touching their key keeps the key unique. */
  lemma UpdateUniqueKeys<T, K>(s: seq<T>, p: T -> bool, patch: T -> T, key: T -> K)
    requires UniqueKeys(s, key)
    requires forall x | x in s :: key(patch(x)) == key(x)
    ensures UniqueKeys(UpdateWhere(s, p, patch), key)
  {
    var r := UpdateWhere(s, p, patch);
    forall i | 0 <= i < |s| ensures key(r[i]) == key(s[i]) {
      assert s[i] in s;
    }
  }
}
