/**
 * Sequence operations that the database queries are built from: a filter (a
 * `where` clause), a sort in descending key order (`orderBy: { ...: 'desc' }`)
 * and a group-by count (`groupBy` with `_count`).
 */
module Seqs {
  /** The elements of `s` satisfying `p`, in their order in `s`. */
  function Filter<T(!new)>(s: seq<T>, p: T -> bool): (r: seq<T>)
    ensures forall x :: multiset(r)[x] == if p(x) then multiset(s)[x] else 0
    ensures |r| <= |s|
    decreases |s|
  {
    if |s| == 0 then []
    else
      assert s == [s[0]] + s[1..];
      (if p(s[0]) then [s[0]] else []) + Filter(s[1..], p)
  }

  lemma {:induction false} FilterMembers<T(!new)>(s: seq<T>, p: T -> bool, x: T)
    ensures x in Filter(s, p) <==> x in s && p(x)
  {
    assert x in Filter(s, p) <==> multiset(Filter(s, p))[x] > 0;
    assert x in s <==> multiset(s)[x] > 0;
  }

  /** Filtering distributes over appending one element at the end (a log append). */
  lemma {:induction false} FilterSnoc<T(!new)>(s: seq<T>, x: T, p: T -> bool)
    ensures Filter(s + [x], p) == Filter(s, p) + (if p(x) then [x] else [])
    decreases |s|
  {
    var tail := if p(x) then [x] else [];
    if |s| == 0 {
      assert s + [x] == [x];
      assert Filter([x], p) == tail + Filter([x][1..], p);
    } else {
      var head := if p(s[0]) then [s[0]] else [];
      var t := s + [x];
      assert t[0] == s[0];
      assert t[1..] == s[1..] + [x];
      FilterSnoc(s[1..], x, p);
      calc {
        Filter(t, p);
        head + Filter(t[1..], p);
        head + (Filter(s[1..], p) + tail);
        { AppendAssoc(head, Filter(s[1..], p), tail); }
        (head + Filter(s[1..], p)) + tail;
        Filter(s, p) + tail;
      }
    }
  }

  lemma AppendAssoc<T>(a: seq<T>, b: seq<T>, c: seq<T>)
    ensures a + (b + c) == (a + b) + c
  {
  }

  /** Sorted from the largest key to the smallest. */
  predicate SortedDesc<T>(s: seq<T>, key: T -> int)
  {
    forall i, j | 0 <= i < j < |s| :: key(s[i]) >= key(s[j])
  }

  /** Inserts `x` before the first element whose key is not larger than its own. */
  function InsertDesc<T>(x: T, s: seq<T>, key: T -> int): (r: seq<T>)
    ensures |r| == |s| + 1
    ensures multiset(r) == multiset(s) + multiset{x}
    ensures r[0] == x || (|s| > 0 && r[0] == s[0])
    decreases |s|
  {
    if |s| == 0 then [x]
    else if key(s[0]) <= key(x) then [x] + s
    else
      assert s == [s[0]] + s[1..];
      [s[0]] + InsertDesc(x, s[1..], key)
  }

  /** Inserting into a sorted sequence keeps it sorted. */
  lemma {:induction false} InsertDescSorted<T>(x: T, s: seq<T>, key: T -> int)
    requires SortedDesc(s, key)
    ensures SortedDesc(InsertDesc(x, s, key), key)
    decreases |s|
  {
    if |s| > 0 && key(s[0]) > key(x) {
      var rest := InsertDesc(x, s[1..], key);
      InsertDescSorted(x, s[1..], key);
      var r := [s[0]] + rest;
      assert r == InsertDesc(x, s, key);
      forall i, j | 0 <= i < j < |r| ensures key(r[i]) >= key(r[j]) {
        if i == 0 {
          // rest[j - 1] is x or an element of s[1..], all of which key(s[0]) bounds
          assert r[j] in multiset(rest);
          assert r[j] == x || r[j] in multiset(s[1..]);
          if r[j] != x {
            var k :| 0 <= k < |s[1..]| && s[1..][k] == r[j];
            assert s[k + 1] == r[j];
          }
        } else {
          assert r[i] == rest[i - 1] && r[j] == rest[j - 1];
        }
      }
    }
  }

  /** Insertion sort into descending key order. */
  function SortDesc<T>(s: seq<T>, key: T -> int): (r: seq<T>)
    ensures multiset(r) == multiset(s)
    ensures SortedDesc(r, key)
    decreases |s|
  {
    if |s| == 0 then []
    else
      assert s == [s[0]] + s[1..];
      InsertDescSorted(s[0], SortDesc(s[1..], key), key);
      InsertDesc(s[0], SortDesc(s[1..], key), key)
  }

  /** Group counts: pairs (key, number of occurrences), each key once. */
  predicate DistinctKeys<K(==)>(g: seq<(K, nat)>)
  {
    forall i, j | 0 <= i < |g| && 0 <= j < |g| && i != j :: g[i].0 != g[j].0
  }

  /** The count stored for `k` in a group list, 0 if `k` has no group. */
  function CountOf<K(==)>(g: seq<(K, nat)>, k: K): nat
    decreases |g|
  {
    if |g| == 0 then 0
    else if g[0].0 == k then g[0].1
    else CountOf(g[1..], k)
  }

  /** The sum of all group counts. */
  function Total<K>(g: seq<(K, nat)>): nat
    decreases |g|
  {
    if |g| == 0 then 0 else g[0].1 + Total(g[1..])
  }

  /** Every group has a positive count. */
  predicate PositiveCounts<K>(g: seq<(K, nat)>)
  {
    forall i | 0 <= i < |g| :: g[i].1 > 0
  }

  /** Counts one more occurrence of `k`: bumps its group or appends a new one. */
  function Bump<K(==,!new)>(g: seq<(K, nat)>, k: K): (r: seq<(K, nat)>)
    ensures forall x :: CountOf(r, x) == CountOf(g, x) + (if x == k then 1 else 0)
    ensures Total(r) == Total(g) + 1
    ensures |r| > 0
    decreases |g|
  {
    if |g| == 0 then [(k, 1)]
    else if g[0].0 == k then
      var r := [(k, g[0].1 + 1)] + g[1..];
      assert r[1..] == g[1..];
      r
    else
      var r := [g[0]] + Bump(g[1..], k);
      assert r[1..] == Bump(g[1..], k);
      r
  }

  /** Bumping introduces no key other than `k`. */
  lemma {:induction false} BumpKeys<K(!new)>(g: seq<(K, nat)>, k: K, i: nat)
    requires i < |Bump(g, k)|
    ensures Bump(g, k)[i].0 == k || exists j | 0 <= j < |g| :: g[j].0 == Bump(g, k)[i].0
    decreases |g|
  {
    if |g| > 0 && g[0].0 != k && i > 0 {
      var rest := Bump(g[1..], k);
      assert Bump(g, k)[i] == rest[i - 1];
      BumpKeys(g[1..], k, i - 1);
      if rest[i - 1].0 != k {
        var j :| 0 <= j < |g[1..]| && g[1..][j].0 == rest[i - 1].0;
        assert g[j + 1].0 == rest[i - 1].0;
      }
    }
  }

  /** Bumping keeps every key in one group. */
  lemma {:induction false} BumpDistinct<K(!new)>(g: seq<(K, nat)>, k: K)
    requires DistinctKeys(g)
    ensures DistinctKeys(Bump(g, k))
    decreases |g|
  {
    var r := Bump(g, k);
    if |g| > 0 && g[0].0 != k {
      var rest := Bump(g[1..], k);
      BumpDistinct(g[1..], k);
      assert r == [g[0]] + rest;
      forall i, j | 0 <= i < |r| && 0 <= j < |r| && i != j ensures r[i].0 != r[j].0 {
        if i == 0 || j == 0 {
          var m := if i == 0 then j else i;
          BumpKeys(g[1..], k, m - 1);
          assert r[m] == rest[m - 1];
          if rest[m - 1].0 != k {
            var n :| 0 <= n < |g[1..]| && g[1..][n].0 == rest[m - 1].0;
            assert g[n + 1].0 == r[m].0;
          }
        } else {
          assert r[i] == rest[i - 1] && r[j] == rest[j - 1];
        }
      }
    } else if |g| > 0 {
      forall i, j | 0 <= i < |r| && 0 <= j < |r| && i != j ensures r[i].0 != r[j].0 {
        assert r[i].0 == g[i].0 && r[j].0 == g[j].0;
      }
    }
  }

  /** Bumping keeps every count positive. */
  lemma {:induction false} BumpPositive<K(!new)>(g: seq<(K, nat)>, k: K)
    requires PositiveCounts(g)
    ensures PositiveCounts(Bump(g, k))
    decreases |g|
  {
    var r := Bump(g, k);
    if |g| > 0 && g[0].0 != k {
      BumpPositive(g[1..], k);
      assert forall i | 1 <= i < |r| :: r[i] == Bump(g[1..], k)[i - 1];
    } else if |g| > 0 {
      assert forall i | 1 <= i < |r| :: r[i] == g[i];
    }
  }

  /** Counts the occurrences of every distinct element of `s`. */
  function GroupCount<K(==,!new)>(s: seq<K>): (g: seq<(K, nat)>)
    ensures forall x :: CountOf(g, x) == multiset(s)[x]
    ensures Total(g) == |s|
    ensures DistinctKeys(g)
    ensures PositiveCounts(g)
    decreases |s|
  {
    if |s| == 0 then []
    else
      var init := s[..|s| - 1];
      assert s == init + [s[|s| - 1]];
      BumpDistinct(GroupCount(init), s[|s| - 1]);
      BumpPositive(GroupCount(init), s[|s| - 1]);
      Bump(GroupCount(init), s[|s| - 1])
  }

  /** `s.map(f)`. */
  function Map<T, K>(s: seq<T>, f: T -> K): (r: seq<K>)
    ensures |r| == |s| && forall i | 0 <= i < |s| :: r[i] == f(s[i])
    decreases |s|
  {
    if |s| == 0 then [] else [f(s[0])] + Map(s[1..], f)
  }

  /** Filtering twice is filtering once by both conditions. */
  lemma {:induction false} FilterFilter<T(!new)>(s: seq<T>, p: T -> bool, q: T -> bool, pq: T -> bool)
    requires forall x :: pq(x) == (p(x) && q(x))
    ensures Filter(Filter(s, p), q) == Filter(s, pq)
    decreases |s|
  {
    if |s| > 0 {
      FilterFilter(s[1..], p, q, pq);
      var head := if p(s[0]) then [s[0]] else [];
      assert Filter(s, p) == head + Filter(s[1..], p);
      if p(s[0]) {
        assert (head + Filter(s[1..], p))[0] == s[0];
        assert (head + Filter(s[1..], p))[1..] == Filter(s[1..], p);
      } else {
        assert head + Filter(s[1..], p) == Filter(s[1..], p);
      }
    }
  }

  /** How often `k` occurs among the images of `s` is the number of elements of `s` that map to `k`. */
  lemma {:induction false} CountMapped<T(!new), K>(s: seq<T>, f: T -> K, k: K, p: T -> bool)
    requires forall x :: p(x) == (f(x) == k)
    ensures multiset(Map(s, f))[k] == |Filter(s, p)|
    decreases |s|
  {
    if |s| > 0 {
      CountMapped(s[1..], f, k, p);
      assert Map(s, f) == [f(s[0])] + Map(s[1..], f);
      assert multiset(Map(s, f)) == multiset{f(s[0])} + multiset(Map(s[1..], f));
    }
  }
}
