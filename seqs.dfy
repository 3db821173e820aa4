/** The query-builder vocabulary over in-memory tables: `filter`/`.eq`/`.in`,
    `.find`, `.order(...)`, and `.limit(n)`/`.slice(0, n)`. Row order of a table
    is insertion order; a store `.order(...)` is a stable sort over it. */
module Seqs {

  function Min(a: nat, b: nat): nat
  {
    if a <= b then a else b
  }

  /** The rows of `s` that satisfy `p`, in their original order. */
  function Filter<T(!new)>(s: seq<T>, p: T -> bool): (r: seq<T>)
    ensures |r| <= |s|
    ensures forall k :: 0 <= k < |r| ==> p(r[k])
    ensures forall x :: x in r <==> x in s && p(x)
    ensures forall x :: multiset(r)[x] == if p(x) then multiset(s)[x] else 0
  {
    if s == [] then []
    else
      var rest := Filter(s[1..], p);
      assert s == [s[0]] + s[1..];
      if p(s[0]) then [s[0]] + rest else rest
  }

  /** A filter that no row passes is empty. */
  lemma {:induction false} FilterNone<T(!new)>(s: seq<T>, p: T -> bool)
    requires forall k :: 0 <= k < |s| ==> !p(s[k])
    ensures Filter(s, p) == []
  {
    if s != [] {
      FilterNone(s[1..], p);
    }
  }

  /** Filtering by `p` and then by `q` is filtering once by their conjunction `pq`. */
  lemma {:induction false} FilterFilter<T(!new)>(s: seq<T>, p: T -> bool, q: T -> bool, pq: T -> bool)
    requires forall x :: pq(x) == (p(x) && q(x))
    ensures Filter(Filter(s, p), q) == Filter(s, pq)
  {
    if s != [] {
      FilterFilter(s[1..], p, q, pq);
    }
  }

  /** Two rows passing the filter leave at least two rows. */
  lemma {:induction false} TwoPass<T(!new)>(s: seq<T>, p: T -> bool, i: nat, j: nat)
    requires i < j < |s| && p(s[i]) && p(s[j])
    ensures |Filter(s, p)| >= 2
  {
    assert s[1..][j - 1] == s[j];
    if i == 0 {
      assert s[j] in Filter(s[1..], p);
    } else {
      assert s[1..][i - 1] == s[i];
      TwoPass(s[1..], p, i - 1, j - 1);
    }
  }

  /** At least two rows left by the filter sit at two positions of the table. */
  lemma {:induction false} TwoPassers<T(!new)>(s: seq<T>, p: T -> bool) returns (i: nat, j: nat)
    requires |Filter(s, p)| >= 2
    ensures i < j < |s| && p(s[i]) && p(s[j])
  {
    var rest := Filter(s[1..], p);
    if p(s[0]) {
      assert rest[0] in s[1..];
      var m :| 0 <= m < |s[1..]| && s[1..][m] == rest[0];
      i, j := 0, m + 1;
    } else {
      i, j := TwoPassers(s[1..], p);
      assert s[1..][i] == s[i + 1] && s[1..][j] == s[j + 1];
      i, j := i + 1, j + 1;
    }
  }

  /** Index of the first row satisfying `p`, or `|s|` when there is none. */
  function FirstIndex<T>(s: seq<T>, p: T -> bool): (i: nat)
    ensures i <= |s|
    ensures i < |s| ==> p(s[i])
    ensures forall k :: 0 <= k < i ==> !p(s[k])
  {
    if s == [] then 0
    else if p(s[0]) then 0
    else 1 + FirstIndex(s[1..], p)
  }

  /** `.limit(n)` / `.slice(0, n)`: the first `n` rows, or all of them when there are fewer. */
  function Take<T>(s: seq<T>, n: nat): (r: seq<T>)
    ensures |r| == Min(n, |s|) && |r| <= n
    ensures forall k :: 0 <= k < |r| ==> r[k] == s[k]
    ensures multiset(r) <= multiset(s)
  {
    var m := Min(n, |s|);
    assert s == s[..m] + s[m..];
    s[..m]
  }

  /** Non-increasing by `key`. */
  predicate SortedDesc<T>(s: seq<T>, key: T -> int)
  {
    forall i, j :: 0 <= i < j < |s| ==> key(s[i]) >= key(s[j])
  }

  /** Places `x` in front of the first row whose key does not exceed its own. */
  function Insert<T>(x: T, s: seq<T>, key: T -> int): (r: seq<T>)
    requires SortedDesc(s, key)
    ensures SortedDesc(r, key)
    ensures multiset(r) == multiset(s) + multiset{x}
    ensures |r| == |s| + 1
    ensures r[0] == x || (s != [] && r[0] == s[0])
  {
    if s == [] || key(x) >= key(s[0]) then [x] + s
    else
      var rest := Insert(x, s[1..], key);
      assert s == [s[0]] + s[1..];
      assert key(rest[0]) <= key(s[0]);
      [s[0]] + rest
  }

  /** Stable sort by `key`, largest first: the model of `.order(col, { ascending: false })`
      and of `Array.prototype.sort` with a descending comparator. An ascending order is
      a descending one by the negated key. */
  function SortDesc<T>(s: seq<T>, key: T -> int): (r: seq<T>)
    ensures SortedDesc(r, key)
    ensures multiset(r) == multiset(s)
    ensures |r| == |s|
  {
    if s == [] then []
    else
      assert s == [s[0]] + s[1..];
      Insert(s[0], SortDesc(s[1..], key), key)
  }

  /** The rows whose key is `k`, in order. */
  function WithKey<T>(s: seq<T>, key: T -> int, k: int): seq<T>
  {
    if s == [] then []
    else if key(s[0]) == k then [s[0]] + WithKey(s[1..], key, k)
    else WithKey(s[1..], key, k)
  }

  lemma {:induction false} InsertWithKey<T>(x: T, s: seq<T>, key: T -> int, k: int)
    requires SortedDesc(s, key)
    ensures WithKey(Insert(x, s, key), key, k) ==
            if key(x) == k then [x] + WithKey(s, key, k) else WithKey(s, key, k)
  {
    if s == [] || key(x) >= key(s[0]) {
      assert ([x] + s)[1..] == s;
    } else {
      InsertWithKey(x, s[1..], key, k);
      assert ([s[0]] + Insert(x, s[1..], key))[1..] == Insert(x, s[1..], key);
    }
  }

  /** The sort is stable: rows with equal keys keep their relative order. */
  lemma {:induction false} SortStable<T>(s: seq<T>, key: T -> int, k: int)
    ensures WithKey(SortDesc(s, key), key, k) == WithKey(s, key, k)
  {
    if s != [] {
      SortStable(s[1..], key, k);
      InsertWithKey(s[0], SortDesc(s[1..], key), key, k);
    }
  }

  /** A row with a key below all others is sorted last. */
  lemma {:induction false} SortDescAppendSmallest<T>(s: seq<T>, x: T, key: T -> int)
    requires forall k :: 0 <= k < |s| ==> key(x) < key(s[k])
    ensures SortDesc(s + [x], key) == SortDesc(s, key) + [x]
  {
    if s == [] {
      assert SortDesc([x], key) == Insert(x, [], key);
    } else {
      var sx := s + [x];
      assert sx[0] == s[0] && sx[1..] == s[1..] + [x];
      SortDescAppendSmallest(s[1..], x, key);
      var t := SortDesc(s[1..], key);
      forall k | 0 <= k < |t| ensures key(x) < key(t[k]) {
        assert t[k] in multiset(s[1..]);
      }
      InsertBeforeSmallest(s[0], t, x, key);
    }
  }

  lemma {:induction false} InsertBeforeSmallest<T>(y: T, t: seq<T>, x: T, key: T -> int)
    requires SortedDesc(t, key)
    requires key(x) < key(y) && forall k :: 0 <= k < |t| ==> key(x) < key(t[k])
    ensures SortedDesc(t + [x], key)
    ensures Insert(y, t + [x], key) == Insert(y, t, key) + [x]
  {
    var tx := t + [x];
    if t != [] && key(y) < key(t[0]) {
      assert tx[0] == t[0] && tx[1..] == t[1..] + [x];
      InsertBeforeSmallest(y, t[1..], x, key);
    }
  }

  /** The first `n` rows of a descending sort are the `n` largest: no row left
      out has a larger key than any row kept. */
  lemma TopOfSorted<T>(s: seq<T>, key: T -> int, n: nat)
    ensures var top := Take(SortDesc(s, key), n);
            forall x, i :: x in s && x !in top && 0 <= i < |top| ==> key(x) <= key(top[i])
  {
    var t := SortDesc(s, key);
    var top := Take(t, n);
    forall x, i | x in s && x !in top && 0 <= i < |top|
      ensures key(x) <= key(top[i])
    {
      assert x in multiset(t);
      var j :| 0 <= j < |t| && t[j] == x;
      assert j >= |top|;
    }
  }

  /** In a descending sort, the first row satisfying `p` has the largest key
      among all rows satisfying `p`. */
  lemma FirstOfSortedIsMax<T>(s: seq<T>, key: T -> int, p: T -> bool)
    requires SortedDesc(s, key)
    ensures var i := FirstIndex(s, p);
            i < |s| ==> forall y :: y in s && p(y) ==> key(y) <= key(s[i])
  {
    var i := FirstIndex(s, p);
    forall y | y in s && p(y) && i < |s| ensures key(y) <= key(s[i]) {
      var j :| 0 <= j < |s| && s[j] == y;
      assert j >= i;
    }
  }
}
