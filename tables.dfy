/**
 * The small table algebra the inventory pipeline is built from: a table is a
 * sequence of records, a missing cell is `None`, and the pandas operations the
 * pipeline uses (boolean-mask filtering, left merge, group-by-sum, sort by a
 * column, nlargest / nsmallest) are functions over sequences.
 */
module Tables {

  datatype Option<+T> = None | Some(value: T)

  function Min(a: int, b: int): int { if a <= b then a else b }

  /** A missing numeric cell read as 0: pandas `fillna(0)`, and how `sum` skips NaN. */
  function FillZero(x: Option<int>): int { if x.Some? then x.value else 0 }

  predicate NoDuplicates<T(==,!new)>(s: seq<T>) {
    forall i, j :: 0 <= i < j < |s| ==> s[i] != s[j]
  }

  /** No two records of `s` share a key. */
  predicate UniqueKeys<R, K(==,!new)>(s: seq<R>, key: R -> K) {
    forall i, j :: 0 <= i < j < |s| ==> key(s[i]) != key(s[j])
  }

  // ---------------------------------------------------------------- filtering

  /** `df[mask]`: the records satisfying `p`, in their original order. */
  function Filter<T(==,!new)>(s: seq<T>, p: T -> bool): (r: seq<T>)
    ensures |r| <= |s|
    ensures forall x :: x in r <==> x in s && p(x)
    ensures multiset(r) <= multiset(s)
  {
    if s == [] then []
    else
      assert s == [s[0]] + s[1..];
      if p(s[0]) then [s[0]] + Filter(s[1..], p) else Filter(s[1..], p)
  }

  /** `a` is obtained from `b` by deleting elements, the rest kept in order. */
  predicate IsSubsequence<T(==,!new)>(a: seq<T>, b: seq<T>)
    decreases |b|
  {
    if a == [] then true
    else if b == [] then false
    else if a[0] == b[0] then IsSubsequence(a[1..], b[1..])
    else IsSubsequence(a, b[1..])
  }

  lemma {:induction false} FilterIsSubsequence<T(!new)>(s: seq<T>, p: T -> bool)
    ensures IsSubsequence(Filter(s, p), s)
  {
    if s != [] {
      FilterIsSubsequence(s[1..], p);
      var r := Filter(s[1..], p);
      if p(s[0]) {
        assert Filter(s, p) == [s[0]] + r;
        assert ([s[0]] + r)[1..] == r;
      } else if r != [] {
        assert r[0] in r;
      }
    }
  }

  /** An element the filter keeps occurs in its result as often as in its input. */
  lemma {:induction false} FilterKeepsMultiplicity<T(!new)>(s: seq<T>, p: T -> bool, y: T)
    requires p(y)
    ensures multiset(Filter(s, p))[y] == multiset(s)[y]
  {
    if s != [] {
      FilterKeepsMultiplicity(s[1..], p, y);
      assert s == [s[0]] + s[1..];
    }
  }

  /** Two successive filters are one filter by the conjunction. */
  lemma {:induction false} FilterConjunction<T(!new)>(s: seq<T>, p: T -> bool, q: T -> bool, pq: T -> bool)
    requires forall x :: pq(x) == (p(x) && q(x))
    ensures Filter(Filter(s, p), q) == Filter(s, pq)
  {
    if s != [] {
      FilterConjunction(s[1..], p, q, pq);
      var f := Filter(s[1..], p);
      if p(s[0]) {
        assert Filter(s, p) == [s[0]] + f;
        assert ([s[0]] + f)[0] == s[0] && ([s[0]] + f)[1..] == f;
      }
    }
  }

  /** The order of two successive filters does not matter. */
  lemma FilterCommutes<T(!new)>(s: seq<T>, p: T -> bool, q: T -> bool)
    ensures Filter(Filter(s, p), q) == Filter(Filter(s, q), p)
  {
    var pq := x => p(x) && q(x);
    FilterConjunction(s, p, q, pq);
    FilterConjunction(s, q, p, pq);
  }

  // ---------------------------------------------------------------- left merge

  /** The test a right-hand record passes when its key equals `k`. */
  function KeyIs<R, K(==,!new)>(rk: R -> K, k: K): R -> bool {
    r => rk(r) == k
  }

  /** The first record of `right` whose key is `k`, if any. */
  function Lookup<R(==,!new), K(==,!new)>(right: seq<R>, rk: R -> K, k: K): (o: Option<R>)
    ensures o.Some? ==> o.value in right && rk(o.value) == k
    ensures o.None? <==> forall r :: r in right ==> rk(r) != k
  {
    if right == [] then None
    else if rk(right[0]) == k then Some(right[0])
    else
      assert right == [right[0]] + right[1..];
      Lookup(right[1..], rk, k)
  }

  /** The merged rows one left record produces: one per matching right record, or one without a partner. */
  function JoinRow<L, R(==,!new), K(==,!new)>(l: L, right: seq<R>, lk: L -> K, rk: R -> K): (j: seq<(L, Option<R>)>)
    ensures |j| >= 1
    ensures forall t :: t in j ==> t.0 == l
    ensures forall t :: t in j && t.1.Some? ==> t.1.value in right && rk(t.1.value) == lk(l)
    ensures forall t :: t in j && t.1.None? ==> forall r :: r in right ==> rk(r) != lk(l)
  {
    var ms := Filter(right, KeyIs(rk, lk(l)));
    if ms == [] then [(l, None)]
    else seq(|ms|, i requires 0 <= i < |ms| => (l, Some(ms[i])))
  }

  /**
   * `left.merge(right, how="left")`: every left record in order, each paired
   * with each right record of the same key (in right order), or with `None`
   * when there is none. Right records whose key no left record has are dropped.
   */
  function LeftJoin<L, R(==,!new), K(==,!new)>(left: seq<L>, right: seq<R>, lk: L -> K, rk: R -> K): (j: seq<(L, Option<R>)>)
    ensures |j| >= |left|
    ensures forall t :: t in j ==> exists i :: 0 <= i < |left| && t.0 == left[i]
    ensures forall t :: t in j && t.1.Some? ==> t.1.value in right && rk(t.1.value) == lk(t.0)
    ensures forall t :: t in j && t.1.None? ==> forall r :: r in right ==> rk(r) != lk(t.0)
  {
    if left == [] then []
    else
      var head := JoinRow(left[0], right, lk, rk);
      var rest := LeftJoin(left[1..], right, lk, rk);
      assert forall t :: t in rest ==> exists i :: 0 <= i < |left| && t.0 == left[i] by {
        forall t | t in rest ensures exists i :: 0 <= i < |left| && t.0 == left[i] {
          var k :| 0 <= k < |left[1..]| && t.0 == left[1..][k];
          assert t.0 == left[k + 1];
        }
      }
      head + rest
  }

  /** No left record is lost: each appears in at least one merged row. */
  lemma {:induction false} LeftJoinCovers<L(!new), R(!new), K(!new)>(left: seq<L>, right: seq<R>, lk: L -> K, rk: R -> K)
    ensures var j := LeftJoin(left, right, lk, rk);
      forall i :: 0 <= i < |left| ==> exists k :: 0 <= k < |j| && j[k].0 == left[i]
  {
    if left != [] {
      LeftJoinCovers(left[1..], right, lk, rk);
      var head := JoinRow(left[0], right, lk, rk);
      var rest := LeftJoin(left[1..], right, lk, rk);
      var j := head + rest;
      assert LeftJoin(left, right, lk, rk) == j;
      forall i | 0 <= i < |left| ensures exists k :: 0 <= k < |j| && j[k].0 == left[i] {
        if i == 0 {
          assert head[0] in head;
          assert j[0].0 == left[0];
        } else {
          assert left[i] == left[1..][i - 1];
          var k :| 0 <= k < |rest| && rest[k].0 == left[1..][i - 1];
          assert j[|head| + k] == rest[k];
        }
      }
    }
  }

  /** With unique right keys, matching is a lookup. */
  lemma {:induction false} FilterByUniqueKey<R(!new), K(!new)>(right: seq<R>, rk: R -> K, k: K)
    requires UniqueKeys(right, rk)
    ensures Filter(right, KeyIs(rk, k)) == (if Lookup(right, rk, k).Some? then [Lookup(right, rk, k).value] else [])
  {
    if right != [] {
      var tail := right[1..];
      assert UniqueKeys(tail, rk) by {
        forall i, j | 0 <= i < j < |tail| ensures rk(tail[i]) != rk(tail[j]) {
          assert tail[i] == right[i + 1] && tail[j] == right[j + 1];
        }
      }
      FilterByUniqueKey(tail, rk, k);
      if rk(right[0]) == k {
      }
    }
  }

  lemma JoinRowUnique<L, R(!new), K(!new)>(l: L, right: seq<R>, lk: L -> K, rk: R -> K)
    requires UniqueKeys(right, rk)
    ensures JoinRow(l, right, lk, rk) == [(l, Lookup(right, rk, lk(l)))]
  {
    FilterByUniqueKey(right, rk, lk(l));
  }

  /** With unique right keys the left merge keeps the left table's shape: one row per left record. */
  lemma {:induction false} LeftJoinUnique<L, R(!new), K(!new)>(left: seq<L>, right: seq<R>, lk: L -> K, rk: R -> K)
    requires UniqueKeys(right, rk)
    ensures |LeftJoin(left, right, lk, rk)| == |left|
    ensures forall i :: 0 <= i < |left| ==>
      LeftJoin(left, right, lk, rk)[i] == (left[i], Lookup(right, rk, lk(left[i])))
  {
    if left != [] {
      LeftJoinUnique(left[1..], right, lk, rk);
      var head := JoinRow(left[0], right, lk, rk);
      JoinRowUnique(left[0], right, lk, rk);
      var j := LeftJoin(left, right, lk, rk);
      var rest := LeftJoin(left[1..], right, lk, rk);
      assert j == head + rest;
      forall i | 0 <= i < |left| ensures j[i] == (left[i], Lookup(right, rk, lk(left[i]))) {
        if i > 0 {
          assert j[i] == rest[i - 1];
          assert left[1..][i - 1] == left[i];
        }
      }
    }
  }

  // ---------------------------------------------------------------- group-by-sum

  function First<K>(p: (K, int)): K { p.0 }

  function Second<K>(p: (K, int)): int { p.1 }

  function Keys<K, V>(kvs: seq<(K, V)>): seq<K> {
    seq(|kvs|, i requires 0 <= i < |kvs| => kvs[i].0)
  }

  /** The distinct elements of `s` in order of first occurrence. */
  function Distinct<T(==,!new)>(s: seq<T>): (d: seq<T>)
    ensures forall x :: x in d <==> x in s
    ensures NoDuplicates(d)
    ensures |d| <= |s|
  {
    if s == [] then []
    else
      var d := Distinct(s[..|s| - 1]);
      var last := s[|s| - 1];
      assert s == s[..|s| - 1] + [last];
      if last in d then d else d + [last]
  }

  /** A duplicate-free sequence has as many elements as the set of its elements. */
  lemma {:induction false} NoDuplicatesCard<T(!new)>(s: seq<T>)
    requires NoDuplicates(s)
    ensures |(set x | x in s)| == |s|
  {
    if s != [] {
      var tail := s[1..];
      assert NoDuplicates(tail) by {
        forall i, j | 0 <= i < j < |tail| ensures tail[i] != tail[j] {
          assert tail[i] == s[i + 1] && tail[j] == s[j + 1];
        }
      }
      NoDuplicatesCard(tail);
      assert (set x | x in s) == {s[0]} + (set x | x in tail) by {
        assert s == [s[0]] + tail;
      }
      forall k | 0 <= k < |tail| ensures tail[k] != s[0] {
        assert tail[k] == s[k + 1];
      }
    }
  }

  /** `unique()` counts each distinct value once: as many as the set of values. */
  lemma DistinctCount<T(!new)>(s: seq<T>)
    ensures |Distinct(s)| == |(set x | x in s)|
  {
    NoDuplicatesCard(Distinct(s));
    assert (set x | x in Distinct(s)) == (set x | x in s);
  }

  /** The sum of the values recorded under key `k`. */
  function SumFor<K(==,!new)>(kvs: seq<(K, int)>, k: K): int {
    if kvs == [] then 0
    else (if kvs[0].0 == k then kvs[0].1 else 0) + SumFor(kvs[1..], k)
  }

  /** The sum of all values. */
  function Total<K>(kvs: seq<(K, int)>): int {
    if kvs == [] then 0 else kvs[0].1 + Total(kvs[1..])
  }

  /** Each key of `ks` with the sum of its values in `kvs`. */
  function SumsFor<K(==,!new)>(kvs: seq<(K, int)>, ks: seq<K>): (g: seq<(K, int)>)
    ensures Keys(g) == ks
    ensures forall i :: 0 <= i < |g| ==> g[i].1 == SumFor(kvs, ks[i])
  {
    if ks == [] then []
    else
      var g := [(ks[0], SumFor(kvs, ks[0]))] + SumsFor(kvs, ks[1..]);
      assert Keys(g) == [ks[0]] + ks[1..];
      g
  }

  /**
   * `groupby(key)[value].sum()`: one record per distinct key, holding the sum
   * of that key's values.
   */
  function GroupSum<K(==,!new)>(kvs: seq<(K, int)>): (g: seq<(K, int)>)
    ensures UniqueKeys(g, First)
    ensures forall k :: k in Keys(g) <==> k in Keys(kvs)
    ensures forall i :: 0 <= i < |g| ==> g[i].1 == SumFor(kvs, g[i].0)
  {
    var g := SumsFor(kvs, Distinct(Keys(kvs)));
    assert forall i :: 0 <= i < |g| ==> g[i].0 == Keys(g)[i];
    g
  }

  lemma {:induction false} SumForAbsent<K(!new)>(kvs: seq<(K, int)>, k: K)
    requires k !in Keys(kvs)
    ensures SumFor(kvs, k) == 0
  {
    if kvs != [] {
      assert Keys(kvs)[0] == kvs[0].0;
      assert Keys(kvs[1..]) == Keys(kvs)[1..];
      SumForAbsent(kvs[1..], k);
    }
  }

  lemma {:induction false} SumsForOfEmpty<K(!new)>(ks: seq<K>)
    ensures Total(SumsFor([], ks)) == 0
  {
    if ks != [] {
      SumsForOfEmpty(ks[1..]);
    }
  }

  /** Adding one record to the input adds its value to the sums over `ks` once, if its key is listed. */
  lemma {:induction false} SumsForCons<K(!new)>(k0: K, v0: int, rest: seq<(K, int)>, ks: seq<K>)
    requires NoDuplicates(ks)
    ensures Total(SumsFor([(k0, v0)] + rest, ks)) == Total(SumsFor(rest, ks)) + (if k0 in ks then v0 else 0)
  {
    var kvs := [(k0, v0)] + rest;
    if ks != [] {
      assert kvs[1..] == rest;
      assert NoDuplicates(ks[1..]) by {
        forall i, j | 0 <= i < j < |ks[1..]| ensures ks[1..][i] != ks[1..][j] {
          assert ks[1..][i] == ks[i + 1] && ks[1..][j] == ks[j + 1];
        }
      }
      SumsForCons(k0, v0, rest, ks[1..]);
      if ks[0] == k0 {
        assert k0 !in ks[1..];
      }
      assert k0 in ks <==> k0 == ks[0] || k0 in ks[1..];
    }
  }

  /** Summing the group sums over a duplicate-free list covering every key gives the grand total. */
  lemma {:induction false} SumsForCover<K(!new)>(kvs: seq<(K, int)>, ks: seq<K>)
    requires NoDuplicates(ks)
    requires forall i :: 0 <= i < |kvs| ==> kvs[i].0 in ks
    ensures Total(SumsFor(kvs, ks)) == Total(kvs)
  {
    if kvs == [] {
      SumsForOfEmpty(ks);
    } else {
      var rest := kvs[1..];
      assert kvs == [(kvs[0].0, kvs[0].1)] + rest;
      assert forall i :: 0 <= i < |rest| ==> rest[i].0 in ks by {
        forall i | 0 <= i < |rest| ensures rest[i].0 in ks {
          assert rest[i] == kvs[i + 1];
        }
      }
      SumsForCover(rest, ks);
      SumsForCons(kvs[0].0, kvs[0].1, rest, ks);
    }
  }

  /** Group sums add up to the sum of the ungrouped values. */
  lemma GroupSumTotal<K(!new)>(kvs: seq<(K, int)>)
    ensures Total(GroupSum(kvs)) == Total(kvs)
  {
    var ks := Distinct(Keys(kvs));
    forall i | 0 <= i < |kvs| ensures kvs[i].0 in ks {
      assert Keys(kvs)[i] == kvs[i].0;
    }
    SumsForCover(kvs, ks);
  }

  // ---------------------------------------------------------------- sorting and selection

  predicate SortedBy<T>(s: seq<T>, key: T -> int) {
    forall i, j :: 0 <= i < j < |s| ==> key(s[i]) <= key(s[j])
  }

  function Insert<T(==,!new)>(x: T, s: seq<T>, key: T -> int): (r: seq<T>)
    ensures |r| == |s| + 1
    ensures multiset(r) == multiset{x} + multiset(s)
    ensures forall y :: y in r <==> y == x || y in s
    ensures SortedBy(s, key) ==> SortedBy(r, key)
  {
    if s == [] then [x]
    else if key(x) <= key(s[0]) then
      [x] + s
    else
      assert s == [s[0]] + s[1..];
      var r' := Insert(x, s[1..], key);
      assert SortedBy(s, key) ==> forall y :: y in r' ==> key(s[0]) <= key(y) by {
        if SortedBy(s, key) {
          forall y | y in r' ensures key(s[0]) <= key(y) {
            if y != x {
              var m :| 0 <= m < |s[1..]| && s[1..][m] == y;
              assert s[m + 1] == y;
            }
          }
        }
      }
      [s[0]] + r'
  }

  /** `sort_values(by=key)`, ascending; the order among equal keys is not specified. */
  function SortBy<T(==,!new)>(s: seq<T>, key: T -> int): (r: seq<T>)
    ensures |r| == |s|
    ensures SortedBy(r, key)
    ensures multiset(r) == multiset(s)
  {
    if s == [] then []
    else
      assert s == [s[0]] + s[1..];
      Insert(s[0], SortBy(s[1..], key), key)
  }

  lemma {:induction false} InsertTotal<K(!new)>(x: (K, int), s: seq<(K, int)>, key: ((K, int)) -> int)
    ensures Total(Insert(x, s, key)) == x.1 + Total(s)
  {
    if s != [] && key(x) > key(s[0]) {
      InsertTotal(x, s[1..], key);
      var r' := Insert(x, s[1..], key);
      assert ([s[0]] + r')[1..] == r';
    }
  }

  lemma {:induction false} SortByTotal<K(!new)>(s: seq<(K, int)>, key: ((K, int)) -> int)
    ensures Total(SortBy(s, key)) == Total(s)
  {
    if s != [] {
      SortByTotal(s[1..], key);
      InsertTotal(s[0], SortBy(s[1..], key), key);
    }
  }

  /** Two sequences with the same elements list the same keys. */
  lemma SameElementsSameKeys<K, V>(a: seq<(K, V)>, b: seq<(K, V)>)
    requires multiset(a) == multiset(b)
    ensures forall k :: k in Keys(a) <==> k in Keys(b)
  {
    forall k ensures k in Keys(a) ==> k in Keys(b) {
      if k in Keys(a) {
        var i :| 0 <= i < |a| && Keys(a)[i] == k;
        assert a[i] in multiset(b);
        var j :| 0 <= j < |b| && b[j] == a[i];
        assert Keys(b)[j] == k;
      }
    }
    forall k ensures k in Keys(b) ==> k in Keys(a) {
      if k in Keys(b) {
        var j :| 0 <= j < |b| && Keys(b)[j] == k;
        assert b[j] in multiset(a);
        var i :| 0 <= i < |a| && a[i] == b[j];
        assert Keys(a)[i] == k;
      }
    }
  }

  lemma {:induction false} InsertUniqueKeys<T(!new), K(!new)>(x: T, s: seq<T>, key: T -> int, kf: T -> K)
    requires UniqueKeys(s, kf)
    requires forall y :: y in s ==> kf(y) != kf(x)
    ensures UniqueKeys(Insert(x, s, key), kf)
  {
    if s != [] && key(x) > key(s[0]) {
      var tail := s[1..];
      assert UniqueKeys(tail, kf) by {
        forall i, j | 0 <= i < j < |tail| ensures kf(tail[i]) != kf(tail[j]) {
          assert tail[i] == s[i + 1] && tail[j] == s[j + 1];
        }
      }
      InsertUniqueKeys(x, tail, key, kf);
      var r' := Insert(x, tail, key);
      forall y | y in r' ensures kf(y) != kf(s[0]) {
        if y != x {
          var m :| 0 <= m < |tail| && tail[m] == y;
          assert s[m + 1] == y;
        }
      }
      var r := [s[0]] + r';
      forall i, j | 0 <= i < j < |r| ensures kf(r[i]) != kf(r[j]) {
        assert r[j] == r'[j - 1];
        if i > 0 {
          assert r[i] == r'[i - 1];
        } else {
          assert r'[j - 1] in r';
        }
      }
    } else if s != [] {
      var r := [x] + s;
      forall i, j | 0 <= i < j < |r| ensures kf(r[i]) != kf(r[j]) {
        assert r[j] == s[j - 1];
        if i > 0 {
          assert r[i] == s[i - 1];
        } else {
          assert s[j - 1] in s;
        }
      }
    }
  }

  /** Sorting keeps keys unique. */
  lemma {:induction false} SortByUniqueKeys<T(!new), K(!new)>(s: seq<T>, key: T -> int, kf: T -> K)
    requires UniqueKeys(s, kf)
    ensures UniqueKeys(SortBy(s, key), kf)
  {
    if s != [] {
      var tail := s[1..];
      assert UniqueKeys(tail, kf) by {
        forall i, j | 0 <= i < j < |tail| ensures kf(tail[i]) != kf(tail[j]) {
          assert tail[i] == s[i + 1] && tail[j] == s[j + 1];
        }
      }
      SortByUniqueKeys(tail, key, kf);
      var sorted := SortBy(tail, key);
      forall y | y in sorted ensures kf(y) != kf(s[0]) {
        assert y in multiset(tail);
        var m :| 0 <= m < |tail| && tail[m] == y;
        assert s[m + 1] == y;
      }
      InsertUniqueKeys(s[0], sorted, key, kf);
    }
  }

  /** The first `n` records (or all of them when there are fewer). */
  function Take<T>(s: seq<T>, n: nat): (r: seq<T>)
    ensures |r| == Min(n, |s|)
    ensures r == s[..|r|]
  {
    if |s| <= n then s else s[..n]
  }

  /** A sorted sequence cut in two: everything before the cut is at most everything after it. */
  lemma SortedSplit<T(!new)>(t: seq<T>, m: nat, key: T -> int)
    requires SortedBy(t, key) && m <= |t|
    ensures multiset(t) - multiset(t[..m]) == multiset(t[m..])
    ensures forall x, y :: x in t[..m] && y in t[m..] ==> key(x) <= key(y)
  {
    assert t == t[..m] + t[m..];
    forall x, y | x in t[..m] && y in t[m..] ensures key(x) <= key(y) {
      var i :| 0 <= i < m && t[..m][i] == x;
      var j :| 0 <= j < |t| - m && t[m..][j] == y;
      assert t[i] == x && t[m + j] == y;
    }
  }

  /**
   * `nsmallest(n, key)`: the `n` records with the smallest keys, ascending.
   * No selected record has a larger key than a record left out.
   */
  function Smallest<T(==,!new)>(s: seq<T>, n: nat, key: T -> int): (r: seq<T>)
    ensures |r| == Min(n, |s|)
    ensures SortedBy(r, key)
    ensures multiset(r) <= multiset(s)
    ensures |s| <= n ==> multiset(r) == multiset(s)
    ensures forall x, y :: x in r && y in multiset(s) - multiset(r) ==> key(x) <= key(y)
  {
    var t := SortBy(s, key);
    var r := Take(t, n);
    SortedSplit(t, |r|, key);
    assert t == r + t[|r|..];
    r
  }

  function Negated<T>(key: T -> int): T -> int {
    x => -key(x)
  }

  /**
   * `nlargest(n, key)`: the `n` records with the largest keys, descending.
   * No selected record has a smaller key than a record left out.
   */
  function Largest<T(==,!new)>(s: seq<T>, n: nat, key: T -> int): (r: seq<T>)
    ensures |r| == Min(n, |s|)
    ensures forall i, j :: 0 <= i < j < |r| ==> key(r[i]) >= key(r[j])
    ensures multiset(r) <= multiset(s)
    ensures forall x, y :: x in r && y in multiset(s) - multiset(r) ==> key(x) >= key(y)
  {
    var r := Smallest(s, n, Negated(key));
    assert forall i, j :: 0 <= i < j < |r| ==> Negated(key)(r[i]) <= Negated(key)(r[j]);
    r
  }
}
