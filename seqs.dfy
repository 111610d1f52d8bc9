/**
  Generic sequence operations behind the pandas calls of the pipeline:
  boolean-mask filtering, drop_duplicates(keep='first'), groupby, and
  sort_values(...).head(k).
*/
module Seqs {

  // ---------------------------------------------------------------------------
  // Filtering by a predicate (dropna, data[mask])
  // ---------------------------------------------------------------------------

  /** The elements of `s` that satisfy `p`, in their original order. */
  function Filter<T(==,!new)>(s: seq<T>, p: T -> bool): (r: seq<T>)
    ensures |r| <= |s|
    ensures forall x :: x in r <==> x in s && p(x)
    decreases |s|
  {
    if s == [] then []
    else
      var init, last := s[..|s| - 1], s[|s| - 1];
      assert s == init + [last];
      Filter(init, p) + (if p(last) then [last] else [])
  }

  /** A filter keeps every occurrence of the values that pass it and none of the others. */
  lemma {:induction false} FilterCount<T(!new)>(s: seq<T>, p: T -> bool, x: T)
    ensures multiset(Filter(s, p))[x] == if p(x) then multiset(s)[x] else 0
    decreases |s|
  {
    if s != [] {
      var init, last := s[..|s| - 1], s[|s| - 1];
      assert s == init + [last];
      FilterSnoc(s, p);
      FilterCount(init, p, x);
    }
  }

  /** A filter that every element passes leaves the sequence as it is. */
  lemma {:induction false} FilterKeepsAll<T(!new)>(s: seq<T>, p: T -> bool)
    requires forall x :: x in s ==> p(x)
    ensures Filter(s, p) == s
    decreases |s|
  {
    if s != [] {
      var init := s[..|s| - 1];
      assert s == init + [s[|s| - 1]];
      FilterKeepsAll(init, p);
    }
  }

  // ---------------------------------------------------------------------------
  // Subsequences: the order of the surviving elements is the input order
  // ---------------------------------------------------------------------------

  /** `r` can be obtained from `s` by deleting elements. */
  predicate IsSubsequence<T(==,!new)>(r: seq<T>, s: seq<T>)
    decreases |s|
  {
    if r == [] then true
    else if s == [] then false
    else (r[|r| - 1] == s[|s| - 1] && IsSubsequence(r[..|r| - 1], s[..|s| - 1]))
         || IsSubsequence(r, s[..|s| - 1])
  }

  lemma {:induction false} SubsequenceTransitive<T(!new)>(a: seq<T>, b: seq<T>, c: seq<T>)
    requires IsSubsequence(a, b) && IsSubsequence(b, c)
    ensures IsSubsequence(a, c)
    decreases |c|
  {
    if a != [] && b != [] && c != [] {
      var b', c' := b[..|b| - 1], c[..|c| - 1];
      if IsSubsequence(b, c') {
        SubsequenceTransitive(a, b, c');
      } else if IsSubsequence(a, b') {
        SubsequenceTransitive(a, b', c');
      } else {
        SubsequenceTransitive(a[..|a| - 1], b', c');
      }
    }
  }

  lemma {:induction false} FilterIsSubsequence<T(!new)>(s: seq<T>, p: T -> bool)
    ensures IsSubsequence(Filter(s, p), s)
    decreases |s|
  {
    if s != [] {
      var init := s[..|s| - 1];
      FilterIsSubsequence(init, p);
      var r := Filter(s, p);
      if p(s[|s| - 1]) {
        assert r[..|r| - 1] == Filter(init, p) && r[|r| - 1] == s[|s| - 1];
      } else {
        assert r == Filter(init, p);
      }
    }
  }

  // ---------------------------------------------------------------------------
  // First occurrences and drop_duplicates(keep='first')
  // ---------------------------------------------------------------------------

  /** No value occurs twice. */
  predicate NoDuplicates<T(==,!new)>(s: seq<T>) {
    forall i, j :: 0 <= i < j < |s| ==> s[i] != s[j]
  }

  /** The position of the first occurrence of `x` in `s`. */
  function FirstIndex<T(==,!new)>(s: seq<T>, x: T): (k: nat)
    requires x in s
    ensures k < |s| && s[k] == x && x !in s[..k]
  {
    if s[0] == x then 0
    else
      var k := FirstIndex(s[1..], x);
      assert s[..k + 1] == [s[0]] + s[1..][..k];
      k + 1
  }

  /** The first occurrence is the only position holding `x` with no `x` before it. */
  lemma FirstIndexUnique<T(!new)>(s: seq<T>, x: T, k: nat)
    requires k < |s| && s[k] == x && x !in s[..k]
    ensures FirstIndex(s, x) == k
  {
  }

  /** Appending elements does not move the first occurrence of a value already present. */
  lemma FirstIndexOfPrefix<T(!new)>(s: seq<T>, t: seq<T>, x: T)
    requires x in s
    ensures FirstIndex(s + t, x) == FirstIndex(s, x)
  {
    var k := FirstIndex(s, x);
    assert (s + t)[..k] == s[..k];
    FirstIndexUnique(s + t, x, k);
  }

  /**
    drop_duplicates(keep='first'): the last element survives exactly when no
    equal element comes before it, so every value is kept at its first occurrence.
  */
  function DropDuplicates<T(==,!new)>(s: seq<T>): (r: seq<T>)
    ensures forall x :: x in r <==> x in s
    ensures NoDuplicates(r)
    decreases |s|
  {
    if s == [] then []
    else
      var init, last := s[..|s| - 1], s[|s| - 1];
      assert s == init + [last];
      if last in init then DropDuplicates(init) else DropDuplicates(init) + [last]
  }

  lemma {:induction false} DropDuplicatesIsSubsequence<T(!new)>(s: seq<T>)
    ensures IsSubsequence(DropDuplicates(s), s)
    decreases |s|
  {
    if s != [] {
      var init := s[..|s| - 1];
      DropDuplicatesIsSubsequence(init);
      var r := DropDuplicates(s);
      if s[|s| - 1] !in init {
        assert r[..|r| - 1] == DropDuplicates(init);
      }
    }
  }

  /** A sequence without duplicates is left as it is. */
  lemma {:induction false} DropDuplicatesOfDistinct<T(!new)>(s: seq<T>)
    requires NoDuplicates(s)
    ensures DropDuplicates(s) == s
    decreases |s|
  {
    if s != [] {
      var init, last := s[..|s| - 1], s[|s| - 1];
      assert s == init + [last];
      assert last !in init by {
        forall i | 0 <= i < |init| ensures init[i] != last {
          assert s[i] != s[|s| - 1];
        }
      }
      DropDuplicatesOfDistinct(init);
    }
  }

  /** In a sequence without duplicates every value occurs at most once. */
  lemma {:induction false} NoDuplicatesCount<T(!new)>(s: seq<T>, x: T)
    requires NoDuplicates(s)
    ensures multiset(s)[x] == if x in s then 1 else 0
    decreases |s|
  {
    if s != [] {
      var init, last := s[..|s| - 1], s[|s| - 1];
      assert s == init + [last];
      assert last !in init by {
        forall i | 0 <= i < |init| ensures init[i] != last {
          assert s[i] != s[|s| - 1];
        }
      }
      assert NoDuplicates(init) by {
        forall i, j | 0 <= i < j < |init| ensures init[i] != init[j] {
          assert s[i] != s[j];
        }
      }
      NoDuplicatesCount(init, x);
    }
  }

  /** The kept values appear in the order of their first occurrences in the input. */
  lemma {:induction false} DropDuplicatesFirstOrder<T(!new)>(s: seq<T>, i: nat, j: nat)
    requires i < j < |DropDuplicates(s)|
    ensures DropDuplicates(s)[i] in s && DropDuplicates(s)[j] in s
    ensures FirstIndex(s, DropDuplicates(s)[i]) < FirstIndex(s, DropDuplicates(s)[j])
    decreases |s|
  {
    var init, last := s[..|s| - 1], s[|s| - 1];
    assert s == init + [last];
    var p, r := DropDuplicates(init), DropDuplicates(s);
    assert r[i] in r && r[j] in r;
    if j < |p| {
      assert r[i] == p[i] && r[j] == p[j];
      assert p[i] in p && p[j] in p;
      DropDuplicatesFirstOrder(init, i, j);
      FirstIndexOfPrefix(init, [last], p[i]);
      FirstIndexOfPrefix(init, [last], p[j]);
    } else {
      assert last !in init && r == p + [last] && r[j] == last && r[i] == p[i];
      assert p[i] in p;
      FirstIndexUnique(s, last, |s| - 1);
      FirstIndexOfPrefix(init, [last], p[i]);
    }
  }

  /** Filtering does not change the relative order of the first occurrences of kept values. */
  lemma {:induction false} FilterFirstOrder<T(!new)>(s: seq<T>, p: T -> bool, x: T, y: T)
    requires x in s && y in s && p(x) && p(y)
    requires FirstIndex(s, x) < FirstIndex(s, y)
    ensures x in Filter(s, p) && y in Filter(s, p)
    ensures FirstIndex(Filter(s, p), x) < FirstIndex(Filter(s, p), y)
    decreases |s|
  {
    var init, last := s[..|s| - 1], s[|s| - 1];
    assert s == init + [last];
    var f := Filter(init, p);
    if y in init {
      FirstIndexOfPrefix(init, [last], x);
      FirstIndexOfPrefix(init, [last], y);
      assert x in init by {
        assert init[FirstIndex(s, x)] == x;
      }
      FirstIndexOfPrefix(init, [last], x);
      FilterFirstOrder(init, p, x, y);
      FirstIndexOfPrefix(f, if p(last) then [last] else [], x);
      FirstIndexOfPrefix(f, if p(last) then [last] else [], y);
    } else {
      assert y == last;
      FirstIndexUnique(s, y, |s| - 1);
      assert x in init by {
        assert init[FirstIndex(s, x)] == x;
      }
      assert x in f;
      FirstIndexOfPrefix(f, [last], x);
      FirstIndexUnique(f + [last], y, |f|);
    }
  }

  // ---------------------------------------------------------------------------
  // groupby: a map from key to the values of that key's rows
  // ---------------------------------------------------------------------------

  /** The values at the positions whose key is `k`, in order. */
  function Where<K(==,!new), V>(keys: seq<K>, vals: seq<V>, k: K): seq<V>
    requires |keys| == |vals|
    decreases |keys|
  {
    if keys == [] then []
    else
      var n := |keys| - 1;
      Where(keys[..n], vals[..n], k) + (if keys[n] == k then [vals[n]] else [])
  }

  /** There are as many values for `k` as rows with key `k`. */
  lemma {:induction false} WhereCount<K(!new), V>(keys: seq<K>, vals: seq<V>, k: K)
    requires |keys| == |vals|
    ensures |Where(keys, vals, k)| == multiset(keys)[k]
    decreases |keys|
  {
    if keys != [] {
      var n := |keys| - 1;
      assert keys == keys[..n] + [keys[n]];
      WhereCount(keys[..n], vals[..n], k);
    }
  }

  /** groupby(keys)[vals]: one entry per distinct key, holding that key's values in row order. */
  function GroupBy<K(==,!new), V>(keys: seq<K>, vals: seq<V>): (m: map<K, seq<V>>)
    requires |keys| == |vals|
    ensures forall k :: k in m <==> k in keys
    ensures forall k :: k in m ==> m[k] == Where(keys, vals, k) && |m[k]| > 0
    decreases |keys|
  {
    if keys == [] then map[]
    else
      var n := |keys| - 1;
      assert keys == keys[..n] + [keys[n]];
      var m := GroupBy(keys[..n], vals[..n]);
      assert forall k :: Where(keys, vals, k) == Where(keys[..n], vals[..n], k) + (if keys[n] == k then [vals[n]] else []);
      WhereCount(keys[..n], vals[..n], keys[n]);
      m[keys[n] := (if keys[n] in m then m[keys[n]] else []) + [vals[n]]]
  }

  /** Grouping by a finer key never yields a larger group than the coarser key it refines. */
  lemma {:induction false} CountRefines<A, B>(a: seq<A>, b: seq<B>, x: A, y: B)
    requires |a| == |b|
    requires forall i :: 0 <= i < |a| && a[i] == x ==> b[i] == y
    ensures multiset(a)[x] <= multiset(b)[y]
    decreases |a|
  {
    if a != [] {
      var n := |a| - 1;
      assert a == a[..n] + [a[n]] && b == b[..n] + [b[n]];
      CountRefines(a[..n], b[..n], x, y);
    }
  }

  // ---------------------------------------------------------------------------
  // sort_values(ascending=False).head(k)
  // ---------------------------------------------------------------------------

  /** Keys never increase along `s`. */
  predicate NonIncreasing<T>(s: seq<T>, key: T -> real) {
    forall i, j :: 0 <= i < j < |s| ==> key(s[i]) >= key(s[j])
  }

  /** Inserts `x` before the first element whose key is not larger than its own. */
  function InsertDesc<T(==,!new)>(x: T, s: seq<T>, key: T -> real): (r: seq<T>)
    requires NonIncreasing(s, key)
    ensures |r| == |s| + 1
    ensures multiset(r) == multiset(s) + multiset{x}
    ensures NonIncreasing(r, key)
    ensures r[0] == x || (s != [] && r[0] == s[0])
  {
    if s == [] || key(x) >= key(s[0]) then
      NonIncreasingCons(x, s, key);
      [x] + s
    else
      assert NonIncreasing(s[1..], key);
      var rest := InsertDesc(x, s[1..], key);
      InsertDescStep(x, s, rest, key);
      [s[0]] + rest
  }

  /** Putting the head of `s` back in front of the insertion into its tail. */
  lemma InsertDescStep<T(!new)>(x: T, s: seq<T>, rest: seq<T>, key: T -> real)
    requires NonIncreasing(s, key) && s != [] && key(x) < key(s[0])
    requires multiset(rest) == multiset(s[1..]) + multiset{x}
    requires NonIncreasing(rest, key) && rest != []
    requires rest[0] == x || (s[1..] != [] && rest[0] == s[1..][0])
    ensures multiset([s[0]] + rest) == multiset(s) + multiset{x}
    ensures NonIncreasing([s[0]] + rest, key)
  {
    assert s == [s[0]] + s[1..];
    assert key(rest[0]) <= key(s[0]) by {
      if rest[0] != x {
        assert rest[0] == s[1];
      }
    }
    NonIncreasingCons(s[0], rest, key);
  }

  lemma NonIncreasingCons<T>(h: T, t: seq<T>, key: T -> real)
    requires NonIncreasing(t, key)
    requires t != [] ==> key(h) >= key(t[0])
    ensures NonIncreasing([h] + t, key)
  {
    var r := [h] + t;
    forall i, j | 0 <= i < j < |r| ensures key(r[i]) >= key(r[j]) {
      if i == 0 && j > 1 {
        assert key(t[0]) >= key(t[j - 1]);
      }
    }
  }

  /** A stable insertion sort by descending key. */
  function SortDesc<T(==,!new)>(s: seq<T>, key: T -> real): (r: seq<T>)
    ensures |r| == |s|
    ensures multiset(r) == multiset(s)
    ensures NonIncreasing(r, key)
  {
    if s == [] then []
    else
      assert s == [s[0]] + s[1..];
      InsertDesc(s[0], SortDesc(s[1..], key), key)
  }

  /** The largest `k` elements by key, largest first: sort_values(ascending=False).head(k). */
  function TopK<T(==,!new)>(s: seq<T>, key: T -> real, k: nat): (top: seq<T>)
    ensures |top| == if |s| < k then |s| else k
    ensures NonIncreasing(top, key)
    ensures multiset(top) <= multiset(s)
    ensures forall x, y :: x in top && y in multiset(s) - multiset(top) ==> key(y) <= key(x)
  {
    var sorted := SortDesc(s, key);
    var n := if |sorted| < k then |sorted| else k;
    TopKSplit(sorted, key, n);
    sorted[..n]
  }

  lemma TopKSplit<T(!new)>(sorted: seq<T>, key: T -> real, n: nat)
    requires NonIncreasing(sorted, key) && n <= |sorted|
    ensures multiset(sorted[..n]) <= multiset(sorted)
    ensures forall x, y :: x in sorted[..n] && y in multiset(sorted) - multiset(sorted[..n]) ==> key(y) <= key(x)
  {
    var top, rest := sorted[..n], sorted[n..];
    assert sorted == top + rest;
    assert multiset(sorted) - multiset(top) == multiset(rest);
    forall x, y | x in top && y in rest ensures key(y) <= key(x) {
      SplitOrdered(sorted, key, n, x, y);
    }
  }

  /** In a sequence with non-increasing keys, nothing after position `n` outranks anything before it. */
  lemma SplitOrdered<T>(sorted: seq<T>, key: T -> real, n: nat, x: T, y: T)
    requires NonIncreasing(sorted, key) && n <= |sorted|
    requires x in sorted[..n] && y in sorted[n..]
    ensures key(y) <= key(x)
  {
    var i :| 0 <= i < n && sorted[..n][i] == x;
    var j :| 0 <= j < |sorted| - n && sorted[n..][j] == y;
    assert sorted[i] == x && sorted[n + j] == y;
  }

  /** The last element kept by a filter is the last element of the input that passes it. */
  lemma {:induction false} FilterLast<T(!new)>(s: seq<T>, p: T -> bool, i: nat)
    requires i < |s| && p(s[i])
    requires forall j :: i < j < |s| ==> !p(s[j])
    ensures |Filter(s, p)| > 0 && Filter(s, p)[|Filter(s, p)| - 1] == s[i]
    decreases |s|
  {
    var init, last := s[..|s| - 1], s[|s| - 1];
    FilterSnoc(s, p);
    if i < |s| - 1 {
      assert forall j :: i < j < |init| ==> !p(init[j]);
      FilterLast(init, p, i);
      assert !p(last);
    }
  }

  /** Filtering a non-empty sequence filters its front and then tests its last element. */
  lemma FilterSnoc<T(!new)>(s: seq<T>, p: T -> bool)
    requires s != []
    ensures Filter(s, p) == Filter(s[..|s| - 1], p) + (if p(s[|s| - 1]) then [s[|s| - 1]] else [])
  {
  }

  /** A value at two positions occurs at least twice. */
  lemma RepeatedCount<T(!new)>(s: seq<T>, i: nat, j: nat)
    requires i < j < |s| && s[i] == s[j]
    ensures multiset(s)[s[i]] >= 2
  {
    assert s == s[..j] + [s[j]] + s[j + 1..];
    assert s[i] in s[..j];
  }

  /** Reordering a sequence without duplicates leaves it without duplicates. */
  lemma PermutationNoDuplicates<T(!new)>(a: seq<T>, b: seq<T>)
    requires multiset(a) == multiset(b) && NoDuplicates(a)
    ensures NoDuplicates(b)
  {
    forall i, j | 0 <= i < j < |b| ensures b[i] != b[j] {
      if b[i] == b[j] {
        RepeatedCount(b, i, j);
        NoDuplicatesCount(a, b[i]);
      }
    }
  }

  /** The first components of a sequence of pairs. */
  function Keys<K, V>(kv: seq<(K, V)>): (ks: seq<K>)
    ensures |ks| == |kv|
    ensures forall i :: 0 <= i < |kv| ==> ks[i] == kv[i].0
  {
    seq(|kv|, i requires 0 <= i < |kv| => kv[i].0)
  }

  /** `n` copies of `v`. */
  function Fill<T>(v: T, n: nat): (s: seq<T>)
    ensures |s| == n
    ensures forall i :: 0 <= i < n ==> s[i] == v
  {
    if n == 0 then [] else [v] + Fill(v, n - 1)
  }
}
