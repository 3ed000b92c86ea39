/**
 * Order-keeping list operations that the source writes as loops over a
 * `seen` set or as `dict.fromkeys(...)`: de-duplication in first-seen order,
 * filtering, building a list with a skip-or-append loop, the stable sort
 * behind `sorted(key=...)`, and the first index of a value.
 */
module Sequences {
  import opened Optional

  predicate NoDuplicates<T(==)>(s: seq<T>) {
    forall i, j :: 0 <= i < j < |s| ==> s[i] != s[j]
  }

  /** The set of values a list holds (`set(s)` in Python). */
  ghost function Elems<T>(s: seq<T>): set<T> {
    set x | x in s
  }

  /** `s.index(x)`: the position of the first occurrence. */
  function FirstIndex<T(==)>(s: seq<T>, x: T): (r: nat)
    requires x in s
    ensures r < |s| && s[r] == x && x !in s[..r]
  {
    if s[0] == x then 0
    else
      var k := FirstIndex(s[1..], x);
      assert s[..k + 1] == [s[0]] + s[1..][..k];
      k + 1
  }

  /** A value first seen in a prefix keeps its first index in the whole list. */
  lemma FirstIndexPrefix<T>(s: seq<T>, n: nat, x: T)
    requires n <= |s| && x in s[..n]
    ensures x in s && FirstIndex(s, x) == FirstIndex(s[..n], x)
  {
    var b := FirstIndex(s[..n], x);
    assert s[..n][..b] == s[..b];
    FirstIndexUnique(s, x, b);
  }

  /** The first index is the position that holds the value and has no
      earlier occurrence. */
  lemma FirstIndexUnique<T>(s: seq<T>, x: T, b: nat)
    requires b < |s| && s[b] == x && x !in s[..b]
    ensures FirstIndex(s, x) == b
  {
  }

  /** The values of `s` without repetitions, each at its first occurrence —
      what an append loop guarded by `if x not in seen` produces, and what
      `list(dict.fromkeys(s))` produces (`DedupSpec`). */
  function Dedup<T(==)>(s: seq<T>): seq<T> {
    if s == [] then []
    else
      var d := Dedup(s[..|s| - 1]);
      if s[|s| - 1] in d then d else d + [s[|s| - 1]]
  }

  /** The de-duplicated list holds the same values, each once, in order of
      first appearance, and is no longer than the list. */
  lemma {:induction false} DedupSpec<T>(s: seq<T>)
    ensures forall x :: x in Dedup(s) <==> x in s
    ensures NoDuplicates(Dedup(s))
    ensures |Dedup(s)| <= |s|
    ensures forall i, j :: 0 <= i < j < |Dedup(s)| ==> FirstIndex(s, Dedup(s)[i]) < FirstIndex(s, Dedup(s)[j])
  {
    if s != [] {
      var init, last := s[..|s| - 1], s[|s| - 1];
      var d := Dedup(init);
      DedupSpec(init);
      assert s == init + [last];
      forall x | x in init
        ensures x in s && FirstIndex(s, x) == FirstIndex(init, x)
      {
        FirstIndexPrefix(s, |s| - 1, x);
      }
      if last !in d {
        forall k | 0 <= k < |init|
          ensures s[k] != last
        {
          assert init[k] == s[k];
        }
        assert FirstIndex(s, last) == |s| - 1;
      }
    }
  }

  lemma DedupMember<T>(s: seq<T>, x: T)
    ensures x in Dedup(s) <==> x in s
  {
    DedupSpec(s);
  }

  /** Appending one value extends the de-duplicated list by that value exactly
      when it has not been seen before. */
  lemma DedupSnoc<T>(s: seq<T>, x: T)
    ensures Dedup(s + [x]) == if x in s then Dedup(s) else Dedup(s) + [x]
  {
    assert (s + [x])[..|s|] == s;
    DedupSpec(s);
  }

  /** A list without repetitions has as many entries as distinct values. */
  lemma {:induction false} NoDuplicatesCard<T>(s: seq<T>)
    requires NoDuplicates(s)
    ensures |Elems(s)| == |s|
  {
    if s != [] {
      var init := s[..|s| - 1];
      NoDuplicatesCard(init);
      assert Elems(s) == Elems(init) + {s[|s| - 1]};
      assert s[|s| - 1] !in Elems(init);
    }
  }

  /** The de-duplicated list has exactly one entry per distinct value. */
  lemma DedupCard<T>(s: seq<T>)
    ensures |Dedup(s)| == |Elems(s)|
  {
    DedupSpec(s);
    NoDuplicatesCard(Dedup(s));
    assert Elems(Dedup(s)) == Elems(s);
  }

  /** De-duplicating a list that has no repetitions changes nothing. */
  lemma {:induction false} DedupNoDuplicates<T>(s: seq<T>)
    requires NoDuplicates(s)
    ensures Dedup(s) == s
  {
    if s != [] {
      var init := s[..|s| - 1];
      DedupNoDuplicates(init);
      assert s == init + [s[|s| - 1]];
      DedupSnoc(init, s[|s| - 1]);
    }
  }

  /** `[x for x in s if p(x)]` (`FilterMembers`). */
  function Filter<T>(s: seq<T>, p: T -> bool): seq<T> {
    if s == [] then [] else Filter(s[..|s| - 1], p) + (if p(s[|s| - 1]) then [s[|s| - 1]] else [])
  }

  lemma FilterSnoc<T>(s: seq<T>, x: T, p: T -> bool)
    ensures Filter(s + [x], p) == Filter(s, p) + (if p(x) then [x] else [])
  {
    assert (s + [x])[..|s|] == s;
  }

  /** The filtered list holds exactly the values of `s` that pass the test,
      and is no longer than `s`. */
  lemma {:induction false} FilterMembers<T>(s: seq<T>, p: T -> bool)
    ensures forall x :: x in Filter(s, p) <==> x in s && p(x)
    ensures |Filter(s, p)| <= |s|
  {
    if s != [] {
      var init := s[..|s| - 1];
      FilterMembers(init, p);
      assert s == init + [s[|s| - 1]];
    }
  }

  /** Filtering and de-duplicating commute: the kept values are the distinct
      values in order of first appearance that pass the test. */
  lemma {:induction false} DedupFilter<T>(s: seq<T>, p: T -> bool)
    ensures Dedup(Filter(s, p)) == Filter(Dedup(s), p)
  {
    if s != [] {
      var init, x := s[..|s| - 1], s[|s| - 1];
      assert s == init + [x];
      DedupFilter(init, p);
      FilterSnoc(init, x, p);
      DedupSnoc(init, x);
      if p(x) {
        DedupSnoc(Filter(init, p), x);
        FilterMembers(init, p);
        FilterSnoc(Dedup(init), x, p);
      } else {
        assert Filter(init, p) + [] == Filter(init, p);
        if x !in init {
          FilterSnoc(Dedup(init), x, p);
          assert Filter(Dedup(init), p) + [] == Filter(Dedup(init), p);
        }
      }
    }
  }

  /** One more value extends the de-duplicated filtered list exactly when it
      passes the test and has not been kept before. */
  lemma DedupFilterSnoc<T>(s: seq<T>, x: T, p: T -> bool)
    ensures Dedup(Filter(s + [x], p)) ==
      if p(x) && x !in Dedup(Filter(s, p)) then Dedup(Filter(s, p)) + [x] else Dedup(Filter(s, p))
  {
    FilterSnoc(s, x, p);
    if p(x) {
      DedupSnoc(Filter(s, p), x);
      DedupSpec(Filter(s, p));
    } else {
      assert Filter(s, p) + [] == Filter(s, p);
    }
  }

  /** The de-duplicated filtered list holds each value of `s` that passes the
      test, once. */
  lemma DedupFilterMembers<T>(s: seq<T>, p: T -> bool)
    ensures NoDuplicates(Dedup(Filter(s, p)))
    ensures forall x :: x in Dedup(Filter(s, p)) <==> x in s && p(x)
  {
    DedupSpec(Filter(s, p));
    FilterMembers(s, p);
  }

  predicate SortedBy<T>(s: seq<T>, key: T -> int) {
    forall i, j :: 0 <= i < j < |s| ==> key(s[i]) <= key(s[j])
  }

  /** Places `x` before the first value whose key is not smaller. */
  function InsertBy<T>(x: T, sorted: seq<T>, key: T -> int): seq<T> {
    if sorted == [] || key(x) <= key(sorted[0]) then [x] + sorted
    else [sorted[0]] + InsertBy(x, sorted[1..], key)
  }

  /** Inserting adds exactly `x`. */
  lemma {:induction false} InsertByPermutes<T>(x: T, sorted: seq<T>, key: T -> int)
    ensures multiset(InsertBy(x, sorted, key)) == multiset(sorted) + multiset{x}
  {
    if sorted != [] && key(x) > key(sorted[0]) {
      InsertByPermutes(x, sorted[1..], key);
      assert sorted == [sorted[0]] + sorted[1..];
    }
  }

  lemma {:induction false} InsertByMember<T>(x: T, sorted: seq<T>, key: T -> int, y: T)
    ensures y in InsertBy(x, sorted, key) <==> y == x || y in sorted
  {
    if sorted != [] && key(x) > key(sorted[0]) {
      InsertByMember(x, sorted[1..], key, y);
      assert sorted == [sorted[0]] + sorted[1..];
    }
  }

  /** Inserting into a sorted list keeps it sorted. */
  lemma {:induction false} InsertBySorted<T>(x: T, sorted: seq<T>, key: T -> int)
    requires SortedBy(sorted, key)
    ensures SortedBy(InsertBy(x, sorted, key), key)
  {
    if sorted != [] && key(x) > key(sorted[0]) {
      var rest := InsertBy(x, sorted[1..], key);
      InsertBySorted(x, sorted[1..], key);
      var r := InsertBy(x, sorted, key);
      assert r == [sorted[0]] + rest;
      forall i, j | 0 <= i < j < |r|
        ensures key(r[i]) <= key(r[j])
      {
        if i > 0 {
          assert r[i] == rest[i - 1] && r[j] == rest[j - 1];
        } else {
          var y := rest[j - 1];
          assert r[j] == y && y in rest;
          InsertByMember(x, sorted[1..], key, y);
          if y != x {
            var m :| 0 <= m < |sorted[1..]| && sorted[1..][m] == y;
            assert sorted[m + 1] == y;
          }
        }
      }
    }
  }

  /** `sorted(s, key=key)`: an insertion sort, which like Python's sort is
      stable (`SortBySpec`, `SortByStable`). */
  function SortBy<T>(s: seq<T>, key: T -> int): seq<T> {
    if s == [] then [] else InsertBy(s[0], SortBy(s[1..], key), key)
  }

  /** The sorted list is a permutation of the list, ordered by the key. */
  lemma {:induction false} SortBySpec<T>(s: seq<T>, key: T -> int)
    ensures multiset(SortBy(s, key)) == multiset(s)
    ensures SortedBy(SortBy(s, key), key)
  {
    if s != [] {
      SortBySpec(s[1..], key);
      InsertByPermutes(s[0], SortBy(s[1..], key), key);
      InsertBySorted(s[0], SortBy(s[1..], key), key);
      assert s == [s[0]] + s[1..];
    }
  }

  /** The values whose key is `k`, in list order. */
  function WithKey<T>(s: seq<T>, key: T -> int, k: int): seq<T> {
    if s == [] then []
    else (if key(s[0]) == k then [s[0]] else []) + WithKey(s[1..], key, k)
  }

  lemma {:induction false} InsertByWithKey<T>(x: T, sorted: seq<T>, key: T -> int, k: int)
    ensures WithKey(InsertBy(x, sorted, key), key, k) == (if key(x) == k then [x] else []) + WithKey(sorted, key, k)
  {
    var r := InsertBy(x, sorted, key);
    if sorted != [] && key(x) > key(sorted[0]) {
      InsertByWithKey(x, sorted[1..], key, k);
      assert r[1..] == InsertBy(x, sorted[1..], key);
    } else {
      assert r[1..] == sorted;
    }
  }

  /** Stability: among values with the same key, the sorted list keeps the
      order of the input. */
  lemma {:induction false} SortByStable<T>(s: seq<T>, key: T -> int, k: int)
    ensures WithKey(SortBy(s, key), key, k) == WithKey(s, key, k)
  {
    if s != [] {
      SortByStable(s[1..], key, k);
      InsertByWithKey(s[0], SortBy(s[1..], key), key, k);
    }
  }

  /** A loop that computes `f(x)` for each `x` in turn, skips it on `None`
      and appends the value otherwise. */
  function FilterMap<T, U>(s: seq<T>, f: T -> Option<U>): seq<U> {
    if s == [] then []
    else FilterMap(s[..|s| - 1], f) + (if f(s[|s| - 1]).Some? then [f(s[|s| - 1]).value] else [])
  }

  lemma FilterMapSnoc<T, U>(s: seq<T>, x: T, f: T -> Option<U>)
    ensures FilterMap(s + [x], f) == FilterMap(s, f) + (if f(x).Some? then [f(x).value] else [])
  {
    assert (s + [x])[..|s|] == s;
  }

  /** One more element of a prefix. */
  lemma FilterMapTake<T, U>(s: seq<T>, i: nat, f: T -> Option<U>)
    requires i < |s|
    ensures FilterMap(s[..i + 1], f) == FilterMap(s[..i], f) + (if f(s[i]).Some? then [f(s[i]).value] else [])
  {
    assert s[..i + 1] == s[..i] + [s[i]];
    FilterMapSnoc(s[..i], s[i], f);
  }

  /** A value is in the result exactly when some element maps to it. */
  /** Some element satisfies `p` exactly when one before the last does, or
      the last one does. */
  lemma ExistsSnoc<T>(s: seq<T>, p: T -> bool)
    requires s != []
    ensures var k := |s| - 1;
      (exists i :: 0 <= i < |s| && p(s[i])) <==> (exists i :: 0 <= i < k && p(s[..k][i])) || p(s[k])
  {
    var k := |s| - 1;
    if exists i :: 0 <= i < k && p(s[..k][i]) {
      var i :| 0 <= i < k && p(s[..k][i]);
      assert s[i] == s[..k][i];
    }
    if exists i :: 0 <= i < |s| && p(s[i]) {
      var i :| 0 <= i < |s| && p(s[i]);
      if i < k {
        assert s[..k][i] == s[i];
      }
    }
  }

  /** An element that maps to a value contributes it. */
  lemma FilterMapHas<T, U>(s: seq<T>, f: T -> Option<U>, i: nat)
    requires i < |s| && f(s[i]).Some?
    ensures f(s[i]).value in FilterMap(s, f)
  {
    FilterMapMember(s, f, f(s[i]).value);
  }

  lemma {:induction false} FilterMapMember<T, U>(s: seq<T>, f: T -> Option<U>, y: U)
    ensures y in FilterMap(s, f) <==> exists i :: 0 <= i < |s| && f(s[i]) == Some(y)
  {
    if s != [] {
      var init := s[..|s| - 1];
      FilterMapMember(init, f, y);
      if exists i :: 0 <= i < |init| && f(init[i]) == Some(y) {
        var i :| 0 <= i < |init| && f(init[i]) == Some(y);
        assert s[i] == init[i];
      }
      if exists i :: 0 <= i < |s| && f(s[i]) == Some(y) {
        var i :| 0 <= i < |s| && f(s[i]) == Some(y);
        if i < |init| {
          assert init[i] == s[i];
        }
      }
    }
  }

  /** A list without repeats holds each value at most once. */
  lemma {:induction false} NoDuplicatesCount<T>(s: seq<T>, x: T)
    requires NoDuplicates(s)
    ensures multiset(s)[x] <= 1
  {
    if s != [] {
      var init := s[..|s| - 1];
      assert s == init + [s[|s| - 1]];
      assert NoDuplicates(init);
      NoDuplicatesCount(init, x);
      if s[|s| - 1] == x {
        assert x !in init;
      }
    }
  }

  /** A value at two positions is counted at least twice. */
  lemma RepeatCount<T>(s: seq<T>, i: nat, j: nat)
    requires i < j < |s|
    ensures s[i] == s[j] ==> multiset(s)[s[i]] >= 2
  {
    assert s == s[..j] + s[j..];
    assert s[i] in s[..j] && s[j] in s[j..];
    assert multiset(s) == multiset(s[..j]) + multiset(s[j..]);
  }

  /** A reordering of a list without repeats has none. */
  lemma PermutationNoDuplicates<T>(a: seq<T>, b: seq<T>)
    requires NoDuplicates(a) && multiset(a) == multiset(b)
    ensures NoDuplicates(b)
  {
    forall i, j | 0 <= i < j < |b|
      ensures b[i] != b[j]
    {
      RepeatCount(b, i, j);
      NoDuplicatesCount(a, b[i]);
    }
  }

  /** A loop that appends the list `f(x)` for each `x` in turn. */
  function FlatMap<T, U>(s: seq<T>, f: T -> seq<U>): seq<U> {
    if s == [] then [] else FlatMap(s[..|s| - 1], f) + f(s[|s| - 1])
  }

  lemma FlatMapSnoc<T, U>(s: seq<T>, x: T, f: T -> seq<U>)
    ensures FlatMap(s + [x], f) == FlatMap(s, f) + f(x)
  {
    assert (s + [x])[..|s|] == s;
  }

  /** A value is in the result exactly when it is in the list of some element. */
  lemma {:induction false} FlatMapMember<T, U>(s: seq<T>, f: T -> seq<U>, y: U)
    ensures y in FlatMap(s, f) <==> exists i :: 0 <= i < |s| && y in f(s[i])
  {
    if s != [] {
      var init := s[..|s| - 1];
      FlatMapMember(init, f, y);
      if exists i :: 0 <= i < |init| && y in f(init[i]) {
        var i :| 0 <= i < |init| && y in f(init[i]);
        assert s[i] == init[i];
      }
      if exists i :: 0 <= i < |s| && y in f(s[i]) {
        var i :| 0 <= i < |s| && y in f(s[i]);
        if i < |init| {
          assert init[i] == s[i];
        }
      }
    }
  }

  /** The result is empty exactly when every element's list is. */
  lemma {:induction false} FlatMapEmpty<T, U>(s: seq<T>, f: T -> seq<U>)
    ensures FlatMap(s, f) == [] <==> forall i :: 0 <= i < |s| ==> f(s[i]) == []
  {
    if s != [] {
      var init := s[..|s| - 1];
      FlatMapEmpty(init, f);
      assert forall i :: 0 <= i < |init| ==> init[i] == s[i];
    }
  }

  /** When every produced value keeps its element's key, a sorted list gives
      a sorted result. */
  lemma {:induction false} FilterMapSorted<T, U>(s: seq<T>, f: T -> Option<U>, key: T -> int, key': U -> int)
    requires forall x :: f(x).Some? ==> key'(f(x).value) == key(x)
    requires SortedBy(s, key)
    ensures SortedBy(FilterMap(s, f), key')
  {
    if s != [] {
      var init, last := s[..|s| - 1], s[|s| - 1];
      assert SortedBy(init, key);
      FilterMapSorted(init, f, key, key');
      var before := FilterMap(init, f);
      if f(last).Some? {
        forall k | 0 <= k < |before|
          ensures key'(before[k]) <= key(last)
        {
          FilterMapMember(init, f, before[k]);
          var i :| 0 <= i < |init| && f(init[i]) == Some(before[k]);
          assert init[i] == s[i];
        }
        var r := before + [f(last).value];
        forall i, j | 0 <= i < j < |r|
          ensures key'(r[i]) <= key'(r[j])
        {
          if j < |before| {
            assert r[i] == before[i] && r[j] == before[j];
          } else {
            assert r[i] == before[i];
          }
        }
      }
    }
  }

  /** The element of the unsorted list that a value produced from the
      sorted list comes from. */
  lemma FilterMapSortBySource<T, U>(s: seq<T>, key: T -> int, f: T -> Option<U>, y: U) returns (k: nat)
    requires y in FilterMap(SortBy(s, key), f)
    ensures k < |s| && f(s[k]) == Some(y)
  {
    var sorted := SortBy(s, key);
    FilterMapMember(sorted, f, y);
    var i :| 0 <= i < |sorted| && f(sorted[i]) == Some(y);
    SortBySpec(s, key);
    assert sorted[i] in multiset(s);
    k :| 0 <= k < |s| && s[k] == sorted[i];
  }

  /** Every value an element produces is in the result of the sorted list. */
  lemma FilterMapSortByKeeps<T, U>(s: seq<T>, key: T -> int, f: T -> Option<U>, k: nat)
    requires k < |s| && f(s[k]).Some?
    ensures f(s[k]).value in FilterMap(SortBy(s, key), f)
  {
    var sorted := SortBy(s, key);
    SortBySpec(s, key);
    assert s[k] in multiset(sorted);
    var i :| 0 <= i < |sorted| && sorted[i] == s[k];
    FilterMapMember(sorted, f, f(s[k]).value);
  }
}
