/** Keyset pagination: statements of the form WHERE key > cursor ORDER BY key LIMIT n. */
module KeysetPages {
  import opened CorpusTables
  import opened Sorting

  function Filter<T>(s: seq<T>, p: T -> bool): seq<T> {
    if s == [] then []
    else Filter(s[..|s| - 1], p) + if p(s[|s| - 1]) then [s[|s| - 1]] else []
  }

  /** No two rows have the same key. */
  ghost predicate Keyed<T(!new)>(rows: seq<T>, key: T -> Key) {
    forall i, j :: 0 <= i < j < |rows| ==> key(rows[i]) != key(rows[j])
  }

  predicate Follows(k: Key, after: Option<Key>) { after.Some? ==> Less(after.value, k) }

  /** The rows of one statement. */
  function Page<T>(rows: seq<T>, key: T -> Key, after: Option<Key>, limit: nat): (page: seq<T>)
    ensures |page| <= limit
  {
    var sorted := SortBy(Filter(rows, (x: T) => Follows(key(x), after)), key);
    if limit < |sorted| then sorted[..limit] else sorted
  }

  // ---------------------------------------------------------------- filtering

  lemma {:induction false} FilterCounts<T(!new)>(s: seq<T>, p: T -> bool, x: T)
    ensures multiset(Filter(s, p))[x] == if p(x) then multiset(s)[x] else 0
    decreases |s|
  {
    if s != [] {
      FilterCounts(s[..|s| - 1], p, x);
      FrontAndLast(s);
    }
  }

  lemma FilterMembers<T(!new)>(s: seq<T>, p: T -> bool, x: T)
    ensures x in Filter(s, p) <==> x in s && p(x)
  {
    hide Filter;
    FilterCounts(s, p, x);
    assert x in Filter(s, p) <==> x in multiset(Filter(s, p));
    assert x in s <==> x in multiset(s);
  }

  lemma BelowLast<T(!new)>(s: seq<T>, key: T -> Key, x: T)
    requires Ordered(s, key) && s != [] && x in s[..|s| - 1]
    ensures AtMost(key(x), key(s[|s| - 1]))
  {
    hide Less;
    var i :| 0 <= i < |s| - 1 && s[i] == x;
  }

  lemma {:induction false} FilterOrdered<T(!new)>(s: seq<T>, p: T -> bool, key: T -> Key)
    requires Ordered(s, key)
    ensures Ordered(Filter(s, p), key)
    decreases |s|
  {
    hide Less;
    if s != [] {
      var front, last := s[..|s| - 1], s[|s| - 1];
      FilterOrdered(front, p, key);
      var kept := Filter(front, p);
      forall i | 0 <= i < |kept| ensures AtMost(key(kept[i]), key(last)) {
        FilterMembers(front, p, kept[i]);
        BelowLast(s, key, kept[i]);
      }
    }
  }

  lemma {:induction false} FilterSuffix<T(!new)>(s: seq<T>, i: nat, p: T -> bool)
    requires i <= |s| && (forall k :: 0 <= k < i ==> !p(s[k])) && (forall k :: i <= k < |s| ==> p(s[k]))
    ensures Filter(s, p) == s[i..]
    decreases |s|
  {
    if s != [] {
      if i < |s| {
        FilterSuffix(s[..|s| - 1], i, p);
        assert s[i..] == s[..|s| - 1][i..] + [s[|s| - 1]];
      } else {
        FilterSuffix(s[..|s| - 1], |s| - 1, p);
      }
    }
  }

  lemma {:induction false} FilterKeyed<T(!new)>(rows: seq<T>, p: T -> bool, key: T -> Key)
    requires Keyed(rows, key)
    ensures Keyed(Filter(rows, p), key)
    decreases |rows|
  {
    if rows != [] {
      var front, last := rows[..|rows| - 1], rows[|rows| - 1];
      FilterKeyed(front, p, key);
      var kept := Filter(front, p);
      forall i | 0 <= i < |kept| ensures key(kept[i]) != key(last) {
        FilterMembers(front, p, kept[i]);
        var k :| 0 <= k < |front| && front[k] == kept[i];
        assert key(rows[k]) != key(rows[|rows| - 1]);
      }
    }
  }

  /** Filtering before sorting is sorting before filtering. */
  lemma SortThenFilter<T(!new)>(rows: seq<T>, p: T -> bool, key: T -> Key)
    requires Keyed(rows, key)
    ensures SortBy(Filter(rows, p), key) == Filter(SortBy(rows, key), p)
  {
    hide Less, SortBy, Filter;
    var a, b := SortBy(Filter(rows, p), key), Filter(SortBy(rows, key), p);
    SortOrdered(Filter(rows, p), key);
    SortOrdered(rows, key);
    FilterOrdered(SortBy(rows, key), p, key);
    forall x ensures multiset(a)[x] == multiset(b)[x] {
      FilterCounts(rows, p, x);
      FilterCounts(SortBy(rows, key), p, x);
    }
    forall x, y | x in a && y in a && key(x) == key(y) ensures x == y {
      SameElements(a, Filter(rows, p));
      FilterMembers(rows, p, x);
      FilterMembers(rows, p, y);
    }
    SortedIsUnique(a, b, key);
  }

  // ---------------------------------------------------------------- sorting distinct keys

  lemma TwiceIn<T(!new)>(s: seq<T>, i: nat, j: nat)
    requires i < j < |s| && s[i] == s[j]
    ensures multiset(s)[s[i]] >= 2
  {
    assert s == s[..i] + [s[i]] + s[i + 1..j] + [s[j]] + s[j + 1..];
  }

  lemma {:induction false} OnceKeyed<T(!new)>(rows: seq<T>, key: T -> Key, x: T)
    requires Keyed(rows, key)
    ensures multiset(rows)[x] <= 1
    decreases |rows|
  {
    if rows != [] {
      var front, last := rows[..|rows| - 1], rows[|rows| - 1];
      FrontAndLast(rows);
      OnceKeyed(front, key, x);
      assert forall i :: 0 <= i < |front| ==> front[i] != last;
    }
  }

  lemma SortKeyed<T(!new)>(rows: seq<T>, key: T -> Key)
    requires Keyed(rows, key)
    ensures Keyed(SortBy(rows, key), key) && Distinguishes(key, rows)
  {
    hide Less, SortBy;
    var s := SortBy(rows, key);
    SameElements(rows, s);
    forall i, j | 0 <= i < j < |s| ensures key(s[i]) != key(s[j]) {
      if key(s[i]) == key(s[j]) {
        SameKeySameRow(rows, key, s[i], s[j]);
        TwiceIn(s, i, j);
        OnceKeyed(rows, key, s[i]);
        assert false;
      }
    }
  }

  lemma SameKeySameRow<T(!new)>(rows: seq<T>, key: T -> Key, x: T, y: T)
    requires Keyed(rows, key) && x in rows && y in rows && key(x) == key(y)
    ensures x == y
  {
  }

  /** Sorted rows with distinct keys rise strictly. */
  lemma SortRises<T(!new)>(rows: seq<T>, key: T -> Key, i: nat, j: nat)
    requires Keyed(rows, key) && i < |SortBy(rows, key)| && j < |SortBy(rows, key)|
    ensures i < j <==> Less(key(SortBy(rows, key)[i]), key(SortBy(rows, key)[j]))
  {
    hide Less, SortBy;
    var s := SortBy(rows, key);
    SortOrdered(rows, key);
    SortKeyed(rows, key);
    Trichotomy(key(s[i]), key(s[j]));
    assert i < j ==> AtMost(key(s[i]), key(s[j]));
    assert j < i ==> AtMost(key(s[j]), key(s[i]));
  }

  /** The statement after a row returns what follows it in the sorted whole. */
  lemma PageContinues<T(!new)>(rows: seq<T>, key: T -> Key, n: nat, limit: nat)
    requires Keyed(rows, key) && n <= |SortBy(rows, key)|
    ensures var all := SortBy(rows, key);
            var page := Page(rows, key, if n == 0 then None else Some(key(all[n - 1])), limit);
            page == if n + limit < |all| then all[n..n + limit] else all[n..]
  {
    hide Less, SortBy, Filter;
    var all := SortBy(rows, key);
    var after := if n == 0 then None else Some(key(all[n - 1]));
    var p := (x: T) => Follows(key(x), after);
    SortThenFilter(rows, p, key);
    forall k | 0 <= k < |all| ensures p(all[k]) <==> k >= n {
      if 0 < n { SortRises(rows, key, n - 1, k); }
    }
    FilterSuffix(all, n, p);
  }
}
