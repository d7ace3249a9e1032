/** Stable sorting by a lexicographic key, as every deterministic order in the system is. */
module Sorting {

  /** A sort key: numbers, collation ranks and text ranks, compared from the left. */
  type Key = seq<int>

  predicate Less(a: Key, b: Key) {
    b != [] && (a == [] || a[0] < b[0] || (a[0] == b[0] && Less(a[1..], b[1..])))
  }

  predicate AtMost(a: Key, b: Key) { !Less(b, a) }

  lemma {:induction false} Trichotomy(a: Key, b: Key)
    ensures a == b ==> !Less(a, b)
    ensures Less(a, b) ==> !Less(b, a)
    ensures !Less(a, b) && !Less(b, a) ==> a == b
    decreases |a|
  {
    if a != [] && b != [] {
      Trichotomy(a[1..], b[1..]);
      assert a == [a[0]] + a[1..] && b == [b[0]] + b[1..];
    }
  }

  lemma {:induction false} LessTransitive(a: Key, b: Key, c: Key)
    requires AtMost(a, b) && AtMost(b, c)
    ensures AtMost(a, c) && (Less(a, b) || Less(b, c) ==> Less(a, c))
    decreases |a|
  {
    if a != [] && b != [] && c != [] && a[0] == b[0] == c[0] {
      LessTransitive(a[1..], b[1..], c[1..]);
    }
  }

  /** Equally long beginnings decide first. */
  lemma {:induction false} LessAppend(a: Key, x: Key, b: Key, y: Key)
    requires |a| == |b|
    ensures Less(a + x, b + y) <==> Less(a, b) || (a == b && Less(x, y))
    decreases |a|
  {
    if a == [] {
      assert a + x == x && b + y == y;
    } else {
      assert (a + x)[1..] == a[1..] + x && (b + y)[1..] == b[1..] + y;
      LessAppend(a[1..], x, b[1..], y);
      assert a == [a[0]] + a[1..] && b == [b[0]] + b[1..];
    }
  }

  ghost predicate Ordered<T>(s: seq<T>, key: T -> Key) {
    forall i, j :: 0 <= i < j < |s| ==> AtMost(key(s[i]), key(s[j]))
  }

  /** The first part of two keys decides, unless it is the same. */
  lemma HeadDecides(x: int, a: Key, y: int, b: Key)
    ensures Less([x] + a, [y] + b) <==> x < y || (x == y && Less(a, b))
  {
    LessAppend([x], a, [y], b);
  }

  /** Different elements have different keys. */
  ghost predicate Distinguishes<T(!new)>(key: T -> Key, s: seq<T>) {
    forall x, y :: x in s && y in s && key(x) == key(y) ==> x == y
  }

  /** Insert behind every element that is not greater. */
  function Insert<T>(x: T, s: seq<T>, key: T -> Key): (r: seq<T>)
    ensures multiset(r) == multiset(s) + multiset{x}
  {
    if s == [] then [x]
    else if Less(key(x), key(s[|s| - 1])) then
      assert s == s[..|s| - 1] + [s[|s| - 1]];
      Insert(x, s[..|s| - 1], key) + [s[|s| - 1]]
    else s + [x]
  }

  /** A stable sort. */
  function SortBy<T>(s: seq<T>, key: T -> Key): (r: seq<T>)
    ensures multiset(r) == multiset(s)
  {
    if s == [] then []
    else
      assert s == s[..|s| - 1] + [s[|s| - 1]];
      Insert(s[|s| - 1], SortBy(s[..|s| - 1], key), key)
  }

  lemma SameElements<T(!new)>(a: seq<T>, b: seq<T>)
    requires multiset(a) == multiset(b)
    ensures |a| == |b| && forall x :: x in a <==> x in b
  {
    assert |multiset(a)| == |multiset(b)|;
    forall x ensures x in a <==> x in b {
      assert x in a <==> x in multiset(a);
    }
  }

  lemma AtMostLast<T(!new)>(y: T, r: seq<T>, x: T, s: seq<T>, key: T -> Key)
    requires Ordered(s, key) && s != [] && Less(key(x), key(s[|s| - 1]))
    requires y in r && forall z :: z in r ==> z in s[..|s| - 1] + [x]
    ensures AtMost(key(y), key(s[|s| - 1]))
  {
    hide Less;
    assert y in s[..|s| - 1] + [x];
    Trichotomy(key(x), key(s[|s| - 1]));
    if y != x { assert y in s[..|s| - 1]; }
  }

  lemma {:induction false} InsertOrdered<T(!new)>(x: T, s: seq<T>, key: T -> Key)
    requires Ordered(s, key)
    ensures Ordered(Insert(x, s, key), key)
    decreases |s|
  {
    hide Less;
    if s != [] {
      var front, last := s[..|s| - 1], s[|s| - 1];
      if Less(key(x), key(last)) {
        InsertOrdered(x, front, key);
        var r := Insert(x, front, key);
        assert multiset(front + [x]) == multiset(r);
        SameElements(front + [x], r);
        forall i | 0 <= i < |r| ensures AtMost(key(r[i]), key(last)) {
          AtMostLast(r[i], r, x, s, key);
        }
      } else {
        forall i | 0 <= i < |s| ensures AtMost(key(s[i]), key(x)) {
          if i < |s| - 1 { LessTransitive(key(s[i]), key(last), key(x)); }
        }
      }
    }
  }

  lemma {:induction false} SortOrdered<T(!new)>(s: seq<T>, key: T -> Key)
    ensures Ordered(SortBy(s, key), key)
    decreases |s|
  {
    if s != [] {
      SortOrdered(s[..|s| - 1], key);
      InsertOrdered(s[|s| - 1], SortBy(s[..|s| - 1], key), key);
    }
  }

  /** A list already in order is left alone. */
  lemma {:induction false} SortIdentity<T>(s: seq<T>, key: T -> Key)
    requires Ordered(s, key)
    ensures SortBy(s, key) == s
    decreases |s|
  {
    if s != [] {
      var front, last := s[..|s| - 1], s[|s| - 1];
      SortIdentity(front, key);
      assert s == front + [last];
      if front != [] {
        assert AtMost(key(s[|s| - 2]), key(s[|s| - 1]));
      }
    }
  }

  lemma {:induction false} HeadIsLeast<T>(s: seq<T>, x: T, key: T -> Key)
    requires Ordered(s, key) && x in s
    ensures AtMost(key(s[0]), key(x))
  {
    hide Less;
    Trichotomy(key(s[0]), key(s[0]));
  }

  /** Sorted lists of the same distinguishable elements are the same list: a sorted result does
      not depend on the order in which its elements arrived. */
  lemma {:induction false} SortedIsUnique<T(!new)>(a: seq<T>, b: seq<T>, key: T -> Key)
    requires Ordered(a, key) && Ordered(b, key) && multiset(a) == multiset(b) && Distinguishes(key, a)
    ensures a == b
    decreases |a|
  {
    hide Less, SortBy, Insert;
    SameElements(a, b);
    if a != [] {
      assert a[0] in b && b[0] in a;
      HeadIsLeast(a, b[0], key);
      HeadIsLeast(b, a[0], key);
      Trichotomy(key(a[0]), key(b[0]));
      WithoutHead(a, b);
      SortedIsUnique(a[1..], b[1..], key);
    }
  }

  lemma WithoutHead<T(!new)>(a: seq<T>, b: seq<T>)
    requires a != [] && b != [] && a[0] == b[0] && multiset(a) == multiset(b)
    ensures multiset(a[1..]) == multiset(b[1..]) && a == [a[0]] + a[1..] && b == [b[0]] + b[1..]
  {
    assert a == [a[0]] + a[1..] && b == [b[0]] + b[1..];
    assert multiset(a[1..]) == multiset(a) - multiset{a[0]};
    assert multiset(b[1..]) == multiset(b) - multiset{b[0]};
  }

  lemma TakenOut<T>(before: seq<T>, x: T, after: seq<T>)
    ensures multiset(before + after) == multiset((before + [x]) + after) - multiset{x}
  {
    assert multiset((before + [x]) + after) == multiset(before) + multiset{x} + multiset(after);
  }

  lemma CutAt<T>(s: seq<T>, k: nat)
    requires k < |s|
    ensures s == (s[..k] + [s[k]]) + s[k + 1..]
  {
  }

  lemma WithoutOne<T>(front: seq<T>, x: T, before: seq<T>, after: seq<T>)
    requires multiset(front + [x]) == multiset((before + [x]) + after)
    ensures multiset(front) == multiset(before + after)
  {
    TakenOut(front, x, []);
    TakenOut(before, x, after);
    assert front + [] == front && (front + [x]) + [] == front + [x];
  }

  lemma StandsAt<T(!new)>(a: seq<T>, b: seq<T>, x: T) returns (k: nat)
    requires multiset(a) == multiset(b) && x in a
    ensures k < |b| && b[k] == x
  {
    SameElements(a, b);
    k :| 0 <= k < |b| && b[k] == x;
  }

  /** Where the last element of one list stands in another with the same elements. */
  lemma WithoutLast<T(!new)>(front: seq<T>, x: T, b: seq<T>) returns (before: seq<T>, after: seq<T>)
    requires multiset(front + [x]) == multiset(b)
    ensures b == (before + [x]) + after
    ensures multiset(front) == multiset(before + after)
  {
    var k := StandsAt(front + [x], b, x);
    before, after := b[..k], b[k + 1..];
    CutAt(b, k);
    WithoutOne(front, x, before, after);
  }

  lemma SortForgetsOrder<T(!new)>(a: seq<T>, b: seq<T>, key: T -> Key)
    requires multiset(a) == multiset(b) && Distinguishes(key, a)
    ensures SortBy(a, key) == SortBy(b, key)
  {
    SortOrdered(a, key);
    SortOrdered(b, key);
    SameElements(a, SortBy(a, key));
    SortedIsUnique(SortBy(a, key), SortBy(b, key), key);
  }

  // ---------------------------------------------------------------- stability

  lemma {:induction false} InsertCommutes<T(!new)>(x: T, y: T, s: seq<T>, key: T -> Key)
    requires key(x) != key(y)
    ensures Insert(x, Insert(y, s, key), key) == Insert(y, Insert(x, s, key), key)
    decreases |s|
  {
    hide Less, Insert;
    if s == [] {
      InsertNone(x, key);
      InsertNone(y, key);
      InsertEnd(x, [], y, key);
      InsertEnd(y, [], x, key);
      assert [] + [x] == [x] && [] + [y] == [y];
      Trichotomy(key(x), key(y));
    } else {
      var front, last := s[..|s| - 1], s[|s| - 1];
      assert s == front + [last];
      InsertEnd(x, front, last, key);
      InsertEnd(y, front, last, key);
      if Less(key(x), key(last)) && Less(key(y), key(last)) {
        InsertCommutes(x, y, front, key);
        InsertEnd(x, Insert(y, front, key), last, key);
        InsertEnd(y, Insert(x, front, key), last, key);
      } else if Less(key(x), key(last)) {
        InsertApart(x, y, front, last, key);
      } else if Less(key(y), key(last)) {
        InsertApart(y, x, front, last, key);
      } else {
        InsertEnd(x, s, y, key);
        InsertEnd(y, s, x, key);
        Trichotomy(key(x), key(y));
      }
    }
  }

  lemma InsertNone<T>(x: T, key: T -> Key)
    ensures Insert(x, [], key) == [x]
  {
  }

  lemma InsertApart<T(!new)>(x: T, y: T, front: seq<T>, last: T, key: T -> Key)
    requires Less(key(x), key(last)) && !Less(key(y), key(last))
    ensures Insert(x, Insert(y, front + [last], key), key) == Insert(y, Insert(x, front + [last], key), key)
  {
    hide Less, Insert;
    Trichotomy(key(x), key(last));
    LessTransitive(key(x), key(last), key(y));
    InsertEnd(x, front, last, key);
    InsertEnd(y, front, last, key);
    InsertEnd(x, front + [last], y, key);
    InsertEnd(y, Insert(x, front, key), last, key);
  }

  lemma InsertEnd<T>(x: T, front: seq<T>, last: T, key: T -> Key)
    ensures Insert(x, front + [last], key)
            == if Less(key(x), key(last)) then Insert(x, front, key) + [last] else front + [last] + [x]
  {
    assert (front + [last])[..|front|] == front;
  }

  lemma SortEnd<T>(s: seq<T>, x: T, key: T -> Key)
    ensures SortBy(s + [x], key) == Insert(x, SortBy(s, key), key)
  {
    assert (s + [x])[..|s|] == s;
  }

  lemma Regroup<T>(a: seq<T>, b: seq<T>, c: seq<T>)
    ensures (a + b) + c == a + (b + c)
  {
  }

  lemma FrontAndLast<T>(s: seq<T>)
    requires s != []
    ensures s == s[..|s| - 1] + [s[|s| - 1]]
  {
  }

  /** No key of one list is a key of the other. */
  ghost predicate Apart<T(!new)>(u: seq<T>, t: seq<T>, key: T -> Key) {
    forall x, y :: x in u && y in t ==> key(x) != key(y)
  }

  lemma ApartParts<T(!new)>(u: seq<T>, t: seq<T>, key: T -> Key)
    requires Apart(u, t, key)
    ensures u != [] ==> Apart(u[..|u| - 1], t, key) && Apart([u[|u| - 1]], t, key)
    ensures t != [] ==> Apart(u, t[..|t| - 1], key) && forall x :: x in u ==> key(x) != key(t[|t| - 1])
  {
  }

  /** Two blocks whose keys never meet may be exchanged before a stable sort. */
  lemma {:induction false} ExchangeOne<T(!new)>(s: seq<T>, x: T, t: seq<T>, key: T -> Key)
    requires Apart([x], t, key)
    ensures SortBy((s + [x]) + t, key) == SortBy((s + t) + [x], key)
    decreases |t|
  {
    hide SortBy, Insert, Apart;
    if t == [] {
      assert (s + [x]) + t == (s + t) + [x];
    } else {
      var front, last := t[..|t| - 1], t[|t| - 1];
      ApartParts([x], t, key);
      FrontAndLast(t);
      ExchangeOne(s, x, front, key);
      Regroup(s + [x], front, [last]);
      Regroup(s, front, [last]);
      SortEnd((s + [x]) + front, last, key);
      SortEnd((s + front) + [last], x, key);
      SortEnd(s + front, last, key);
      SortEnd(s + front, x, key);
      assert x in [x];
      InsertCommutes(x, last, SortBy(s + front, key), key);
    }
  }

  lemma {:induction false} SortSameThenSame<T(!new)>(a: seq<T>, b: seq<T>, t: seq<T>, key: T -> Key)
    requires SortBy(a, key) == SortBy(b, key)
    ensures SortBy(a + t, key) == SortBy(b + t, key)
    decreases |t|
  {
    hide SortBy, Insert;
    if t == [] {
      assert a + t == a && b + t == b;
    } else {
      var front, last := t[..|t| - 1], t[|t| - 1];
      FrontAndLast(t);
      SortSameThenSame(a, b, front, key);
      SortEnd(a + front, last, key);
      SortEnd(b + front, last, key);
      Regroup(a, front, [last]);
      Regroup(b, front, [last]);
    }
  }

  lemma {:induction false} ExchangeBlocks<T(!new)>(s: seq<T>, u: seq<T>, t: seq<T>, key: T -> Key)
    requires Apart(u, t, key)
    ensures SortBy((s + u) + t, key) == SortBy((s + t) + u, key)
    decreases |u|
  {
    hide SortBy, Insert, Apart;
    if u == [] {
      assert (s + u) + t == (s + t) + u;
    } else {
      var front, last := u[..|u| - 1], u[|u| - 1];
      ApartParts(u, t, key);
      FrontAndLast(u);
      ExchangeBlocks(s, front, t, key);
      ExchangeOne(s + front, last, t, key);
      Regroup(s, front, [last]);
      Regroup(s + t, front, [last]);
      SortEnd((s + front) + t, last, key);
      SortEnd((s + t) + front, last, key);
    }
  }

  ghost predicate Above<T(!new)>(x: T, a: seq<T>, key: T -> Key) {
    forall y :: y in a ==> !Less(key(x), key(y))
  }

  lemma {:induction false} InsertAbove<T(!new)>(x: T, a: seq<T>, b: seq<T>, key: T -> Key)
    requires Above(x, a, key)
    ensures Insert(x, a + b, key) == a + Insert(x, b, key)
    decreases |b|
  {
    hide Less, Insert, Above;
    if b == [] {
      assert a + b == a;
      InsertNone(x, key);
      InsertLast(x, a, key);
    } else {
      var front, last := b[..|b| - 1], b[|b| - 1];
      FrontAndLast(b);
      InsertAbove(x, a, front, key);
      InsertEnd(x, a + front, last, key);
      InsertEnd(x, front, last, key);
      Regroup(a, front, [last]);
      Regroup(a, Insert(x, front, key), [last]);
      Regroup(a, b, [x]);
    }
  }

  lemma InsertLast<T(!new)>(x: T, a: seq<T>, key: T -> Key)
    requires Above(x, a, key)
    ensures Insert(x, a, key) == a + [x]
  {
    hide Less;
    if a != [] { assert a[|a| - 1] in a; }
  }

  ghost predicate Below<T(!new)>(a: seq<T>, b: seq<T>, key: T -> Key) {
    forall x, y :: x in a && y in b ==> Less(key(x), key(y))
  }

  lemma BelowParts<T(!new)>(a: seq<T>, b: seq<T>, key: T -> Key)
    requires Below(a, b, key) && b != []
    ensures Below(a, b[..|b| - 1], key) && Above(b[|b| - 1], SortBy(a, key), key)
  {
    hide Less, SortBy;
    var last := b[|b| - 1];
    SameElements(a, SortBy(a, key));
    forall y | y in SortBy(a, key) ensures !Less(key(last), key(y)) {
      assert y in a && last in b;
      Trichotomy(key(y), key(last));
    }
  }

  /** Sorting a list whose later part lies wholly above the earlier one sorts the parts. */
  lemma {:induction false} SortSplits<T(!new)>(a: seq<T>, b: seq<T>, key: T -> Key)
    requires Below(a, b, key)
    ensures SortBy(a + b, key) == SortBy(a, key) + SortBy(b, key)
    decreases |b|
  {
    hide Less, SortBy, Insert, Below, Above;
    if b == [] {
      assert a + b == a;
      SortNone<T>(key);
      assert SortBy(a, key) + [] == SortBy(a, key);
    } else {
      var front, last := b[..|b| - 1], b[|b| - 1];
      BelowParts(a, b, key);
      FrontAndLast(b);
      SortSplits(a, front, key);
      Regroup(a, front, [last]);
      SortEnd(a + front, last, key);
      SortEnd(front, last, key);
      InsertAbove(last, SortBy(a, key), SortBy(front, key), key);
    }
  }

  lemma SortNone<T>(key: T -> Key)
    ensures SortBy([], key) == []
  {
  }
}
