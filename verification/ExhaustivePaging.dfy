/** Exhaustive literal search: keyset pages over one snapshot, and the loop that follows their
    cursors, against the sorted list of all matches. */
module ExhaustivePaging {
  import opened CorpusTables
  import opened KeysetPages
  import opened Sorting

  datatype AliasRow = AliasRow(ordinal: nat, digest: int, file: int, offset: nat)

  /** A `message_current` row with its `physical_alias_current` rows; texts are collation ranks. */
  datatype ContentRow = ContentRow(provider: int, session: int, logical: int, cls: ContentClass, canonical: int,
      aliases: seq<AliasRow>)

  function ContentOrder(cls: ContentClass): int {
    match cls case Prose => 0 case ToolName => 1 case ToolInput => 2 case ToolOutput => 3
  }

  /** The rank of the class name as text, which ties are broken by. */
  function ClassRank(cls: ContentClass): int {
    match cls case Prose => 0 case ToolInput => 1 case ToolName => 2 case ToolOutput => 3
  }

  function AliasRank(a: AliasRow): Key { [a.ordinal, a.digest, a.file, a.offset] }

  /** The lateral join: the first alias in its order; a row without one joins nothing. */
  function SourceAlias(m: ContentRow): Option<AliasRow> {
    var sorted := SortBy(m.aliases, AliasRank);
    if sorted == [] then None else Some(sorted[0])
  }

  /** The position immediately after one result. */
  function Cursor(m: ContentRow): Key {
    match SourceAlias(m)
    case None => []
    case Some(a) => [m.canonical, ContentOrder(m.cls), a.ordinal, a.digest, m.provider, m.session, m.logical,
        ClassRank(m.cls)]
  }

  /** The primary key of the message table. */
  ghost predicate MessageTable(table: seq<ContentRow>) {
    forall i, j :: 0 <= i < j < |table| ==>
      (table[i].provider, table[i].session, table[i].logical, table[i].cls)
      != (table[j].provider, table[j].session, table[j].logical, table[j].cls)
  }

  /** The rows the query joins and filters, before any cursor. */
  function Matching(table: seq<ContentRow>, want: ContentRow -> bool): seq<ContentRow> {
    Filter(table, (m: ContentRow) => want(m) && SourceAlias(m).Some?)
  }

  /** All matching rows in their final order. */
  function AllHits(table: seq<ContentRow>, want: ContentRow -> bool): seq<ContentRow> { SortBy(Matching(table, want),
      Cursor) }

  lemma CursorHoldsTableKey(x: ContentRow, y: ContentRow)
    requires SourceAlias(x).Some? && SourceAlias(y).Some? && Cursor(x) == Cursor(y)
    ensures (x.provider, x.session, x.logical, x.cls) == (y.provider, y.session, y.logical, y.cls)
  {
    hide SourceAlias;
    assert Cursor(x)[4] == Cursor(y)[4] && Cursor(x)[5] == Cursor(y)[5] && Cursor(x)[6] == Cursor(y)[6]
           && Cursor(x)[7] == Cursor(y)[7];
  }

  lemma {:induction false} FilterKeepsTable(table: seq<ContentRow>, p: ContentRow -> bool)
    requires MessageTable(table)
    ensures MessageTable(Filter(table, p))
    decreases |table|
  {
    if table != [] {
      var front, last := table[..|table| - 1], table[|table| - 1];
      FilterKeepsTable(front, p);
      var kept := Filter(front, p);
      forall i | 0 <= i < |kept|
        ensures (kept[i].provider, kept[i].session, kept[i].logical, kept[i].cls)
                != (last.provider, last.session, last.logical, last.cls)
      {
        FilterMembers(front, p, kept[i]);
        var k :| 0 <= k < |front| && front[k] == kept[i];
        assert table[k] == kept[i];
      }
    }
  }

  /** The eight-part position is a key of the matches, because it holds the table's own key. */
  lemma CursorIsKey(table: seq<ContentRow>, want: ContentRow -> bool)
    requires MessageTable(table)
    ensures Keyed(Matching(table, want), Cursor)
  {
    hide Cursor, SourceAlias, Filter;
    var p := (m: ContentRow) => want(m) && SourceAlias(m).Some?;
    var rows := Matching(table, want);
    FilterKeepsTable(table, p);
    forall i, j | 0 <= i < j < |rows| ensures Cursor(rows[i]) != Cursor(rows[j]) {
      FilterMembers(table, p, rows[i]);
      FilterMembers(table, p, rows[j]);
      if Cursor(rows[i]) == Cursor(rows[j]) { CursorHoldsTableKey(rows[i], rows[j]); }
    }
  }

  // ---------------------------------------------------------------- pages and the loop over them

  datatype SearchPage = SearchPage(hits: seq<ContentRow>, next: Option<Key>)

  /** The position after the first n of all matches. */
  ghost predicate Stands(table: seq<ContentRow>, want: ContentRow -> bool, n: nat, after: Option<Key>) {
    var all := AllHits(table, want);
    n <= |all| && after == if n == 0 then None else Some(Cursor(all[n - 1]))
  }

  /** One row more than a page shows whether more rows follow. */
  lemma FirstOfSlice<T>(all: seq<T>, n: nat, size: nat, rows: seq<T>)
    requires n <= |all|
    requires rows == if n + size + 1 < |all| then all[n..n + size + 1] else all[n..]
    ensures |rows| <= size <==> |all| <= n + size
    ensures (if |rows| <= size then rows else rows[..size])
            == if n + size < |all| then all[n..n + size] else all[n..]
  {
  }

  /** One page; None when the page size is refused.  From the position after the first n matches
      it holds the next ones, and a cursor exactly when more follow. */
  method ExhaustiveSearchPage(table: seq<ContentRow>, blank: bool, want: ContentRow -> bool, pageSize: int,
      after: Option<Key>)
    returns (page: Option<SearchPage>)
    requires MessageTable(table)
    ensures page.None? <==> !blank && pageSize <= 0
    ensures page.Some? && blank ==> page.value == SearchPage([], None)
    ensures page.Some? && !blank ==> forall n: nat :: Stands(table, want, n, after) ==>
      var all := AllHits(table, want);
      if n + pageSize < |all|
      then page.value.hits == all[n..n + pageSize]
           && page.value.next.Some? && Stands(table, want, n + pageSize, page.value.next)
      else page.value == SearchPage(all[n..], None)
  {
    hide SortBy, Filter, Cursor, Matching, Page, MessageTable, Keyed;
    if blank {
      return Some(SearchPage([], None));
    }
    if pageSize <= 0 {
      return None;
    }
    var rows := Page(Matching(table, want), Cursor, after, pageSize + 1);
    CursorIsKey(table, want);
    forall n: nat | Stands(table, want, n, after)
      ensures var all := AllHits(table, want);
              rows == if n + pageSize + 1 < |all| then all[n..n + pageSize + 1] else all[n..]
    {
      PageContinues(Matching(table, want), Cursor, n, pageSize + 1);
    }
    var pageRows := if |rows| <= pageSize then rows else rows[..pageSize];
    forall n: nat | Stands(table, want, n, after)
      ensures |rows| <= pageSize <==> |AllHits(table, want)| <= n + pageSize
      ensures var all := AllHits(table, want);
              pageRows == if n + pageSize < |all| then all[n..n + pageSize] else all[n..]
    {
      FirstOfSlice(AllHits(table, want), n, pageSize, rows);
    }
    if |rows| <= pageSize {
      return Some(SearchPage(pageRows, None));
    }
    return Some(SearchPage(pageRows, Some(Cursor(pageRows[|pageRows| - 1]))));
  }

  /** Follow the cursors to the end: the pages together are the sorted list of all matches. */
  method ExhaustiveSearchHits(table: seq<ContentRow>, blank: bool, want: ContentRow -> bool, pageSize: nat)
    returns (hits: seq<ContentRow>)
    requires MessageTable(table) && pageSize > 0
    ensures hits == if blank then [] else AllHits(table, want)
  {
    hide SortBy, Filter, Cursor, AllHits, MessageTable;
    hits := [];
    var cursor: Option<Key> := None;
    ghost var all := AllHits(table, want);
    while true
      invariant |hits| <= |all| && hits == all[..|hits|]
      invariant blank ==> hits == []
      invariant Stands(table, want, |hits|, cursor)
      decreases |all| - |hits|
    {
      ghost var n := |hits|;
      var page := ExhaustiveSearchPage(table, blank, want, pageSize, cursor);
      hits := hits + page.value.hits;
      if page.value.next.None? {
        return;
      }
      cursor := page.value.next;
      assert hits == all[..n + pageSize];
    }
  }

  /** A matching row is returned, and then once, exactly when it has an alias to be located by. */
  lemma EachRowOnce(table: seq<ContentRow>, want: ContentRow -> bool, m: ContentRow)
    requires MessageTable(table)
    ensures multiset(AllHits(table, want))[m] == if m in table && want(m) && m.aliases != [] then 1 else 0
  {
    hide SortBy, Filter, Cursor, MessageTable, Keyed;
    var p := (x: ContentRow) => want(x) && SourceAlias(x).Some?;
    FilterCounts(table, p, m);
    CursorIsKey(table, want);
    OnceKeyed(Matching(table, want), Cursor, m);
    SameElements(m.aliases, SortBy(m.aliases, AliasRank));
    assert m in table <==> m in multiset(table);
  }

  // ---------------------------------------------------------------- the order of the hits

  /** The first alias of a row: least by record, digest, file and offset. */
  ghost predicate FirstAlias(m: ContentRow, a: AliasRow) {
    a in m.aliases && forall b :: b in m.aliases ==> !AliasBefore(b, a)
  }

  predicate AliasBefore(a: AliasRow, b: AliasRow) {
    if a.ordinal != b.ordinal then a.ordinal < b.ordinal
    else if a.digest != b.digest then a.digest < b.digest
    else if a.file != b.file then a.file < b.file
    else a.offset < b.offset
  }

  /** Prose, then tool names, inputs and outputs. */
  predicate ClassBefore(a: ContentClass, b: ContentClass) {
    match a
    case Prose => b != Prose
    case ToolName => b == ToolInput || b == ToolOutput
    case ToolInput => b == ToolOutput
    case ToolOutput => false
  }

  /** By conversation place, then class, then the first alias, then message. */
  predicate HitBefore(m: ContentRow, a: AliasRow, n: ContentRow, b: AliasRow) {
    if m.canonical != n.canonical then m.canonical < n.canonical
    else if m.cls != n.cls then ClassBefore(m.cls, n.cls)
    else if a.ordinal != b.ordinal then a.ordinal < b.ordinal
    else if a.digest != b.digest then a.digest < b.digest
    else if m.provider != n.provider then m.provider < n.provider
    else if m.session != n.session then m.session < n.session
    else m.logical < n.logical
  }

  lemma {:induction false} AliasOrder(a: AliasRow, b: AliasRow)
    ensures Less(AliasRank(a), AliasRank(b)) <==> AliasBefore(a, b)
  {
    hide Less;
    var x, y := AliasRank(a), AliasRank(b);
    TwoDecide(x, y);
    TwoDecide(x[2..], y[2..]);
    assert x[2..][2..] == [] && y[2..][2..] == [];
    NoneLess();
  }

  lemma {:induction false} SourceAliasIsFirst(m: ContentRow)
    ensures SourceAlias(m).None? <==> m.aliases == []
    ensures SourceAlias(m).Some? ==> FirstAlias(m, SourceAlias(m).value)
  {
    hide AliasRank, SortBy, Less, AliasBefore;
    var sorted := SortBy(m.aliases, AliasRank);
    SortOrdered(m.aliases, AliasRank);
    SameElements(m.aliases, sorted);
    if sorted != [] {
      assert sorted[0] in sorted;
      forall b | b in m.aliases ensures !AliasBefore(b, sorted[0]) {
        HeadIsLeast(sorted, b, AliasRank);
        AliasOrder(b, sorted[0]);
      }
    }
  }

  /** The first two parts of two keys decide, unless they are the same. */
  lemma {:induction false} TwoDecide(x: Key, y: Key)
    requires |x| >= 2 && |y| >= 2
    ensures Less(x, y)
       <==> if x[0] != y[0] then x[0] < y[0] else if x[1] != y[1] then x[1] < y[1] else Less(x[2..], y[2..])
  {
    hide Less;
    HeadDecides(x[0], x[1..], y[0], y[1..]);
    HeadDecides(x[1], x[2..], y[1], y[2..]);
    assert x == [x[0]] + x[1..] && x[1..] == [x[1]] + x[2..];
    assert y == [y[0]] + y[1..] && y[1..] == [y[1]] + y[2..];
  }

  lemma {:induction false} CursorOrder(m: ContentRow, n: ContentRow)
    requires SourceAlias(m).Some? && SourceAlias(n).Some?
    ensures Less(Cursor(m), Cursor(n)) <==> HitBefore(m, SourceAlias(m).value, n, SourceAlias(n).value)
  {
    hide SourceAlias, Less;
    var x, y := Cursor(m), Cursor(n);
    TwoDecide(x, y);
    TwoDecide(x[2..], y[2..]);
    TwoDecide(x[2..][2..], y[2..][2..]);
    TwoDecide(x[2..][2..][2..], y[2..][2..][2..]);
    assert x[2..][2..][2..][2..] == [] && y[2..][2..][2..][2..] == [];
    NoneLess();
  }

  lemma NoneLess()
    ensures !Less([], [])
  {
  }

  /** The hits are the wanted rows that have an alias, and no later one belongs before an earlier. */
  lemma {:induction false} HitsInOrder(table: seq<ContentRow>, want: ContentRow -> bool, i: nat, j: nat)
    requires i < j < |AllHits(table, want)|
    ensures var m, n := AllHits(table, want)[i], AllHits(table, want)[j];
            && m in table && n in table && want(m) && want(n)
            && exists a, b :: FirstAlias(m, a) && FirstAlias(n, b) && !HitBefore(n, b, m, a)
  {
    hide SourceAlias, Cursor, SortBy, Less, HitBefore, FirstAlias;
    var all := AllHits(table, want);
    SortOrdered(Matching(table, want), Cursor);
    SameElements(Matching(table, want), all);
    assert all[i] in all && all[j] in all;
    FilterMembers(table, (m: ContentRow) => want(m) && SourceAlias(m).Some?, all[i]);
    FilterMembers(table, (m: ContentRow) => want(m) && SourceAlias(m).Some?, all[j]);
    SourceAliasIsFirst(all[i]);
    SourceAliasIsFirst(all[j]);
    CursorOrder(all[j], all[i]);
  }
}
