/** Bounded best-chunk retrieval: the rows one statement returns under a row bound, against the
    exact ranking of every message by its best chunk. */
module SemanticSearch {
  import opened CorpusTables
  import KeysetPages
  import opened Sorting

  const CANDIDATE_MINIMUM: nat := 2000
  const CANDIDATE_MULTIPLIER: nat := 8
  const RETRY_MULTIPLIER: nat := 8
  const CANDIDATE_MAXIMUM: nat := 64000

  /** A message key, as collation ranks; chunk rows are all prose, so the class decides nothing. */
  datatype MessageRef = MessageRef(provider: int, session: int, logical: int)

  /** One filtered chunk row with its inner-product score. */
  datatype Hit = Hit(message: MessageRef, score: int, ordinal: nat)

  function MessageRank(m: MessageRef): Key { [m.provider, m.session, m.logical] }

  /** ORDER BY distance, message key, chunk ordinal. */
  function ChunkRank(h: Hit): Key { [-h.score, h.message.provider, h.message.session, h.message.logical, h.ordinal] }

  /** ORDER BY message key, score DESC, chunk ordinal. */
  function BestRank(h: Hit): Key { [h.message.provider, h.message.session, h.message.logical, -h.score, h.ordinal] }

  /** ORDER BY score DESC, message key. */
  function FinalRank(h: Hit): Key { [-h.score, h.message.provider, h.message.session, h.message.logical] }

  predicate Has(s: seq<Hit>, m: MessageRef) { exists h :: h in s && h.message == m }

  /** DISTINCT ON the message key: the first row of each message. */
  function Firsts(s: seq<Hit>): seq<Hit> {
    if s == [] then []
    else
      var before := Firsts(s[..|s| - 1]);
      if Has(s[..|s| - 1], s[|s| - 1].message) then before else before + [s[|s| - 1]]
  }

  function Take(s: seq<Hit>, n: nat): seq<Hit> { if n < |s| then s[..n] else s }

  /** The `candidate` rows of the statement. */
  function CandidateRows(chunks: seq<Hit>, bound: nat): seq<Hit> { Take(SortBy(chunks, ChunkRank), bound) }

  /** The statement: bounded candidate rows, the best of each message, ranked and cut. */
  function Statement(chunks: seq<Hit>, bound: nat, limit: nat): seq<Hit> {
    Take(SortBy(Firsts(SortBy(CandidateRows(chunks, bound), BestRank)), FinalRank), limit)
  }

  /** The exact ranking: every message by its best chunk. */
  function Ranking(chunks: seq<Hit>): seq<Hit> { SortBy(Firsts(SortBy(chunks, BestRank)), FinalRank) }

  /** Rows of a table whose key is the message and the chunk ordinal. */
  ghost predicate ChunkTable(chunks: seq<Hit>) {
    forall i, j :: 0 <= i < j < |chunks| ==>
      chunks[i].message != chunks[j].message || chunks[i].ordinal != chunks[j].ordinal
  }

  // ---------------------------------------------------------------- what the exact ranking means

  predicate Better(h: Hit, g: Hit) { h.score > g.score || (h.score == g.score && h.ordinal <= g.ordinal) }

  ghost predicate BestOf(h: Hit, chunks: seq<Hit>) {
    h in chunks && forall g :: g in chunks && g.message == h.message ==> Better(h, g)
  }

  predicate Before(m: MessageRef, n: MessageRef) {
    m.provider < n.provider
    || (m.provider == n.provider
        && (m.session < n.session || (m.session == n.session && m.logical < n.logical)))
  }

  lemma LessCons(a: int, x: Key, b: int, y: Key)
    ensures Less([a] + x, [b] + y) <==> a < b || (a == b && Less(x, y))
  {
    assert ([a] + x)[1..] == x && ([b] + y)[1..] == y;
  }

  lemma MessageOrder(m: MessageRef, x: Key, n: MessageRef, y: Key)
    ensures Less(MessageRank(m) + x, MessageRank(n) + y) <==> Before(m, n) || (m == n && Less(x, y))
  {
    hide Less;
    LessCons(m.logical, x, n.logical, y);
    LessCons(m.session, [m.logical] + x, n.session, [n.logical] + y);
    LessCons(m.provider, [m.session] + ([m.logical] + x), n.provider, [n.session] + ([n.logical] + y));
    assert MessageRank(m) + x == [m.provider] + ([m.session] + ([m.logical] + x));
    assert MessageRank(n) + y == [n.provider] + ([n.session] + ([n.logical] + y));
  }

  lemma SingleOrder(a: int, b: int)
    ensures Less([a], [b]) <==> a < b
    ensures !Less([], [])
  {
  }

  /** The three orders of the statement, spelled out. */
  lemma KeysOrder(x: Hit, y: Hit)
    ensures Less(ChunkRank(x), ChunkRank(y)) <==>
      x.score > y.score
      || (x.score == y.score && (Before(x.message, y.message) || (x.message == y.message && x.ordinal < y.ordinal)))
    ensures Less(FinalRank(x), FinalRank(y))
       <==> x.score > y.score || (x.score == y.score && Before(x.message, y.message))
    ensures Less(BestRank(x), BestRank(y)) <==>
      Before(x.message, y.message)
      || (x.message == y.message && (x.score > y.score || (x.score == y.score && x.ordinal < y.ordinal)))
  {
    hide Less;
    var m, n := x.message, y.message;
    SingleOrder(x.ordinal, y.ordinal);
    MessageOrder(m, [x.ordinal], n, [y.ordinal]);
    LessCons(-x.score, MessageRank(m) + [x.ordinal], -y.score, MessageRank(n) + [y.ordinal]);
    assert ChunkRank(x) == [-x.score] + (MessageRank(m) + [x.ordinal])
           && ChunkRank(y) == [-y.score] + (MessageRank(n) + [y.ordinal]);
    MessageOrder(m, [], n, []);
    LessCons(-x.score, MessageRank(m) + [], -y.score, MessageRank(n) + []);
    assert FinalRank(x) == [-x.score] + (MessageRank(m) + []) && FinalRank(y) == [-y.score] + (MessageRank(n) + []);
    LessCons(-x.score, [x.ordinal], -y.score, [y.ordinal]);
    MessageOrder(m, [-x.score] + [x.ordinal], n, [-y.score] + [y.ordinal]);
    assert BestRank(x) == MessageRank(m) + ([-x.score] + [x.ordinal])
           && BestRank(y) == MessageRank(n) + ([-y.score] + [y.ordinal]);
  }

  // ---------------------------------------------------------------- first rows

  /** At most one row a message. */
  ghost predicate OnePerMessage(s: seq<Hit>) {
    forall i, j :: 0 <= i < j < |s| ==> s[i].message != s[j].message
  }

  lemma HasMore(s: seq<Hit>, last: Hit, m: MessageRef)
    ensures Has(s + [last], m) <==> Has(s, m) || last.message == m
  {
    if Has(s, m) { var h :| h in s && h.message == m; assert h in s + [last]; }
    assert last in s + [last];
  }

  lemma {:induction false} FirstsHas(s: seq<Hit>, m: MessageRef)
    ensures Has(Firsts(s), m) == Has(s, m)
    decreases |s|
  {
    hide Has;
    if s != [] {
      var front, last := s[..|s| - 1], s[|s| - 1];
      assert s == front + [last];
      FirstsHas(front, m);
      HasMore(front, last, m);
      HasMore(Firsts(front), last, m);
    }
  }

  lemma {:induction false} FirstsIn(s: seq<Hit>, h: Hit)
    requires h in Firsts(s)
    ensures h in s
    decreases |s|
  {
    hide Has;
    if h in Firsts(s[..|s| - 1]) { FirstsIn(s[..|s| - 1], h); }
  }

  lemma {:induction false} FirstsOne(s: seq<Hit>)
    ensures OnePerMessage(Firsts(s))
    decreases |s|
  {
    hide Has;
    if s != [] {
      var front, last := s[..|s| - 1], s[|s| - 1];
      FirstsOne(front);
      FirstsHas(front, last.message);
      OneMore(Firsts(front), last);
    }
  }

  lemma OneMore(s: seq<Hit>, last: Hit)
    requires OnePerMessage(s)
    ensures !Has(s, last.message) ==> OnePerMessage(s + [last])
  {
    if !Has(s, last.message) {
      forall i | 0 <= i < |s| ensures s[i].message != last.message { assert s[i] in s; }
    }
  }

  lemma LastIsGreatest(s: seq<Hit>, key: Hit -> Key, h: Hit)
    requires Ordered(s, key) && h in s
    ensures AtMost(key(h), key(s[|s| - 1]))
  {
    hide Less;
    Trichotomy(key(h), key(h));
  }

  /** First rows keep the order of the list. */
  lemma {:induction false} FirstsOrdered(s: seq<Hit>, key: Hit -> Key)
    requires Ordered(s, key)
    ensures Ordered(Firsts(s), key)
    decreases |s|
  {
    hide Less, Has;
    if s != [] {
      var front, last := s[..|s| - 1], s[|s| - 1];
      FirstsOrdered(front, key);
      forall h | h in Firsts(front) ensures AtMost(key(h), key(last)) {
        FirstsIn(front, h);
        assert h in s;
        LastIsGreatest(s, key, h);
      }
      OrderedMore(Firsts(front), last, key);
    }
  }

  /** No first row stands behind another row of its message. */
  lemma {:induction false} FirstsLeast(s: seq<Hit>, key: Hit -> Key, h: Hit, g: Hit)
    requires Ordered(s, key) && h in Firsts(s) && g in s && g.message == h.message
    ensures AtMost(key(h), key(g))
    decreases |s|
  {
    hide Less, Has;
    var front, last := s[..|s| - 1], s[|s| - 1];
    assert s == front + [last];
    if h in Firsts(front) {
      if g in front {
        FirstsLeast(front, key, h, g);
      } else {
        FirstsIn(front, h);
        LastIsGreatest(s, key, h);
      }
    } else {
      OnlyLast(front, last, g);
      Trichotomy(key(h), key(h));
    }
  }

  lemma OnlyLast(front: seq<Hit>, last: Hit, g: Hit)
    requires !Has(front, last.message) && g in front + [last] && g.message == last.message
    ensures g == last
  {
  }

  lemma OrderedMore(before: seq<Hit>, last: Hit, key: Hit -> Key)
    requires Ordered(before, key) && forall h :: h in before ==> AtMost(key(h), key(last))
    ensures Ordered(before + [last], key)
  {
    hide Less;
    var all := before + [last];
    forall i, j | 0 <= i < j < |all| ensures AtMost(key(all[i]), key(all[j])) {
      if j < |before| { assert AtMost(key(before[i]), key(before[j])); } else { assert before[i] in before; }
    }
  }

  lemma {:induction false} FirstsOfPrefix(s: seq<Hit>, n: nat)
    requires n <= |s|
    ensures Firsts(s[..n]) <= Firsts(s)
    decreases |s|
  {
    if n < |s| {
      FirstsOfPrefix(s[..|s| - 1], n);
      assert s[..|s| - 1][..n] == s[..n];
    } else {
      assert s[..n] == s;
    }
  }

  // ---------------------------------------------------------------- ranking by chunks is ranking by messages

  /** Under an order that agrees with "better" inside a message, the first rows of a sorted table
      are the best rows of its messages. */
  lemma FirstsAreBest(chunks: seq<Hit>, key: Hit -> Key)
    requires ChunkTable(chunks)
    requires forall x: Hit, y: Hit :: x.message == y.message ==> (Less(key(x), key(y)) <==> !Better(y, x))
    ensures forall h :: h in Firsts(SortBy(chunks, key)) <==> BestOf(h, chunks)
  {
    hide Less, SortBy, Firsts, Has, Better;
    var s := SortBy(chunks, key);
    SortOrdered(chunks, key);
    SameElements(chunks, s);
    forall h ensures h in Firsts(s) <==> BestOf(h, chunks) {
      if h in Firsts(s) {
        FirstsIn(s, h);
        forall g | g in chunks && g.message == h.message ensures Better(h, g) { FirstsLeast(s, key, h, g); }
      }
      if BestOf(h, chunks) {
        FirstsHas(s, h.message);
        assert Has(Firsts(s), h.message) by { HasIt(s, h); }
        var f := TheOne(Firsts(s), h.message);
        FirstsIn(s, f);
        FirstsLeast(s, key, f, h);
        assert Better(f, h) && Better(h, f);
        EquallyGood(chunks, h, f);
      }
    }
  }

  lemma HasIt(s: seq<Hit>, h: Hit)
    requires h in s
    ensures Has(s, h.message)
  {
  }

  ghost function TheOne(s: seq<Hit>, m: MessageRef): (h: Hit)
    requires Has(s, m)
    ensures h in s && h.message == m
  {
    var h :| h in s && h.message == m;
    h
  }

  lemma EquallyGood(chunks: seq<Hit>, x: Hit, y: Hit)
    requires ChunkTable(chunks) && x in chunks && y in chunks && x.message == y.message && Better(x, y) && Better(y, x)
    ensures x == y
  {
  }

  lemma {:induction false} SameMembers(a: seq<Hit>, b: seq<Hit>)
    requires OnePerMessage(a) && OnePerMessage(b) && forall h :: h in a <==> h in b
    ensures multiset(a) == multiset(b)
  {
    forall h ensures multiset(a)[h] == multiset(b)[h] {
      OnceOnly(a, h);
      OnceOnly(b, h);
    }
  }

  lemma {:induction false} OnceOnly(a: seq<Hit>, h: Hit)
    requires OnePerMessage(a)
    ensures multiset(a)[h] == if h in a then 1 else 0
    decreases |a|
  {
    if a != [] {
      assert a == a[..|a| - 1] + [a[|a| - 1]];
      OnceOnly(a[..|a| - 1], h);
    }
  }

  /** The ranking is the first rows of the table in chunk order: message by message or chunk by
      chunk, the same best chunks come out in the same order. */
  lemma RankingIsFirsts(chunks: seq<Hit>)
    requires ChunkTable(chunks)
    ensures Ranking(chunks) == Firsts(SortBy(chunks, ChunkRank))
    ensures forall h :: h in Ranking(chunks) <==> BestOf(h, chunks)
    ensures Ordered(Ranking(chunks), FinalRank) && OnePerMessage(Ranking(chunks))
  {
    hide Less, SortBy, Firsts, ChunkRank, BestRank, FinalRank;
    forall x: Hit, y: Hit ensures x.message == y.message ==> (Less(ChunkRank(x), ChunkRank(y)) <==> !Better(y, x))
      ensures x.message == y.message ==> (Less(BestRank(x), BestRank(y)) <==> !Better(y, x))
    {
      KeysOrder(x, y);
      BeforeIrreflexive(x.message);
    }
    FirstsAreBest(chunks, ChunkRank);
    FirstsAreBest(chunks, BestRank);
    var byChunk, byMessage := Firsts(SortBy(chunks, ChunkRank)), Firsts(SortBy(chunks, BestRank));
    FirstsOne(SortBy(chunks, ChunkRank));
    FirstsOne(SortBy(chunks, BestRank));
    SameMembers(byChunk, byMessage);
    SortOrdered(chunks, ChunkRank);
    FirstsOrdered(SortBy(chunks, ChunkRank), ChunkRank);
    FinalFollowsChunk(byChunk);
    SortOrdered(byMessage, FinalRank);
    FinalDistinguishes(byChunk);
    SortedIsUnique(byChunk, SortBy(byMessage, FinalRank), FinalRank);
  }

  lemma BeforeIrreflexive(m: MessageRef)
    ensures !Before(m, m)
  {
  }

  lemma FinalFollowsChunk(s: seq<Hit>)
    requires Ordered(s, ChunkRank) && OnePerMessage(s)
    ensures Ordered(s, FinalRank)
  {
    hide Less, ChunkRank, FinalRank;
    forall i, j | 0 <= i < j < |s| ensures AtMost(FinalRank(s[i]), FinalRank(s[j])) {
      KeysOrder(s[j], s[i]);
      assert AtMost(ChunkRank(s[i]), ChunkRank(s[j]));
    }
  }

  lemma FinalDistinguishes(s: seq<Hit>)
    requires OnePerMessage(s)
    ensures Distinguishes(FinalRank, s)
  {
    forall x, y | x in s && y in s && FinalRank(x) == FinalRank(y) ensures x == y {
      assert FinalRank(x)[1] == FinalRank(y)[1] && FinalRank(x)[2] == FinalRank(y)[2]
             && FinalRank(x)[3] == FinalRank(y)[3];
    }
  }

  // ---------------------------------------------------------------- the bounded statement

  function Min(a: nat, b: nat): nat { if a <= b then a else b }

  function Max(a: nat, b: nat): nat { if a >= b then a else b }

  /** How many messages some rows belong to. */
  function Messages(rows: seq<Hit>): nat { |Firsts(rows)| }

  lemma CandidatesAreTable(chunks: seq<Hit>, bound: nat)
    requires ChunkTable(chunks)
    ensures ChunkTable(SortBy(chunks, ChunkRank)) && ChunkTable(CandidateRows(chunks, bound))
    ensures Ordered(CandidateRows(chunks, bound), ChunkRank)
    ensures |CandidateRows(chunks, bound)| == Min(bound, |chunks|)
  {
    hide Less, SortBy, ChunkRank;
    var s := SortBy(chunks, ChunkRank);
    SortOrdered(chunks, ChunkRank);
    SameElements(chunks, s);
    forall i, j | 0 <= i < j < |s| ensures s[i].message != s[j].message || s[i].ordinal != s[j].ordinal {
      if s[i].message == s[j].message && s[i].ordinal == s[j].ordinal {
        assert s[i] in chunks && s[j] in chunks;
        KeysetPages.TwiceIn(s, i, j);
        OnceInTable(chunks, s[i]);
        assert false;
      }
    }
  }

  lemma {:induction false} OnceInTable(chunks: seq<Hit>, h: Hit)
    requires ChunkTable(chunks)
    ensures multiset(chunks)[h] <= 1
    decreases |chunks|
  {
    if chunks != [] {
      var front, last := chunks[..|chunks| - 1], chunks[|chunks| - 1];
      assert chunks == front + [last];
      OnceInTable(front, h);
      assert forall i :: 0 <= i < |front| ==> front[i] != last;
    }
  }

  /** What the statement returns is the exact ranking cut where its candidates end: a prefix, with
      every message's true best score and chunk, of as many messages as the candidates hold. */
  lemma StatementIsRankingPrefix(chunks: seq<Hit>, bound: nat, limit: nat)
    requires ChunkTable(chunks)
    ensures Statement(chunks, bound, limit) == Take(Ranking(chunks), Min(limit, Messages(CandidateRows(chunks, bound))))
    ensures Messages(CandidateRows(chunks, bound)) <= |Ranking(chunks)|
    ensures |chunks| <= bound ==> Messages(CandidateRows(chunks, bound)) == |Ranking(chunks)|
  {
    hide Less, SortBy, ChunkRank, BestRank, FinalRank, Firsts, ChunkTable;
    var rows, s := CandidateRows(chunks, bound), SortBy(chunks, ChunkRank);
    CandidatesAreTable(chunks, bound);
    RankingIsFirsts(rows);
    SortIdentity(rows, ChunkRank);
    assert Statement(chunks, bound, limit) == Take(Firsts(rows), limit);
    RankingIsFirsts(chunks);
    SameElements(chunks, s);
    if bound < |s| { FirstsOfPrefix(s, bound); }
    TakePrefix(Firsts(rows), Firsts(s), limit);
  }

  lemma TakePrefix(a: seq<Hit>, b: seq<Hit>, limit: nat)
    requires a <= b
    ensures Take(a, limit) == Take(b, Min(limit, |a|))
  {
  }

  /** The statement returns the whole top of the ranking exactly when its candidates hold enough
      messages; candidates that do not fill the bound always do. */
  lemma StatementIsExactWhen(chunks: seq<Hit>, bound: nat, limit: nat)
    requires ChunkTable(chunks)
    ensures Statement(chunks, bound, limit) == Take(Ranking(chunks), limit)
       <==> Messages(CandidateRows(chunks, bound)) >= Min(limit, |Ranking(chunks)|)
    ensures |CandidateRows(chunks, bound)| < bound ==> Statement(chunks, bound, limit) == Take(Ranking(chunks), limit)
  {
    hide Ranking, Statement, Messages, CandidateRows, ChunkTable;
    StatementIsRankingPrefix(chunks, bound, limit);
    CandidatesAreTable(chunks, bound);
    if |CandidateRows(chunks, bound)| < bound { assert |chunks| < bound; }
  }

  // ---------------------------------------------------------------- the search and its one retry

  function CandidateLimit(limit: nat): nat { Max(CANDIDATE_MINIMUM, CANDIDATE_MULTIPLIER * limit) }

  function RetryLimit(limit: nat): nat { Min(CANDIDATE_MAXIMUM, CandidateLimit(limit) * RETRY_MULTIPLIER) }

  /** What the current generation and build say. */
  datatype Selection = Selection(buildComplete: bool, buildCurrent: bool)

  datatype Outcome = InvalidLimit | Unavailable | Hits(hits: seq<Hit>)

  method Retrieve(chunks: seq<Hit>, bound: nat, limit: nat) returns (hits: seq<Hit>, reached: bool)
    requires ChunkTable(chunks) && bound > 0 && limit > 0
    ensures hits == Statement(chunks, bound, limit)
    ensures reached <==> |chunks| >= bound
  {
    hits := Statement(chunks, bound, limit);
    var candidateCount := if hits == [] then 0 else |CandidateRows(chunks, bound)|;
    reached := candidateCount == bound;
    NoHitsNoRows(chunks, bound, limit);
    CandidatesAreTable(chunks, bound);
  }

  lemma NoHitsNoRows(chunks: seq<Hit>, bound: nat, limit: nat)
    requires ChunkTable(chunks) && bound > 0 && limit > 0
    ensures Statement(chunks, bound, limit) == [] <==> CandidateRows(chunks, bound) == []
  {
    hide Less, SortBy, ChunkRank, BestRank, FinalRank, Firsts, ChunkTable;
    var rows := CandidateRows(chunks, bound);
    CandidatesAreTable(chunks, bound);
    RankingIsFirsts(rows);
    SortIdentity(rows, ChunkRank);
    if rows != [] {
      FirstsHas(rows, rows[0].message);
      HasIt(rows, rows[0]);
      var h := TheOne(Firsts(rows), rows[0].message);
    } else {
      NoFirsts();
    }
  }

  lemma NoFirsts()
    ensures Firsts([]) == []
  {
  }

  function Hitting(chunks: seq<Hit>, limit: nat): seq<Hit> {
    var first := Statement(chunks, CandidateLimit(limit), limit);
    if |first| >= limit || |chunks| < CandidateLimit(limit) then first else Statement(chunks, RetryLimit(limit), limit)
  }

  method Search(chunks: seq<Hit>, selection: Option<Selection>, chunksComplete: bool, limit: int,
      allowPartial: bool) returns (r: Outcome)
    requires ChunkTable(chunks)
    ensures r == InvalidLimit <==> limit <= 0
    ensures r == Unavailable <==> limit > 0 && !(selection.Some? && selection.value.buildComplete
                                                 && (allowPartial || (selection.value.buildCurrent && chunksComplete)))
    ensures r.Hits? ==>
      && r.hits == Hitting(chunks, limit)
      && r.hits <= Ranking(chunks) && |r.hits| <= limit
      && (|r.hits| < limit ==>
            || |r.hits| == |Ranking(chunks)|
            || |CandidateRows(chunks, RetryLimit(limit))| == RetryLimit(limit))
  {
    hide Ranking, Statement, Messages, CandidateRows, ChunkTable;
    if limit <= 0 {
      return InvalidLimit;
    }
    if selection.None? || !selection.value.buildComplete {
      return Unavailable;
    }
    if !allowPartial && (!selection.value.buildCurrent || !chunksComplete) {
      return Unavailable;
    }
    var candidateLimit := CandidateLimit(limit);
    var hits, reached := Retrieve(chunks, candidateLimit, limit);
    StatementIsRankingPrefix(chunks, candidateLimit, limit);
    StatementIsRankingPrefix(chunks, RetryLimit(limit), limit);
    CandidatesAreTable(chunks, RetryLimit(limit));
    if |hits| < limit && reached {
      hits, reached := Retrieve(chunks, RetryLimit(limit), limit);
    }
    return Hits(hits);
  }

  // ---------------------------------------------------------------- when the retry helps

  lemma {:induction false} MoreRowsMoreMessages(chunks: seq<Hit>, small: nat, large: nat)
    requires ChunkTable(chunks) && small <= large
    ensures Messages(CandidateRows(chunks, small)) <= Messages(CandidateRows(chunks, large))
  {
    hide SortBy, ChunkRank;
    var s := SortBy(chunks, ChunkRank);
    if large < |s| {
      FirstsOfPrefix(s[..large], small);
      assert s[..large][..small] == s[..small];
    } else if small < |s| {
      FirstsOfPrefix(s, small);
    }
  }

  /** Rows of one message, one chunk after another. */
  function Rows(m: MessageRef, score: int, n: nat): (s: seq<Hit>)
    ensures |s| == n && forall i :: 0 <= i < n ==> s[i] == Hit(m, score, i)
  {
    seq(n, (i: nat) => Hit(m, score, i))
  }

  lemma {:induction false} OneMessage(s: seq<Hit>, m: MessageRef)
    requires forall i :: 0 <= i < |s| ==> s[i].message == m
    ensures |Firsts(s)| == if s == [] then 0 else 1
    decreases |s|
  {
    if |s| > 1 {
      OneMessage(s[..|s| - 1], m);
      HasIt(s[..|s| - 1], s[0]);
    }
  }

  lemma {:induction false} TwoMessages(a: seq<Hit>, m: MessageRef, b: seq<Hit>, n: MessageRef)
    requires m != n && a != [] && b != []
    requires (forall i :: 0 <= i < |a| ==> a[i].message == m) && (forall i :: 0 <= i < |b| ==> b[i].message == n)
    ensures |Firsts(a + b)| == 2
    decreases |b|
  {
    var s := a + b;
    var front := s[..|s| - 1];
    if |b| == 1 {
      assert front == a;
      OneMessage(a, m);
    } else {
      assert front == a + b[..|b| - 1];
      TwoMessages(a, m, b[..|b| - 1], n);
      assert b[0] in front;
      HasIt(front, b[0]);
    }
  }

  /** A table whose first message has as many leading chunks as the retry may read. */
  function Crowded(size: nat): (s: seq<Hit>)
    requires size > CANDIDATE_MAXIMUM
    ensures |s| == size
  {
    Rows(MessageRef(0, 0, 0), 1, CANDIDATE_MAXIMUM) + Rows(MessageRef(0, 0, 1), 0, size - CANDIDATE_MAXIMUM)
  }

  lemma CrowdedTable(size: nat)
    requires size > CANDIDATE_MAXIMUM
    ensures ChunkTable(Crowded(size)) && SortBy(Crowded(size), ChunkRank) == Crowded(size)
  {
    hide Less, ChunkRank;
    var s := Crowded(size);
    forall i, j | 0 <= i < j < |s| ensures AtMost(ChunkRank(s[i]), ChunkRank(s[j])) { KeysOrder(s[j], s[i]); }
    SortIdentity(s, ChunkRank);
  }

  /** Above this limit the retry reads fewer rows than the first statement did, and can return
      fewer messages. */
  lemma RetryCanLose(limit: nat)
    requires limit > CANDIDATE_MAXIMUM / CANDIDATE_MULTIPLIER
    ensures var chunks := Crowded(CandidateLimit(limit));
            && ChunkTable(chunks)
            && |Statement(chunks, CandidateLimit(limit), limit)| == 2 && |Hitting(chunks, limit)| == 1
  {
    hide SortBy, Firsts, ChunkTable;
    var bound := CandidateLimit(limit);
    var chunks := Crowded(bound);
    var a, b := Rows(MessageRef(0, 0, 0), 1, CANDIDATE_MAXIMUM),
        Rows(MessageRef(0, 0, 1), 0, bound - CANDIDATE_MAXIMUM);
    CrowdedTable(bound);
    StatementIsRankingPrefix(chunks, bound, limit);
    StatementIsRankingPrefix(chunks, CANDIDATE_MAXIMUM, limit);
    TwoMessages(a, MessageRef(0, 0, 0), b, MessageRef(0, 0, 1));
    OneMessage(a, MessageRef(0, 0, 0));
    assert CandidateRows(chunks, bound) == a + b;
    assert chunks[..CANDIDATE_MAXIMUM] == a;
    assert CandidateRows(chunks, CANDIDATE_MAXIMUM) == a;
  }

  /** The retry never returns less than the first statement exactly when the limit is at most
      8000; then the result is as much of the ranking as the retry's candidates hold. */
  lemma RetryNeverLosesExactly(limit: nat)
    requires limit > 0
    ensures (forall chunks :: ChunkTable(chunks) ==>
              |Statement(chunks, CandidateLimit(limit), limit)| <= |Hitting(chunks, limit)|)
       <==> limit <= 8000
  {
    hide Statement, Ranking, CandidateRows, Messages, ChunkTable;
    if limit <= CANDIDATE_MAXIMUM / CANDIDATE_MULTIPLIER {
      forall chunks | ChunkTable(chunks)
        ensures |Statement(chunks, CandidateLimit(limit), limit)| <= |Hitting(chunks, limit)|
      {
        StatementIsRankingPrefix(chunks, CandidateLimit(limit), limit);
        StatementIsRankingPrefix(chunks, RetryLimit(limit), limit);
        MoreRowsMoreMessages(chunks, CandidateLimit(limit), RetryLimit(limit));
      }
    } else {
      RetryCanLose(limit);
    }
  }
  /** How deep a ranked search asks each of its components; None is the refused limit. */
  function RankedComponentDepth(limit: int): (depth: Option<nat>)
    ensures depth.Some? ==> 100 <= depth.value <= 1000
  {
    if 1 <= limit <= 200 then Some(Min(1000, Max(100, 5 * limit))) else None
  }

  /** A ranked search of 1 to 200 hits asks each component for five times as many messages, but for
      at least 100; the statement reads at least 2000 rows and eight a message.  That is never so
      much that the retry could lose: it reads eight times the rows, and every message of the first
      statement comes back. */
  lemma RankedSearchNeverLoses(chunks: seq<Hit>, limit: int)
    requires ChunkTable(chunks) && RankedComponentDepth(limit).Some?
    ensures var depth := RankedComponentDepth(limit).value;
            && depth == (if limit <= 20 then 100 else 5 * limit)
            && CandidateLimit(depth) == (if limit <= 50 then 2000 else 40 * limit)
            && RetryLimit(depth) == 8 * CandidateLimit(depth)
            && Statement(chunks, CandidateLimit(depth), depth) <= Hitting(chunks, depth)
  {
    hide Statement, Ranking, CandidateRows, Messages, ChunkTable;
    var depth := RankedComponentDepth(limit).value;
    StatementIsRankingPrefix(chunks, CandidateLimit(depth), depth);
    StatementIsRankingPrefix(chunks, RetryLimit(depth), depth);
    MoreRowsMoreMessages(chunks, CandidateLimit(depth), RetryLimit(depth));
  }
}
