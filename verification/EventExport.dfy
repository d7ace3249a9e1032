/** The human-message event export: one pass over key-ordered pages with running accumulators,
    against grouping the rows of the window by logical message. */
module EventExport {
  import opened CorpusTables
  import opened KeysetPages
  import opened Sorting

  const EVENT_PAGE_SIZE: nat := 1000

  datatype Role = User | Other(name: string)

  /** What every content row of one logical message must agree on. */
  datatype Facts = Facts(locator: int, at: int, role: Role, kind: SessionKind, repository: Option<string>,
      author: SubmittedBy)

  type AliasId = (int, int, nat)

  datatype EventRow = EventRow(provider: int, session: int, logical: int, cls: ContentClass, facts: Facts,
      cwd: Option<string>, aliases: set<AliasId>)
  {
    function Identity(): Key { [provider, session, logical] }
  }

  /** The rank of the class name as text. */
  function ClassRank(cls: ContentClass): int {
    match cls case Prose => 0 case ToolInput => 1 case ToolName => 2 case ToolOutput => 3
  }

  function RowKey(r: EventRow): Key { r.Identity() + [ClassRank(r.cls)] }

  function InWindow(table: seq<EventRow>, lower: int, upper: int): seq<EventRow> {
    Filter(table, (r: EventRow) => lower <= r.facts.at < upper)
  }

  // ---------------------------------------------------------------- retention

  datatype Status = Retained | Excluded | Unresolved
  datatype Reason = Kept | Harness | NonProse | UnknownAuthorship | NonUserRole

  function Retention(author: SubmittedBy, role: Role, kind: SessionKind, prose: bool): (Status, Reason) {
    if role == User && prose && (author == Human || (author == UnknownSubmitter && kind == Primary)) then
      (Retained, Kept)
    else if author == IdentifiedHarness then (Excluded, Harness)
    else if role == User && !prose then (Excluded, NonProse)
    else if author == UnknownSubmitter && role == User then (Unresolved, UnknownAuthorship)
    else if role != User then (Excluded, NonUserRole)
    else (Excluded, NonProse)
  }

  /** Only prose a human is known, or in a primary session presumed, to have typed is retained;
      only prose of unknown authorship outside primary sessions stays unresolved. */
  lemma RetentionMeans(author: SubmittedBy, role: Role, kind: SessionKind, prose: bool)
    ensures var (status, reason) := Retention(author, role, kind, prose);
            && (status == Retained <==> reason == Kept) && (status == Unresolved <==> reason == UnknownAuthorship)
            && (status == Retained
                <==> (&& role == User && prose && author != IdentifiedHarness
                      && (author == UnknownSubmitter ==> kind == Primary)))
            && (status == Unresolved <==> role == User && prose && author == UnknownSubmitter && kind != Primary)
            && (reason == Harness <==> author == IdentifiedHarness)
            && (reason == NonUserRole <==> author != IdentifiedHarness && role != User)
            && (reason == NonProse <==> author != IdentifiedHarness && role == User && !prose)
  {
  }

  // ---------------------------------------------------------------- running groups

  datatype Group = Group(identity: Key, facts: Facts, cwd: Option<string>, prose: bool, aliases: set<AliasId>)

  function Started(r: EventRow): Group { Group(r.Identity(), r.facts, r.cwd, r.cls.Prose?, r.aliases) }

  /** One more row of the current message: a working directory that differs is forgotten. */
  function Joined(g: Group, r: EventRow): Group {
    g.(cwd := if g.cwd == r.cwd then g.cwd else None,
       prose := g.prose || r.cls.Prose?,
       aliases := g.aliases + r.aliases)
  }

  /** The groups after one more row, or None where it contradicts the current group. */
  function Extend(groups: seq<Group>, r: EventRow): Option<seq<Group>> {
    if groups == [] || groups[|groups| - 1].identity != r.Identity() then Some(groups + [Started(r)])
    else if groups[|groups| - 1].facts != r.facts then None
    else Some(groups[..|groups| - 1] + [Joined(groups[|groups| - 1], r)])
  }

  /** The groups the pass forms. */
  function Groups(rows: seq<EventRow>): Option<seq<Group>> {
    if rows == [] then Some([])
    else
      match Groups(rows[..|rows| - 1])
      case None => None
      case Some(groups) => Extend(groups, rows[|rows| - 1])
  }

  // ---------------------------------------------------------------- grouping by identity

  /** The group is what its identity's rows say, in whatever order they come. */
  ghost predicate Summarizes(g: Group, rows: seq<EventRow>) {
    && (exists r :: r in rows && r.Identity() == g.identity)
    && (forall r :: r in rows && r.Identity() == g.identity ==> r.facts == g.facts && r.aliases <= g.aliases)
    && (g.prose <==> exists r :: r in rows && r.Identity() == g.identity && r.cls.Prose?)
    && (forall a :: a in g.aliases ==> exists r :: r in rows && r.Identity() == g.identity && a in r.aliases)
    && (forall c :: g.cwd == Some(c) <==> forall r :: r in rows && r.Identity() == g.identity ==> r.cwd == Some(c))
  }

  ghost predicate GroupedBy(groups: seq<Group>, rows: seq<EventRow>) {
    && (forall g :: g in groups ==> Summarizes(g, rows))
    && (forall i, j :: 0 <= i < j < |groups| ==> groups[i].identity != groups[j].identity)
    && (forall r :: r in rows ==> exists g :: g in groups && g.identity == r.Identity())
  }

  ghost predicate Conflicting(rows: seq<EventRow>) {
    exists r, s :: r in rows && s in rows && r.Identity() == s.Identity() && r.facts != s.facts
  }

  lemma SummarizesStarted(rows: seq<EventRow>, r: EventRow)
    requires forall s :: s in rows ==> s.Identity() != r.Identity()
    ensures Summarizes(Started(r), rows + [r])
  {
    hide EventRow.Identity;
    var all := rows + [r];
    assert r in all;
    forall s | s in all && s.Identity() == r.Identity() ensures s == r { }
  }

  lemma SummarizesOther(g: Group, rows: seq<EventRow>, r: EventRow)
    requires Summarizes(g, rows) && g.identity != r.Identity()
    ensures Summarizes(g, rows + [r])
  {
    hide EventRow.Identity;
    var all := rows + [r];
    forall s: EventRow ensures s.Identity() == g.identity ==> (s in all <==> s in rows) { }
  }

  lemma SummarizesJoined(g: Group, rows: seq<EventRow>, r: EventRow)
    requires Summarizes(g, rows) && g.identity == r.Identity() && g.facts == r.facts
    ensures Summarizes(Joined(g, r), rows + [r])
  {
    hide EventRow.Identity;
    var all, h := rows + [r], Joined(g, r);
    forall s: EventRow ensures s in all <==> s in rows || s == r { }
    forall a | a in h.aliases ensures exists s :: s in all && s.Identity() == g.identity && a in s.aliases {
      if a in g.aliases {
        var s :| s in rows && s.Identity() == g.identity && a in s.aliases;
        assert s in all;
      } else {
        assert r in all;
      }
    }
    forall c ensures h.cwd == Some(c) <==> forall s :: s in all && s.Identity() == g.identity ==> s.cwd == Some(c) {
      if h.cwd == Some(c) {
      } else if forall s :: s in all && s.Identity() == g.identity ==> s.cwd == Some(c) {
        assert r in all;
        assert forall s :: s in rows && s.Identity() == g.identity ==> s.cwd == Some(c);
      }
    }
    assert h.prose <==> exists s :: s in all && s.Identity() == g.identity && s.cls.Prose? by {
      if g.prose { var s :| s in rows && s.Identity() == g.identity && s.cls.Prose?; assert s in all; }
      assert r in all;
    }
    assert exists s :: s in all && s.Identity() == h.identity by { assert r in all; }
  }

  /** In key order the rows of one message stand together. */
  lemma RunsTogether(rows: seq<EventRow>, i: nat)
    requires Ordered(rows, RowKey) && i + 1 < |rows| && rows[i].Identity() == rows[|rows| - 1].Identity()
    ensures rows[|rows| - 2].Identity() == rows[|rows| - 1].Identity()
  {
    hide Less, EventRow.Identity;
    var n := |rows| - 1;
    if i < n - 1 {
      assert AtMost(RowKey(rows[i]), RowKey(rows[n - 1])) && AtMost(RowKey(rows[n - 1]), RowKey(rows[n]));
      IdentitiesFollow(rows[i], rows[n - 1]);
      IdentitiesFollow(rows[n - 1], rows[n]);
      Trichotomy(rows[i].Identity(), rows[n - 1].Identity());
    }
  }

  lemma IdentitiesFollow(x: EventRow, y: EventRow)
    requires AtMost(RowKey(x), RowKey(y))
    ensures AtMost(x.Identity(), y.Identity())
  {
    hide Less;
    LessAppend(y.Identity(), [ClassRank(y.cls)], x.Identity(), [ClassRank(x.cls)]);
  }

  lemma ConflictGrows(front: seq<EventRow>, r: EventRow)
    ensures Conflicting(front) ==> Conflicting(front + [r])
    ensures Conflicting(front + [r]) ==>
      Conflicting(front) || exists s :: s in front && s.Identity() == r.Identity() && s.facts != r.facts
    ensures (exists s :: s in front && s.Identity() == r.Identity() && s.facts != r.facts) ==> Conflicting(front + [r])
  {
    hide EventRow.Identity;
    var all := front + [r];
    forall s: EventRow ensures s in all <==> s in front || s == r { }
  }

  /** One more row after groups that say what the earlier rows say. */
  lemma GroupStep(front: seq<EventRow>, r: EventRow, groups: seq<Group>)
    requires GroupedBy(groups, front)
    requires front != [] ==> groups != [] && groups[|groups| - 1].identity == front[|front| - 1].Identity()
    requires forall s :: s in front && s.Identity() == r.Identity() ==> front[|front| - 1].Identity() == r.Identity()
    ensures Extend(groups, r).Some? ==>
      && GroupedBy(Extend(groups, r).value, front + [r])
      && Extend(groups, r).value != []
      && Extend(groups, r).value[|Extend(groups, r).value| - 1].identity == r.Identity()
    ensures Extend(groups, r).None? <==> exists s :: s in front && s.Identity() == r.Identity() && s.facts != r.facts
  {
    hide EventRow.Identity, Summarizes, GroupedBy;
    if groups == [] || groups[|groups| - 1].identity != r.Identity() {
      StartGroup(front, r, groups);
    } else {
      SameFacts(groups, front, r);
      if groups[|groups| - 1].facts == r.facts { JoinGroup(front, r, groups); }
    }
  }

  lemma StartGroup(front: seq<EventRow>, r: EventRow, groups: seq<Group>)
    requires GroupedBy(groups, front) && forall s :: s in front ==> s.Identity() != r.Identity()
    ensures GroupedBy(groups + [Started(r)], front + [r])
  {
    hide EventRow.Identity, Summarizes;
    var all, gs := front + [r], groups + [Started(r)];
    SummarizesStarted(front, r);
    forall g | g in groups ensures g.identity != r.Identity() && Summarizes(g, all) {
      HasRow(g, front);
      SummarizesOther(g, front, r);
    }
    forall s | s in all ensures exists g :: g in gs && g.identity == s.Identity() {
      if s in front {
        var g :| g in groups && g.identity == s.Identity();
        assert g in gs;
      } else {
        assert Started(r) in gs;
      }
    }
  }

  lemma HasRow(g: Group, rows: seq<EventRow>)
    requires Summarizes(g, rows)
    ensures exists r :: r in rows && r.Identity() == g.identity
  {
  }

  lemma JoinGroup(front: seq<EventRow>, r: EventRow, groups: seq<Group>)
    requires GroupedBy(groups, front) && groups != [] && groups[|groups| - 1].identity == r.Identity()
    requires groups[|groups| - 1].facts == r.facts
    ensures GroupedBy(groups[..|groups| - 1] + [Joined(groups[|groups| - 1], r)], front + [r])
  {
    hide EventRow.Identity, Summarizes;
    var last := groups[|groups| - 1];
    var all, gs := front + [r], groups[..|groups| - 1] + [Joined(last, r)];
    assert last in groups;
    SummarizesJoined(last, front, r);
    forall g | g in gs ensures Summarizes(g, all) {
      if g != Joined(last, r) {
        var i :| 0 <= i < |groups| - 1 && groups[i] == g;
        assert g in groups && groups[i].identity != groups[|groups| - 1].identity;
        SummarizesOther(g, front, r);
      }
    }
    forall s | s in all ensures exists g :: g in gs && g.identity == s.Identity() {
      if s in front && s.Identity() != r.Identity() {
        var g :| g in groups && g.identity == s.Identity();
        var i :| 0 <= i < |groups| && groups[i] == g;
        assert gs[i] == g;
      } else {
        assert gs[|gs| - 1] == Joined(last, r);
      }
    }
  }

  lemma SameFacts(groups: seq<Group>, front: seq<EventRow>, r: EventRow)
    requires GroupedBy(groups, front) && groups != [] && groups[|groups| - 1].identity == r.Identity()
    ensures groups[|groups| - 1].facts != r.facts
       <==> exists s :: s in front && s.Identity() == r.Identity() && s.facts != r.facts
  {
    hide EventRow.Identity, Summarizes;
    var last := groups[|groups| - 1];
    assert last in groups;
    HasRow(last, front);
    forall s | s in front && s.Identity() == last.identity ensures s.facts == last.facts {
      SummaryFacts(last, front, s);
    }
  }

  lemma SummaryFacts(g: Group, rows: seq<EventRow>, s: EventRow)
    requires Summarizes(g, rows) && s in rows && s.Identity() == g.identity
    ensures s.facts == g.facts
  {
  }

  /** The one-pass groups are the grouping by identity, and the pass stops exactly where two rows
      of one message disagree. */
  lemma {:induction false} GroupsAreGroupBy(rows: seq<EventRow>)
    requires Ordered(rows, RowKey)
    ensures Groups(rows).None? <==> Conflicting(rows)
    ensures Groups(rows).Some? ==>
      && GroupedBy(Groups(rows).value, rows)
      && (rows != [] ==> var gs := Groups(rows).value; gs != [] && gs[|gs| - 1].identity == rows[|rows| - 1].Identity())
    decreases |rows|
  {
    hide EventRow.Identity, GroupedBy, Conflicting, RowKey, Less, Extend;
    if rows == [] {
      NothingGrouped();
    } else {
      var front, r := rows[..|rows| - 1], rows[|rows| - 1];
      FrontAndLast(rows);
      GroupsAreGroupBy(front);
      ConflictGrows(front, r);
      if Groups(front).Some? {
        forall s | s in front && s.Identity() == r.Identity() ensures front[|front| - 1].Identity() == r.Identity() {
          SameBefore(rows, s);
        }
        GroupStep(front, r, Groups(front).value);
      }
    }
  }

  lemma SameBefore(rows: seq<EventRow>, s: EventRow)
    requires Ordered(rows, RowKey) && |rows| > 1 && s in rows[..|rows| - 1]
    requires s.Identity() == rows[|rows| - 1].Identity()
    ensures rows[..|rows| - 1][|rows| - 2].Identity() == rows[|rows| - 1].Identity()
  {
    hide EventRow.Identity, RowKey, Less;
    var i :| 0 <= i < |rows| - 1 && rows[i] == s;
    RunsTogether(rows, i);
  }

  lemma NothingGrouped()
    ensures GroupedBy([], []) && !Conflicting([])
  {
  }

  // ---------------------------------------------------------------- totals

  datatype Totals = Totals(messages: nat, byStatus: map<Status, nat>, byReason: map<Reason, nat>, retained: seq<Group>)

  function Get<K>(m: map<K, nat>, k: K): nat { if k in m then m[k] else 0 }

  function Add<K>(m: map<K, nat>, k: K): map<K, nat> { m[k := Get(m, k) + 1] }

  function Outcome(g: Group): (Status, Reason) { Retention(g.facts.author, g.facts.role, g.facts.kind, g.prose) }

  /** Account for one finished message. */
  function Finish(t: Totals, g: Group): Totals {
    var (status, reason) := Outcome(g);
    Totals(t.messages + 1, Add(t.byStatus, status), if status == Retained then t.byReason else Add(t.byReason, reason),
           if status == Retained then t.retained + [g] else t.retained)
  }

  const NOTHING := Totals(0, map[], map[], [])

  function Tally(groups: seq<Group>): Totals {
    if groups == [] then NOTHING else Finish(Tally(groups[..|groups| - 1]), groups[|groups| - 1])
  }

  function WithStatus(groups: seq<Group>, status: Status): seq<Group> { Filter(groups,
      (g: Group) => Outcome(g).0 == status) }

  function WithReason(groups: seq<Group>, reason: Reason): seq<Group> { Filter(groups,
      (g: Group) => Outcome(g).1 == reason) }

  /** Every message is counted once: under one status, and, unless it is retained, one reason. */
  lemma {:induction false} TallyAddsUp(groups: seq<Group>)
    ensures var t := Tally(groups);
            && t.messages == |groups|
            && Get(t.byStatus, Retained) + Get(t.byStatus, Excluded) + Get(t.byStatus, Unresolved) == t.messages
            && Get(t.byReason, Harness) + Get(t.byReason, NonProse) + Get(t.byReason, NonUserRole)
                 == Get(t.byStatus, Excluded)
            && Get(t.byReason, UnknownAuthorship) == Get(t.byStatus, Unresolved)
            && |t.retained| == Get(t.byStatus, Retained)
    decreases |groups|
  {
    hide Outcome;
    if groups != [] {
      TallyAddsUp(groups[..|groups| - 1]);
      OutcomeAgrees(groups[|groups| - 1]);
    }
  }

  lemma OutcomeAgrees(g: Group)
    ensures var (status, reason) := Outcome(g);
            && (status == Retained <==> reason == Kept) && (status == Unresolved <==> reason == UnknownAuthorship)
  {
  }

  /** The counters count the messages they name, and the retained ones are kept in order. */
  lemma {:induction false} TallyCounts(groups: seq<Group>, status: Status, reason: Reason)
    requires reason != Kept
    ensures Get(Tally(groups).byStatus, status) == |WithStatus(groups, status)|
    ensures Get(Tally(groups).byReason, reason) == |WithReason(groups, reason)|
    ensures Tally(groups).retained == WithStatus(groups, Retained)
    decreases |groups|
  {
    hide Outcome;
    if groups != [] {
      TallyCounts(groups[..|groups| - 1], status, reason);
      OutcomeAgrees(groups[|groups| - 1]);
    }
  }

  // ---------------------------------------------------------------- the export

  function OfClass(rows: seq<EventRow>, cls: ContentClass): seq<EventRow> { Filter(rows,
      (r: EventRow) => r.cls == cls) }

  function ClassCounts(rows: seq<EventRow>): map<ContentClass, nat> {
    if rows == [] then map[] else Add(ClassCounts(rows[..|rows| - 1]), rows[|rows| - 1].cls)
  }

  /** The class counters count the content rows of their class ... */
  lemma {:induction false} ClassCounted(rows: seq<EventRow>, cls: ContentClass)
    ensures Get(ClassCounts(rows), cls) == |OfClass(rows, cls)|
    decreases |rows|
  {
    if rows != [] { ClassCounted(rows[..|rows| - 1], cls); }
  }

  /** ... and together all of them. */
  lemma {:induction false} ClassCountsAddUp(rows: seq<EventRow>)
    ensures var m := ClassCounts(rows);
            Get(m, Prose) + Get(m, ToolName) + Get(m, ToolInput) + Get(m, ToolOutput) == |rows|
    decreases |rows|
  {
    if rows != [] {
      ClassCountsAddUp(rows[..|rows| - 1]);
      var cls := rows[|rows| - 1].cls;
      assert cls == Prose || cls == ToolName || cls == ToolInput || cls == ToolOutput;
    }
  }

  function EventKey(g: Group): Key { [g.facts.at] + g.identity }

  datatype Export =
    | BadWindow
    | NoGeneration
    | ConflictingMetadata
    | Exported(generation: nat, content: map<ContentClass, nat>, totals: Totals, events: seq<Group>)

  /** The window's rows page by page, by primary key, until an empty page. */
  method MessageRows(table: seq<EventRow>, lower: int, upper: int) returns (rows: seq<EventRow>)
    requires Keyed(table, RowKey)
    ensures rows == SortBy(InWindow(table, lower, upper), RowKey)
  {
    hide SortBy, Filter, RowKey, Page, Keyed;
    ghost var all := SortBy(InWindow(table, lower, upper), RowKey);
    FilterKeyed(table, (r: EventRow) => lower <= r.facts.at < upper, RowKey);
    rows := [];
    var after: Option<Key> := None;
    while true
      invariant |rows| <= |all| && rows == all[..|rows|]
      invariant after == if |rows| == 0 then None else Some(RowKey(all[|rows| - 1]))
      decreases |all| - |rows|
    {
      ghost var n := |rows|;
      var page := Page(InWindow(table, lower, upper), RowKey, after, EVENT_PAGE_SIZE);
      PageContinues(InWindow(table, lower, upper), RowKey, n, EVENT_PAGE_SIZE);
      if page == [] {
        return;
      }
      rows := rows + page;
      assert rows == all[..n + |page|];
      after := Some(RowKey(page[|page| - 1]));
    }
  }

  /** Export the human submissions of a half-open window in one pass. */
  method ExportHumanMessageEvents(table: seq<EventRow>, lower: Option<int>, upper: Option<int>,
      generation: Option<nat>) returns (r: Export)
    requires Keyed(table, RowKey)
    ensures r == BadWindow <==> lower.None? || upper.None? || lower.value >= upper.value
    ensures r == NoGeneration <==> r != BadWindow && generation.None?
    ensures r == ConflictingMetadata || r.Exported? ==>
      var rows := SortBy(InWindow(table, lower.value, upper.value), RowKey);
      if Groups(rows).None? then r == ConflictingMetadata
      else
        r.Exported? && r.generation == generation.value && r.content == ClassCounts(rows)
        && r.totals == Tally(Groups(rows).value)
        && r.events == SortBy(r.totals.retained, EventKey)
  {
    hide SortBy, InWindow, RowKey, Keyed, Started, Joined, Finish, EventKey, Groups, Tally, ClassCounts, Add, InPass,
        EventRow.Identity;
    if lower.None? || upper.None? || lower.value >= upper.value {
      return BadWindow;
    }
    if generation.None? {
      return NoGeneration;
    }
    var rows := MessageRows(table, lower.value, upper.value);
    var content: map<ContentClass, nat>, totals, current: Option<Group> := map[], NOTHING, None;
    ghost var before: seq<Group> := [];
    PassStarts(rows);
    for i := 0 to |rows|
      invariant InPass(rows, i, content, totals, current, before)
    {
      var row := rows[i];
      PassRow(rows, i, content, totals, current, before);
      content := Add(content, row.cls);
      if current.None? {
        current := Some(Started(row));
      } else if current.value.identity != row.Identity() {
        totals, before := Finish(totals, current.value), before + [current.value];
        current := Some(Started(row));
      } else if current.value.facts != row.facts {
        Stuck(rows, i + 1);
        return ConflictingMetadata;
      } else {
        current := Some(Joined(current.value, row));
      }
    }
    PassEnds(rows, content, totals, current, before);
    if current.Some? {
      totals := Finish(totals, current.value);
    }
    return Exported(generation.value, content, totals, SortBy(totals.retained, EventKey));
  }

  /** Where the pass stands after i rows: finished groups are accounted for, the last is current. */
  ghost predicate InPass(rows: seq<EventRow>, i: nat, content: map<ContentClass, nat>, totals: Totals,
      current: Option<Group>, before: seq<Group>)
    requires i <= |rows|
  {
    && Groups(rows[..i]) == Some(if current.Some? then before + [current.value] else [])
    && (current.None? ==> before == [])
    && totals == Tally(before) && content == ClassCounts(rows[..i])
  }

  lemma PassStarts(rows: seq<EventRow>)
    ensures InPass(rows, 0, map[], NOTHING, None, [])
  {
    assert rows[..0] == [];
  }

  lemma TallyMore(before: seq<Group>, g: Group)
    ensures Tally(before + [g]) == Finish(Tally(before), g)
  {
    assert (before + [g])[..|before|] == before;
  }

  lemma PassRow(rows: seq<EventRow>, i: nat, content: map<ContentClass, nat>, totals: Totals, current: Option<Group>,
      before: seq<Group>)
    requires i < |rows| && InPass(rows, i, content, totals, current, before)
    ensures var row := rows[i];
            && (current.None? ==> InPass(rows, i + 1, Add(content, row.cls), totals, Some(Started(row)), before))
            && (current.Some? && current.value.identity != row.Identity() ==>
                  InPass(rows, i + 1, Add(content, row.cls), Finish(totals, current.value), Some(Started(row)),
                      before + [current.value]))
            && (current.Some? && current.value.identity == row.Identity() && current.value.facts != row.facts ==>
                 Groups(rows[..i + 1]).None?)
            && (current.Some? && current.value.identity == row.Identity() && current.value.facts == row.facts ==>
                  InPass(rows, i + 1, Add(content, row.cls), totals, Some(Joined(current.value, row)), before))
  {
    hide Started, Joined, Finish, Add, Tally, EventRow.Identity;
    assert rows[..i + 1][..i] == rows[..i];
    if current.Some? {
      TallyMore(before, current.value);
      var groups := before + [current.value];
      assert groups[..|groups| - 1] == before;
    }
  }

  lemma PassEnds(rows: seq<EventRow>, content: map<ContentClass, nat>, totals: Totals, current: Option<Group>,
      before: seq<Group>)
    requires InPass(rows, |rows|, content, totals, current, before)
    ensures Groups(rows).Some? && content == ClassCounts(rows)
    ensures Tally(Groups(rows).value) == if current.Some? then Finish(totals, current.value) else totals
  {
    hide Finish, Groups, ClassCounts;
    assert rows[..|rows|] == rows;
    if current.Some? { TallyMore(before, current.value); }
  }

  lemma {:induction false} Stuck(rows: seq<EventRow>, n: nat)
    requires n <= |rows| && Groups(rows[..n]).None?
    ensures Groups(rows).None?
    decreases |rows| - n
  {
    if n < |rows| {
      assert rows[..n + 1][..n] == rows[..n];
      Stuck(rows, n + 1);
    } else {
      assert rows[..n] == rows;
    }
  }

  /** The export is the grouping of the window's rows, whatever their order in the table: it is
      refused exactly when two rows of one message disagree, and otherwise its messages are the
      groups by identity. */
  lemma ExportIsGroupBy(table: seq<EventRow>, lower: int, upper: int)
    ensures var window := InWindow(table, lower, upper);
            var groups := Groups(SortBy(window, RowKey));
            && (groups.None? <==> Conflicting(window))
            && (groups.Some? ==> GroupedBy(groups.value, window))
  {
    hide SortBy, InWindow, RowKey, Summarizes, EventRow.Identity;
    var window := InWindow(table, lower, upper);
    var rows := SortBy(window, RowKey);
    SortOrdered(window, RowKey);
    SameElements(window, rows);
    GroupsAreGroupBy(rows);
    if Groups(rows).Some? {
      forall g | Summarizes(g, rows) ensures Summarizes(g, window) { SameSummary(g, rows, window); }
    }
  }

  lemma SameSummary(g: Group, rows: seq<EventRow>, window: seq<EventRow>)
    requires Summarizes(g, rows) && forall r :: r in rows <==> r in window
    ensures Summarizes(g, window)
  {
    hide EventRow.Identity;
  }

  // ---------------------------------------------------------------- what the export says

  predicate InTime(r: EventRow, lower: int, upper: int) { lower <= r.facts.at && r.facts.at < upper }

  predicate SameMessage(r: EventRow, s: EventRow) {
    r.provider == s.provider && r.session == s.session && r.logical == s.logical
  }

  /** The group is that of the message this row belongs to. */
  predicate GroupsRow(g: Group, r: EventRow) {
    |g.identity| == 3 && g.identity[0] == r.provider && g.identity[1] == r.session && g.identity[2] == r.logical
  }

  /** What a message's group says of its rows between two times. */
  ghost predicate GroupTells(g: Group, table: seq<EventRow>, lower: int, upper: int) {
    && (exists r :: r in table && InTime(r, lower, upper) && GroupsRow(g, r))
    && (forall r :: r in table && InTime(r, lower, upper) && GroupsRow(g, r) ==>
         r.facts == g.facts && r.aliases <= g.aliases)
    && (g.prose <==> exists r :: r in table && InTime(r, lower, upper) && GroupsRow(g, r) && r.cls == Prose)
    && (forall a :: a in g.aliases ==>
         exists r :: r in table && InTime(r, lower, upper) && GroupsRow(g, r) && a in r.aliases)
    && (forall c :: g.cwd == Some(c)
          <==> forall r :: r in table && InTime(r, lower, upper) && GroupsRow(g, r) ==> r.cwd == Some(c))
  }

  predicate EventBefore(g: Group, h: Group)
    requires |g.identity| == 3 && |h.identity| == 3
  {
    if g.facts.at != h.facts.at then g.facts.at < h.facts.at
    else if g.identity[0] != h.identity[0] then g.identity[0] < h.identity[0]
    else if g.identity[1] != h.identity[1] then g.identity[1] < h.identity[1]
    else g.identity[2] < h.identity[2]
  }

  /** The retained messages are those of a user's prose that no harness typed and that a human is
      known to have typed or that stand in a primary session. */
  predicate Keeps(g: Group) {
    && g.facts.role == User && g.prose && g.facts.author != IdentifiedHarness
    && (g.facts.author == UnknownSubmitter ==> g.facts.kind == Primary)
  }

  lemma WindowIs(table: seq<EventRow>, lower: int, upper: int, r: EventRow)
    ensures r in InWindow(table, lower, upper) <==> r in table && InTime(r, lower, upper)
    ensures multiset(InWindow(table, lower, upper))[r] == if InTime(r, lower, upper) then multiset(table)[r] else 0
  {
    FilterMembers(table, (r: EventRow) => lower <= r.facts.at < upper, r);
    FilterCounts(table, (r: EventRow) => lower <= r.facts.at < upper, r);
  }

  lemma IdentityIs(g: Group, r: EventRow)
    ensures g.identity == r.Identity() <==> GroupsRow(g, r)
  {
  }

  lemma SummaryTells(g: Group, table: seq<EventRow>, lower: int, upper: int)
    requires Summarizes(g, InWindow(table, lower, upper))
    ensures GroupTells(g, table, lower, upper) && |g.identity| == 3
  {
    hide InWindow, InTime, EventRow.Identity, GroupsRow;
    var window := InWindow(table, lower, upper);
    forall r: EventRow
      ensures r in window && r.Identity() == g.identity <==> r in table && InTime(r, lower, upper) && GroupsRow(g, r)
    {
      WindowIs(table, lower, upper, r);
      IdentityIs(g, r);
    }
    var r :| r in window && r.Identity() == g.identity;
    ThreeParts(g, r);
  }

  lemma ThreeParts(g: Group, r: EventRow)
    requires r.Identity() == g.identity
    ensures |g.identity| == 3
  {
  }

  /** Whatever the order of the table, the export is refused exactly when two rows of one message in
      the half-open window disagree; otherwise every row of the window is in the one group of its
      message, every group tells its rows, and the events are the kept messages in time order. */
  lemma ExportTells(table: seq<EventRow>, lower: int, upper: int)
    ensures var groups := Groups(SortBy(InWindow(table, lower, upper), RowKey));
            && (groups.None? <==> exists r, s :: r in table && s in table && InTime(r, lower, upper)
                                                 && InTime(s, lower, upper) && SameMessage(r, s) && r.facts != s.facts)
            && (groups.Some? ==>
                  && (forall g :: g in groups.value ==> |g.identity| == 3 && GroupTells(g, table, lower, upper))
                  && (forall r :: r in table && InTime(r, lower, upper) ==>
                        exists g :: g in groups.value && GroupsRow(g, r))
                  && (forall i, j :: 0 <= i < j < |groups.value| ==>
                        groups.value[i].identity != groups.value[j].identity))
  {
    hide InWindow, InTime, EventRow.Identity, GroupsRow, SortBy, RowKey, Summarizes, GroupTells, Groups, SameMessage;
    var window := InWindow(table, lower, upper);
    ExportIsGroupBy(table, lower, upper);
    forall r: EventRow ensures r in window <==> r in table && InTime(r, lower, upper) {
      WindowIs(table, lower, upper, r);
    }
    forall r: EventRow, s: EventRow ensures SameMessage(r, s) <==> r.Identity() == s.Identity() { SameIdentity(r, s); }
    var groups := Groups(SortBy(window, RowKey));
    if groups.Some? {
      forall g | g in groups.value ensures |g.identity| == 3 && GroupTells(g, table, lower, upper) {
        SummaryTells(g, table, lower, upper);
      }
      forall r | r in table && InTime(r, lower, upper) ensures exists g :: g in groups.value && GroupsRow(g, r) {
        var g :| g in groups.value && g.identity == r.Identity();
        IdentityIs(g, r);
      }
    }
  }

  lemma SameIdentity(r: EventRow, s: EventRow)
    ensures SameMessage(r, s) <==> r.Identity() == s.Identity()
  {
  }

  lemma EventOrder(g: Group, h: Group)
    requires |g.identity| == 3 && |h.identity| == 3
    ensures Less(EventKey(g), EventKey(h)) <==> EventBefore(g, h)
  {
    var a, b := g.identity, h.identity;
    HeadDecides(g.facts.at, a, h.facts.at, b);
    HeadDecides(a[0], a[1..], b[0], b[1..]);
    HeadDecides(a[1], a[2..], b[1], b[2..]);
    HeadDecides(a[2], [], b[2], []);
    assert a == [a[0]] + a[1..] && a[1..] == [a[1]] + a[2..] && a[2..] == [a[2]] + [];
    assert b == [b[0]] + b[1..] && b[1..] == [b[1]] + b[2..] && b[2..] == [b[2]] + [];
  }

  /** The events are the kept messages, each as often as it is grouped, by time and then by
      provider, session and message. */
  lemma EventsTell(groups: seq<Group>)
    requires forall g :: g in groups ==> |g.identity| == 3
    ensures var events := SortBy(Tally(groups).retained, EventKey);
            && (forall g :: multiset(events)[g] == if Keeps(g) then multiset(groups)[g] else 0)
            && (forall g :: g in events ==> |g.identity| == 3)
            && forall i, j :: 0 <= i < j < |events| && |events[i].identity| == 3 && |events[j].identity| == 3 ==>
                 !EventBefore(events[j], events[i])
  {
    hide Tally, EventKey, EventBefore, Retention, SortBy, Less;
    var kept := Tally(groups).retained;
    var events := SortBy(kept, EventKey);
    TallyCounts(groups, Retained, Harness);
    forall g ensures multiset(events)[g] == if Keeps(g) then multiset(groups)[g] else 0 {
      FilterCounts(groups, (g: Group) => Outcome(g).0 == Retained, g);
      RetentionMeans(g.facts.author, g.facts.role, g.facts.kind, g.prose);
    }
    forall g | g in events ensures |g.identity| == 3 {
      assert g in multiset(events);
      assert g in multiset(groups);
    }
    SortOrdered(kept, EventKey);
    forall i, j | 0 <= i < j < |events| ensures !EventBefore(events[j], events[i]) {
      assert events[i] in events && events[j] in events;
      EventOrder(events[j], events[i]);
    }
  }
}
