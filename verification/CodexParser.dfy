/** The Codex session parser: one batch of records under carried state, and when cutting a session
    into batches gives what one parse of the whole gives. */
module CodexParser {
  import opened CorpusTables
  import opened Sorting
  import opened Canonicalization

  // ---------------------------------------------------------------- records

  /** The session a source belongs to, with the kind its first metadata record established. */
  datatype Context = Context(session: int, file: int, kind: SessionKind)

  /** A decoded record after shape recognition. */
  datatype Payload =
    | Silent
    | Compacted
    | ResponseText(role: string, text: string, id: Option<int>)
    | EventText(role: string, text: string)
    | ToolCall(name: string, input: string)

  datatype Record = Record(ordinal: nat, offset: nat, length: nat, digest: int, timestamp: Timestamp, payload: Payload)

  /** Records as the bounded reader numbers them. */
  ghost predicate InOrder(records: seq<Record>) {
    forall i, j :: 0 <= i < j < |records| ==> records[i].ordinal < records[j].ordinal
  }

  function AliasOf(ctx: Context, r: Record, id: Option<int>): PhysicalAlias {
    var locator := match id
                   case Some(id) => IdLocator(ctx.session, id)
                   case None => OrdinalLocator(ctx.session, r.ordinal, r.digest);
    PhysicalAlias(locator, ctx.file, r.ordinal, r.offset, r.length, r.digest)
  }

  function MessageOf(ctx: Context, r: Record, epoch: nat, role: string, cls: ContentClass, text: string,
      id: Option<int>): NativeMessage {
    var alias := AliasOf(ctx, r, id);
    var harness := role == "user" && ctx.kind == Agent;
    NativeMessage(CodexLogicalMessageId(alias), alias.locator, [alias], r.timestamp, role, ctx.kind, epoch, cls, text,
                  if harness then IdentifiedHarness else UnknownSubmitter,
                  if harness then {"codex:session_meta.source.subagent"} else {},
                  if harness then 1 else 0)
  }

  function RecordCandidates(ctx: Context, r: Record, epoch: nat): seq<Candidate> {
    match r.payload
    case ResponseText(role, text, id) => [Candidate(MessageOf(ctx, r, epoch, role, Prose, text, id), ResponseMessage)]
    case EventText(role, text) => [Candidate(MessageOf(ctx, r, epoch, role, Prose, text, None), EventMessage)]
    case ToolCall(name, input) =>
      [Candidate(MessageOf(ctx, r, epoch, "assistant", ToolName, name, None), Tool),
       Candidate(MessageOf(ctx, r, epoch, "assistant", ToolInput, input, None), Tool)]
    case _ => []
  }

  // ---------------------------------------------------------------- epochs

  datatype Continuation = Continuation(epoch: nat, seen: set<int>)

  function Next(r: Record, c: Continuation): Continuation {
    if r.payload.Compacted? && r.digest !in c.seen then Continuation(c.epoch + 1, c.seen + {r.digest}) else c
  }

  function After(records: seq<Record>, c: Continuation): Continuation {
    if records == [] then c else Next(records[|records| - 1], After(records[..|records| - 1], c))
  }

  function Candidates(ctx: Context, records: seq<Record>, c: Continuation): seq<Candidate> {
    if records == [] then []
    else
      var front := records[..|records| - 1];
      Candidates(ctx, front, c) + RecordCandidates(ctx, records[|records| - 1], After(front, c).epoch)
  }

  lemma {:induction false} CandidatesAppend(ctx: Context, a: seq<Record>, b: seq<Record>, c: Continuation)
    ensures After(a + b, c) == After(b, After(a, c))
    ensures Candidates(ctx, a + b, c) == Candidates(ctx, a, c) + Candidates(ctx, b, After(a, c))
    decreases |b|
  {
    hide RecordCandidates, Next;
    if b == [] {
      assert a + b == a;
    } else {
      var front, last := b[..|b| - 1], b[|b| - 1];
      assert (a + b)[..|a + b| - 1] == a + front && (a + b)[|a + b| - 1] == last;
      CandidatesAppend(ctx, a, front, c);
    }
  }

  /** Only distinct compactions advance the epoch, however often a record is repeated. */
  lemma {:induction false} EpochCountsCompactions(records: seq<Record>, c: Continuation)
    ensures After(records, c).epoch - c.epoch == |After(records, c).seen| - |c.seen|
    ensures c.seen <= After(records, c).seen && c.epoch <= After(records, c).epoch
    ensures forall d :: d in After(records, c).seen
              <==> d in c.seen
                   || exists i :: 0 <= i < |records| && records[i].payload.Compacted? && records[i].digest == d
    decreases |records|
  {
    if records != [] {
      var front, last := records[..|records| - 1], records[|records| - 1];
      EpochCountsCompactions(front, c);
      forall d ensures d in After(records, c).seen <==>
        d in c.seen || exists i :: 0 <= i < |records| && records[i].payload.Compacted? && records[i].digest == d
      {
        if last.payload.Compacted? && last.digest == d { assert records[|records| - 1].digest == d; }
        if i :| 0 <= i < |records| && records[i].payload.Compacted? && records[i].digest == d {
          if i < |front| { assert front[i] == records[i]; }
        }
        if d in After(front, c).seen && d !in c.seen {
          var i :| 0 <= i < |front| && front[i].payload.Compacted? && front[i].digest == d;
          assert records[i] == front[i];
        }
      }
    }
  }

  // ---------------------------------------------------------------- the shape of parsed candidates

  function Alias(c: Candidate): PhysicalAlias
    requires c.message.aliases != []
  {
    c.message.aliases[0]
  }

  /** The identity of a message with one occurrence is that occurrence's. */
  ghost predicate Own(ctx: Context, m: NativeMessage, a: PhysicalAlias) {
    && a.file == ctx.file && a.locator.session == ctx.session && m.canonical == a.locator
    && m.logicalId == CodexLogicalMessageId(a)
    && (a.locator.OrdinalLocator? ==> a.locator.number == a.ordinal)
  }

  /** One occurrence, whose identity is its own; visible exactly when it is a projection. */
  ghost predicate Single(ctx: Context, c: Candidate) {
    var m := c.message;
    && |m.aliases| == 1 && Own(ctx, m, m.aliases[0])
    && (c.family == EventMessage ==> m.canonical.OrdinalLocator?)
    && m.kind == ctx.kind && (m.cls.Prose? <==> Pairable(c)) && c.family != Canonical
    && m.submittedBy == (if m.role == "user" && ctx.kind == Agent then IdentifiedHarness else UnknownSubmitter)
    && m.evidence == (if m.role == "user" && ctx.kind == Agent then {"codex:session_meta.source.subagent"} else {})
    && m.cardinality == (if m.role == "user" && ctx.kind == Agent then 1 else 0)
  }

  /** The order of occurrences: only the two rows of one tool call share a record. */
  ghost predicate Follows(a: Candidate, b: Candidate)
    requires a.message.aliases != [] && b.message.aliases != []
  {
    && (Alias(a).ordinal < Alias(b).ordinal
        || (Alias(a) == Alias(b) && a.message.cls == ToolName && b.message.cls == ToolInput))
    && a.message.epoch <= b.message.epoch
  }

  ghost predicate Shaped(ctx: Context, cs: seq<Candidate>) {
    && (forall i :: 0 <= i < |cs| ==> Single(ctx, cs[i]))
    && (forall i, j :: 0 <= i < j < |cs| ==> Follows(cs[i], cs[j]))
  }

  lemma SingleValid(ctx: Context, c: Candidate)
    requires Single(ctx, c)
    ensures c.message.Valid() && Earliest(c.message.aliases) == Alias(c)
  {
    assert c.message.aliases[0] in c.message.aliases;
  }

  lemma ShapedValid(ctx: Context, cs: seq<Candidate>)
    requires Shaped(ctx, cs)
    ensures AllValid(cs)
  {
    hide Single, Follows;
    forall i | 0 <= i < |cs| ensures cs[i].message.Valid() { SingleValid(ctx, cs[i]); }
  }

  lemma MessageSingle(ctx: Context, r: Record, epoch: nat, role: string, cls: ContentClass, text: string,
      id: Option<int>, family: Family)
    requires cls.Prose? <==> family == ResponseMessage || family == EventMessage
    requires family != Canonical && (family == EventMessage ==> id.None?)
    ensures var c := Candidate(MessageOf(ctx, r, epoch, role, cls, text, id), family);
            Single(ctx, c) && c.message.aliases == [AliasOf(ctx, r, id)] && c.message.epoch == epoch
            && c.message.cls == cls
  {
  }

  lemma RecordShaped(ctx: Context, r: Record, epoch: nat)
    ensures Shaped(ctx, RecordCandidates(ctx, r, epoch))
    ensures forall c :: c in RecordCandidates(ctx, r, epoch) ==>
              c.message.aliases != [] && Alias(c).ordinal == r.ordinal && c.message.epoch == epoch
  {
    hide Single, MessageOf;
    match r.payload
    case ResponseText(role, text, id) => MessageSingle(ctx, r, epoch, role, Prose, text, id, ResponseMessage);
    case EventText(role, text) => MessageSingle(ctx, r, epoch, role, Prose, text, None, EventMessage);
    case ToolCall(name, input) =>
      MessageSingle(ctx, r, epoch, "assistant", ToolName, name, None, Tool);
      MessageSingle(ctx, r, epoch, "assistant", ToolInput, input, None, Tool);
    case _ =>
  }

  ghost predicate Within(cs: seq<Candidate>, ordinal: nat, epoch: nat) {
    forall c :: c in cs ==> c.message.aliases != [] && Alias(c).ordinal < ordinal && c.message.epoch <= epoch
  }

  lemma ShapedAppend(ctx: Context, a: seq<Candidate>, b: seq<Candidate>, ordinal: nat, epoch: nat)
    requires Shaped(ctx, a) && Shaped(ctx, b) && Within(a, ordinal, epoch)
    requires forall c :: c in b ==> c.message.aliases != [] && Alias(c).ordinal >= ordinal && c.message.epoch >= epoch
    ensures Shaped(ctx, a + b)
  {
    hide Single;
    var cs := a + b;
    forall i, j | 0 <= i < j < |cs| ensures Follows(cs[i], cs[j]) {
      if j < |a| {
        assert cs[i] == a[i] && cs[j] == a[j];
      } else if i >= |a| {
        assert cs[i] == b[i - |a|] && cs[j] == b[j - |a|];
      } else {
        assert cs[i] in a && cs[j] in b;
      }
    }
  }

  lemma {:induction false} CandidatesShaped(ctx: Context, records: seq<Record>, c: Continuation)
    requires InOrder(records)
    ensures Shaped(ctx, Candidates(ctx, records, c))
    ensures forall k: nat :: (forall i :: 0 <= i < |records| ==> records[i].ordinal < k) ==>
              Within(Candidates(ctx, records, c), k, After(records, c).epoch)
    ensures forall x :: x in Candidates(ctx, records, c) ==>
      && x.message.aliases != [] && x.message.epoch >= c.epoch
      && (exists i :: 0 <= i < |records| && records[i].ordinal == Alias(x).ordinal)
    decreases |records|
  {
    hide Shaped, RecordCandidates;
    if records == [] {
      assert Shaped(ctx, []) by { NoneShaped(ctx); }
    } else {
      var front, last := records[..|records| - 1], records[|records| - 1];
      CandidatesShaped(ctx, front, c);
      EpochCountsCompactions(front, c);
      var epoch := After(front, c).epoch;
      RecordShaped(ctx, last, epoch);
      assert Within(Candidates(ctx, front, c), last.ordinal, epoch);
      ShapedAppend(ctx, Candidates(ctx, front, c), RecordCandidates(ctx, last, epoch), last.ordinal, epoch);
      forall x | x in Candidates(ctx, records, c)
        ensures x.message.aliases != [] && x.message.epoch >= c.epoch
        ensures (exists i :: 0 <= i < |records| && records[i].ordinal == Alias(x).ordinal)
      {
        if x in Candidates(ctx, front, c) {
          var i :| 0 <= i < |front| && front[i].ordinal == Alias(x).ordinal;
          assert records[i] == front[i];
        } else {
          assert records[|records| - 1].ordinal == Alias(x).ordinal;
        }
      }
    }
  }

  lemma NoneShaped(ctx: Context)
    ensures Shaped(ctx, [])
  {
  }

  // ---------------------------------------------------------------- which candidates pair

  /** Nothing visible lies between two candidates of the list. */
  ghost predicate Adjacent(cs: seq<Candidate>, i: nat, j: nat) {
    i < j < |cs| && forall k :: i < k < j ==> !cs[k].message.cls.Prose?
  }

  /** A match with nothing visible between. */
  ghost predicate Near(cs: seq<Candidate>, i: nat, j: nat)
    requires AllValid(cs)
  {
    Match(cs, i, j) && (Adjacent(cs, i, j) || Adjacent(cs, j, i))
  }

  /** Every match of neighbours is the only match of both: what canonicalization can decide from
      a window is then what it decides from the session. */
  ghost predicate Unambiguous(cs: seq<Candidate>)
    requires AllValid(cs)
  {
    forall i: nat, j: nat :: Near(cs, i, j) ==> OnlyPartner(cs, i, j)
  }

  lemma MatchFacts(ctx: Context, cs: seq<Candidate>, i: nat, j: nat)
    requires Shaped(ctx, cs) && AllValid(cs) && Match(cs, i, j)
    ensures i < |cs| && j < |cs| && i != j && cs[i].message.cls.Prose? && cs[j].message.cls.Prose?
    ensures cs[i].message.epoch == cs[j].message.epoch
  {
  }

  lemma PositionFacts(ctx: Context, cs: seq<Candidate>, i: nat)
    requires Shaped(ctx, cs) && AllValid(cs) && i < |cs|
    ensures cs[i].message.aliases != [] && Ordinal(cs[i]) == Alias(cs[i]).ordinal
    ensures VisibilityBoundary(cs[i]) == Boundary(ctx.session, ctx.file, cs[i].message.epoch)
  {
    SingleValid(ctx, cs[i]);
  }

  lemma OrdinalsRise(ctx: Context, cs: seq<Candidate>, i: nat, j: nat)
    requires Shaped(ctx, cs) && i < j < |cs|
    ensures Follows(cs[i], cs[j])
    ensures cs[i].message.cls.Prose? || cs[j].message.cls.Prose? ==> Alias(cs[i]).ordinal < Alias(cs[j]).ordinal
  {
  }

  /** The ordinal gate of canonicalization sees exactly what lies between in the list. */
  lemma BetweenIsPosition(ctx: Context, cs: seq<Candidate>, i: nat, j: nat)
    requires Shaped(ctx, cs) && AllValid(cs) && i < j < |cs| && cs[i].message.cls.Prose? && cs[j].message.cls.Prose?
    requires cs[i].message.epoch == cs[j].message.epoch
    ensures !VisibleBetween(cs, VisibilityBoundary(cs[i]), Ordinal(cs[i]), Ordinal(cs[j])) <==> Adjacent(cs, i, j)
    ensures !VisibleBetween(cs, VisibilityBoundary(cs[j]), Ordinal(cs[j]), Ordinal(cs[i])) <==> Adjacent(cs, i, j)
  {
    hide Shaped, Ordinal, VisibilityBoundary, NativeMessage.Valid;
    var lo, hi := Ordinal(cs[i]), Ordinal(cs[j]);
    if Adjacent(cs, i, j) {
      forall k | 0 <= k < |cs| && cs[k].message.cls.Prose? && VisibilityBoundary(cs[k]) == VisibilityBoundary(cs[i])
        ensures !(lo < Ordinal(cs[k]) < hi || hi < Ordinal(cs[k]) < lo)
      {
        BetweenAt(ctx, cs, i, j, k);
      }
    } else {
      var k :| i < k < j && cs[k].message.cls.Prose?;
      BetweenAt(ctx, cs, i, j, k);
    }
    BetweenAt(ctx, cs, i, j, i);
  }

  lemma BetweenAt(ctx: Context, cs: seq<Candidate>, i: nat, j: nat, k: nat)
    requires Shaped(ctx, cs) && AllValid(cs) && i < j < |cs| && k < |cs|
    requires cs[i].message.cls.Prose? && cs[j].message.cls.Prose? && cs[k].message.cls.Prose?
    requires cs[i].message.epoch == cs[j].message.epoch
    ensures VisibilityBoundary(cs[i]) == VisibilityBoundary(cs[j]) && Ordinal(cs[i]) < Ordinal(cs[j])
    ensures (VisibilityBoundary(cs[k]) == VisibilityBoundary(cs[i])
             && Ordinal(cs[i]) < Ordinal(cs[k]) < Ordinal(cs[j])) <==> i < k < j
  {
    hide Shaped, Ordinal, VisibilityBoundary, NativeMessage.Valid;
    PositionFacts(ctx, cs, i);
    PositionFacts(ctx, cs, j);
    PositionFacts(ctx, cs, k);
    OrdinalsRise(ctx, cs, i, j);
    if k < i { OrdinalsRise(ctx, cs, k, i); } else if i < k { OrdinalsRise(ctx, cs, i, k); }
    if k < j { OrdinalsRise(ctx, cs, k, j); } else if j < k { OrdinalsRise(ctx, cs, j, k); }
  }

  /** In a parsed list, candidates pair when they are near and each other's only match. */
  lemma PairedIsNear(ctx: Context, cs: seq<Candidate>, i: nat, j: nat)
    requires Shaped(ctx, cs) && AllValid(cs)
    ensures Paired(cs, i, j) <==> Near(cs, i, j) && OnlyPartner(cs, i, j) && OnlyPartner(cs, j, i)
  {
    hide Shaped, AllValid, Ordinal, VisibilityBoundary, NativeMessage.Valid, Match, VisibleBetween, Adjacent;
    if Match(cs, i, j) {
      MatchFacts(ctx, cs, i, j);
      ValidAt(cs, i);
      ValidAt(cs, j);
      if i < j { BetweenIsPosition(ctx, cs, i, j); } else { BetweenIsPosition(ctx, cs, j, i); }
      assert Adjacent(cs, i, j) ==> i < j by { AdjacentOrder(cs, i, j); }
      assert Adjacent(cs, j, i) ==> j < i by { AdjacentOrder(cs, j, i); }
    }
  }

  lemma AdjacentOrder(cs: seq<Candidate>, i: nat, j: nat)
    ensures Adjacent(cs, i, j) ==> i < j < |cs|
  {
  }

  // ---------------------------------------------------------------- windows

  /** A list with some candidates of another, in order, skipping nothing visible in between. */
  ghost predicate Window(cs: seq<Candidate>, at: seq<nat>, w: seq<Candidate>) {
    && |w| == |at| && (forall u :: 0 <= u < |w| ==> at[u] < |cs| && w[u] == cs[at[u]])
    && (forall u, v :: 0 <= u < v < |at| ==> at[u] < at[v])
    && (forall u, k: nat :: 0 <= u && u + 1 < |at| && at[u] < k < at[u + 1] ==> !cs[k].message.cls.Prose?)
  }

  lemma WindowShaped(ctx: Context, cs: seq<Candidate>, at: seq<nat>, w: seq<Candidate>)
    requires Shaped(ctx, cs) && Window(cs, at, w)
    ensures Shaped(ctx, w) && AllValid(w)
  {
    hide Single, Follows;
    ShapedValid(ctx, cs);
    ShapedValid(ctx, w);
  }

  lemma WindowMatch(cs: seq<Candidate>, at: seq<nat>, w: seq<Candidate>, u: nat, v: nat)
    requires AllValid(cs) && AllValid(w) && Window(cs, at, w) && u < |w| && v < |w|
    ensures Match(w, u, v) == Match(cs, at[u], at[v])
  {
    hide AllValid, Matches;
  }

  lemma {:induction false} WindowConvex(cs: seq<Candidate>, at: seq<nat>, w: seq<Candidate>, u: nat, v: nat)
    requires Window(cs, at, w) && u < v < |at|
    ensures Adjacent(w, u, v) <==> Adjacent(cs, at[u], at[v])
    decreases v - u
  {
    if v == u + 1 {
    } else {
      WindowConvex(cs, at, w, u + 1, v);
      WindowConvex(cs, at, w, u, u + 1);
    }
  }

  // ---------------------------------------------------------------- staged rows

  datatype RowKey = RowKey(ordinal: nat, cls: ContentClass)

  datatype StagedRow = StagedRow(logicalId: LogicalId, canonical: Locator, timestamp: Timestamp, role: string,
      kind: SessionKind, epoch: nat,
                     cls: ContentClass, text: string, submittedBy: SubmittedBy, alias: PhysicalAlias)

  type Table = map<RowKey, StagedRow>

  function RowOf(m: NativeMessage, a: PhysicalAlias): StagedRow {
    StagedRow(m.logicalId, m.canonical, m.timestamp, m.role, m.kind, m.epoch, m.cls, m.text, m.submittedBy, a)
  }

  function UpsertMessage(t: Table, m: NativeMessage, aliases: seq<PhysicalAlias>): Table {
    if aliases == [] then t
    else
      var last := aliases[|aliases| - 1];
      UpsertMessage(t, m, aliases[..|aliases| - 1])[RowKey(last.ordinal, m.cls) := RowOf(m, last)]
  }

  /** Stage the rows of a batch over those staged or held before, by occurrence and class. */
  function Staged(t: Table, messages: seq<NativeMessage>): Table {
    if messages == [] then t
    else
      var last := messages[|messages| - 1];
      UpsertMessage(Staged(t, messages[..|messages| - 1]), last, last.aliases)
  }

  predicate Touches(m: NativeMessage, added: set<PhysicalAlias>) {
    exists a :: a in m.aliases && a in added
  }

  /** The canonical messages that a parsed suffix created or changed. */
  function Touching(messages: seq<NativeMessage>, added: set<PhysicalAlias>): seq<NativeMessage> {
    if messages == [] then []
    else
      Touching(messages[..|messages| - 1], added)
      + if Touches(messages[|messages| - 1], added) then [messages[|messages| - 1]] else []
  }

  lemma {:induction false} StagedOne(t: Table, messages: seq<NativeMessage>, m: NativeMessage,
      added: set<PhysicalAlias>)
    ensures Staged(t, Touching(messages + [m], added))
            == if Touches(m, added) then UpsertMessage(Staged(t, Touching(messages, added)), m, m.aliases)
               else Staged(t, Touching(messages, added))
  {
    hide Touches, UpsertMessage;
    assert (messages + [m])[..|messages|] == messages;
    var kept := Touching(messages, added);
    if Touches(m, added) {
      assert Touching(messages + [m], added) == kept + [m];
      assert (kept + [m])[..|kept|] == kept;
    } else {
      assert Touching(messages + [m], added) == kept;
    }
  }

  function KeyOf(c: Candidate): RowKey
    requires c.message.aliases != []
  {
    RowKey(Alias(c).ordinal, c.message.cls)
  }

  lemma KeysDiffer(ctx: Context, cs: seq<Candidate>, i: nat, j: nat)
    requires Shaped(ctx, cs) && i < |cs| && j < |cs|
    ensures cs[i].message.aliases != [] && cs[j].message.aliases != []
    ensures KeyOf(cs[i]) == KeyOf(cs[j]) ==> i == j
  {
    hide Single;
    assert Single(ctx, cs[i]) && Single(ctx, cs[j]);
    HasAlias(ctx, cs[i]);
    HasAlias(ctx, cs[j]);
    if i < j { assert Follows(cs[i], cs[j]); } else if j < i { assert Follows(cs[j], cs[i]); }
  }

  lemma HasAlias(ctx: Context, c: Candidate)
    requires Single(ctx, c)
    ensures c.message.aliases == [Alias(c)] && c.message.aliases != []
  {
  }

  /** Merging two single occurrences of one session only adds the later occurrence: authorship
      was decided from the role and the session kind, which a pair shares. */
  lemma MergeAddsAlias(ctx: Context, a: Candidate, b: Candidate)
    requires Single(ctx, a) && Single(ctx, b) && Follows(a, b) && a.message.Valid() && b.message.Valid()
    requires Matches(a, b)
    ensures MergeMessages(a.message, b.message) == a.message.(aliases := [Alias(a), Alias(b)])
  {
    hide NativeMessage.Valid, Single, Matches, SortBy, Less, Canonicalization.AliasKey, Earliest, Submission, Follows;
    HasAlias(ctx, a);
    HasAlias(ctx, b);
    var first, second := Alias(a), Alias(b);
    MatchedPair(ctx, a, b);
    assert a.message.aliases + b.message.aliases == [first, second];
    SortedPair(first, second);
  }

  lemma MatchedPair(ctx: Context, a: Candidate, b: Candidate)
    requires Single(ctx, a) && Single(ctx, b) && Follows(a, b) && a.message.Valid() && b.message.Valid()
    requires Matches(a, b)
    ensures Alias(a).file == Alias(b).file && Alias(a).ordinal < Alias(b).ordinal
    ensures a.message.canonical == Alias(a).locator && a.message.logicalId == CodexLogicalMessageId(Alias(a))
    ensures Submission(a.message, b.message) == (a.message.submittedBy, a.message.evidence, a.message.cardinality)
  {
    hide NativeMessage.Valid, Earliest, CandidateKey;
    assert a.message.role == b.message.role && a.message.evidence == b.message.evidence;
    assert a.message.evidence + b.message.evidence == a.message.evidence;
  }

  lemma SortedPair(a: PhysicalAlias, b: PhysicalAlias)
    requires a.file == b.file && a.ordinal < b.ordinal
    ensures SortBy([a, b], Canonicalization.AliasKey) == [a, b] && Earliest([a, b]) == a
  {
    hide Canonicalization.AliasKey, Less;
    AliasLess(a, b);
    var both := [a, b];
    Trichotomy(Canonicalization.AliasKey(a), Canonicalization.AliasKey(b));
    SortIdentity(both, Canonicalization.AliasKey);
    EarliestOfTwo(a, b);
  }

  lemma AliasLess(a: PhysicalAlias, b: PhysicalAlias)
    requires a.file == b.file && a.ordinal < b.ordinal
    ensures Less(Canonicalization.AliasKey(a), Canonicalization.AliasKey(b))
  {
    hide Locator.Rank;
    var x, y := Canonicalization.AliasKey(a), Canonicalization.AliasKey(b);
    assert Less(x[1..], y[1..]);
  }

  lemma EarliestOfTwo(a: PhysicalAlias, b: PhysicalAlias)
    requires !Less(Canonicalization.AliasKey(b), Canonicalization.AliasKey(a))
    ensures Earliest([a, b]) == a
  {
    hide Less, Canonicalization.AliasKey;
    assert [a, b][..1] == [a];
  }

  // ---------------------------------------------------------------- the rows a batch stages

  /** The candidate whose identity the message of a candidate carries: the earlier of a pair. */
  ghost function Leader(cs: seq<Candidate>, u: nat): (l: nat)
    requires AllValid(cs)
    ensures l <= u
  {
    match Partner(cs, u)
    case None => u
    case Some(v) => if v < u then v else u
  }

  ghost function RowAt(ctx: Context, cs: seq<Candidate>, u: nat): StagedRow
    requires Shaped(ctx, cs) && AllValid(cs) && u < |cs|
  {
    HasAlias(ctx, cs[u]);
    RowOf(cs[Leader(cs, u)].message, Alias(cs[u]))
  }

  /** Whether the message of candidate u has an occurrence among the added ones. */
  ghost predicate Touched(cs: seq<Candidate>, u: nat, added: set<PhysicalAlias>)
    requires AllValid(cs)
  {
    && u < |cs|
    && (|| cs[u].message.aliases[0] in added
        || (Partner(cs, u).Some? && Partner(cs, u).value < |cs|
            && cs[Partner(cs, u).value].message.aliases[0] in added))
  }

  /** The rows of some candidates were put over a table, and nothing else. */
  ghost predicate Put(ctx: Context, cs: seq<Candidate>, s: set<nat>, before: Table, after: Table)
    requires Shaped(ctx, cs) && AllValid(cs)
  {
    && (forall u :: u in s ==>
          && u < |cs| && cs[u].message.aliases != [] && KeyOf(cs[u]) in after
          && after[KeyOf(cs[u])] == RowAt(ctx, cs, u))
    && (forall k :: k in before ==> k in after)
    && (forall k :: k in after ==> (k in before && after[k] == before[k]) || exists u :: u in s && KeyOf(cs[u]) == k)
  }

  lemma PutOne(ctx: Context, cs: seq<Candidate>, s: set<nat>, u: nat, before: Table, t: Table)
    requires Shaped(ctx, cs) && AllValid(cs) && u < |cs| && Put(ctx, cs, s, before, t)
    ensures cs[u].message.aliases != []
    ensures Put(ctx, cs, s + {u}, before, t[KeyOf(cs[u]) := RowAt(ctx, cs, u)])
  {
    hide Shaped, AllValid, RowAt, KeyOf;
    assert cs[u].message.aliases != [] by { KeysDiffer(ctx, cs, u, u); }
    var k, after := KeyOf(cs[u]), t[KeyOf(cs[u]) := RowAt(ctx, cs, u)];
    forall v | v in s ensures KeyOf(cs[v]) == k ==> v == u { KeysDiffer(ctx, cs, u, v); }
    forall x | x in after
      ensures (x in before && after[x] == before[x]) || exists v :: v in s + {u} && KeyOf(cs[v]) == x
    {
      if x == k {
        assert u in s + {u};
      } else if !(x in before && after[x] == before[x]) {
        var v :| v in s && KeyOf(cs[v]) == x;
        assert v in s + {u};
      }
    }
  }

  /** The candidates whose rows have been staged after n visits. */
  ghost function StagedAfter(cs: seq<Candidate>, n: nat, added: set<PhysicalAlias>): set<nat>
    requires AllValid(cs)
  {
    set u: nat | u < |cs| && Emitted(cs, n, u) && Touched(cs, u, added)
  }

  lemma EmittedGroup(cs: seq<Candidate>, n: nat, x: nat)
    requires AllValid(cs) && n < |cs|
    ensures match Partner(cs, n)
            case None => Emitted(cs, n + 1, x) <==> Emitted(cs, n, x) || x == n
            case Some(j) =>
              && j < |cs| && j != n && Partner(cs, j) == Some(n)
              && (j < n ==> Emitted(cs, n + 1, x) == Emitted(cs, n, x))
              && (j > n ==> (Emitted(cs, n + 1, x) <==> Emitted(cs, n, x) || x == n || x == j))
  {
    hide Partner, Paired, AllValid, Emitted;
    EmittedStep(cs, n, x);
    if Partner(cs, n).Some? { PartnerIs(cs, n, Partner(cs, n).value); }
  }

  lemma VisitSkipped(cs: seq<Candidate>, n: nat, added: set<PhysicalAlias>)
    requires AllValid(cs) && n < |cs| && Partner(cs, n).Some? && Partner(cs, n).value < n
    ensures StagedAfter(cs, n + 1, added) == StagedAfter(cs, n, added)
  {
    hide Partner, Paired, AllValid, Emitted, Touched;
    forall u: nat ensures u in StagedAfter(cs, n + 1, added) <==> u in StagedAfter(cs, n, added) {
      EmittedGroup(cs, n, u);
    }
  }

  lemma VisitSingle(cs: seq<Candidate>, n: nat, added: set<PhysicalAlias>)
    requires AllValid(cs) && n < |cs| && Partner(cs, n).None? && |cs[n].message.aliases| == 1
    ensures Touched(cs, n, added) == Touches(cs[n].message, added)
    ensures StagedAfter(cs, n + 1, added) == StagedAfter(cs, n, added) + if Touched(cs, n, added) then {n} else {}
  {
    hide Partner, Paired, Emitted;
    forall u: nat ensures Emitted(cs, n + 1, u) <==> Emitted(cs, n, u) || u == n { EmittedGroup(cs, n, u); }
  }

  lemma VisitPair(cs: seq<Candidate>, n: nat, j: nat, added: set<PhysicalAlias>)
    requires AllValid(cs) && n < |cs| && Partner(cs, n) == Some(j) && n < j
    ensures j < |cs| && Touched(cs, n, added) == Touched(cs, j, added)
    ensures Touched(cs, n, added) <==> cs[n].message.aliases[0] in added || cs[j].message.aliases[0] in added
    ensures StagedAfter(cs, n + 1, added) == StagedAfter(cs, n, added) + if Touched(cs, n, added) then {n, j} else {}
  {
    hide Partner, Paired, Emitted;
    forall u: nat ensures Emitted(cs, n + 1, u) <==> Emitted(cs, n, u) || u == n || u == j { EmittedGroup(cs, n, u); }
    EmittedGroup(cs, n, n);
  }

  lemma UpsertsTwo(t: Table, m: NativeMessage, a: PhysicalAlias, b: PhysicalAlias)
    ensures UpsertMessage(t, m, [a]) == t[RowKey(a.ordinal, m.cls) := RowOf(m, a)]
    ensures UpsertMessage(t, m, [a, b])
              == t[RowKey(a.ordinal, m.cls) := RowOf(m, a)][RowKey(b.ordinal, m.cls) := RowOf(m, b)]
  {
    assert [a][..0] == [] && [a, b][..1] == [a];
  }

  /** The merged message gives both occurrences the identity of the earlier one. */
  lemma PairRows(ctx: Context, cs: seq<Candidate>, n: nat, j: nat)
    requires Shaped(ctx, cs) && AllValid(cs) && n < |cs| && Partner(cs, n) == Some(j) && n < j
    ensures j < |cs| && cs[n].message.aliases != [] && cs[j].message.aliases != []
    ensures var m := MergeMessages(cs[n].message, cs[j].message);
            && m.aliases == [Alias(cs[n]), Alias(cs[j])]
            && KeyOf(cs[n]) == RowKey(Alias(cs[n]).ordinal, m.cls)
            && KeyOf(cs[j]) == RowKey(Alias(cs[j]).ordinal, m.cls)
            && RowAt(ctx, cs, n) == RowOf(m, Alias(cs[n])) && RowAt(ctx, cs, j) == RowOf(m, Alias(cs[j]))
  {
    hide NativeMessage.Valid, Single, MergeMessages;
    PartnerIs(cs, n, j);
    MatchFacts(ctx, cs, n, j);
    HasAlias(ctx, cs[n]);
    HasAlias(ctx, cs[j]);
    MergeAddsAlias(ctx, cs[n], cs[j]);
  }

  /** What a batch stages: for every candidate of a touched message, the row of its message. */
  lemma {:induction false} BatchStages(ctx: Context, cs: seq<Candidate>, n: nat, added: set<PhysicalAlias>,
      before: Table)
    requires Shaped(ctx, cs) && AllValid(cs) && n <= |cs|
    ensures Put(ctx, cs, StagedAfter(cs, n, added), before, Staged(before, Touching(Outputs(cs, n), added)))
  {
    hide Shaped, AllValid, Partner, Paired, Emitted, RowAt, RowOf, Touched, Touches, MergeMessages, Put, StagedAfter,
        Staged, Touching,
      UpsertMessage, KeyOf, Single, NativeMessage.Valid, Outputs, OutputAt;
    if n == 0 {
      NothingStaged(ctx, cs, added, before);
    } else {
      BatchStages(ctx, cs, n - 1, added, before);
      OutputsNext(cs, n - 1);
      VisitStages(ctx, cs, n - 1, added, before, Staged(before, Touching(Outputs(cs, n - 1), added)));
      if OutputAt(cs, n - 1) != [] {
        StagedOne(before, Outputs(cs, n - 1), OutputAt(cs, n - 1)[0], added);
        assert Outputs(cs, n) == Outputs(cs, n - 1) + [OutputAt(cs, n - 1)[0]];
      } else {
        assert Outputs(cs, n) == Outputs(cs, n - 1);
      }
    }
  }

  lemma OutputsNext(cs: seq<Candidate>, n: nat)
    requires AllValid(cs) && n < |cs|
    ensures Outputs(cs, n + 1) == Outputs(cs, n) + OutputAt(cs, n)
  {
  }

  lemma NothingStaged(ctx: Context, cs: seq<Candidate>, added: set<PhysicalAlias>, before: Table)
    requires Shaped(ctx, cs) && AllValid(cs)
    ensures Put(ctx, cs, StagedAfter(cs, 0, added), before, Staged(before, Touching(Outputs(cs, 0), added)))
  {
  }

  lemma VisitStages(ctx: Context, cs: seq<Candidate>, n: nat, added: set<PhysicalAlias>, before: Table, t: Table)
    requires Shaped(ctx, cs) && AllValid(cs) && n < |cs| && Put(ctx, cs, StagedAfter(cs, n, added), before, t)
    ensures OutputAt(cs, n) == [] ==> Put(ctx, cs, StagedAfter(cs, n + 1, added), before, t)
    ensures OutputAt(cs, n) != [] ==>
      && |OutputAt(cs, n)| == 1
      && var m := OutputAt(cs, n)[0];
         Put(ctx, cs, StagedAfter(cs, n + 1, added), before,
             if Touches(m, added) then UpsertMessage(t, m, m.aliases) else t)
  {
    hide Shaped, AllValid, Partner, Paired, Emitted, RowOf, Touched, Touches, MergeMessages, Put, StagedAfter,
        UpsertMessage,
      Single, NativeMessage.Valid;
    assert Single(ctx, cs[n]) by { ShapedAt(ctx, cs, n); }
    HasAlias(ctx, cs[n]);
    match Partner(cs, n)
    case None =>
      VisitSingle(cs, n, added);
      UpsertsTwo(t, cs[n].message, Alias(cs[n]), Alias(cs[n]));
      PutOne(ctx, cs, StagedAfter(cs, n, added), n, before, t);
      assert StagedAfter(cs, n, added) + {} == StagedAfter(cs, n, added);
    case Some(j) =>
      EmittedGroup(cs, n, n);
      if j < n {
        VisitSkipped(cs, n, added);
      } else {
        VisitPairStages(ctx, cs, n, j, added, before, t);
      }
  }

  lemma ShapedAt(ctx: Context, cs: seq<Candidate>, i: nat)
    requires Shaped(ctx, cs) && i < |cs|
    ensures Single(ctx, cs[i])
  {
  }

  lemma VisitPairStages(ctx: Context, cs: seq<Candidate>, n: nat, j: nat, added: set<PhysicalAlias>, before: Table,
      t: Table)
    requires Shaped(ctx, cs) && AllValid(cs) && n < |cs| && Put(ctx, cs, StagedAfter(cs, n, added), before, t)
    requires Partner(cs, n) == Some(j) && n < j < |cs|
    ensures var m := MergeMessages(cs[n].message, cs[j].message);
            Put(ctx, cs, StagedAfter(cs, n + 1, added), before,
                if Touches(m, added) then UpsertMessage(t, m, m.aliases) else t)
  {
    hide Shaped, AllValid, Partner, Paired, Emitted, RowOf, RowAt, Touched, MergeMessages, Put, StagedAfter,
        UpsertMessage,
      Single, NativeMessage.Valid;
    var s := StagedAfter(cs, n, added);
    ValidAt(cs, n);
    ValidAt(cs, j);
    PairRows(ctx, cs, n, j);
    VisitPair(cs, n, j, added);
    var m, a, b := MergeMessages(cs[n].message, cs[j].message), Alias(cs[n]), Alias(cs[j]);
    UpsertsTwo(t, m, a, b);
    PutOne(ctx, cs, s, n, before, t);
    PutOne(ctx, cs, s + {n}, j, before, t[KeyOf(cs[n]) := RowAt(ctx, cs, n)]);
    assert s + {n} + {j} == s + {n, j} && s + {} == s;
    assert Touches(m, added) <==> a in added || b in added;
  }

  // ---------------------------------------------------------------- one batch

  datatype State = State(continuation: Continuation, trailing: Option<Candidate>)

  const INITIAL := State(Continuation(0, {}), None)

  function WindowOf(trailing: Option<Candidate>, added: seq<Candidate>): seq<Candidate> {
    (if trailing.Some? then [trailing.value] else []) + added
  }

  function Occurring(cs: seq<Candidate>): set<PhysicalAlias> {
    set c, a | c in cs && a in c.message.aliases :: a
  }

  /** The last projection of the epoch among the first n candidates. */
  function LastPairable(cs: seq<Candidate>, epoch: nat, n: nat): (u: Option<nat>)
    requires n <= |cs|
    ensures u.Some? ==> u.value < n && Pairable(cs[u.value]) && cs[u.value].message.epoch == epoch
    ensures forall k :: (if u.Some? then u.value + 1 else 0) <= k < n ==>
              !(Pairable(cs[k]) && cs[k].message.epoch == epoch)
  {
    if n == 0 then None
    else if Pairable(cs[n - 1]) && cs[n - 1].message.epoch == epoch then Some(n - 1)
    else LastPairable(cs, epoch, n - 1)
  }

  /** The carried candidate: that projection, if it is unpaired and nothing is compatible with it. */
  ghost function NextTrailing(cs: seq<Candidate>, epoch: nat): Option<Candidate>
    requires AllValid(cs)
  {
    match LastPairable(cs, epoch, |cs|)
    case None => None
    case Some(u) => if Partner(cs, u).Some? || Ambiguous(cs, u) then None else Some(cs[u])
  }

  ghost function NextState(ctx: Context, records: seq<Record>, state: State): State {
    var next := After(records, state.continuation);
    var cs := WindowOf(state.trailing, Candidates(ctx, records, state.continuation));
    State(next, if AllValid(cs) then NextTrailing(cs, next.epoch) else None)
  }

  ghost function Stage(ctx: Context, records: seq<Record>, state: State, held: Table): Table {
    var added := Candidates(ctx, records, state.continuation);
    var cs := WindowOf(state.trailing, added);
    if AllValid(cs) then Staged(held, Touching(Outputs(cs, |cs|), Occurring(added))) else held
  }

  // ---------------------------------------------------------------- batch after batch

  function Flat(batches: seq<seq<Record>>): seq<Record> {
    if batches == [] then [] else Flat(batches[..|batches| - 1]) + batches[|batches| - 1]
  }

  ghost function StateAfter(ctx: Context, batches: seq<seq<Record>>): State {
    if batches == [] then INITIAL
    else NextState(ctx, batches[|batches| - 1], StateAfter(ctx, batches[..|batches| - 1]))
  }

  /** What is held after parsing and staging the batches in turn. */
  ghost function Held(ctx: Context, batches: seq<seq<Record>>): Table {
    if batches == [] then map[]
    else
      var front := batches[..|batches| - 1];
      Stage(ctx, batches[|batches| - 1], StateAfter(ctx, front), Held(ctx, front))
  }

  // ---------------------------------------------------------------- the cut-free meaning of a row

  ghost function EarlierNear(cs: seq<Candidate>, i: nat): (l: nat)
    requires AllValid(cs)
    ensures l <= i && (l < i ==> Near(cs, i, l))
    ensures l == i ==> forall j: nat :: j < i ==> !Near(cs, i, j)
  {
    if exists j: nat :: j < i && Near(cs, i, j) then
      var j: nat :| j < i && Near(cs, i, j);
      j
    else i
  }

  ghost function FinalRow(ctx: Context, cs: seq<Candidate>, i: nat): StagedRow
    requires Shaped(ctx, cs) && AllValid(cs) && i < |cs|
  {
    HasAlias(ctx, cs[i]);
    RowOf(cs[EarlierNear(cs, i)].message, Alias(cs[i]))
  }

  lemma NearSymmetric(cs: seq<Candidate>, i: nat, j: nat)
    requires AllValid(cs)
    ensures Near(cs, i, j) == Near(cs, j, i)
  {
    hide AllValid, Matches;
    MatchBothWays(cs, i, j);
    MatchBothWays(cs, j, i);
  }

  /** In a window, candidates pair exactly when they are near in the session. */
  lemma WindowPairs(ctx: Context, cs: seq<Candidate>, at: seq<nat>, w: seq<Candidate>, u: nat, v: nat)
    requires Shaped(ctx, cs) && AllValid(cs) && AllValid(w) && Shaped(ctx, w) && Window(cs, at, w) && Unambiguous(cs)
    requires u < |w| && v < |w|
    ensures Paired(w, u, v) <==> Near(cs, at[u], at[v])
  {
    hide Shaped, AllValid, Match, Adjacent;
    PairedIsNear(ctx, w, u, v);
    WindowMatch(cs, at, w, u, v);
    if u < v { WindowConvex(cs, at, w, u, v); }
    if v < u { WindowConvex(cs, at, w, v, u); }
    assert Adjacent(w, u, v) || Adjacent(w, v, u) <==> Adjacent(cs, at[u], at[v]) || Adjacent(cs, at[v], at[u]) by {
      AdjacentOrder(w, u, v);
      AdjacentOrder(w, v, u);
      AdjacentOrder(cs, at[u], at[v]);
      AdjacentOrder(cs, at[v], at[u]);
    }
    if Near(cs, at[u], at[v]) {
      NearSymmetric(cs, at[u], at[v]);
      WindowOnly(cs, at, w, u, v);
      WindowOnly(cs, at, w, v, u);
    }
  }

  lemma WindowOnly(cs: seq<Candidate>, at: seq<nat>, w: seq<Candidate>, u: nat, v: nat)
    requires AllValid(cs) && AllValid(w) && Window(cs, at, w) && u < |w| && v < |w| && OnlyPartner(cs, at[u], at[v])
    ensures OnlyPartner(w, u, v)
  {
    hide AllValid, Matches;
    WindowMatch(cs, at, w, u, v);
    forall k: nat | Match(w, u, k) ensures k == v {
      WindowMatch(cs, at, w, u, k);
    }
  }

  /** A window gives a candidate its final row, if it holds the neighbour it might follow. */
  lemma WindowRow(ctx: Context, cs: seq<Candidate>, at: seq<nat>, w: seq<Candidate>, u: nat)
    requires Shaped(ctx, cs) && AllValid(cs) && AllValid(w) && Shaped(ctx, w) && Window(cs, at, w) && Unambiguous(cs)
    requires u < |w| && forall j: nat :: j < at[u] && Near(cs, at[u], j) ==> j in at
    ensures RowAt(ctx, w, u) == FinalRow(ctx, cs, at[u])
  {
    hide Shaped, AllValid, Near, RowOf, Paired, Unambiguous;
    var j := EarlierNear(cs, at[u]);
    if j < at[u] {
      var v :| 0 <= v < |at| && at[v] == j;
      WindowPairs(ctx, cs, at, w, u, v);
      PartnerIs(w, u, v);
    } else if Partner(w, u).Some? {
      var v := Partner(w, u).value;
      PartnerIs(w, u, v);
      WindowPairs(ctx, cs, at, w, u, v);
    }
  }

  // ---------------------------------------------------------------- what a run of batches keeps

  /** The last visible candidate of the first m. */
  ghost predicate IsLast(cs: seq<Candidate>, m: nat, l: nat) {
    l < m <= |cs| && cs[l].message.cls.Prose? && forall k :: l < k < m ==> !cs[k].message.cls.Prose?
  }

  /** What is carried is the last visible candidate of the epoch; when nothing is, that candidate
      already has a match behind it. */
  ghost predicate CarryOk(cs: seq<Candidate>, m: nat, epoch: nat, trailing: Option<Candidate>)
    requires AllValid(cs)
  {
    match trailing
    case Some(c) => exists l: nat :: IsLast(cs, m, l) && cs[l] == c && c.message.epoch == epoch
    case None => forall l: nat :: IsLast(cs, m, l) && cs[l].message.epoch == epoch ==>
      exists k: nat :: k < m && Match(cs, l, k)
  }

  ghost predicate HeldIs(ctx: Context, cs: seq<Candidate>, m: nat, t: Table)
    requires Shaped(ctx, cs) && AllValid(cs) && m <= |cs|
  {
    && (forall i :: 0 <= i < m ==>
         cs[i].message.aliases != [] && KeyOf(cs[i]) in t && t[KeyOf(cs[i])] == FinalRow(ctx, cs, i))
    && (forall k :: k in t ==> exists i :: 0 <= i < m && cs[i].message.aliases != [] && KeyOf(cs[i]) == k)
  }

  ghost predicate EpochsSplit(cs: seq<Candidate>, m: nat, epoch: nat) {
    m <= |cs| && forall i :: 0 <= i < |cs| ==>
      if i < m then cs[i].message.epoch <= epoch else epoch <= cs[i].message.epoch
  }

  /** The positions a window of new candidates and the carried one takes. */
  function Positions(carry: Option<nat>, m: nat, n: nat): (at: seq<nat>)
    requires m <= n
    ensures |at| == n - m + if carry.Some? then 1 else 0
    ensures carry.Some? ==> at[0] == carry.value
    ensures forall u :: (if carry.Some? then 1 else 0) <= u < |at| ==> at[u] == m + u - if carry.Some? then 1 else 0
  {
    (if carry.Some? then [carry.value] else []) + seq(n - m, k requires 0 <= k < n - m => m + k)
  }

  lemma WindowIs(cs: seq<Candidate>, m: nat, n: nat, carry: Option<nat>)
    requires m <= n <= |cs| && (carry.Some? ==> IsLast(cs, m, carry.value))
    ensures Window(cs, Positions(carry, m, n), WindowOf(if carry.Some? then Some(cs[carry.value]) else None, cs[m..n]))
  {
  }

  /** An earlier neighbour of a new candidate is the carried one. */
  lemma NeighbourIsCarried(ctx: Context, cs: seq<Candidate>, m: nat, epoch: nat, trailing: Option<Candidate>, i: nat,
      j: nat)
    requires Shaped(ctx, cs) && AllValid(cs) && Unambiguous(cs) && EpochsSplit(cs, m, epoch)
    requires CarryOk(cs, m, epoch, trailing)
    requires j < m <= i < |cs| && Near(cs, i, j)
    ensures IsLast(cs, m, j) && trailing.Some? && cs[j] == trailing.value
  {
    hide Shaped, AllValid, Matches;
    MatchFacts(ctx, cs, i, j);
    NearSymmetric(cs, i, j);
    assert OnlyPartner(cs, j, i);
    assert IsLast(cs, m, j);
  }

  lemma LastIsOne(cs: seq<Candidate>, m: nat, l: nat, k: nat)
    requires IsLast(cs, m, l) && IsLast(cs, m, k)
    ensures l == k
  {
  }

  /** The row a window gives each candidate it writes is its final row. */
  lemma WrittenIsFinal(ctx: Context, cs: seq<Candidate>, m: nat, n: nat, epoch: nat, trailing: Option<Candidate>,
      carry: Option<nat>,
                       w: seq<Candidate>, u: nat)
    requires Shaped(ctx, cs) && AllValid(cs) && Unambiguous(cs) && m <= n <= |cs|
    requires EpochsSplit(cs, m, epoch) && CarryOk(cs, m, epoch, trailing)
    requires carry.Some? <==> trailing.Some?
    requires carry.Some? ==> IsLast(cs, m, carry.value) && cs[carry.value] == trailing.value
    requires w == WindowOf(trailing, cs[m..n]) && AllValid(w) && Shaped(ctx, w)
    requires u < |w| && (carry.Some? && u == 0 ==> Partner(w, u).Some?)
    ensures RowAt(ctx, w, u) == FinalRow(ctx, cs, Positions(carry, m, n)[u])
  {
    hide Shaped, AllValid, Near, CarryOk, EpochsSplit, RowAt, FinalRow, Unambiguous;
    var at := Positions(carry, m, n);
    WindowIs(cs, m, n, carry);
    forall j: nat | j < at[u] && Near(cs, at[u], j) ensures j in at {
      if carry.Some? && u == 0 {
        var v := Partner(w, u).value;
        PartnerIs(w, u, v);
        WindowPairs(ctx, cs, at, w, u, v);
        NearIsOne(cs, at[u], at[v], j);
        assert false;
      } else if j < m {
        NeighbourIsCarried(ctx, cs, m, epoch, trailing, at[u], j);
        LastIsOne(cs, m, j, carry.value);
        assert at[0] == j;
      } else {
        assert at[j - m + if carry.Some? then 1 else 0] == j;
      }
    }
    WindowRow(ctx, cs, at, w, u);
  }

  lemma NearIsOne(cs: seq<Candidate>, i: nat, j: nat, k: nat)
    requires AllValid(cs) && Unambiguous(cs) && Near(cs, i, j) && Near(cs, i, k)
    ensures j == k
  {
    hide Matches, AllValid;
  }

  lemma BatchRows(ctx: Context, cs: seq<Candidate>, m: nat, n: nat, epoch: nat, trailing: Option<Candidate>,
      held: Table)
    requires Shaped(ctx, cs) && AllValid(cs) && Unambiguous(cs) && m <= n <= |cs|
    requires EpochsSplit(cs, m, epoch) && CarryOk(cs, m, epoch, trailing) && HeldIs(ctx, cs, m, held)
    ensures var w := WindowOf(trailing, cs[m..n]);
            AllValid(w) && HeldIs(ctx, cs, n, Staged(held, Touching(Outputs(w, |w|), Occurring(cs[m..n]))))
  {
    hide Shaped, AllValid, Near, CarryOk, EpochsSplit, RowAt, FinalRow, Unambiguous, Staged, Touching, Outputs,
        KeyOf, Put, HeldIs;
    var w := WindowOf(trailing, cs[m..n]);
    var carry := Carried(cs, m, epoch, trailing);
    var at := Positions(carry, m, n);
    WindowIs(cs, m, n, carry);
    WindowShaped(ctx, cs, at, w);
    var added := Occurring(cs[m..n]);
    var s := StagedAfter(w, |w|, added);
    var after := Staged(held, Touching(Outputs(w, |w|), added));
    BatchStages(ctx, w, |w|, added, held);
    StagedSet(ctx, cs, m, n, carry, w);
    forall u | u in s ensures RowAt(ctx, w, u) == FinalRow(ctx, cs, at[u]) {
      WrittenIsFinal(ctx, cs, m, n, epoch, trailing, carry, w, u);
    }
    forall i: nat | m <= i < n ensures Covers(s, at, i) {
      var u: nat := i - m + if carry.Some? then 1 else 0;
      assert u in s && at[u] == i;
    }
    PutIsHeld(ctx, cs, m, n, at, w, s, held, after);
  }

  ghost function Carried(cs: seq<Candidate>, m: nat, epoch: nat, trailing: Option<Candidate>): (carry: Option<nat>)
    requires AllValid(cs) && CarryOk(cs, m, epoch, trailing)
    ensures carry.Some? <==> trailing.Some?
    ensures carry.Some? ==> IsLast(cs, m, carry.value) && cs[carry.value] == trailing.value
  {
    if trailing.None? then None
    else
      var l: nat :| IsLast(cs, m, l) && cs[l] == trailing.value && trailing.value.message.epoch == epoch;
      Some(l)
  }

  /** Every new candidate is staged, and the carried one only when it was paired. */
  lemma StagedSet(ctx: Context, cs: seq<Candidate>, m: nat, n: nat, carry: Option<nat>, w: seq<Candidate>)
    requires Shaped(ctx, cs) && AllValid(cs) && m <= n <= |cs| && (carry.Some? ==> IsLast(cs, m, carry.value))
    requires w == WindowOf(if carry.Some? then Some(cs[carry.value]) else None, cs[m..n]) && AllValid(w)
    requires Shaped(ctx, w)
    ensures var s := StagedAfter(w, |w|, Occurring(cs[m..n]));
            && (forall u :: u in s ==> u < |w| && (carry.Some? && u == 0 ==> Partner(w, u).Some?))
            && (forall u: nat :: u < |w| && !(carry.Some? && u == 0) ==> u in s)
  {
    hide Shaped, AllValid, Partner, Paired;
    var added := Occurring(cs[m..n]);
    forall u: nat | u < |w| ensures Emitted(w, |w|, u) { EmittedWhenVisited(w, u); }
    forall u: nat | u < |w| && !(carry.Some? && u == 0)
      ensures w[u].message.aliases != [] && w[u].message.aliases[0] in added
    {
      assert w[u].message.aliases != [] by { KeysDiffer(ctx, w, u, u); }
      assert w[u] in cs[m..n] by { assert w[u] == cs[m..n][u - if carry.Some? then 1 else 0]; }
      assert w[u].message.aliases[0] in w[u].message.aliases;
    }
    if carry.Some? {
      var c := w[0];
      assert c.message.aliases != [] by { KeysDiffer(ctx, w, 0, 0); }
      CarryNotNew(ctx, cs, m, n, carry.value);
    }
  }

  lemma CarryNotNew(ctx: Context, cs: seq<Candidate>, m: nat, n: nat, l: nat)
    requires Shaped(ctx, cs) && IsLast(cs, m, l) && m <= n <= |cs|
    ensures cs[l].message.aliases != [] && cs[l].message.aliases[0] !in Occurring(cs[m..n])
  {
    hide Single;
    HasAlias(ctx, cs[l]);
    if Alias(cs[l]) in Occurring(cs[m..n]) {
      var c :| c in cs[m..n] && Alias(cs[l]) in c.message.aliases;
      var i :| m <= i < n && cs[i] == c;
      HasAlias(ctx, cs[i]);
      OrdinalsRise(ctx, cs, l, i);
    }
  }

  ghost predicate Covers(s: set<nat>, at: seq<nat>, i: nat) {
    exists u :: u in s && u < |at| && at[u] == i
  }

  lemma PutIsHeld(ctx: Context, cs: seq<Candidate>, m: nat, n: nat, at: seq<nat>, w: seq<Candidate>, s: set<nat>,
      held: Table, after: Table)
    requires Shaped(ctx, cs) && AllValid(cs) && AllValid(w) && Shaped(ctx, w) && m <= n <= |cs| && Window(cs, at, w)
    requires forall u :: u in s ==> u < |w| && RowAt(ctx, w, u) == FinalRow(ctx, cs, at[u]) && at[u] < n
    requires forall i: nat :: m <= i < n ==> Covers(s, at, i)
    requires HeldIs(ctx, cs, m, held) && Put(ctx, w, s, held, after)
    ensures HeldIs(ctx, cs, n, after)
  {
    hide Shaped, AllValid, RowAt, FinalRow, KeyOf;
    forall i | 0 <= i < n
      ensures cs[i].message.aliases != [] && KeyOf(cs[i]) in after && after[KeyOf(cs[i])] == FinalRow(ctx, cs, i)
    {
      KeysDiffer(ctx, cs, i, i);
      if i >= m {
        assert Covers(s, at, i);
        var u :| u in s && u < |at| && at[u] == i;
        assert w[u] == cs[i];
      } else if after[KeyOf(cs[i])] != held[KeyOf(cs[i])] {
        var u :| u in s && KeyOf(w[u]) == KeyOf(cs[i]);
        KeysDiffer(ctx, cs, i, at[u]);
      }
    }
    PutKeys(ctx, cs, m, n, at, w, s, held, after);
  }

  lemma PutKeys(ctx: Context, cs: seq<Candidate>, m: nat, n: nat, at: seq<nat>, w: seq<Candidate>, s: set<nat>,
      held: Table, after: Table)
    requires Shaped(ctx, cs) && AllValid(cs) && AllValid(w) && Shaped(ctx, w) && m <= n <= |cs| && Window(cs, at, w)
    requires forall u :: u in s ==> u < |w| && at[u] < n
    requires HeldIs(ctx, cs, m, held) && Put(ctx, w, s, held, after)
    ensures forall k :: k in after ==> exists i :: 0 <= i < n && cs[i].message.aliases != [] && KeyOf(cs[i]) == k
  {
    hide Shaped, AllValid, RowAt, FinalRow, KeyOf;
    forall k | k in after ensures exists i :: 0 <= i < n && cs[i].message.aliases != [] && KeyOf(cs[i]) == k {
      if k !in held {
        var u :| u in s && KeyOf(w[u]) == k;
        assert w[u] == cs[at[u]];
      }
    }
  }

  lemma PairableIsProse(ctx: Context, cs: seq<Candidate>, i: nat)
    requires Shaped(ctx, cs) && i < |cs|
    ensures Pairable(cs[i]) <==> cs[i].message.cls.Prose?
  {
  }

  /** No visible message follows the carried candidate in its epoch, and what is not carried
      could not have paired. */
  lemma NextCarry(ctx: Context, cs: seq<Candidate>, m: nat, n: nat, epoch: nat, trailing: Option<Candidate>,
      next: nat, w: seq<Candidate>)
    requires Shaped(ctx, cs) && AllValid(cs) && m <= n <= |cs| && epoch <= next
    requires EpochsSplit(cs, m, epoch) && EpochsSplit(cs, n, next) && CarryOk(cs, m, epoch, trailing)
    requires w == WindowOf(trailing, cs[m..n]) && AllValid(w)
    ensures CarryOk(cs, n, next, NextTrailing(w, next))
  {
    hide Shaped, AllValid, EpochsSplit, CarryOk, LastPairable, Partner, Ambiguous, IsLast, WindowOf, Pairable;
    var carry := Carried(cs, m, epoch, trailing);
    match LastPairable(w, next, |w|)
    case None => NoneCarried(ctx, cs, m, n, epoch, trailing, next, w);
    case Some(u) => OneCarried(ctx, cs, m, n, next, carry, w, u);
  }

  lemma NoneCarried(ctx: Context, cs: seq<Candidate>, m: nat, n: nat, epoch: nat, trailing: Option<Candidate>,
      next: nat, w: seq<Candidate>)
    requires Shaped(ctx, cs) && AllValid(cs) && m <= n <= |cs| && epoch <= next
    requires EpochsSplit(cs, m, epoch) && EpochsSplit(cs, n, next) && CarryOk(cs, m, epoch, trailing)
    requires w == WindowOf(trailing, cs[m..n]) && LastPairable(w, next, |w|).None?
    ensures CarryOk(cs, n, next, None)
  {
    hide Shaped, AllValid, Matches, Pairable, CarryOk, EpochsSplit, LastPairable, WindowOf;
    forall l: nat | IsLast(cs, n, l) && cs[l].message.epoch == next ensures exists k: nat :: k < n && Match(cs, l, k) {
      PairableIsProse(ctx, cs, l);
      InWindow(cs, m, n, trailing, l);
      if l < m {
        EpochOf(cs, m, epoch, l);
        CarryMissing(cs, m, epoch, trailing, l);
      } else {
        assert false;
      }
    }
    CarryNone(cs, n, next);
  }

  lemma OneCarried(ctx: Context, cs: seq<Candidate>, m: nat, n: nat, next: nat, carry: Option<nat>,
      w: seq<Candidate>, u: nat)
    requires Shaped(ctx, cs) && AllValid(cs) && m <= n <= |cs| && (carry.Some? ==> IsLast(cs, m, carry.value))
    requires w == WindowOf(if carry.Some? then Some(cs[carry.value]) else None, cs[m..n]) && AllValid(w)
    requires EpochsSplit(cs, n, next) && LastPairable(w, next, |w|) == Some(u)
    ensures CarryOk(cs, n, next, NextTrailing(w, next))
  {
    hide Shaped, AllValid, Matches, Pairable, Partner, Ambiguous, CarryOk, EpochsSplit, LastPairable;
    var at := Positions(carry, m, n);
    WindowIs(cs, m, n, carry);
    var i := at[u];
    PairableIsProse(ctx, cs, i);
    forall k | i < k < n ensures !cs[k].message.cls.Prose? { NothingLater(ctx, cs, m, n, carry, w, next, u, k); }
    assert IsLast(cs, n, i);
    if NextTrailing(w, next).None? {
      SomeMatch(w, u);
      var v: nat :| Match(w, u, v);
      MatchInRange(w, u, v);
      WindowMatch(cs, at, w, u, v);
      assert Match(cs, i, at[v]) && at[v] < n;
      forall l: nat | IsLast(cs, n, l) ensures l == i { LastIsOne(cs, n, l, i); }
      CarryNone(cs, n, next);
    } else {
      CarrySome(cs, n, next, i);
    }
  }

  lemma EpochOf(cs: seq<Candidate>, m: nat, epoch: nat, l: nat)
    requires EpochsSplit(cs, m, epoch) && l < m
    ensures cs[l].message.epoch <= epoch
  {
  }

  lemma CarryNone(cs: seq<Candidate>, n: nat, next: nat)
    requires AllValid(cs)
    requires forall l: nat :: IsLast(cs, n, l) && cs[l].message.epoch == next ==>
               exists k: nat :: k < n && Match(cs, l, k)
    ensures CarryOk(cs, n, next, None)
  {
  }

  lemma CarrySome(cs: seq<Candidate>, n: nat, next: nat, i: nat)
    requires AllValid(cs) && IsLast(cs, n, i) && cs[i].message.epoch == next
    ensures CarryOk(cs, n, next, Some(cs[i]))
  {
  }

  lemma SomeMatch(w: seq<Candidate>, u: nat)
    requires AllValid(w) && (Partner(w, u).Some? || Ambiguous(w, u))
    ensures exists v: nat :: Match(w, u, v)
  {
    hide Matches, AllValid;
    PartnerMatches(w, u);
  }

  lemma CarryMissing(cs: seq<Candidate>, m: nat, epoch: nat, trailing: Option<Candidate>, l: nat)
    requires AllValid(cs) && CarryOk(cs, m, epoch, trailing) && IsLast(cs, m, l) && cs[l].message.epoch == epoch
    requires trailing.Some? ==> trailing.value != cs[l]
    ensures exists k: nat :: k < m && Match(cs, l, k)
  {
    hide Matches, AllValid;
    forall c: nat | IsLast(cs, m, c) ensures c == l { LastIsOne(cs, m, c, l); }
  }

  lemma InWindow(cs: seq<Candidate>, m: nat, n: nat, trailing: Option<Candidate>, l: nat)
    requires m <= n <= |cs|
    ensures var w := WindowOf(trailing, cs[m..n]);
            && (trailing.Some? ==> w != [] && w[0] == trailing.value)
            && (m <= l < n ==> exists k :: 0 <= k < |w| && w[k] == cs[l])
  {
    var w := WindowOf(trailing, cs[m..n]);
    if m <= l < n { assert w[l - m + if trailing.Some? then 1 else 0] == cs[l]; }
  }

  lemma {:induction false} NothingLater(ctx: Context, cs: seq<Candidate>, m: nat, n: nat, carry: Option<nat>,
      w: seq<Candidate>,
      next: nat, u: nat, k: nat)
    requires Shaped(ctx, cs) && m <= n <= |cs| && (carry.Some? ==> IsLast(cs, m, carry.value))
    requires w == WindowOf(if carry.Some? then Some(cs[carry.value]) else None, cs[m..n])
    requires EpochsSplit(cs, n, next) && LastPairable(w, next, |w|) == Some(u)
    requires Positions(carry, m, n)[u] < k < n
    ensures !cs[k].message.cls.Prose?
  {
    hide Shaped, LastPairable, Pairable, EpochsSplit, Positions;
    var i := Positions(carry, m, n)[u];
    WindowIs(cs, m, n, carry);
    PairableIsProse(ctx, cs, k);
    OrdinalsRise(ctx, cs, i, k);
    BelowCut(cs, n, next, k);
    if k >= m {
      var v := k - m + if carry.Some? then 1 else 0;
      assert Positions(carry, m, n)[v] == k;
      assert w[v] == cs[k] && v > u;
    }
  }

  lemma BelowCut(cs: seq<Candidate>, n: nat, next: nat, k: nat)
    requires EpochsSplit(cs, n, next) && k < n
    ensures k < |cs| && cs[k].message.epoch <= next
  {
  }

  // ---------------------------------------------------------------- runs of batches

  ghost function Session(ctx: Context, records: seq<Record>): seq<Candidate> {
    Candidates(ctx, records, INITIAL.continuation)
  }

  lemma SessionShaped(ctx: Context, records: seq<Record>)
    requires InOrder(records)
    ensures Shaped(ctx, Session(ctx, records)) && AllValid(Session(ctx, records))
  {
    CandidatesShaped(ctx, records, INITIAL.continuation);
    ShapedValid(ctx, Session(ctx, records));
  }

  /** A parser state that fits the first m candidates of a session. */
  ghost predicate AtCut(cs: seq<Candidate>, m: nat, state: State)
    requires AllValid(cs)
  {
    EpochsSplit(cs, m, state.continuation.epoch) && CarryOk(cs, m, state.continuation.epoch, state.trailing)
  }

  /** The epoch reached after a prefix separates its candidates from the later ones. */
  lemma SplitAt(ctx: Context, a: seq<Record>, b: seq<Record>)
    requires InOrder(a + b)
    ensures Session(ctx, a + b) == Session(ctx, a) + Candidates(ctx, b, After(a, INITIAL.continuation))
    ensures EpochsSplit(Session(ctx, a + b), |Session(ctx, a)|, After(a, INITIAL.continuation).epoch)
    ensures After(a, INITIAL.continuation).epoch <= After(a + b, INITIAL.continuation).epoch
  {
    hide Shaped, Candidates, After;
    var c := INITIAL.continuation;
    CandidatesAppend(ctx, a, b, c);
    assert InOrder(a) && InOrder(b) by { InOrderParts(a, b); }
    CandidatesShaped(ctx, a, c);
    CandidatesShaped(ctx, b, After(a, c));
    EpochCountsCompactions(b, After(a, c));
    var bound := if a == [] then 0 else a[|a| - 1].ordinal + 1;
    assert forall i :: 0 <= i < |a| ==> a[i].ordinal < bound by { LastIsGreatest(a); }
    assert Within(Session(ctx, a), bound, After(a, c).epoch);
    var x, y := Session(ctx, a), Candidates(ctx, b, After(a, c));
    var all := x + y;
    forall i | 0 <= i < |all|
      ensures if i < |x| then all[i].message.epoch <= After(a, c).epoch else After(a, c).epoch <= all[i].message.epoch
    {
      if i < |x| { assert all[i] in x; } else { assert all[i] in y; }
    }
  }

  lemma InOrderParts(a: seq<Record>, b: seq<Record>)
    requires InOrder(a + b)
    ensures InOrder(a) && InOrder(b)
  {
    var whole := a + b;
    forall i, j | 0 <= i < j < |a| ensures a[i].ordinal < a[j].ordinal { assert whole[i].ordinal < whole[j].ordinal; }
    forall i, j | 0 <= i < j < |b| ensures b[i].ordinal < b[j].ordinal {
      assert whole[|a| + i].ordinal < whole[|a| + j].ordinal;
    }
  }

  lemma LastIsGreatest(a: seq<Record>)
    requires InOrder(a)
    ensures forall i :: 0 <= i < |a| ==> a[i].ordinal < a[|a| - 1].ordinal + 1
  {
  }

  /** One batch leaves a state that fits, whatever the session looks like. */
  lemma StepCut(ctx: Context, a: seq<Record>, b: seq<Record>, rest: seq<Record>, state: State)
    requires InOrder(a + b + rest) && state.continuation == After(a, INITIAL.continuation)
    requires var cs := Session(ctx, a + b + rest);
             Shaped(ctx, cs) && AllValid(cs) && AtCut(cs, |Session(ctx, a)|, state)
    ensures var cs := Session(ctx, a + b + rest);
            && |Session(ctx, a)| <= |Session(ctx, a + b)| <= |cs|
            && Candidates(ctx, b, state.continuation) == cs[|Session(ctx, a)|..|Session(ctx, a + b)|]
            && NextState(ctx, b, state).continuation == After(a + b, INITIAL.continuation)
            && AtCut(cs, |Session(ctx, a + b)|, NextState(ctx, b, state))
  {
    hide Shaped, AllValid, Candidates, After, CarryOk, EpochsSplit, InOrder, NextTrailing, WindowOf;
    var c := INITIAL.continuation;
    var cs := Session(ctx, a + b + rest);
    var m, n := |Session(ctx, a)|, |Session(ctx, a + b)|;
    assert a + b + rest == a + (b + rest);
    InOrderParts(a + b, rest);
    CandidatesAppend(ctx, a, b, c);
    SplitAt(ctx, a, b);
    SplitAt(ctx, a + b, rest);
    SplitAt(ctx, a, b + rest);
    CandidatesAppend(ctx, b, rest, After(a, c));
    assert cs[m..n] == Candidates(ctx, b, state.continuation);
    var w := WindowOf(state.trailing, cs[m..n]);
    WindowValid(ctx, cs, m, n, state);
    NextCarry(ctx, cs, m, n, state.continuation.epoch, state.trailing, After(a + b, c).epoch, w);
  }

  lemma WindowValid(ctx: Context, cs: seq<Candidate>, m: nat, n: nat, state: State)
    requires Shaped(ctx, cs) && AllValid(cs) && m <= n <= |cs| && AtCut(cs, m, state)
    ensures var w := WindowOf(state.trailing, cs[m..n]); Shaped(ctx, w) && AllValid(w)
  {
    hide Shaped, AllValid, CarryOk, EpochsSplit;
    var carry := Carried(cs, m, state.continuation.epoch, state.trailing);
    WindowIs(cs, m, n, carry);
    WindowShaped(ctx, cs, Positions(carry, m, n), WindowOf(state.trailing, cs[m..n]));
  }

  lemma FlatAppend(batches: seq<seq<Record>>, last: seq<Record>)
    ensures Flat(batches + [last]) == Flat(batches) + last
  {
    assert (batches + [last])[..|batches|] == batches;
  }

  lemma FlatOne(records: seq<Record>)
    ensures Flat([records]) == records
  {
    assert [records][..0] == [];
    assert [] + records == records;
  }

  /** After any run of batches the state fits what was read. */
  lemma {:induction false} RunFits(ctx: Context, batches: seq<seq<Record>>, rest: seq<Record>)
    requires InOrder(Flat(batches) + rest)
    ensures var cs := Session(ctx, Flat(batches) + rest);
            && Shaped(ctx, cs) && AllValid(cs)
            && StateAfter(ctx, batches).continuation == After(Flat(batches), INITIAL.continuation)
            && AtCut(cs, |Session(ctx, Flat(batches))|, StateAfter(ctx, batches))
    decreases |batches|
  {
    hide Shaped, AllValid, Candidates, CarryOk, EpochsSplit, InOrder, NextState, Session;
    SessionShaped(ctx, Flat(batches) + rest);
    if batches == [] {
      assert Flat(batches) + rest == rest;
      FitsAtStart(ctx, rest);
    } else {
      var front, last := batches[..|batches| - 1], batches[|batches| - 1];
      assert Flat(batches) + rest == Flat(front) + (last + rest) == Flat(front) + last + rest;
      RunFits(ctx, front, last + rest);
      StepCut(ctx, Flat(front), last, rest, StateAfter(ctx, front));
    }
  }

  lemma FitsAtStart(ctx: Context, rest: seq<Record>)
    requires AllValid(Session(ctx, rest))
    ensures Session(ctx, []) == [] && AtCut(Session(ctx, rest), 0, INITIAL)
    ensures INITIAL.continuation == After([], INITIAL.continuation)
  {
  }

  lemma StageIs(ctx: Context, cs: seq<Candidate>, m: nat, n: nat, records: seq<Record>, state: State, held: Table)
    requires Shaped(ctx, cs) && AllValid(cs) && m <= n <= |cs| && AtCut(cs, m, state)
    requires Candidates(ctx, records, state.continuation) == cs[m..n]
    ensures var w := WindowOf(state.trailing, cs[m..n]);
            && Shaped(ctx, w) && AllValid(w)
            && Stage(ctx, records, state, held) == Staged(held, Touching(Outputs(w, |w|), Occurring(cs[m..n])))
  {
    hide Shaped, AllValid, CarryOk, EpochsSplit, Candidates, Staged, Touching, Outputs, WindowOf, Occurring;
    WindowValid(ctx, cs, m, n, state);
  }

  /** After any run of batches over an unambiguous session, what is held is the final row of
      everything read. */
  lemma {:induction false} RunHolds(ctx: Context, batches: seq<seq<Record>>, rest: seq<Record>)
    requires InOrder(Flat(batches) + rest)
    requires AllValid(Session(ctx, Flat(batches) + rest)) && Unambiguous(Session(ctx, Flat(batches) + rest))
    ensures var cs := Session(ctx, Flat(batches) + rest);
            && Shaped(ctx, cs) && |Session(ctx, Flat(batches))| <= |cs|
            && HeldIs(ctx, cs, |Session(ctx, Flat(batches))|, Held(ctx, batches))
    decreases |batches|
  {
    hide Shaped, AllValid, Candidates, CarryOk, EpochsSplit, InOrder, NextState, Session, Unambiguous, HeldIs, Stage,
        Staged, Touching, Outputs,
      WindowOf, Occurring;
    SessionShaped(ctx, Flat(batches) + rest);
    if batches == [] {
      assert Flat(batches) + rest == rest;
      NothingHeld(ctx, rest);
    } else {
      var front, last := batches[..|batches| - 1], batches[|batches| - 1];
      var state, held := StateAfter(ctx, front), Held(ctx, front);
      assert Flat(batches) + rest == Flat(front) + (last + rest) == Flat(front) + last + rest;
      RunHolds(ctx, front, last + rest);
      RunFits(ctx, front, last + rest);
      StepCut(ctx, Flat(front), last, rest, state);
      var cs := Session(ctx, Flat(batches) + rest);
      var m, n := |Session(ctx, Flat(front))|, |Session(ctx, Flat(batches))|;
      StageIs(ctx, cs, m, n, last, state, held);
      BatchRows(ctx, cs, m, n, state.continuation.epoch, state.trailing, held);
    }
  }

  lemma NothingHeld(ctx: Context, rest: seq<Record>)
    requires Shaped(ctx, Session(ctx, rest)) && AllValid(Session(ctx, rest))
    ensures Session(ctx, []) == [] && HeldIs(ctx, Session(ctx, rest), 0, map[])
  {
  }

  lemma HeldIsOne(ctx: Context, cs: seq<Candidate>, m: nat, s: Table, t: Table)
    requires Shaped(ctx, cs) && AllValid(cs) && m <= |cs| && HeldIs(ctx, cs, m, s) && HeldIs(ctx, cs, m, t)
    ensures s == t
  {
    hide Shaped, AllValid, KeyOf, FinalRow;
    assert s.Keys == t.Keys;
  }

  /** Cutting an unambiguous session into batches in any way holds what one parse holds. */
  lemma UnambiguousCutsAgree(ctx: Context, batches: seq<seq<Record>>)
    requires InOrder(Flat(batches)) && AllValid(Session(ctx, Flat(batches))) && Unambiguous(Session(ctx, Flat(batches)))
    ensures Held(ctx, batches) == Held(ctx, [Flat(batches)])
  {
    hide Shaped, AllValid, InOrder, Session, Unambiguous, HeldIs, Held;
    var records := Flat(batches);
    assert records + [] == records;
    FlatOne(records);
    RunHolds(ctx, batches, []);
    RunHolds(ctx, [records], []);
    HeldIsOne(ctx, Session(ctx, records), |Session(ctx, records)|, Held(ctx, batches), Held(ctx, [records]));
  }

  // ---------------------------------------------------------------- an ambiguous session can be cut badly

  /** Two projections that match never share a locator: the event's is its own record's. */
  lemma MatchedLocatorsDiffer(ctx: Context, cs: seq<Candidate>, i: nat, j: nat)
    requires Shaped(ctx, cs) && AllValid(cs) && Match(cs, i, j)
    ensures cs[i].message.canonical != cs[j].message.canonical
  {
    hide Earliest, NativeMessage.Valid;
    if i < j { OrdinalsRise(ctx, cs, i, j); } else if j < i { OrdinalsRise(ctx, cs, j, i); }
    HasAlias(ctx, cs[i]);
    HasAlias(ctx, cs[j]);
  }

  /** The record that gave a visible candidate, and what was read before it. */
  lemma {:induction false} Locate(ctx: Context, records: seq<Record>, c: Continuation, x: nat) returns (p: nat)
    requires x < |Candidates(ctx, records, c)| && Candidates(ctx, records, c)[x].message.cls.Prose?
    ensures p < |records| && |Candidates(ctx, records[..p], c)| == x
    ensures RecordCandidates(ctx, records[p], After(records[..p], c).epoch) == [Candidates(ctx, records, c)[x]]
    ensures After(records[..p + 1], c).epoch == Candidates(ctx, records, c)[x].message.epoch
    ensures Candidates(ctx, records[..p + 1], c) == Candidates(ctx, records[..p], c) + [Candidates(ctx, records, c)[x]]
    decreases |records|
  {
    var front, last := records[..|records| - 1], records[|records| - 1];
    if x < |Candidates(ctx, front, c)| {
      p := Locate(ctx, front, c, x);
      assert records[..p] == front[..p] && records[..p + 1] == front[..p + 1];
    } else {
      p := |records| - 1;
      assert records[..p] == front && records[..p + 1] == records;
    }
  }

  /** In a window with at most two visible candidates, these pair exactly when they match. */
  lemma TwoVisible(ctx: Context, w: seq<Candidate>, u: nat, v: nat)
    requires Shaped(ctx, w) && AllValid(w) && u < v < |w|
    requires forall k :: 0 <= k < |w| && w[k].message.cls.Prose? ==> k == u || k == v
    ensures Paired(w, u, v) == Match(w, u, v)
    ensures !Match(w, u, v) ==> Partner(w, v).None? && !Ambiguous(w, v)
  {
    hide Shaped, AllValid, Matches, VisibleBetween, VisibilityBoundary, Ordinal;
    forall x: nat, y: nat | Match(w, x, y) ensures x != y && (x == u || x == v) && (y == u || y == v) {
      MatchFacts(ctx, w, x, y);
    }
    MatchBothWays(w, u, v);
    MatchBothWays(w, v, u);
    PairedIsNear(ctx, w, u, v);
    if Partner(w, v).Some? { assert Match(w, v, Partner(w, v).value); }
  }

  /** A batch leaves alone the rows of every candidate outside its window. */
  lemma OutsideKept(ctx: Context, cs: seq<Candidate>, m: nat, n: nat, records: seq<Record>, state: State,
      held: Table, i: nat)
    requires Shaped(ctx, cs) && AllValid(cs) && m <= n <= |cs| && AtCut(cs, m, state)
    requires Candidates(ctx, records, state.continuation) == cs[m..n]
    requires i < m && state.trailing != Some(cs[i])
    requires cs[i].message.aliases != [] && KeyOf(cs[i]) in held
    ensures var after := Stage(ctx, records, state, held);
            KeyOf(cs[i]) in after && after[KeyOf(cs[i])] == held[KeyOf(cs[i])]
  {
    hide Shaped, AllValid, CarryOk, EpochsSplit, Candidates, Staged, Touching, Outputs, Occurring, RowAt, Stage,
        KeyOf, StagedAfter;
    var w := WindowOf(state.trailing, cs[m..n]);
    var carry := Carried(cs, m, state.continuation.epoch, state.trailing);
    var at := Positions(carry, m, n);
    StageIs(ctx, cs, m, n, records, state, held);
    WindowIs(cs, m, n, carry);
    BatchStages(ctx, w, |w|, Occurring(cs[m..n]), held);
    forall u | u in StagedAfter(w, |w|, Occurring(cs[m..n]))
      ensures u < |w| && w[u].message.aliases != [] && KeyOf(w[u]) != KeyOf(cs[i])
    {
      StagedSet(ctx, cs, m, n, carry, w);
      KeysDiffer(ctx, cs, at[u], i);
      assert w[u] == cs[at[u]];
    }
  }

  /** A new candidate that pairs with the carried one takes over its identity. */
  lemma TakesIdentity(ctx: Context, cs: seq<Candidate>, m: nat, n: nat, records: seq<Record>, state: State, held: Table)
    requires Shaped(ctx, cs) && AllValid(cs) && m < n <= |cs| && AtCut(cs, m, state)
    requires Candidates(ctx, records, state.continuation) == cs[m..n]
    requires state.trailing.Some?
    requires var w := WindowOf(state.trailing, cs[m..n]); AllValid(w) && Paired(w, 0, 1)
    ensures cs[m].message.aliases != []
    ensures var after := Stage(ctx, records, state, held);
            KeyOf(cs[m]) in after && after[KeyOf(cs[m])].canonical != cs[m].message.canonical
  {
    hide Shaped, AllValid, CarryOk, EpochsSplit, Candidates, Staged, Touching, Outputs, Occurring, Stage, KeyOf,
        StagedAfter, Paired;
    var w := WindowOf(state.trailing, cs[m..n]);
    var carry := Carried(cs, m, state.continuation.epoch, state.trailing);
    StageIs(ctx, cs, m, n, records, state, held);
    BatchStages(ctx, w, |w|, Occurring(cs[m..n]), held);
    StagedSet(ctx, cs, m, n, carry, w);
    KeysDiffer(ctx, cs, m, m);
    assert w[1] == cs[m] && 1 in StagedAfter(w, |w|, Occurring(cs[m..n]));
    PartnerIs(w, 0, 1);
    PartnerIs(w, 1, 0);
    MatchedOfPaired(w, 0, 1);
    MatchedLocatorsDiffer(ctx, w, 0, 1);
  }

  lemma MatchedOfPaired(w: seq<Candidate>, u: nat, v: nat)
    requires AllValid(w) && Paired(w, u, v)
    ensures Match(w, u, v)
  {
  }

  lemma HeldNext(ctx: Context, batches: seq<seq<Record>>, last: seq<Record>)
    ensures StateAfter(ctx, batches + [last]) == NextState(ctx, last, StateAfter(ctx, batches))
    ensures Held(ctx, batches + [last]) == Stage(ctx, last, StateAfter(ctx, batches), Held(ctx, batches))
  {
    assert (batches + [last])[..|batches|] == batches;
  }

  /** One parse of everything gives an unpaired candidate its own identity. */
  lemma WholeRow(ctx: Context, records: seq<Record>, x: nat)
    requires InOrder(records)
    requires Shaped(ctx, Session(ctx, records)) && AllValid(Session(ctx, records))
    requires x < |Session(ctx, records)| && Partner(Session(ctx, records), x).None?
    ensures var cs := Session(ctx, records);
            && cs[x].message.aliases != []
            && KeyOf(cs[x]) in Held(ctx, [records])
            && Held(ctx, [records])[KeyOf(cs[x])].canonical == cs[x].message.canonical
  {
    hide Shaped, AllValid, Staged, Touching, Outputs, Occurring, Stage, KeyOf, StagedAfter, Candidates, Paired,
        CarryOk, EpochsSplit, After;
    var cs := Session(ctx, records);
    HeldNext(ctx, [], records);
    assert [] + [records] == [records];
    FitsAtStart(ctx, records);
    assert cs == cs[0..|cs|] && WindowOf(None, cs) == cs;
    StageIs(ctx, cs, 0, |cs|, records, INITIAL, map[]);
    BatchStages(ctx, cs, |cs|, Occurring(cs), map[]);
    StagedSet(ctx, cs, 0, |cs|, None, cs);
    assert x in StagedAfter(cs, |cs|, Occurring(cs));
  }

  lemma LastOne(w: seq<Candidate>, epoch: nat, x: nat)
    requires x < |w| && Pairable(w[x]) && w[x].message.epoch == epoch && forall k :: x < k < |w| ==> !Pairable(w[k])
    ensures LastPairable(w, epoch, |w|) == Some(x)
  {
  }

  lemma PartnerMatches(cs: seq<Candidate>, i: nat)
    requires AllValid(cs)
    ensures Partner(cs, i).Some? ==>
              OnlyPartner(cs, i, Partner(cs, i).value) && OnlyPartner(cs, Partner(cs, i).value, i)
  {
    hide Matches, AllValid, VisibleBetween, VisibilityBoundary, Ordinal;
  }

  /** In a window with one visible candidate nothing matches. */
  lemma OneVisible(ctx: Context, w: seq<Candidate>, u: nat)
    requires Shaped(ctx, w) && AllValid(w) && u < |w|
    requires forall k :: 0 <= k < |w| && w[k].message.cls.Prose? ==> k == u
    ensures Partner(w, u).None? && !Ambiguous(w, u)
  {
    hide Shaped, AllValid, Matches, VisibleBetween, VisibilityBoundary, Ordinal;
    forall x: nat, y: nat ensures !Match(w, x, y) {
      if Match(w, x, y) { MatchFacts(ctx, w, x, y); }
    }
    PartnerMatches(w, u);
  }

  /** A window that ends in tool rows behind one new projection: it pairs with the carried one,
      or is carried itself. */
  lemma PairsOrIsCarried(ctx: Context, cs: seq<Candidate>, m: nat, n: nat, state: State, epoch: nat)
    requires Shaped(ctx, cs) && AllValid(cs) && m < n <= |cs| && AtCut(cs, m, state)
    requires cs[m].message.cls.Prose? && cs[m].message.epoch == epoch
    requires forall k :: m < k < n ==> !cs[k].message.cls.Prose?
    ensures var w := WindowOf(state.trailing, cs[m..n]);
            && AllValid(w) && Shaped(ctx, w)
            && (state.trailing.Some? ==> 1 < |w| && w[0] == state.trailing.value && w[1] == cs[m])
            && (state.trailing.Some? && Match(w, 0, 1) ==> Paired(w, 0, 1) && NextTrailing(w, epoch).None?)
            && (state.trailing.None? || !Match(w, 0, 1) ==> NextTrailing(w, epoch) == Some(cs[m]))
  {
    hide Shaped, AllValid, CarryOk, EpochsSplit, Matches, Paired, Ambiguous, Pairable, LastPairable;
    var w := WindowOf(state.trailing, cs[m..n]);
    var carry := Carried(cs, m, state.continuation.epoch, state.trailing);
    WindowValid(ctx, cs, m, n, state);
    var x: nat := if carry.Some? then 1 else 0;
    forall k | 0 <= k < |w| ensures k > x ==> !Pairable(w[k]) && !w[k].message.cls.Prose? {
      if k > x { PairableIsProse(ctx, w, k); }
    }
    PairableIsProse(ctx, w, x);
    LastOne(w, epoch, x);
    if carry.Some? {
      TwoVisible(ctx, w, 0, 1);
      PartnerIs(w, 1, 0);
      PairedSymmetric(w, 0, 1);
    } else {
      OneVisible(ctx, w, 0);
    }
  }

  lemma NeverPaired(cs: seq<Candidate>, a: nat, b: nat)
    requires AllValid(cs) && Match(cs, a, b) && Match(cs, b, a) && !(OnlyPartner(cs, a, b) && OnlyPartner(cs, b, a))
    ensures Partner(cs, a).None? && Partner(cs, b).None?
  {
    hide Matches, AllValid, VisibleBetween, VisibilityBoundary, Ordinal;
    PartnerMatches(cs, a);
    PartnerMatches(cs, b);
  }

  lemma NearFacts(ctx: Context, cs: seq<Candidate>, a: nat, b: nat)
    requires Shaped(ctx, cs) && AllValid(cs) && a < b && Near(cs, a, b)
    ensures b < |cs| && cs[a].message.cls.Prose? && cs[b].message.cls.Prose?
    ensures cs[a].message.epoch == cs[b].message.epoch
    ensures Match(cs, a, b) && Match(cs, b, a) && cs[a] != cs[b] && forall k :: a < k < b ==> !cs[k].message.cls.Prose?
  {
    hide Shaped, AllValid, Matches;
    MatchFacts(ctx, cs, a, b);
    MatchBothWays(cs, a, b);
    KeysDiffer(ctx, cs, a, b);
  }

  lemma PrefixLonger(ctx: Context, records: seq<Record>, c: Continuation, p: nat, q: nat)
    requires p < |records| && q < |records|
    requires |Candidates(ctx, records[..p], c)| < |Candidates(ctx, records[..q], c)|
    ensures p < q
  {
    if q <= p {
      assert records[..p] == records[..q] + records[q..p];
      CandidatesAppend(ctx, records[..q], records[q..p], c);
    }
  }

  lemma FlatFour(a: seq<Record>, b: seq<Record>, c: seq<Record>, d: seq<Record>)
    ensures Flat([a]) == a && Flat([a, b]) == a + b && Flat([a, b, c]) == a + b + c
    ensures Flat([a, b, c, d]) == a + b + c + d
  {
    FlatOne(a);
    FlatAppend([a], b);
    FlatAppend([a, b], c);
    FlatAppend([a, b, c], d);
    assert [a] + [b] == [a, b] && [a, b] + [c] == [a, b, c] && [a, b, c] + [d] == [a, b, c, d];
  }

  lemma HeldFour(ctx: Context, a: seq<Record>, b: seq<Record>, c: seq<Record>, d: seq<Record>)
    ensures StateAfter(ctx, [a, b]) == NextState(ctx, b, StateAfter(ctx, [a]))
    ensures StateAfter(ctx, [a, b, c]) == NextState(ctx, c, StateAfter(ctx, [a, b]))
    ensures Held(ctx, [a, b]) == Stage(ctx, b, StateAfter(ctx, [a]), Held(ctx, [a]))
    ensures Held(ctx, [a, b, c]) == Stage(ctx, c, StateAfter(ctx, [a, b]), Held(ctx, [a, b]))
    ensures Held(ctx, [a, b, c, d]) == Stage(ctx, d, StateAfter(ctx, [a, b, c]), Held(ctx, [a, b, c]))
  {
    hide Held, StateAfter, NextState, Stage;
    HeldNext(ctx, [a], b);
    HeldNext(ctx, [a, b], c);
    HeldNext(ctx, [a, b, c], d);
    assert [a] + [b] == [a, b] && [a, b] + [c] == [a, b, c] && [a, b, c] + [d] == [a, b, c, d];
  }

  /** Where a run of batches stands in a session, and what its next batch brings. */
  lemma Cut(ctx: Context, records: seq<Record>, batches: seq<seq<Record>>, next: seq<Record>, rest: seq<Record>)
    requires InOrder(records) && Flat(batches) + next + rest == records
    ensures var cs, state := Session(ctx, records), StateAfter(ctx, batches);
            var m, n := |Session(ctx, Flat(batches))|, |Session(ctx, Flat(batches) + next)|;
            && AllValid(cs) && Shaped(ctx, cs) && AtCut(cs, m, state) && m <= n <= |cs|
            && state.continuation == After(Flat(batches), INITIAL.continuation)
            && Candidates(ctx, next, state.continuation) == cs[m..n]
            && (var w := WindowOf(state.trailing, cs[m..n]);
                AllValid(w) && NextState(ctx, next, state).trailing
                  == NextTrailing(w, NextState(ctx, next, state).continuation.epoch))
  {
    hide Shaped, AllValid, Candidates, CarryOk, EpochsSplit, InOrder, After, NextTrailing, WindowOf, Session;
    assert Flat(batches) + (next + rest) == records;
    RunFits(ctx, batches, next + rest);
    StepCut(ctx, Flat(batches), next, rest, StateAfter(ctx, batches));
    WindowValid(ctx, Session(ctx, records), |Session(ctx, Flat(batches))|, |Session(ctx, Flat(batches) + next)|,
        StateAfter(ctx, batches));
  }

  lemma EpochBetween(cs: seq<Candidate>, a: nat, b: nat, state: State)
    requires AllValid(cs) && a < b < |cs| && AtCut(cs, b, state)
    ensures cs[a].message.epoch <= state.continuation.epoch <= cs[b].message.epoch
  {
  }

  lemma NotCarriedLater(ctx: Context, cs: seq<Candidate>, a: nat, b: nat, state: State)
    requires Shaped(ctx, cs) && AllValid(cs) && a < b < |cs| && AtCut(cs, b + 1, state) && cs[b].message.cls.Prose?
    ensures state.trailing != Some(cs[a])
  {
    hide Shaped, AllValid;
    KeysDiffer(ctx, cs, a, b);
    if state.trailing.Some? {
      var l := Carried(cs, b + 1, state.continuation.epoch, state.trailing).value;
      assert l == b;
    }
  }

  lemma WindowOfTwo(cs: seq<Candidate>, a: nat, b: nat)
    requires AllValid(cs) && a < b < |cs|
    ensures var w := WindowOf(Some(cs[a]), cs[b..b + 1]);
            w == [cs[a], cs[b]] && AllValid(w) && Match(w, 0, 1) == Match(cs, a, b)
  {
  }

  /** A session in which a visible neighbour of a match has another match is one that some cut
      of its records parses differently. */
  lemma AmbiguousSessionCutsDiffer(ctx: Context, records: seq<Record>, a: nat,
      b: nat) returns (batches: seq<seq<Record>>)
    requires InOrder(records) && Shaped(ctx, Session(ctx, records)) && AllValid(Session(ctx, records))
    requires var cs := Session(ctx, records);
             a < b && Near(cs, a, b) && !(OnlyPartner(cs, a, b) && OnlyPartner(cs, b, a))
    ensures Flat(batches) == records && Held(ctx, batches) != Held(ctx, [records])
  {
    hide Shaped, AllValid, Candidates, CarryOk, EpochsSplit, InOrder, NextState, Stage, After, Match, KeyOf,
        OnlyPartner, WindowOf, NextTrailing, Held,
      StateAfter, RecordCandidates, Flat;
    var cs, c := Session(ctx, records), INITIAL.continuation;
    NearFacts(ctx, cs, a, b);
    NeverPaired(cs, a, b);
    WholeRow(ctx, records, a);
    WholeRow(ctx, records, b);
    var p := Locate(ctx, records, c, a);
    var q := Locate(ctx, records, c, b);
    PrefixLonger(ctx, records, c, p, q);
    var first, second, third, rest := records[..p], records[p..q], [records[q]], records[q + 1..];
    var one, two, three := [first], [first, second], [first, second, third];
    batches := [first, second, third, rest];
    FlatFour(first, second, third, rest);
    assert records[..p] + records[p..q] == records[..q];
    assert records[..q] + [records[q]] == records[..q + 1];
    assert records[..q + 1] + rest == records;
    HeldFour(ctx, first, second, third, rest);
    Cut(ctx, records, one, second, third + rest);
    Cut(ctx, records, two, third, rest);
    Cut(ctx, records, three, rest, []);
    var s1, s2, s3 := StateAfter(ctx, one), StateAfter(ctx, two), StateAfter(ctx, three);
    var t1, t2, t3 := Held(ctx, one), Held(ctx, two), Held(ctx, three);
    EpochBetween(cs, a, b, s2);
    PairsOrIsCarried(ctx, cs, a, b, s1, s2.continuation.epoch);
    if s1.trailing.Some? && Match(WindowOf(s1.trailing, cs[a..b]), 0, 1) {
      TakesIdentity(ctx, cs, a, b, second, s1, t1);
      OutsideKept(ctx, cs, b, b + 1, third, s2, t2, a);
      NotCarriedLater(ctx, cs, a, b, s3);
      OutsideKept(ctx, cs, b + 1, |cs|, rest, s3, t3, a);
    } else {
      PairsOrIsCarried(ctx, cs, b, b + 1, s2, s3.continuation.epoch);
      WindowOfTwo(cs, a, b);
      TakesIdentity(ctx, cs, b, b + 1, third, s2, t2);
      OutsideKept(ctx, cs, b + 1, |cs|, rest, s3, t3, b);
    }
  }

  /** What is held never depends on how a session was cut exactly when the session is unambiguous. */
  lemma CutInvariantExactly(ctx: Context, records: seq<Record>)
    requires InOrder(records)
    ensures AllValid(Session(ctx, records))
    ensures (forall batches :: Flat(batches) == records ==> Held(ctx, batches) == Held(ctx, [records]))
       <==> Unambiguous(Session(ctx, records))
  {
    hide Shaped, AllValid, InOrder, Session, Held, Flat, Near, OnlyPartner;
    SessionShaped(ctx, records);
    var cs := Session(ctx, records);
    if Unambiguous(cs) {
      forall batches | Flat(batches) == records ensures Held(ctx, batches) == Held(ctx, [records]) {
        UnambiguousCutsAgree(ctx, batches);
      }
    } else {
      var i: nat, j: nat :| Near(cs, i, j) && !OnlyPartner(cs, i, j);
      NearSymmetric(cs, i, j);
      NearDistinct(ctx, cs, i, j);
      var batches := AmbiguousSessionCutsDiffer(ctx, records, if i < j then i else j, if i < j then j else i);
    }
  }

  lemma NearDistinct(ctx: Context, cs: seq<Candidate>, i: nat, j: nat)
    requires Shaped(ctx, cs) && AllValid(cs) && Near(cs, i, j)
    ensures i != j
  {
  }

  /** No two projections of one family share all exact facts. */
  ghost predicate FactsUnique(cs: seq<Candidate>)
    requires AllValid(cs)
  {
    forall i: nat, j: nat ::
      (i < |cs| && j < |cs| && Pairable(cs[i]) && cs[i].family == cs[j].family && KeyAt(cs, i) == KeyAt(cs, j)) ==>
        i == j
  }

  /** A session that never repeats a text within its facts can be cut anywhere. */
  lemma UniqueFactsCutAnywhere(ctx: Context, batches: seq<seq<Record>>)
    requires InOrder(Flat(batches)) && AllValid(Session(ctx, Flat(batches))) && FactsUnique(Session(ctx, Flat(batches)))
    ensures Held(ctx, batches) == Held(ctx, [Flat(batches)])
  {
    hide Held, Flat, Session, CompatibilityKeyOf, AllValid, InOrder, Matches, BaseCompatible;
    var cs := Session(ctx, Flat(batches));
    forall i: nat, j: nat | Near(cs, i, j) ensures OnlyPartner(cs, i, j) {
      forall k: nat | Match(cs, i, k) ensures k == j {
        SharedFacts(cs, i, j);
        SharedFacts(cs, i, k);
      }
    }
    UnambiguousCutsAgree(ctx, batches);
  }

  lemma SharedFacts(cs: seq<Candidate>, i: nat, j: nat)
    requires AllValid(cs) && Match(cs, i, j)
    ensures i < |cs| && j < |cs| && KeyAt(cs, i) == KeyAt(cs, j) && Pairable(cs[j])
    ensures cs[j].family == if cs[i].family == ResponseMessage then EventMessage else ResponseMessage
  {
  }

  function Said(ordinal: nat, payload: Payload): Record {
    Record(ordinal, ordinal, 1, ordinal, Timestamp("2026-01-01T00:00:00Z", Some(0)), payload)
  }

  /** A response whose text two events repeat: the cut decides which of them it pairs with. */
  lemma RepeatedTextCutsDiffer() returns (ctx: Context, records: seq<Record>, batches: seq<seq<Record>>)
    ensures InOrder(records) && Flat(batches) == records && Held(ctx, batches) != Held(ctx, [records])
    ensures records == [Said(0, ResponseText("user", "again", None)), Said(1, EventText("user", "again")),
                        Said(2, EventText("user", "again"))]
  {
    hide Held, Flat, Session, RecordCandidates;
    ctx := Context(0, 0, Primary);
    var r0, r1, r2 := Said(0, ResponseText("user", "again", None)), Said(1, EventText("user", "again")),
        Said(2, EventText("user", "again"));
    records := [r0, r1, r2];
    SessionShaped(ctx, records);
    var cs := Session(ctx, records);
    ThreeCandidates(ctx, r0, r1, r2);
    RepeatedTextMatches(ctx, cs);
    batches := AmbiguousSessionCutsDiffer(ctx, records, 0, 1);
  }

  lemma RepeatedTextMatches(ctx: Context, cs: seq<Candidate>)
    requires AllValid(cs) && ctx == Context(0, 0, Primary)
    requires cs == RecordCandidates(ctx, Said(0, ResponseText("user", "again", None)), 0)
                   + RecordCandidates(ctx, Said(1, EventText("user", "again")), 0)
                   + RecordCandidates(ctx, Said(2, EventText("user", "again")), 0)
    ensures |cs| == 3 && Near(cs, 0, 1) && !OnlyPartner(cs, 0, 1)
  {
    hide AllValid, NativeMessage.Valid;
    assert AllValid(cs);
    ValidAt(cs, 0);
    ValidAt(cs, 1);
    ValidAt(cs, 2);
    OrderedByRecord(cs[0], cs[1]);
    OrderedByRecord(cs[0], cs[2]);
    assert Match(cs, 0, 1) && Match(cs, 0, 2) && Adjacent(cs, 0, 1);
  }

  lemma OrderedByRecord(a: Candidate, b: Candidate)
    requires |a.message.aliases| == 1 && |b.message.aliases| == 1
    requires Alias(a).locator.session == Alias(b).locator.session && Alias(a).file == Alias(b).file
    requires Alias(a).ordinal < Alias(b).ordinal
    ensures Less(CandidateKey(a), CandidateKey(b)) && AtMost(CandidateKey(a), CandidateKey(b))
  {
    hide Canonicalization.AliasKey;
    var x, y := Canonicalization.AliasKey(Alias(a)), Canonicalization.AliasKey(Alias(b));
    AliasLess(Alias(a), Alias(b));
    assert CandidateKey(a)[1..] == x && CandidateKey(b)[1..] == y;
    Trichotomy(CandidateKey(a), CandidateKey(b));
  }

  lemma CandidatesNext(ctx: Context, front: seq<Record>, last: Record, c: Continuation)
    ensures Candidates(ctx, front + [last], c)
              == Candidates(ctx, front, c) + RecordCandidates(ctx, last, After(front, c).epoch)
    ensures After(front + [last], c) == Next(last, After(front, c))
  {
    assert (front + [last])[..|front|] == front;
  }

  lemma ThreeCandidates(ctx: Context, a: Record, b: Record, c: Record)
    requires a.payload.ResponseText? && b.payload.EventText? && c.payload.EventText?
    ensures Session(ctx, [a, b, c]) == RecordCandidates(ctx, a, 0) + RecordCandidates(ctx, b, 0)
              + RecordCandidates(ctx, c, 0)
  {
    hide RecordCandidates;
    var start := INITIAL.continuation;
    CandidatesNext(ctx, [], a, start);
    CandidatesNext(ctx, [a], b, start);
    CandidatesNext(ctx, [a, b], c, start);
    assert [] + [a] == [a] && [a] + [b] == [a, b] && [a, b] + [c] == [a, b, c];
  }

  // ---------------------------------------------------------------- held rows never change

  /** Held rows are rows of what was read, and the carried candidate's row is its own. */
  ghost predicate Rooted(ctx: Context, cs: seq<Candidate>, m: nat, trailing: Option<Candidate>, held: Table)
    requires Shaped(ctx, cs) && AllValid(cs) && m <= |cs|
  {
    && (forall k :: k in held ==> exists i :: 0 <= i < m && cs[i].message.aliases != [] && KeyOf(cs[i]) == k)
    && (trailing.Some? ==> && trailing.value.message.aliases != [] && KeyOf(trailing.value) in held
                           && held[KeyOf(trailing.value)] == RowOf(trailing.value.message, Alias(trailing.value)))
  }

  /** The row a window gives its carried candidate is the candidate's own. */
  lemma FirstRowIsOwn(ctx: Context, w: seq<Candidate>)
    requires Shaped(ctx, w) && AllValid(w) && w != []
    ensures w[0].message.aliases != [] && RowAt(ctx, w, 0) == RowOf(w[0].message, Alias(w[0]))
  {
    hide Shaped, AllValid, Partner;
    KeysDiffer(ctx, w, 0, 0);
  }

  lemma StageKeeps(ctx: Context, cs: seq<Candidate>, m: nat, n: nat, records: seq<Record>, state: State, held: Table)
    requires Shaped(ctx, cs) && AllValid(cs) && m <= n <= |cs| && AtCut(cs, m, state)
    requires Rooted(ctx, cs, m, state.trailing, held)
    requires Candidates(ctx, records, state.continuation) == cs[m..n]
    ensures forall k :: k in held ==>
              k in Stage(ctx, records, state, held) && Stage(ctx, records, state, held)[k] == held[k]
    ensures Rooted(ctx, cs, n, NextState(ctx, records, state).trailing, Stage(ctx, records, state, held))
  {
    hide Shaped, AllValid, CarryOk, EpochsSplit, Candidates, Staged, Touching, Outputs, Occurring, Stage, KeyOf,
        StagedAfter, RowAt, RowOf,
      Rooted, Put, NextState;
    var w := WindowOf(state.trailing, cs[m..n]);
    var carry := Carried(cs, m, state.continuation.epoch, state.trailing);
    var at := Positions(carry, m, n);
    StageIs(ctx, cs, m, n, records, state, held);
    var s := StagedAfter(w, |w|, Occurring(cs[m..n]));
    var after := Stage(ctx, records, state, held);
    WindowIs(cs, m, n, carry);
    BatchStages(ctx, w, |w|, Occurring(cs[m..n]), held);
    StagedSet(ctx, cs, m, n, carry, w);
    HeldUnderPut(ctx, cs, m, n, at, w, s, state.trailing, held, after);
    KeysUnderPut(ctx, cs, m, n, at, w, s, state.trailing, held, after);
    var next := NextState(ctx, records, state).trailing;
    NextIsWindow(ctx, records, state, w);
    if next.Some? {
      var u: nat :| u < |w| && w[u] == next.value && Partner(w, u).None?;
      CarriedOwn(ctx, w, s, u, held, after, state.trailing, carry, cs, m);
    }
    RootedIs(ctx, cs, n, next, after);
  }

  lemma RootedIs(ctx: Context, cs: seq<Candidate>, m: nat, trailing: Option<Candidate>, held: Table)
    requires Shaped(ctx, cs) && AllValid(cs) && m <= |cs|
    requires forall k :: k in held ==> exists i :: 0 <= i < m && cs[i].message.aliases != [] && KeyOf(cs[i]) == k
    requires trailing.Some? ==> && trailing.value.message.aliases != [] && KeyOf(trailing.value) in held
                                && held[KeyOf(trailing.value)] == RowOf(trailing.value.message, Alias(trailing.value))
    ensures Rooted(ctx, cs, m, trailing, held)
  {
  }

  lemma NextIsWindow(ctx: Context, records: seq<Record>, state: State, w: seq<Candidate>)
    requires w == WindowOf(state.trailing, Candidates(ctx, records, state.continuation)) && AllValid(w)
    ensures var next := NextState(ctx, records, state).trailing;
            next.Some? ==> exists u: nat :: u < |w| && w[u] == next.value && Partner(w, u).None?
  {
    hide AllValid, Candidates, Partner, Ambiguous;
  }

  lemma HeldUnderPut(ctx: Context, cs: seq<Candidate>, m: nat, n: nat, at: seq<nat>, w: seq<Candidate>, s: set<nat>,
                     trailing: Option<Candidate>, held: Table, after: Table)
    requires Shaped(ctx, cs) && AllValid(cs) && Shaped(ctx, w) && AllValid(w) && m <= n <= |cs| && Window(cs, at, w)
    requires Rooted(ctx, cs, m, trailing, held) && Put(ctx, w, s, held, after)
    requires forall u :: u in s ==> u < |w| && (at[u] >= m || (u == 0 && trailing == Some(w[0])))
    ensures forall k :: k in held ==> k in after && after[k] == held[k]
  {
    hide Shaped, AllValid, KeyOf, RowAt;
    forall k | k in held ensures after[k] == held[k] {
      if after[k] != held[k] {
        var u :| u in s && KeyOf(w[u]) == k;
        var i :| 0 <= i < m && cs[i].message.aliases != [] && KeyOf(cs[i]) == k;
        KeysDiffer(ctx, cs, i, at[u]);
        FirstRowIsOwn(ctx, w);
      }
    }
  }

  lemma KeysUnderPut(ctx: Context, cs: seq<Candidate>, m: nat, n: nat, at: seq<nat>, w: seq<Candidate>, s: set<nat>,
                     trailing: Option<Candidate>, held: Table, after: Table)
    requires Shaped(ctx, cs) && AllValid(cs) && Shaped(ctx, w) && AllValid(w) && m <= n <= |cs| && Window(cs, at, w)
    requires Rooted(ctx, cs, m, trailing, held) && Put(ctx, w, s, held, after)
    requires forall u :: u in s ==> u < |w| && at[u] < n
    ensures forall k :: k in after ==> exists i :: 0 <= i < n && cs[i].message.aliases != [] && KeyOf(cs[i]) == k
  {
    hide Shaped, AllValid, KeyOf, RowAt;
    forall k | k in after ensures exists i :: 0 <= i < n && cs[i].message.aliases != [] && KeyOf(cs[i]) == k {
      if k !in held {
        var u :| u in s && KeyOf(w[u]) == k;
        assert w[u] == cs[at[u]];
      }
    }
  }

  /** The row of the next carried candidate is its own: it is unpaired, so it was staged alone now
      or was already held alone. */
  lemma CarriedOwn(ctx: Context, w: seq<Candidate>, s: set<nat>, u: nat, held: Table, after: Table,
      trailing: Option<Candidate>,
                   carry: Option<nat>, cs: seq<Candidate>, m: nat)
    requires Shaped(ctx, w) && AllValid(w) && u < |w| && Partner(w, u).None? && Put(ctx, w, s, held, after)
    requires Shaped(ctx, cs) && AllValid(cs) && m <= |cs| && Rooted(ctx, cs, m, trailing, held)
    requires forall k :: k in held ==> k in after && after[k] == held[k]
    requires (carry.Some? <==> trailing.Some?) && (carry.Some? ==> w[0] == trailing.value)
    requires !(carry.Some? && u == 0) ==> u in s
    ensures w[u].message.aliases != [] && KeyOf(w[u]) in after && after[KeyOf(w[u])] == RowOf(w[u].message, Alias(w[u]))
  {
    hide Shaped, AllValid, KeyOf;
    KeysDiffer(ctx, w, u, u);
  }

  lemma {:induction false} RunRooted(ctx: Context, batches: seq<seq<Record>>, rest: seq<Record>)
    requires InOrder(Flat(batches) + rest)
    ensures var cs := Session(ctx, Flat(batches) + rest);
            && Shaped(ctx, cs) && AllValid(cs) && |Session(ctx, Flat(batches))| <= |cs|
            && Rooted(ctx, cs, |Session(ctx, Flat(batches))|, StateAfter(ctx, batches).trailing, Held(ctx, batches))
    decreases |batches|
  {
    hide Shaped, AllValid, Candidates, CarryOk, EpochsSplit, InOrder, NextState, Session, Stage, Rooted;
    SessionShaped(ctx, Flat(batches) + rest);
    if batches == [] {
      assert Flat(batches) + rest == rest;
      NothingRooted(ctx, rest);
    } else {
      var front, last := batches[..|batches| - 1], batches[|batches| - 1];
      assert Flat(batches) + rest == Flat(front) + (last + rest) == Flat(front) + last + rest;
      RunRooted(ctx, front, last + rest);
      Cut(ctx, Flat(batches) + rest, front, last, rest);
      StageKeeps(ctx, Session(ctx, Flat(batches) + rest), |Session(ctx, Flat(front))|, |Session(ctx, Flat(batches))|,
          last,
                 StateAfter(ctx, front), Held(ctx, front));
    }
  }

  lemma NothingRooted(ctx: Context, rest: seq<Record>)
    requires Shaped(ctx, Session(ctx, rest)) && AllValid(Session(ctx, rest))
    ensures Session(ctx, []) == [] && Rooted(ctx, Session(ctx, rest), 0, INITIAL.trailing, map[])
  {
  }

  /** Parsing one more batch never moves or rewrites a row that is held, even when the carried
      candidate turns out to pair: an occurrence keeps its logical identity under append. */
  lemma HeldRowsNeverChange(ctx: Context, batches: seq<seq<Record>>, next: seq<Record>, k: RowKey)
    requires InOrder(Flat(batches) + next) && k in Held(ctx, batches)
    ensures k in Held(ctx, batches + [next]) && Held(ctx, batches + [next])[k] == Held(ctx, batches)[k]
  {
    hide Shaped, AllValid, Candidates, CarryOk, EpochsSplit, InOrder, NextState, Session, Stage, Rooted, Held,
        StateAfter;
    assert Flat(batches) + next + [] == Flat(batches) + next;
    HeldNext(ctx, batches, next);
    RunRooted(ctx, batches, next);
    Cut(ctx, Flat(batches) + next, batches, next, []);
    StageKeeps(ctx, Session(ctx, Flat(batches) + next), |Session(ctx, Flat(batches))|,
        |Session(ctx, Flat(batches) + next)|, next,
               StateAfter(ctx, batches), Held(ctx, batches));
  }

  // ---------------------------------------------------------------- no conflict within a batch

  /** The window a batch is canonicalized in. */
  ghost function BatchWindow(ctx: Context, batches: seq<seq<Record>>, next: seq<Record>): seq<Candidate> {
    var state := StateAfter(ctx, batches);
    WindowOf(state.trailing, Candidates(ctx, next, state.continuation))
  }

  /** The row a message stages for an occurrence is that of some candidate. */
  ghost predicate StagesRowOf(ctx: Context, w: seq<Candidate>, m: NativeMessage, a: PhysicalAlias, u: nat)
    requires Shaped(ctx, w) && AllValid(w)
  {
    && u < |w| && w[u].message.aliases != []
    && KeyOf(w[u]) == RowKey(a.ordinal, m.cls) && RowAt(ctx, w, u) == RowOf(m, a)
  }

  lemma VisitRows(ctx: Context, w: seq<Candidate>, n: nat, m: NativeMessage, a: PhysicalAlias)
    requires Shaped(ctx, w) && AllValid(w) && n < |w| && m in OutputAt(w, n) && a in m.aliases
    ensures exists u :: StagesRowOf(ctx, w, m, a, u)
  {
    hide Shaped, AllValid, Partner, MergeMessages, RowOf, Single;
    if Partner(w, n).Some? {
      var j := Partner(w, n).value;
      PartnerIs(w, n, j);
      PairRows(ctx, w, n, j);
      assert StagesRowOf(ctx, w, m, a, if a == Alias(w[n]) then n else j);
    } else {
      ShapedAt(ctx, w, n);
      HasAlias(ctx, w[n]);
      assert StagesRowOf(ctx, w, m, a, n);
    }
  }

  lemma {:induction false} OutputRows(ctx: Context, w: seq<Candidate>, n: nat, m: NativeMessage, a: PhysicalAlias)
    requires Shaped(ctx, w) && AllValid(w) && n <= |w| && m in Outputs(w, n) && a in m.aliases
    ensures exists u :: StagesRowOf(ctx, w, m, a, u)
    decreases n
  {
    hide Shaped, AllValid, OutputAt, StagesRowOf;
    if m in OutputAt(w, n - 1) {
      VisitRows(ctx, w, n - 1, m, a);
    } else {
      OutputRows(ctx, w, n - 1, m, a);
    }
  }

  lemma WindowIsShaped(ctx: Context, batches: seq<seq<Record>>, next: seq<Record>)
    requires InOrder(Flat(batches) + next)
    ensures Shaped(ctx, BatchWindow(ctx, batches, next)) && AllValid(BatchWindow(ctx, batches, next))
  {
    hide Shaped, AllValid, Candidates, CarryOk, EpochsSplit, InOrder, NextState, Session, StateAfter, WindowOf;
    var state := StateAfter(ctx, batches);
    assert Flat(batches) + next + [] == Flat(batches) + next;
    RunFits(ctx, batches, next);
    StepCut(ctx, Flat(batches), next, [], state);
    WindowValid(ctx, Session(ctx, Flat(batches) + next), |Session(ctx, Flat(batches))|,
                |Session(ctx, Flat(batches) + next)|, state);
  }

  /** Two messages of one parsed batch never stage different rows for one record and class, so the
      staging step never refuses a batch for conflicting content. */
  lemma NoBatchConflict(ctx: Context, batches: seq<seq<Record>>, next: seq<Record>, m: NativeMessage, a: PhysicalAlias,
      n: NativeMessage, b: PhysicalAlias)
    requires InOrder(Flat(batches) + next)
    requires var w := BatchWindow(ctx, batches, next);
             AllValid(w) ==> m in Outputs(w, |w|) && n in Outputs(w, |w|)
    requires a in m.aliases && b in n.aliases && RowKey(a.ordinal, m.cls) == RowKey(b.ordinal, n.cls)
    ensures RowOf(m, a) == RowOf(n, b)
  {
    hide Shaped, AllValid, InOrder, BatchWindow, Outputs, RowAt, RowOf, KeyOf;
    WindowIsShaped(ctx, batches, next);
    var w := BatchWindow(ctx, batches, next);
    OutputRows(ctx, w, |w|, m, a);
    OutputRows(ctx, w, |w|, n, b);
    var u :| StagesRowOf(ctx, w, m, a, u);
    var v :| StagesRowOf(ctx, w, n, b, v);
    KeysDiffer(ctx, w, u, v);
  }

  // ---------------------------------------------------------------- the batch parser

  datatype EpochBoundary = EpochBoundary(epoch: nat, alias: PhysicalAlias)

  function Boundaries(ctx: Context, records: seq<Record>, c: Continuation): seq<EpochBoundary> {
    if records == [] then []
    else
      var front, last := records[..|records| - 1], records[|records| - 1];
      Boundaries(ctx, front, c)
      + if Next(last, After(front, c)) != After(front, c)
        then [EpochBoundary(After(front, c).epoch + 1, AliasOf(ctx, last, None))] else []
  }

  lemma WindowKeysRise(ctx: Context, w: seq<Candidate>, i: nat, j: nat)
    requires Shaped(ctx, w) && i < j < |w|
    ensures AtMost(CandidateKey(w[i]), CandidateKey(w[j]))
  {
    hide Single;
    HasAlias(ctx, w[i]);
    HasAlias(ctx, w[j]);
    assert Follows(w[i], w[j]);
    SameSource(ctx, w[i]);
    SameSource(ctx, w[j]);
    if Alias(w[i]) == Alias(w[j]) {
      Trichotomy(CandidateKey(w[i]), CandidateKey(w[j]));
    } else {
      OrderedByRecord(w[i], w[j]);
    }
  }

  lemma SameSource(ctx: Context, c: Candidate)
    requires Single(ctx, c)
    ensures Alias(c).locator.session == ctx.session && Alias(c).file == ctx.file
  {
  }

  ghost predicate StandsAt(w: seq<Candidate>, n: nat, m: NativeMessage)
    requires n <= |w|
  {
    exists x :: 0 <= x < n && Canonicalization.MessageKey(m) == CandidateKey(w[x])
  }

  /** Messages are emitted in key order: a merged message stands where its earlier projection is. */
  lemma {:induction false} OutputsOrdered(ctx: Context, w: seq<Candidate>, n: nat)
    requires Shaped(ctx, w) && AllValid(w) && n <= |w|
    ensures forall m :: m in Outputs(w, n) ==> StandsAt(w, n, m)
    ensures Ordered(Outputs(w, n), Canonicalization.MessageKey)
  {
    hide Shaped, AllValid, OutputAt, Canonicalization.MessageKey, CandidateKey, Less;
    if n > 0 {
      OutputsOrdered(ctx, w, n - 1);
      OutputKey(ctx, w, n - 1);
      var before, all := Outputs(w, n - 1), Outputs(w, n);
      forall m | m in all ensures StandsAt(w, n, m) {
        if m in before { assert StandsAt(w, n - 1, m); }
      }
      forall i, j | 0 <= i < j < |all|
        ensures AtMost(Canonicalization.MessageKey(all[i]), Canonicalization.MessageKey(all[j]))
      {
        if j >= |before| {
          assert StandsAt(w, n - 1, before[i]);
          var x :| 0 <= x < n - 1 && Canonicalization.MessageKey(before[i]) == CandidateKey(w[x]);
          WindowKeysRise(ctx, w, x, n - 1);
        } else {
          assert AtMost(Canonicalization.MessageKey(before[i]), Canonicalization.MessageKey(before[j]));
        }
      }
    }
  }

  lemma OutputKey(ctx: Context, w: seq<Candidate>, n: nat)
    requires Shaped(ctx, w) && AllValid(w) && n < |w|
    ensures |OutputAt(w, n)| <= 1
    ensures OutputAt(w, n) != [] ==> Canonicalization.MessageKey(OutputAt(w, n)[0]) == CandidateKey(w[n])
  {
    hide Shaped, AllValid, Partner, MergeMessages, Canonicalization.AliasKey, Locator.Rank;
    match Partner(w, n)
    case None =>
    case Some(j) =>
      PartnerIs(w, n, j);
      if n < j {
        PairRows(ctx, w, n, j);
        PairFollows(ctx, w, n, j);
        SortedPair(Alias(w[n]), Alias(w[j]));
        assert Single(ctx, w[n]) by { ShapedAt(ctx, w, n); }
        HasAlias(ctx, w[n]);
      }
  }

  lemma PairFollows(ctx: Context, w: seq<Candidate>, i: nat, j: nat)
    requires Shaped(ctx, w) && AllValid(w) && Paired(w, i, j) && i < j
    ensures j < |w| && w[i].message.aliases != [] && w[j].message.aliases != []
    ensures Alias(w[i]).file == Alias(w[j]).file && Alias(w[i]).ordinal < Alias(w[j]).ordinal
  {
    hide AllValid, NativeMessage.Valid, Single, Matches, VisibleBetween, VisibilityBoundary, Ordinal;
    MatchFacts(ctx, w, i, j);
    KeysDiffer(ctx, w, i, j);
    OrdinalsRise(ctx, w, i, j);
    SameSource(ctx, w[i]);
    SameSource(ctx, w[j]);
  }

  function ParsedValues(cs: seq<Candidate>): (values: seq<Value>)
    ensures |values| == |cs| && forall i :: 0 <= i < |cs| ==> values[i] == Parsed(cs[i])
  {
    seq(|cs|, i requires 0 <= i < |cs| => Parsed(cs[i]))
  }

  /** On a parsed window, canonicalization emits its groups in order without sorting anything. */
  lemma WindowCanonicalized(ctx: Context, w: seq<Candidate>)
    requires Shaped(ctx, w) && AllValid(w)
    ensures AllValid(CandidatesOf(ParsedValues(w))) && Arranged(ParsedValues(w)) == w
    ensures Canonicalized(ParsedValues(w)) == Outputs(w, |w|)
  {
    hide Shaped, AllValid, Outputs, Less, CandidateKey, Canonicalization.MessageKey;
    assert CandidatesOf(ParsedValues(w)) == w;
    forall i, j | 0 <= i < j < |w| ensures AtMost(CandidateKey(w[i]), CandidateKey(w[j])) {
      WindowKeysRise(ctx, w, i, j);
    }
    SortIdentity(w, CandidateKey);
    OutputsOrdered(ctx, w, |w|);
    SortIdentity(Outputs(w, |w|), Canonicalization.MessageKey);
  }

  /** Adapt a batch of records under carried state and canonicalize its projections. */
  method ParseCodexSession(ctx: Context, records: seq<Record>, state: State)
    returns (messages: seq<NativeMessage>, boundaries: seq<EpochBoundary>, next: State)
    requires var w := WindowOf(state.trailing, Candidates(ctx, records, state.continuation));
             Shaped(ctx, w) && AllValid(w)
    ensures var added := Candidates(ctx, records, state.continuation);
            var w := WindowOf(state.trailing, added);
            messages == Touching(Outputs(w, |w|), Occurring(added))
    ensures boundaries == Boundaries(ctx, records, state.continuation)
    ensures next == NextState(ctx, records, state)
  {
    hide Shaped, AllValid, Outputs, Touching, RecordCandidates, AliasOf, Canonicalized, Arranged, Diagnostics,
        NextTrailing, Partner;
    var epoch, seen := state.continuation.epoch, state.continuation.seen;
    var candidates: seq<Candidate> := [];
    boundaries := [];
    for i := 0 to |records|
      invariant Continuation(epoch, seen) == After(records[..i], state.continuation)
      invariant candidates == Candidates(ctx, records[..i], state.continuation)
      invariant boundaries == Boundaries(ctx, records[..i], state.continuation)
    {
      var record := records[i];
      assert records[..i + 1][..i] == records[..i];
      candidates := candidates + RecordCandidates(ctx, record, epoch);
      if record.payload.Compacted? && record.digest !in seen {
        seen := seen + {record.digest};
        epoch := epoch + 1;
        boundaries := boundaries + [EpochBoundary(epoch, AliasOf(ctx, record, None))];
      }
    }
    assert records[..|records|] == records;
    var window := WindowOf(state.trailing, candidates);
    WindowCanonicalized(ctx, window);
    var canonical, diagnostics := CanonicalizeCodexCandidates(ParsedValues(window));
    messages := Touching(canonical, Occurring(candidates));
    var trailing := NextTrailingCandidate(ctx, canonical, diagnostics, window, epoch);
    next := State(Continuation(epoch, seen), trailing);
  }

  /** Carry the last projection of the current epoch while it is unpaired and nothing was
      compatible with it, as the canonical messages and the diagnostics say. */
  method NextTrailingCandidate(ctx: Context, canonical: seq<NativeMessage>, diagnostics: seq<Diagnostic>,
      window: seq<Candidate>, epoch: nat)
    returns (trailing: Option<Candidate>)
    requires Shaped(ctx, window) && AllValid(window)
    requires canonical == Outputs(window, |window|) && diagnostics == Diagnostics(window, |window|)
    ensures trailing == NextTrailing(window, epoch)
  {
    hide Shaped, AllValid, Outputs, Diagnostics, Partner, Ambiguous, Pairable;
    var last := LastPairable(window, epoch, |window|);
    if last.None? {
      return None;
    }
    var candidate := window[last.value];
    assert candidate.message.aliases != [] by { KeysDiffer(ctx, window, last.value, last.value); }
    var alias := Alias(candidate);
    FoundOutcome(ctx, window, last.value);
    var message := MessageWith(canonical, alias);
    if |message.value.aliases| != 1 {
      return None;
    }
    var diagnostic := DiagnosticWith(diagnostics, alias);
    if diagnostic.None? || diagnostic.value.code != NoCompatiblePartner {
      return None;
    }
    return Some(candidate);
  }

  /** The first element that satisfies a condition. */
  function FirstWith<T>(s: seq<T>, p: T -> bool): (x: Option<T>)
    ensures x.Some? ==> x.value in s && p(x.value)
    ensures x.None? ==> forall y :: y in s ==> !p(y)
  {
    if s == [] then None else if p(s[0]) then Some(s[0]) else FirstWith(s[1..], p)
  }

  function MessageWith(messages: seq<NativeMessage>, alias: PhysicalAlias): Option<NativeMessage> {
    FirstWith(messages, (m: NativeMessage) => alias in m.aliases)
  }

  function DiagnosticWith(diagnostics: seq<Diagnostic>, alias: PhysicalAlias): Option<Diagnostic> {
    FirstWith(diagnostics, (d: Diagnostic) => alias in d.aliases)
  }

  lemma AliasUnique(ctx: Context, w: seq<Candidate>, u: nat, x: nat)
    requires Shaped(ctx, w) && u < |w| && x < |w| && Pairable(w[u])
    ensures w[u].message.aliases == [Alias(w[u])] && w[x].message.aliases == [Alias(w[x])]
    ensures Alias(w[x]) == Alias(w[u]) ==> x == u
  {
    hide Single;
    HasAlias(ctx, w[u]);
    HasAlias(ctx, w[x]);
    PairableIsProse(ctx, w, u);
    if u < x { OrdinalsRise(ctx, w, u, x); } else if x < u { OrdinalsRise(ctx, w, x, u); }
  }

  /** What a visit emits holds a projection's occurrence exactly when the projection is in its group. */
  lemma OutputHolding(ctx: Context, w: seq<Candidate>, u: nat, n: nat)
    requires Shaped(ctx, w) && AllValid(w) && u < |w| && n < |w| && Pairable(w[u])
    ensures w[u].message.aliases != [] && |OutputAt(w, n)| <= 1
    ensures OutputAt(w, n) != [] ==>
      && (Alias(w[u]) in OutputAt(w, n)[0].aliases <==> u == n || Partner(w, n) == Some(u))
      && (Alias(w[u]) in OutputAt(w, n)[0].aliases ==> (|OutputAt(w, n)[0].aliases| == 1 <==> Partner(w, u).None?))
  {
    hide Shaped, AllValid, Partner, MergeMessages, Paired;
    AliasUnique(ctx, w, u, n);
    if Partner(w, n).Some? {
      var j := Partner(w, n).value;
      PartnerIs(w, n, j);
      AliasUnique(ctx, w, u, j);
      if n < j { PairRows(ctx, w, n, j); }
    }
  }

  lemma {:induction false} MessagesHolding(ctx: Context, w: seq<Candidate>, u: nat, n: nat)
    requires Shaped(ctx, w) && AllValid(w) && u < |w| && n <= |w| && Pairable(w[u]) && w[u].message.aliases != []
    ensures forall m :: m in Outputs(w, n) && Alias(w[u]) in m.aliases ==> (|m.aliases| == 1 <==> Partner(w, u).None?)
    ensures Emitted(w, n, u) ==> exists m :: m in Outputs(w, n) && Alias(w[u]) in m.aliases
  {
    hide Shaped, AllValid, Partner, OutputAt, Emitted, Paired;
    if n == 0 {
      NothingEmitted(w, u);
    } else {
      MessagesHolding(ctx, w, u, n - 1);
      OutputsNext(w, n - 1);
      OutputHolding(ctx, w, u, n - 1);
      EmittedGroup(w, n - 1, u);
      PartnerIs(w, n - 1, u);
      OutputCase(w, n - 1);
      if Emitted(w, n - 1, u) {
        var m :| m in Outputs(w, n - 1) && Alias(w[u]) in m.aliases;
        assert m in Outputs(w, n);
      } else if Emitted(w, n, u) {
        assert OutputAt(w, n - 1)[0] in Outputs(w, n);
      }
    }
  }

  lemma OutputCase(w: seq<Candidate>, n: nat)
    requires AllValid(w) && n < |w|
    ensures OutputAt(w, n) == [] <==> Partner(w, n).Some? && Partner(w, n).value < n
  {
    hide AllValid, Partner, MergeMessages;
    if Partner(w, n).Some? { PartnerIs(w, n, Partner(w, n).value); }
  }

  lemma {:induction false} DiagnosticsHolding(ctx: Context, w: seq<Candidate>, u: nat, n: nat)
    requires Shaped(ctx, w) && AllValid(w) && u < |w| && n <= |w| && Pairable(w[u]) && w[u].message.aliases != []
    ensures forall d :: d in Diagnostics(w, n) && Alias(w[u]) in d.aliases ==> [d] == DiagnosticAt(w, u)
    ensures u < n && Partner(w, u).None? ==> DiagnosticAt(w, u) != [] && DiagnosticAt(w, u)[0] in Diagnostics(w, n)
    ensures DiagnosticAt(w, u) != [] ==> Alias(w[u]) in DiagnosticAt(w, u)[0].aliases
  {
    hide Shaped, AllValid, Partner, Paired, Ambiguous;
    AliasUnique(ctx, w, u, u);
    if n > 0 {
      DiagnosticsHolding(ctx, w, u, n - 1);
      AliasUnique(ctx, w, u, n - 1);
    }
  }

  /** The first message and the first diagnostic with a projection's occurrence are its own. */
  lemma FoundOutcome(ctx: Context, w: seq<Candidate>, u: nat)
    requires Shaped(ctx, w) && AllValid(w) && u < |w| && Pairable(w[u])
    ensures w[u].message.aliases != []
    ensures var m := MessageWith(Outputs(w, |w|), Alias(w[u]));
            m.Some? && (|m.value.aliases| == 1 <==> Partner(w, u).None?)
    ensures Partner(w, u).None? ==>
              var d := DiagnosticWith(Diagnostics(w, |w|), Alias(w[u]));
              d.Some? && (d.value.code == NoCompatiblePartner <==> !Ambiguous(w, u))
  {
    hide Shaped, AllValid, Outputs, Diagnostics, Partner, Ambiguous, Pairable, FirstWith;
    KeysDiffer(ctx, w, u, u);
    MessagesHolding(ctx, w, u, |w|);
    DiagnosticsHolding(ctx, w, u, |w|);
    EmittedWhenVisited(w, u);
  }
}
