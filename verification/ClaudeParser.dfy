/** The Claude session parser: parsing a suffix from carried state against parsing the whole. */
module ClaudeParser {
  import opened CorpusTables
  import opened Sorting

  /** Text as code points, so that keys order it as the program does. */
  type Text = seq<int>

  function Points(s: string): (t: Text)
    ensures |t| == |s|
  {
    seq(|s|, i requires 0 <= i < |s| => s[i] as int)
  }

  /** A named outcome of one record; codes are the ranks of their names. */
  datatype Finding = Finding(code: nat, detail: Text, shape: int)

  datatype Diagnostic = Diagnostic(ordinal: nat, finding: Finding)

  const DUPLICATE_COMPACT_BOUNDARY: nat := 0
  const EXCLUDED_METADATA: nat := 3
  const EXCLUDED_SYSTEM: nat := 6

  function DiagnosticKey(d: Diagnostic): Key { [d.ordinal, d.finding.code] + d.finding.detail }

  datatype Sidechain = Absent | No | Yes | Malformed
  datatype AgentId = NoAgent | Named | Blank

  /** The origin facts a record states. */
  datatype Origin = Origin(foreignSession: bool, sidechain: Sidechain, agent: AgentId)

  datatype Payload =
    | Undecodable(finding: Finding)
    | KnownMetadata(detail: Text)
    | LegacyMessage(uuid: string, role: string, time: string, rows: seq<(ContentClass, string)>, findings: seq<Finding>)
    | CompactBoundary(uuid: string, trigger: string, tokens: nat, time: string)
    | InvalidBoundary(finding: Finding)
    | OtherSystem
    | Refused(finding: Finding)
    | Conversation(uuid: string, role: string, time: string, rows: seq<(ContentClass, string)>, findings: seq<Finding>)

  datatype Record = Record(ordinal: nat, origin: Origin, payload: Payload)

  /** A message row, but for the session kind and the authorship that follows from it. */
  datatype Message = Message(ordinal: nat, uuid: string, role: string, time: string, epoch: nat, cls: ContentClass,
      text: string, fromAgent: bool)

  datatype Boundary = Boundary(ordinal: nat, uuid: string, epoch: nat, trigger: string, tokens: nat, time: string)

  datatype State = State(epoch: nat, seen: set<string>)

  const INITIAL := State(0, {})

  // ---------------------------------------------------------------- one pass

  function Next(r: Record, s: State): State {
    if r.payload.CompactBoundary? && r.payload.uuid !in s.seen then State(s.epoch + 1, s.seen + {r.payload.uuid}) else s
  }

  function After(records: seq<Record>, s: State): State {
    if records == [] then s else Next(records[|records| - 1], After(records[..|records| - 1], s))
  }

  function RowsOf(r: Record, epoch: nat, uuid: string, role: string, time: string, fromAgent: bool,
      rows: seq<(ContentClass, string)>): seq<Message> {
    if rows == [] then []
    else
      RowsOf(r, epoch, uuid, role, time, fromAgent, rows[..|rows| - 1])
      + [Message(r.ordinal, uuid, role, time, epoch, rows[|rows| - 1].0, rows[|rows| - 1].1, fromAgent)]
  }

  function RecordMessages(r: Record, epoch: nat): seq<Message> {
    match r.payload
    case LegacyMessage(uuid, role, time, rows, _) => RowsOf(r, epoch, uuid, role, time, false, rows)
    case Conversation(uuid, role, time, rows, _) =>
      RowsOf(r, epoch, uuid, role, time, role == "user" && r.origin.sidechain == Yes && r.origin.agent == Named, rows)
    case _ => []
  }

  function RecordBoundaries(r: Record, s: State): seq<Boundary> {
    if r.payload.CompactBoundary? && r.payload.uuid !in s.seen then
      [Boundary(r.ordinal, r.payload.uuid, s.epoch + 1, r.payload.trigger, r.payload.tokens, r.payload.time)]
    else []
  }

  function Located(r: Record, findings: seq<Finding>): seq<Diagnostic> {
    if findings == [] then []
    else Located(r, findings[..|findings| - 1]) + [Diagnostic(r.ordinal, findings[|findings| - 1])]
  }

  /** The findings of decoding. */
  function DecodeFindings(r: Record): seq<Diagnostic> {
    if r.payload.Undecodable? then [Diagnostic(r.ordinal, r.payload.finding)] else []
  }

  /** The findings of the record loop. */
  function LoopFindings(r: Record, s: State): seq<Diagnostic> {
    match r.payload
    case Undecodable(_) => []
    case KnownMetadata(detail) => [Diagnostic(r.ordinal, Finding(EXCLUDED_METADATA, detail, 0))]
    case LegacyMessage(_, _, _, _, findings) => Located(r, findings)
    case CompactBoundary(uuid, _, _, _) =>
      if uuid in s.seen then
        [Diagnostic(r.ordinal, Finding(DUPLICATE_COMPACT_BOUNDARY,
            Points("duplicate compact_boundary does not advance the epoch"), 0))]
      else []
    case InvalidBoundary(finding) => [Diagnostic(r.ordinal, finding)]
    case OtherSystem =>
      [Diagnostic(r.ordinal, Finding(EXCLUDED_SYSTEM, Points("system record is deliberately non-searchable"), 0))]
    case Refused(finding) => [Diagnostic(r.ordinal, finding)]
    case Conversation(_, _, _, _, findings) => Located(r, findings)
  }

  function Messages(records: seq<Record>, s: State): seq<Message> {
    if records == [] then []
    else Messages(records[..|records| - 1], s)
           + RecordMessages(records[|records| - 1], After(records[..|records| - 1], s).epoch)
  }

  function Boundaries(records: seq<Record>, s: State): seq<Boundary> {
    if records == [] then []
    else Boundaries(records[..|records| - 1], s)
           + RecordBoundaries(records[|records| - 1], After(records[..|records| - 1], s))
  }

  function Decoding(records: seq<Record>): seq<Diagnostic> {
    if records == [] then [] else Decoding(records[..|records| - 1]) + DecodeFindings(records[|records| - 1])
  }

  function Looping(records: seq<Record>, s: State): seq<Diagnostic> {
    if records == [] then []
    else Looping(records[..|records| - 1], s) + LoopFindings(records[|records| - 1], After(records[..|records| - 1], s))
  }

  /** The reported diagnostics: those of decoding, then those of the loop, sorted stably. */
  function Diagnostics(records: seq<Record>, s: State): seq<Diagnostic> {
    SortBy(Decoding(records) + Looping(records, s), DiagnosticKey)
  }

  // ---------------------------------------------------------------- the session kind of a batch

  /** Facts of a record that contradict the kind the path gives. */
  predicate Contradicts(path: SessionKind, r: Record) {
    && !r.payload.Undecodable? && !r.payload.KnownMetadata?
    && (r.origin.foreignSession || r.origin.sidechain == Malformed || r.origin.agent == Blank
        || (path == Primary && (r.origin.sidechain == Yes || r.origin.agent == Named))
        || (path == Agent && r.origin.sidechain == No))
  }

  predicate Decoded(records: seq<Record>) { exists i :: 0 <= i < |records| && !records[i].payload.Undecodable? }

  predicate Contradicted(path: SessionKind,
      records: seq<Record>) { exists i :: 0 <= i < |records| && Contradicts(path, records[i]) }

  /** The kind of one batch: that of the path, unless nothing decoded or a record contradicts it. */
  function Kind(path: SessionKind, records: seq<Record>): SessionKind {
    if !Decoded(records) || Contradicted(path, records) then Unknown else path
  }

  lemma FactsAppend(path: SessionKind, a: seq<Record>, b: seq<Record>)
    ensures Decoded(a + b) <==> Decoded(a) || Decoded(b)
    ensures Contradicted(path, a + b) <==> Contradicted(path, a) || Contradicted(path, b)
  {
    hide Contradicts;
    var c := a + b;
    assert forall i :: 0 <= i < |a| ==> c[i] == a[i];
    assert forall i :: 0 <= i < |b| ==> c[|a| + i] == b[i];
    if Contradicted(path, c) {
      var i :| 0 <= i < |c| && Contradicts(path, c[i]);
      if i < |a| { assert Contradicts(path, a[i]); } else { assert Contradicts(path, b[i - |a|]); }
    }
    if Decoded(c) {
      var i :| 0 <= i < |c| && !c[i].payload.Undecodable?;
      if i < |a| { assert !a[i].payload.Undecodable?; } else { assert !b[i - |a|].payload.Undecodable?; }
    }
  }

  /** Kinds combine closed: a whole has the kind its parts agree on, and none otherwise. */
  lemma KindOfWhole(path: SessionKind, a: seq<Record>, b: seq<Record>)
    requires Decoded(a) && Decoded(b)
    ensures Kind(path, a + b) == if Kind(path, a) == Kind(path, b) then Kind(path, a) else Unknown
  {
    hide Decoded, Contradicted;
    FactsAppend(path, a, b);
  }

  // ---------------------------------------------------------------- resuming on a suffix

  lemma {:induction false} ResumeTexts(a: seq<Record>, b: seq<Record>, s: State)
    ensures After(a + b, s) == After(b, After(a, s))
    ensures Messages(a + b, s) == Messages(a, s) + Messages(b, After(a, s))
    ensures Boundaries(a + b, s) == Boundaries(a, s) + Boundaries(b, After(a, s))
    decreases |b|
  {
    hide Next, RecordMessages, RecordBoundaries;
    if b == [] {
      assert a + b == a;
    } else {
      var front, last := b[..|b| - 1], b[|b| - 1];
      assert (a + b)[..|a + b| - 1] == a + front && (a + b)[|a + b| - 1] == last;
      ResumeTexts(a, front, s);
      Regroup(Messages(a, s), Messages(front, After(a, s)), RecordMessages(last, After(front, After(a, s)).epoch));
      Regroup(Boundaries(a, s), Boundaries(front, After(a, s)), RecordBoundaries(last, After(front, After(a, s))));
    }
  }

  lemma {:induction false} ResumeFindings(a: seq<Record>, b: seq<Record>, s: State)
    ensures Decoding(a + b) == Decoding(a) + Decoding(b)
    ensures Looping(a + b, s) == Looping(a, s) + Looping(b, After(a, s))
    decreases |b|
  {
    hide Next, DecodeFindings, LoopFindings;
    if b == [] {
      assert a + b == a;
    } else {
      var front, last := b[..|b| - 1], b[|b| - 1];
      assert (a + b)[..|a + b| - 1] == a + front && (a + b)[|a + b| - 1] == last;
      ResumeFindings(a, front, s);
      ResumeTexts(a, front, s);
      Regroup(Decoding(a), Decoding(front), DecodeFindings(last));
      Regroup(Looping(a, s), Looping(front, After(a, s)), LoopFindings(last, After(front, After(a, s))));
    }
  }

  ghost predicate InOrder(records: seq<Record>) {
    forall i, j :: 0 <= i < j < |records| ==> records[i].ordinal < records[j].ordinal
  }

  ghost predicate From(d: Diagnostic, records: seq<Record>) {
    exists i :: 0 <= i < |records| && records[i].ordinal == d.ordinal
  }

  lemma {:induction false} LocatedFrom(r: Record, findings: seq<Finding>)
    ensures forall d :: d in Located(r, findings) ==> d.ordinal == r.ordinal
    decreases |findings|
  {
    if findings != [] { LocatedFrom(r, findings[..|findings| - 1]); }
  }

  lemma {:induction false} FindingsFrom(records: seq<Record>, s: State)
    ensures forall d :: d in Decoding(records) + Looping(records, s) ==> From(d, records)
    decreases |records|
  {
    if records != [] {
      var front, last := records[..|records| - 1], records[|records| - 1];
      FindingsFrom(front, s);
      forall d | d in Decoding(records) + Looping(records, s) ensures From(d, records) {
        if d in Decoding(front) + Looping(front, s) {
          var i :| 0 <= i < |front| && front[i].ordinal == d.ordinal;
          assert records[i].ordinal == d.ordinal;
        } else {
          if last.payload.LegacyMessage? || last.payload.Conversation? { LocatedFrom(last, last.payload.findings); }
          assert records[|records| - 1].ordinal == d.ordinal;
        }
      }
    }
  }

  lemma KeysBelow(a: seq<Record>, b: seq<Record>, x: Diagnostic, y: Diagnostic)
    requires InOrder(a + b) && From(x, a) && From(y, b)
    ensures Less(DiagnosticKey(x), DiagnosticKey(y)) && DiagnosticKey(x) != DiagnosticKey(y)
  {
    var c := a + b;
    var i :| 0 <= i < |a| && a[i].ordinal == x.ordinal;
    var j :| 0 <= j < |b| && b[j].ordinal == y.ordinal;
    assert c[i].ordinal < c[|a| + j].ordinal;
    assert DiagnosticKey(x)[0] < DiagnosticKey(y)[0];
  }

  /** Parsing a suffix from the carried state continues the whole parse: the same texts, epochs
      and boundaries, and the sorted diagnostics of the parts, one after the other. */
  lemma {:induction false} SuffixResumes(a: seq<Record>, b: seq<Record>, s: State)
    requires InOrder(a + b)
    ensures After(a + b, s) == After(b, After(a, s))
    ensures Messages(a + b, s) == Messages(a, s) + Messages(b, After(a, s))
    ensures Boundaries(a + b, s) == Boundaries(a, s) + Boundaries(b, After(a, s))
    ensures Diagnostics(a + b, s) == Diagnostics(a, s) + Diagnostics(b, After(a, s))
  {
    hide Messages, Boundaries, After, SortBy, Decoding, Looping, InOrder, DiagnosticKey, Less;
    ResumeTexts(a, b, s);
    ResumeFindings(a, b, s);
    var da, db, la, lb := Decoding(a), Decoding(b), Looping(a, s), Looping(b, After(a, s));
    FindingsFrom(a, s);
    FindingsFrom(b, After(a, s));
    forall x, y | x in db && y in la ensures DiagnosticKey(x) != DiagnosticKey(y) {
      assert x in db + lb && y in da + la;
      KeysBelow(a, b, y, x);
    }
    forall x, y | x in da + la && y in db + lb ensures Less(DiagnosticKey(x), DiagnosticKey(y)) {
      KeysBelow(a, b, x, y);
    }
    ExchangeBlocks(da, db, la, DiagnosticKey);
    SortSameThenSame((da + db) + la, (da + la) + db, lb, DiagnosticKey);
    SortSplits(da + la, db + lb, DiagnosticKey);
    Regroup(da + db, la, lb);
    Regroup(da + la, db, lb);
  }

  /** From the initial state the epoch is the number of distinct valid compaction UUIDs seen. */
  lemma {:induction false} EpochCountsCompactions(records: seq<Record>)
    ensures After(records, INITIAL).epoch == |After(records, INITIAL).seen|
    ensures forall u :: u in After(records, INITIAL).seen <==>
      exists i :: 0 <= i < |records| && records[i].payload.CompactBoundary? && records[i].payload.uuid == u
    decreases |records|
  {
    if records != [] {
      var front, last := records[..|records| - 1], records[|records| - 1];
      EpochCountsCompactions(front);
      forall u ensures u in After(records, INITIAL).seen <==>
        exists i :: 0 <= i < |records| && records[i].payload.CompactBoundary? && records[i].payload.uuid == u
      {
        if u in After(front, INITIAL).seen {
          var i :| 0 <= i < |front| && front[i].payload.CompactBoundary? && front[i].payload.uuid == u;
          assert records[i] == front[i];
        }
        if i :| 0 <= i < |records| && records[i].payload.CompactBoundary? && records[i].payload.uuid == u {
          if i < |front| { assert front[i] == records[i]; }
        }
        if last.payload.CompactBoundary? && last.payload.uuid == u { assert records[|records| - 1].payload.uuid == u; }
      }
    }
  }

  // ---------------------------------------------------------------- rows with their kind

  /** A row as staged: the batch's session kind, and the authorship it allows. */
  datatype StagedRow = StagedRow(message: Message, kind: SessionKind, harness: bool)

  function Rows(messages: seq<Message>, kind: SessionKind): (rows: seq<StagedRow>)
    ensures |rows| == |messages|
    ensures forall i :: 0 <= i < |rows| ==>
              rows[i] == StagedRow(messages[i], kind, messages[i].fromAgent && kind == Agent)
  {
    seq(|messages|, i requires 0 <= i < |messages| =>
      StagedRow(messages[i], kind, messages[i].fromAgent && kind == Agent))
  }

  /** Some record yields a message row. */
  predicate Speaks(records: seq<Record>) { exists i :: 0 <= i < |records| && SpeaksAlone(records[i]) }

  predicate SpeaksAlone(r: Record) { (r.payload.LegacyMessage? || r.payload.Conversation?) && r.payload.rows != [] }

  lemma {:induction false} MessagesWhenSpeaking(records: seq<Record>, s: State)
    ensures Messages(records, s) != [] <==> Speaks(records)
    decreases |records|
  {
    hide After;
    if records != [] {
      var front, last := records[..|records| - 1], records[|records| - 1];
      MessagesWhenSpeaking(front, s);
      if Speaks(records) {
        var i :| 0 <= i < |records| && SpeaksAlone(records[i]);
        if i < |front| { assert SpeaksAlone(front[i]); }
      }
      if i :| 0 <= i < |front| && SpeaksAlone(front[i]) { assert SpeaksAlone(records[i]); }
      if SpeaksAlone(last) { assert SpeaksAlone(records[|records| - 1]); }
    }
  }

  function Flat(batches: seq<seq<Record>>): seq<Record> {
    if batches == [] then [] else Flat(batches[..|batches| - 1]) + batches[|batches| - 1]
  }

  /** The rows staged batch after batch, each under the kind of its own batch. */
  function BatchedRows(path: SessionKind, batches: seq<seq<Record>>, s: State): seq<StagedRow> {
    if batches == [] then []
    else
      var front, last := batches[..|batches| - 1], batches[|batches| - 1];
      BatchedRows(path, front, s) + Rows(Messages(last, After(Flat(front), s)), Kind(path, last))
  }

  /** Every batch with a message was given this kind. */
  predicate GivenKind(path: SessionKind, batches: seq<seq<Record>>, kind: SessionKind) {
    forall i :: 0 <= i < |batches| && Speaks(batches[i]) ==> Kind(path, batches[i]) == kind
  }

  lemma RowsSplit(x: seq<Message>, y: seq<Message>, kind: SessionKind, a: seq<StagedRow>, other: SessionKind)
    requires |a| == |x|
    ensures Rows(x + y, kind) == a + Rows(y, other) <==> a == Rows(x, kind) && (y == [] || other == kind)
  {
    assert Rows(x + y, kind) == Rows(x, kind) + Rows(y, kind);
    if Rows(x + y, kind) == a + Rows(y, other) {
      assert (a + Rows(y, other))[..|x|] == a && Rows(x + y, kind)[..|x|] == Rows(x, kind);
      if y != [] { assert (a + Rows(y, other))[|x|] == Rows(y, other)[0]; }
    }
  }

  lemma {:induction false} BatchedRowsUnderKind(path: SessionKind, batches: seq<seq<Record>>, s: State,
      kind: SessionKind)
    ensures |BatchedRows(path, batches, s)| == |Messages(Flat(batches), s)|
    ensures BatchedRows(path, batches, s) == Rows(Messages(Flat(batches), s), kind) <==> GivenKind(path, batches, kind)
    decreases |batches|
  {
    hide Messages, After, Kind, Speaks, GivenKind, Rows;
    if batches == [] {
      NothingBatched(path, s, kind);
    } else {
      var front, last := batches[..|batches| - 1], batches[|batches| - 1];
      BatchedRowsUnderKind(path, front, s, kind);
      ResumeTexts(Flat(front), last, s);
      MessagesWhenSpeaking(last, After(Flat(front), s));
      RowsSplit(Messages(Flat(front), s), Messages(last, After(Flat(front), s)), kind, BatchedRows(path, front, s),
          Kind(path, last));
      GivenNext(path, front, last, kind);
      FrontAndLast(batches);
    }
  }

  lemma NothingBatched(path: SessionKind, s: State, kind: SessionKind)
    ensures Messages([], s) == [] && Rows([], kind) == [] && GivenKind(path, [], kind)
  {
  }

  lemma GivenNext(path: SessionKind, front: seq<seq<Record>>, last: seq<Record>, kind: SessionKind)
    ensures GivenKind(path, front + [last], kind)
       <==> GivenKind(path, front, kind) && (!Speaks(last) || Kind(path, last) == kind)
  {
    hide Speaks, Kind;
    var all := front + [last];
    assert forall i :: 0 <= i < |front| ==> all[i] == front[i];
    assert all[|front|] == last;
  }

  lemma {:induction false} FlatFacts(path: SessionKind, batches: seq<seq<Record>>)
    ensures Decoded(Flat(batches)) <==> exists i :: 0 <= i < |batches| && Decoded(batches[i])
    ensures Contradicted(path, Flat(batches)) <==> exists i :: 0 <= i < |batches| && Contradicted(path, batches[i])
    decreases |batches|
  {
    hide Decoded, Contradicted;
    if batches == [] {
      NothingStated(path);
    } else {
      var front, last := batches[..|batches| - 1], batches[|batches| - 1];
      FlatFacts(path, front);
      FactsAppend(path, Flat(front), last);
      assert forall i :: 0 <= i < |front| ==> front[i] == batches[i];
      assert batches[|batches| - 1] == last;
    }
  }

  lemma NothingStated(path: SessionKind)
    ensures !Decoded([]) && !Contradicted(path, [])
  {
  }

  lemma SpeakingIsDecoded(records: seq<Record>)
    ensures Speaks(records) ==> Decoded(records)
  {
  }

  /** Rows staged over any batches equal those of one parse, session kind and authorship included,
      if and only if the path gives no kind, no record contradicts it, or every batch with a
      message holds a record that does. */
  lemma BatchedRowsExactly(path: SessionKind, batches: seq<seq<Record>>, s: State)
    ensures BatchedRows(path, batches, s) == Rows(Messages(Flat(batches), s), Kind(path, Flat(batches)))
       <==> || path == Unknown || !Contradicted(path, Flat(batches))
            || forall i :: 0 <= i < |batches| && Speaks(batches[i]) ==> Contradicted(path, batches[i])
  {
    hide Messages, After, Decoded, Contradicted, Speaks, BatchedRows, Flat;
    BatchedRowsUnderKind(path, batches, s, Kind(path, Flat(batches)));
    FlatFacts(path, batches);
    forall i | 0 <= i < |batches| ensures Speaks(batches[i]) ==> Decoded(batches[i]) { SpeakingIsDecoded(batches[i]); }
  }

  /** A top-level session whose second batch first shows that it is a sidechain: cut in two, its
      first message keeps the kind that one parse refuses. */
  lemma LateContradictionShows() returns (batches: seq<seq<Record>>)
    ensures |batches| == 2 && |Flat(batches)| == 2 && InOrder(Flat(batches))
    ensures BatchedRows(Primary, batches, INITIAL)
            != Rows(Messages(Flat(batches), INITIAL), Kind(Primary, Flat(batches)))
  {
    hide BatchedRows, Messages, Rows, Kind, Decoded;
    var first := Record(0, Origin(false, No, NoAgent), Conversation("a", "user", "", [(Prose, "hello")], []));
    var second := Record(1, Origin(false, Yes, Named), Conversation("b", "user", "", [(Prose, "again")], []));
    batches := [[first], [second]];
    assert batches[..1] == [[first]] && [[first]][..0] == [];
    assert Flat([[first]]) == [first] && Flat(batches) == [first, second];
    assert SpeaksAlone(batches[0][0]) && !Contradicted(Primary, batches[0]);
    assert Contradicts(Primary, Flat(batches)[1]);
    BatchedRowsExactly(Primary, batches, INITIAL);
  }

  datatype ParseResult = ParseResult(kind: SessionKind, rows: seq<StagedRow>, boundaries: seq<Boundary>,
      diagnostics: seq<Diagnostic>, next: State)

  /** Adapt one bounded batch under carried state. */
  method ParseClaudeSession(path: SessionKind, records: seq<Record>, state: State) returns (r: ParseResult)
    ensures r.kind == Kind(path, records)
    ensures r.rows == Rows(Messages(records, state), r.kind)
    ensures r.boundaries == Boundaries(records, state)
    ensures r.diagnostics == Diagnostics(records, state)
    ensures r.next == After(records, state)
  {
    hide SortBy, RecordMessages, DecodeFindings, Points;
    var decoding := DecodeRecords(records);
    var kind := ClassifySessionKind(path, records);
    var messages: seq<Message>, boundaries: seq<Boundary>, looping: seq<Diagnostic> := [], [], [];
    var epoch, seen := state.epoch, state.seen;
    for i := 0 to |records|
      invariant State(epoch, seen) == After(records[..i], state)
      invariant messages == Messages(records[..i], state)
      invariant boundaries == Boundaries(records[..i], state)
      invariant looping == Looping(records[..i], state)
    {
      var record := records[i];
      assert records[..i + 1][..i] == records[..i];
      messages := messages + RecordMessages(record, epoch);
      looping := looping + LoopFindings(record, State(epoch, seen));
      if record.payload.CompactBoundary? && record.payload.uuid !in seen {
        seen := seen + {record.payload.uuid};
        epoch := epoch + 1;
        boundaries := boundaries
          + [Boundary(record.ordinal, record.payload.uuid, epoch, record.payload.trigger, record.payload.tokens,
              record.payload.time)];
      }
    }
    assert records[..|records|] == records;
    return ParseResult(kind, Rows(messages, kind), boundaries, SortBy(decoding + looping, DiagnosticKey),
        State(epoch, seen));
  }

  method DecodeRecords(records: seq<Record>) returns (diagnostics: seq<Diagnostic>)
    ensures diagnostics == Decoding(records)
  {
    diagnostics := [];
    for i := 0 to |records|
      invariant diagnostics == Decoding(records[..i])
    {
      assert records[..i + 1][..i] == records[..i];
      if records[i].payload.Undecodable? {
        diagnostics := diagnostics + [Diagnostic(records[i].ordinal, records[i].payload.finding)];
      }
    }
    assert records[..|records|] == records;
  }

  /** Combine path and origin facts, failing closed on the first contradiction. */
  method ClassifySessionKind(path: SessionKind, records: seq<Record>) returns (kind: SessionKind)
    ensures kind == Kind(path, records)
  {
    var any := false;
    for i := 0 to |records|
      invariant any <==> Decoded(records[..i])
      invariant !Contradicted(path, records[..i])
    {
      if !records[i].payload.Undecodable? {
        any := true;
        assert !records[..i + 1][i].payload.Undecodable?;
      }
      if Contradicts(path, records[i]) {
        return Unknown;
      }
    }
    assert records[..|records|] == records;
    return if any then path else Unknown;
  }
}
