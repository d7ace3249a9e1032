/** What the rows, boundaries and diagnostics of a Claude session say, record by record. */
module ClaudeRows {
  import opened CorpusTables
  import opened Sorting
  import opened ClaudeParser

  /** The distinct valid compaction UUIDs before a record. */
  function CompactionsBefore(records: seq<Record>, x: nat): set<string>
    requires x <= |records|
  {
    set i | 0 <= i < x && records[i].payload.CompactBoundary? :: records[i].payload.uuid
  }

  lemma StateBefore(records: seq<Record>, x: nat)
    requires x <= |records|
    ensures After(records[..x], INITIAL) == State(|CompactionsBefore(records, x)|, CompactionsBefore(records, x))
  {
    hide After;
    EpochCountsCompactions(records[..x]);
    var seen := After(records[..x], INITIAL).seen;
    forall u ensures u in seen <==> u in CompactionsBefore(records, x) {
      if i :| 0 <= i < x && records[i].payload.CompactBoundary? && records[i].payload.uuid == u {
        assert records[..x][i] == records[i];
      }
    }
    assert seen == CompactionsBefore(records, x);
  }

  // ---------------------------------------------------------------- message rows

  /** The texts of a record by class, in order. */
  function TextsOf(r: Record): seq<(ContentClass, string)> {
    if r.payload.Conversation? || r.payload.LegacyMessage? then r.payload.rows else []
  }

  /** Row j of record x: its own identity, time and text, and as epoch the number of distinct
      compactions before it. */
  ghost predicate MessageTells(records: seq<Record>, x: nat, j: nat, m: Message)
    requires x < |records| && j < |TextsOf(records[x])|
  {
    var r := records[x];
    && m.ordinal == r.ordinal && m.uuid == r.payload.uuid && m.role == r.payload.role && m.time == r.payload.time
    && m.cls == TextsOf(r)[j].0 && m.text == TextsOf(r)[j].1
    && m.epoch == |CompactionsBefore(records, x)|
    && (m.fromAgent <==> && r.payload.Conversation? && r.payload.role == "user"
                         && r.origin.sidechain == Yes && r.origin.agent == Named)
  }

  lemma {:induction false} RowsOfAre(r: Record, epoch: nat, uuid: string, role: string, time: string, fromAgent: bool,
      rows: seq<(ContentClass, string)>)
    ensures var out := RowsOf(r, epoch, uuid, role, time, fromAgent, rows);
            && |out| == |rows|
            && forall j :: 0 <= j < |rows| ==>
                 out[j] == Message(r.ordinal, uuid, role, time, epoch, rows[j].0, rows[j].1, fromAgent)
    decreases |rows|
  {
    if rows != [] { RowsOfAre(r, epoch, uuid, role, time, fromAgent, rows[..|rows| - 1]); }
  }

  lemma OneRecord(records: seq<Record>, x: nat)
    requires x < |records|
    ensures Messages(records[..x + 1], INITIAL)
            == Messages(records[..x], INITIAL) + RecordMessages(records[x], After(records[..x], INITIAL).epoch)
    ensures Boundaries(records[..x + 1], INITIAL)
            == Boundaries(records[..x], INITIAL) + RecordBoundaries(records[x], After(records[..x], INITIAL))
  {
    hide RecordMessages, RecordBoundaries;
    assert records[..x + 1][..x] == records[..x];
  }

  lemma BlockTells(records: seq<Record>, x: nat)
    requires x < |records|
    ensures var block := RecordMessages(records[x], After(records[..x], INITIAL).epoch);
            && |block| == |TextsOf(records[x])|
            && forall j: nat :: j < |block| ==> MessageTells(records, x, j, block[j])
  {
    hide After, RowsOf;
    var r := records[x];
    var epoch := After(records[..x], INITIAL).epoch;
    StateBefore(records, x);
    if r.payload.Conversation? {
      RowsOfAre(r, epoch, r.payload.uuid, r.payload.role, r.payload.time,
                r.payload.role == "user" && r.origin.sidechain == Yes && r.origin.agent == Named, r.payload.rows);
    } else if r.payload.LegacyMessage? {
      RowsOfAre(r, epoch, r.payload.uuid, r.payload.role, r.payload.time, false, r.payload.rows);
    }
  }

  /** The rows of a session are those of its records one after the other, text by text. */
  lemma MessagesTellRecords(records: seq<Record>, x: nat)
    requires x < |records|
    ensures var n, all := |Messages(records[..x], INITIAL)|, Messages(records, INITIAL);
            var end := |Messages(records[..x + 1], INITIAL)|;
            && end == n + |TextsOf(records[x])| <= |all|
            && var block := all[n..end];
            forall j: nat :: j < |block| ==> MessageTells(records, x, j, block[j])
  {
    hide Messages, After, Boundaries, RecordMessages, MessageTells;
    var all := Messages(records, INITIAL);
    BlockTells(records, x);
    OneRecord(records, x);
    ResumeTexts(records[..x + 1], records[x + 1..], INITIAL);
    assert records[..x + 1] + records[x + 1..] == records;
    var n, end := |Messages(records[..x], INITIAL)|, |Messages(records[..x + 1], INITIAL)|;
    assert all[n..end] == RecordMessages(records[x], After(records[..x], INITIAL).epoch);
  }

  // ---------------------------------------------------------------- epoch boundaries

  /** The first valid compaction of each UUID opens the next epoch and is recorded; nothing else is. */
  lemma BoundariesTellRecords(records: seq<Record>, x: nat)
    requires x < |records|
    ensures var before, after := Boundaries(records[..x], INITIAL), Boundaries(records[..x + 1], INITIAL);
            var p := records[x].payload;
            if p.CompactBoundary? && p.uuid !in CompactionsBefore(records, x) then
              after == before + [Boundary(records[x].ordinal, p.uuid, |CompactionsBefore(records, x)| + 1, p.trigger,
                                          p.tokens, p.time)]
            else after == before
  {
    hide Messages, After, Boundaries;
    StateBefore(records, x);
    OneRecord(records, x);
  }

  // ---------------------------------------------------------------- diagnostics

  /** What is reported of record x. */
  ghost predicate Reports(records: seq<Record>, x: nat, f: Finding)
    requires x < |records|
  {
    match records[x].payload
    case Undecodable(finding) => f == finding
    case InvalidBoundary(finding) => f == finding
    case Refused(finding) => f == finding
    case LegacyMessage(_, _, _, _, findings) => f in findings
    case Conversation(_, _, _, _, findings) => f in findings
    case KnownMetadata(detail) => f == Finding(EXCLUDED_METADATA, detail, 0)
    case OtherSystem =>
      && f.code == EXCLUDED_SYSTEM && f.shape == 0
      && f.detail == Points("system record is deliberately non-searchable")
    case CompactBoundary(uuid, _, _, _) =>
      && uuid in CompactionsBefore(records, x) && f.code == DUPLICATE_COMPACT_BOUNDARY && f.shape == 0
      && f.detail == Points("duplicate compact_boundary does not advance the epoch")
  }

  lemma {:induction false} LocatedAre(r: Record, findings: seq<Finding>, d: Diagnostic)
    ensures d in Located(r, findings) <==> d.ordinal == r.ordinal && d.finding in findings
    decreases |findings|
  {
    if findings != [] {
      LocatedAre(r, findings[..|findings| - 1], d);
      assert findings == findings[..|findings| - 1] + [findings[|findings| - 1]];
    }
  }

  lemma RecordReports(records: seq<Record>, x: nat, d: Diagnostic)
    requires x < |records|
    ensures d in DecodeFindings(records[x]) || d in LoopFindings(records[x], After(records[..x], INITIAL))
       <==> d.ordinal == records[x].ordinal && Reports(records, x, d.finding)
  {
    hide After, Points;
    StateBefore(records, x);
    match records[x].payload
    case LegacyMessage(_, _, _, _, findings) => LocatedAre(records[x], findings, d);
    case Conversation(_, _, _, _, findings) => LocatedAre(records[x], findings, d);
    case _ =>
  }

  lemma {:induction false} FindingsTell(records: seq<Record>, n: nat, d: Diagnostic)
    requires n <= |records|
    ensures d in Decoding(records[..n]) || d in Looping(records[..n], INITIAL)
       <==> exists x: nat :: x < n && d.ordinal == records[x].ordinal && Reports(records, x, d.finding)
    decreases n
  {
    hide Reports, DecodeFindings, LoopFindings, After;
    if n > 0 {
      FindingsTell(records, n - 1, d);
      RecordReports(records, n - 1, d);
      assert records[..n][..n - 1] == records[..n - 1];
      if x: nat :| x < n && d.ordinal == records[x].ordinal && Reports(records, x, d.finding) {
        assert x < n - 1 || x == n - 1;
      }
    }
  }

  /** Exactly what the records give rise to is reported, each at its record. */
  lemma DiagnosticsTellRecords(records: seq<Record>, d: Diagnostic)
    ensures d in Diagnostics(records, INITIAL)
       <==> exists x: nat :: x < |records| && d.ordinal == records[x].ordinal && Reports(records, x, d.finding)
  {
    hide Reports, SortBy, Decoding, Looping;
    FindingsTell(records, |records|, d);
    assert records[..|records|] == records;
    SameElements(Decoding(records) + Looping(records, INITIAL), Diagnostics(records, INITIAL));
  }

  /** They are reported in the order of their records, and within a record of their codes. */
  lemma DiagnosticsInOrder(records: seq<Record>, i: nat, j: nat)
    requires i < j < |Diagnostics(records, INITIAL)|
    ensures var d, e := Diagnostics(records, INITIAL)[i], Diagnostics(records, INITIAL)[j];
            d.ordinal < e.ordinal || (d.ordinal == e.ordinal && d.finding.code <= e.finding.code)
  {
    hide SortBy, Decoding, Looping, Less;
    var d, e := Diagnostics(records, INITIAL)[i], Diagnostics(records, INITIAL)[j];
    SortOrdered(Decoding(records) + Looping(records, INITIAL), DiagnosticKey);
    assert DiagnosticKey(d) == [d.ordinal] + ([d.finding.code] + d.finding.detail);
    assert DiagnosticKey(e) == [e.ordinal] + ([e.finding.code] + e.finding.detail);
    HeadDecides(e.ordinal, [e.finding.code] + e.finding.detail, d.ordinal, [d.finding.code] + d.finding.detail);
    HeadDecides(e.finding.code, e.finding.detail, d.finding.code, d.finding.detail);
  }

  // ---------------------------------------------------------------- kinds and authorship

  /** The origin a record states belongs to a session of this kind. */
  predicate Belongs(path: SessionKind, r: Record) {
    match r.payload
    case Undecodable(_) => true
    case KnownMetadata(_) => true
    case _ =>
      && !r.origin.foreignSession && r.origin.sidechain != Malformed && r.origin.agent != Blank
      && (path == Primary ==> r.origin.sidechain != Yes && r.origin.agent == NoAgent)
      && (path == Agent ==> r.origin.sidechain != No)
  }

  /** A batch keeps the kind of its path when something decoded and every record belongs to it; else
      its kind is unknown.  A row is a harness's when the session is an agent's and the record is a
      user turn of a named sidechain. */
  lemma StagedTellRecords(path: SessionKind, records: seq<Record>, x: nat)
    requires x < |records|
    ensures var kept := (exists i :: 0 <= i < |records| && !records[i].payload.Undecodable?)
                        && forall i :: 0 <= i < |records| ==> Belongs(path, records[i]);
            var rows := Rows(Messages(records, INITIAL), Kind(path, records));
            var n, end := |Messages(records[..x], INITIAL)|, |Messages(records[..x + 1], INITIAL)|;
            && n <= end <= |rows|
            && forall row :: row in rows[n..end] ==>
                 && row.kind == (if kept then path else Unknown)
                 && (row.harness <==> && kept && path == Agent && records[x].payload.Conversation?
                                      && records[x].payload.role == "user" && records[x].origin.sidechain == Yes
                                      && records[x].origin.agent == Named)
  {
    hide Messages, Decoded, Contradicted;
    KindTells(path, records);
    MessagesTellRecords(records, x);
    var messages := Messages(records, INITIAL);
    var n, end := |Messages(records[..x], INITIAL)|, |Messages(records[..x + 1], INITIAL)|;
    var rows := Rows(messages, Kind(path, records));
    forall row | row in rows[n..end]
      ensures row.kind == Kind(path, records)
      ensures row.harness <==> && Kind(path, records) == Agent && records[x].payload.Conversation?
                               && records[x].payload.role == "user" && records[x].origin.sidechain == Yes
                               && records[x].origin.agent == Named
    {
      var j :| 0 <= j < |rows[n..end]| && rows[n..end][j] == row;
      assert MessageTells(records, x, j, messages[n..end][j]);
    }
  }

  lemma KindTells(path: SessionKind, records: seq<Record>)
    ensures Kind(path, records)
            == if (exists i :: 0 <= i < |records| && !records[i].payload.Undecodable?)
                  && forall i :: 0 <= i < |records| ==> Belongs(path, records[i]) then path else Unknown
  {
  }
}
