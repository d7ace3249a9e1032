/** The Antigravity transcript parser: one batch of decoded records under carried state, and what
    a single pass over the whole session would produce. */
module Antigravity {
  import opened CorpusTables
  import BoundedReader

  // ---------------------------------------------------------------- decoded records

  /** The `Cwd` member of a tool call's arguments. */
  datatype CwdArgument = NotAnObject | NoText | Text(value: string)

  datatype Call = Call(name: string, rendered: string, cwd: CwdArgument)

  /** A record after JSON decoding and shape recognition; texts are already storable. */
  datatype Payload =
    | Undecodable
    | Unregistered(pairUnknown: bool)
    | UserInput(text: Option<string>)
    | PlannerResponse(content: Option<string>, calls: seq<Call>)
    | Silent
    | Checkpoint

  datatype Record = Record(envelope: BoundedReader.Envelope, createdAt: string, payload: Payload)

  datatype RowKey = RowKey(ordinal: nat, cls: ContentClass)

  /** One projected row with its physical occurrence. */
  datatype TranscriptRow = TranscriptRow(envelope: BoundedReader.Envelope, cls: ContentClass, createdAt: string,
                     role: string, epoch: nat, text: string, cwd: Option<string>)
  {
    function Key(): RowKey { RowKey(envelope.ordinal, cls) }
  }

  datatype State = State(epoch: nat, cwd: Option<string>)

  const INITIAL := State(0, None)

  // ---------------------------------------------------------------- projection of one record

  /** The first `run_command` call decides, whether or not it names a directory. */
  function FirstRunCommandCwd(calls: seq<Call>): (cwd: Option<string>)
  {
    if calls == [] then None
    else if calls[0].name != "run_command" then FirstRunCommandCwd(calls[1..])
    else match calls[0].cwd
         case Text(value) => if value != "" then Some(value) else None
         case _ => None
  }

  function RunCommandCwd(p: Payload): Option<string> {
    if p.PlannerResponse? then FirstRunCommandCwd(p.calls) else None
  }

  function JoinNames(calls: seq<Call>): string {
    if calls == [] then "" else if |calls| == 1 then calls[0].name else calls[0].name + " " + JoinNames(calls[1..])
  }

  function JoinInputs(calls: seq<Call>): string {
    if calls == [] then ""
    else if |calls| == 1 then calls[0].rendered
    else calls[0].rendered + "\n" + JoinInputs(calls[1..])
  }

  function ProseRow(r: Record, role: string, text: Option<string>, epoch: nat,
      cwd: Option<string>): seq<TranscriptRow> {
    if text.Some? then [TranscriptRow(r.envelope, Prose, r.createdAt, role, epoch, text.value, cwd)] else []
  }

  function RecordRows(r: Record, epoch: nat, cwd: Option<string>): seq<TranscriptRow> {
    match r.payload
    case UserInput(text) => ProseRow(r, "user", text, epoch, cwd)
    case PlannerResponse(content, calls) =>
      ProseRow(r, "assistant", content, epoch, cwd)
      + (if calls == [] then [] else
           [TranscriptRow(r.envelope, ToolName, r.createdAt, "assistant", epoch, JoinNames(calls), cwd),
            TranscriptRow(r.envelope, ToolInput, r.createdAt, "assistant", epoch, JoinInputs(calls), cwd)])
    case _ => []
  }

  /** The first call named `run_command` determines the directory; no other call does. */
  lemma {:induction false} FirstRunCommandDecides(calls: seq<Call>, i: nat)
    requires i < |calls| && calls[i].name == "run_command"
    requires forall j :: 0 <= j < i ==> calls[j].name != "run_command"
    ensures FirstRunCommandCwd(calls)
            == if calls[i].cwd.Text? && calls[i].cwd.value != "" then Some(calls[i].cwd.value) else None
  {
    if i > 0 {
      FirstRunCommandDecides(calls[1..], i - 1);
    }
  }

  // ---------------------------------------------------------------- one pass over a session

  /** The epoch after some records: every checkpoint opens a new one. */
  function EpochAfter(records: seq<Record>, epoch: nat): nat {
    if records == [] then epoch
    else EpochAfter(records[..|records| - 1], epoch) + if records[|records| - 1].payload.Checkpoint? then 1 else 0
  }

  /** The working directory the session establishes: the first a record names. */
  function Established(records: seq<Record>): Option<string> {
    if records == [] then None
    else
      var earlier := Established(records[..|records| - 1]);
      if earlier.Some? then earlier else RunCommandCwd(records[|records| - 1].payload)
  }

  function Rows(records: seq<Record>, epoch: nat, cwd: Option<string>): seq<TranscriptRow> {
    if records == [] then []
    else
      var before := records[..|records| - 1];
      Rows(before, epoch, cwd) + RecordRows(records[|records| - 1], EpochAfter(before, epoch), cwd)
  }

  type Table = map<RowKey, TranscriptRow>

  /** Upsert rows by occurrence key; a later row of the same key wins. */
  function Keyed(rows: seq<TranscriptRow>): Table {
    if rows == [] then map[] else Keyed(rows[..|rows| - 1])[rows[|rows| - 1].Key() := rows[|rows| - 1]]
  }

  /** What one parse of the whole session from its initial state holds. */
  function Whole(records: seq<Record>): Table {
    Keyed(Rows(records, INITIAL.epoch, Established(records)))
  }

  /** `UPDATE refresh_stage_message SET cwd`. */
  function Stamp(t: Table, cwd: Option<string>): Table {
    map k | k in t :: t[k].(cwd := cwd)
  }

  // ---------------------------------------------------------------- composition

  lemma AppendLast<T>(a: seq<T>, b: seq<T>)
    requires b != []
    ensures (a + b)[..|a + b| - 1] == a + b[..|b| - 1] && (a + b)[|a + b| - 1] == b[|b| - 1]
  {
  }

  lemma {:induction false} EpochAppend(a: seq<Record>, b: seq<Record>, epoch: nat)
    ensures EpochAfter(a + b, epoch) == EpochAfter(b, EpochAfter(a, epoch))
    decreases |b|
  {
    if b == [] {
      assert a + b == a;
    } else {
      AppendLast(a, b);
      EpochAppend(a, b[..|b| - 1], epoch);
    }
  }

  lemma {:induction false} EstablishedAppend(a: seq<Record>, b: seq<Record>)
    ensures Established(a + b) == if Established(a).Some? then Established(a) else Established(b)
    decreases |b|
  {
    hide RunCommandCwd;
    if b == [] {
      assert a + b == a;
    } else {
      AppendLast(a, b);
      EstablishedAppend(a, b[..|b| - 1]);
    }
  }

  lemma {:induction false} RowsAppend(a: seq<Record>, b: seq<Record>, epoch: nat, cwd: Option<string>)
    ensures Rows(a + b, epoch, cwd) == Rows(a, epoch, cwd) + Rows(b, EpochAfter(a, epoch), cwd)
    decreases |b|
  {
    hide RecordRows;
    if b == [] {
      assert a + b == a;
    } else {
      var front, last := b[..|b| - 1], b[|b| - 1];
      AppendLast(a, b);
      RowsAppend(a, front, epoch, cwd);
      EpochAppend(a, front, epoch);
      var tail := RecordRows(last, EpochAfter(a + front, epoch), cwd);
      assert Rows(a, epoch, cwd) + (Rows(front, EpochAfter(a, epoch), cwd) + tail)
          == (Rows(a, epoch, cwd) + Rows(front, EpochAfter(a, epoch), cwd)) + tail;
    }
  }

  /** Parsing is compositional: the suffix continues from the epoch and directory of the prefix. */
  lemma {:induction false} SessionAppend(a: seq<Record>, b: seq<Record>, epoch: nat, cwd: Option<string>)
    ensures EpochAfter(a + b, epoch) == EpochAfter(b, EpochAfter(a, epoch))
    ensures Established(a + b) == if Established(a).Some? then Established(a) else Established(b)
    ensures Rows(a + b, epoch, cwd) == Rows(a, epoch, cwd) + Rows(b, EpochAfter(a, epoch), cwd)
  {
    EpochAppend(a, b, epoch);
    EstablishedAppend(a, b);
    RowsAppend(a, b, epoch, cwd);
  }

  lemma {:induction false} KeyedAppend(a: seq<TranscriptRow>, b: seq<TranscriptRow>)
    ensures Keyed(a + b) == Keyed(a) + Keyed(b)
    decreases |b|
  {
    if b == [] {
      assert a + b == a;
    } else {
      var front, last := b[..|b| - 1], b[|b| - 1];
      assert (a + b)[..|a + b| - 1] == a + front && (a + b)[|a + b| - 1] == last;
      KeyedAppend(a, front);
    }
  }

  function Stamped(rows: seq<TranscriptRow>, cwd: Option<string>): seq<TranscriptRow> {
    if rows == [] then [] else Stamped(rows[..|rows| - 1], cwd) + [rows[|rows| - 1].(cwd := cwd)]
  }

  lemma {:induction false} StampedAppend(a: seq<TranscriptRow>, b: seq<TranscriptRow>, cwd: Option<string>)
    ensures Stamped(a + b, cwd) == Stamped(a, cwd) + Stamped(b, cwd)
    decreases |b|
  {
    if b == [] {
      assert a + b == a;
    } else {
      var front, last := b[..|b| - 1], b[|b| - 1];
      assert (a + b)[..|a + b| - 1] == a + front && (a + b)[|a + b| - 1] == last;
      StampedAppend(a, front, cwd);
    }
  }

  lemma {:induction false} StampKeyed(rows: seq<TranscriptRow>, cwd: Option<string>)
    ensures Stamp(Keyed(rows), cwd) == Keyed(Stamped(rows, cwd))
    decreases |rows|
  {
    if rows != [] {
      var front, last := rows[..|rows| - 1], rows[|rows| - 1];
      StampKeyed(front, cwd);
      var s := Stamped(rows, cwd);
      assert s[..|s| - 1] == Stamped(front, cwd) && s[|s| - 1] == last.(cwd := cwd);
      assert last.(cwd := cwd).Key() == last.Key();
    }
  }

  lemma RecordRowsStamped(r: Record, epoch: nat, prior: Option<string>, cwd: Option<string>)
    ensures Stamped(RecordRows(r, epoch, prior), cwd) == RecordRows(r, epoch, cwd)
  {
    var rows := RecordRows(r, epoch, prior);
    StampedPointwise(rows, cwd);
  }

  lemma {:induction false} StampedPointwise(rows: seq<TranscriptRow>, cwd: Option<string>)
    ensures |Stamped(rows, cwd)| == |rows|
    ensures forall i :: 0 <= i < |rows| ==> Stamped(rows, cwd)[i] == rows[i].(cwd := cwd)
    decreases |rows|
  {
    if rows != [] { StampedPointwise(rows[..|rows| - 1], cwd); }
  }

  /** The directory a batch was parsed under only shows in the `cwd` column. */
  lemma {:induction false} RowsStamped(records: seq<Record>, epoch: nat, prior: Option<string>, cwd: Option<string>)
    ensures Stamped(Rows(records, epoch, prior), cwd) == Rows(records, epoch, cwd)
    decreases |records|
  {
    if records != [] {
      var front, last := records[..|records| - 1], records[|records| - 1];
      RowsStamped(front, epoch, prior, cwd);
      StampedAppend(Rows(front, epoch, prior), RecordRows(last, EpochAfter(front, epoch), prior), cwd);
      RecordRowsStamped(last, EpochAfter(front, epoch), prior, cwd);
    }
  }

  /** Restamping what was staged under one directory gives what parsing under another would. */
  lemma StampIsReparse(records: seq<Record>, epoch: nat, prior: Option<string>, cwd: Option<string>)
    ensures Stamp(Keyed(Rows(records, epoch, prior)), cwd) == Keyed(Rows(records, epoch, cwd))
  {
    StampKeyed(Rows(records, epoch, prior), cwd);
    RowsStamped(records, epoch, prior, cwd);
  }

  /** A tail that establishes no new directory can be appended without touching earlier rows. */
  lemma {:induction false} TailExtendsWhole(a: seq<Record>, b: seq<Record>)
    requires Established(a).Some? || Established(b).None?
    ensures Whole(a + b) == Whole(a) + Keyed(Rows(b, EpochAfter(a, 0), Established(a)))
  {
    SessionAppend(a, b, 0, Established(a));
    KeyedAppend(Rows(a, 0, Established(a)), Rows(b, EpochAfter(a, 0), Established(a)));
  }

  /** ... and only such a tail can: when the tail is the first to name a directory, appending its
      rows is wrong as soon as an earlier row survives, so the source must be parsed again. */
  lemma {:induction false} LateTailMustReparse(a: seq<Record>, b: seq<Record>, k: RowKey)
    requires Established(a).None? && Established(b).Some?
    requires k in Whole(a)
    ensures k in Whole(a + b) && Whole(a + b)[k].cwd == Established(b) && Whole(a)[k].cwd == None
  {
    SessionAppend(a, b, 0, Established(b));
    KeyedAppend(Rows(a, 0, Established(b)), Rows(b, EpochAfter(a, 0), Established(b)));
    StampIsReparse(a, 0, None, Established(b));
    StampIsReparse(a, 0, None, None);
    StampIsReparse(b, EpochAfter(a, 0), Established(b), Established(b));
    StampIsReparse(a, 0, Established(b), Established(b));
    assert Whole(a) == Stamp(Whole(a), None);
  }

  // ---------------------------------------------------------------- the batch parser

  datatype ParseResult = ParseResult(rows: seq<TranscriptRow>, next: State, established: bool, blocked: bool)

  /** Some record of these has a shape that aborts the source. */
  predicate Blocks(records: seq<Record>, ignoreUnknown: bool) {
    exists i :: 0 <= i < |records| && records[i].payload.Unregistered?
                && !(ignoreUnknown && records[i].payload.pairUnknown)
  }

  /** What one more record changes. */
  lemma OneMoreRecord(records: seq<Record>, i: nat, epoch: nat, ignoreUnknown: bool)
    requires i < |records|
    ensures EpochAfter(records[..i + 1], epoch)
            == EpochAfter(records[..i], epoch) + if records[i].payload.Checkpoint? then 1 else 0
    ensures Established(records[..i + 1])
            == if Established(records[..i]).Some? then Established(records[..i]) else RunCommandCwd(records[i].payload)
    ensures Blocks(records[..i + 1], ignoreUnknown)
       <==> Blocks(records[..i], ignoreUnknown)
            || (records[i].payload.Unregistered? && !(ignoreUnknown && records[i].payload.pairUnknown))
  {
    hide RunCommandCwd;
    assert records[..i + 1][..i] == records[..i];
  }

  /** A record adds its rows; one that is not projected has none. */
  lemma OneMoreProjected(records: seq<Record>, i: nat, epoch: nat, projected: seq<(Record, nat)>, cwd: Option<string>)
    requires i < |records| && ProjectedRows(projected, cwd) == Rows(records[..i], epoch, cwd)
    ensures var at := EpochAfter(records[..i], epoch);
            && ProjectedRows(projected + [(records[i], at)], cwd) == Rows(records[..i + 1], epoch, cwd)
            && (Unprojected(records[i].payload) ==> ProjectedRows(projected, cwd) == Rows(records[..i + 1], epoch, cwd))
  {
    hide EpochAfter;
    assert records[..i + 1][..i] == records[..i];
    var at := EpochAfter(records[..i], epoch);
    assert (projected + [(records[i], at)])[..|projected|] == projected;
  }

  predicate Unprojected(p: Payload) { p.Unregistered? || p.Checkpoint? || p.Undecodable? }

  /** Parse one batch: the loop advances the epoch and fixes the directory, and every row of the
      batch then carries the directory known at its end. */
  method ParseAntigravitySession(records: seq<Record>, state: State, ignoreUnknown: bool) returns (r: ParseResult)
    ensures r.rows == Rows(records, state.epoch, r.next.cwd)
    ensures r.next.epoch == EpochAfter(records, state.epoch)
    ensures r.next.cwd == if state.cwd.Some? then state.cwd else Established(records)
    ensures r.established <==> state.cwd.None? && Established(records).Some?
    ensures r.blocked <==> Blocks(records, ignoreUnknown)
  {
    hide RecordRows, RunCommandCwd, Rows, ProjectedRows, EpochAfter, Established, Blocks;
    var epoch, cwd, blocked := state.epoch, state.cwd, false;
    var projected: seq<(Record, nat)> := [];
    NothingParsed(records, state.epoch, ignoreUnknown);
    for i := 0 to |records|
      invariant epoch == EpochAfter(records[..i], state.epoch)
      invariant cwd == if state.cwd.Some? then state.cwd else Established(records[..i])
      invariant blocked <==> Blocks(records[..i], ignoreUnknown)
      invariant forall d :: ProjectedRows(projected, d) == Rows(records[..i], state.epoch, d)
    {
      var record := records[i];
      ghost var before := projected;
      OneMoreRecord(records, i, state.epoch, ignoreUnknown);
      SilentNamesNothing(record.payload);
      if record.payload.Unregistered? {
        blocked := blocked || !(ignoreUnknown && record.payload.pairUnknown);
      } else if record.payload.Checkpoint? {
        epoch := epoch + 1;
      } else if !record.payload.Undecodable? {
        var named := RunCommandCwd(record.payload);
        if cwd.None? && named.Some? {
          cwd := named;
        }
        projected := projected + [(record, epoch)];
      }
      forall d ensures ProjectedRows(projected, d) == Rows(records[..i + 1], state.epoch, d) {
        OneMoreProjected(records, i, state.epoch, before, d);
      }
    }
    assert records[..|records|] == records;
    var rows := ProjectRecords(projected, cwd);
    return ParseResult(rows, State(epoch, cwd), state.cwd.None? && cwd.Some?, blocked);
  }

  lemma SilentNamesNothing(p: Payload)
    ensures Unprojected(p) ==> RunCommandCwd(p).None?
  {
  }

  lemma NothingParsed(records: seq<Record>, epoch: nat, ignoreUnknown: bool)
    ensures EpochAfter(records[..0], epoch) == epoch && Established(records[..0]).None?
    ensures !Blocks(records[..0], ignoreUnknown)
    ensures forall d :: ProjectedRows([], d) == Rows(records[..0], epoch, d) == []
  {
  }

  /** The rows of the projected records under the batch's final directory. */
  method ProjectRecords(projected: seq<(Record, nat)>, cwd: Option<string>) returns (rows: seq<TranscriptRow>)
    ensures rows == ProjectedRows(projected, cwd)
  {
    hide RecordRows;
    rows := [];
    for i := 0 to |projected|
      invariant rows == ProjectedRows(projected[..i], cwd)
    {
      assert projected[..i + 1][..i] == projected[..i];
      rows := rows + RecordRows(projected[i].0, projected[i].1, cwd);
    }
    assert projected[..|projected|] == projected;
  }

  function ProjectedRows(projected: seq<(Record, nat)>, cwd: Option<string>): seq<TranscriptRow> {
    if projected == [] then []
    else ProjectedRows(projected[..|projected| - 1], cwd)
         + RecordRows(projected[|projected| - 1].0, projected[|projected| - 1].1, cwd)
  }
}
