/** What the rows of an Antigravity session say, record by record: words, role, epoch and directory. */
module AntigravityRows {
  import opened CorpusTables
  import R = BoundedReader
  import opened Antigravity
  import S = SourceIndexing

  datatype Speech = Speech(role: string, text: string)

  function JoinedBy(parts: seq<string>, separator: string): string {
    if parts == [] then ""
    else if |parts| == 1 then parts[0]
    else JoinedBy(parts[..|parts| - 1], separator) + separator + parts[|parts| - 1]
  }

  function Names(calls: seq<Call>): (s: seq<string>)
    ensures |s| == |calls|
  {
    seq(|calls|, i requires 0 <= i < |calls| => calls[i].name)
  }

  function Inputs(calls: seq<Call>): (s: seq<string>)
    ensures |s| == |calls|
  {
    seq(|calls|, i requires 0 <= i < |calls| => calls[i].rendered)
  }

  /** What a record has to say in one class, if anything. */
  function SpeechOf(r: Record, cls: ContentClass): Option<Speech> {
    match r.payload
    case UserInput(text) => if cls.Prose? && text.Some? then Some(Speech("user", text.value)) else None
    case PlannerResponse(content, calls) =>
      if cls.Prose? then (if content.Some? then Some(Speech("assistant", content.value)) else None)
      else if calls == [] then None
      else if cls.ToolName? then Some(Speech("assistant", JoinedBy(Names(calls), " ")))
      else if cls.ToolInput? then Some(Speech("assistant", JoinedBy(Inputs(calls), "\n")))
      else None
    case _ => None
  }

  function CheckpointsBefore(records: seq<Record>, i: nat): set<nat>
    requires i <= |records|
  {
    set k: nat | k < i && records[k].payload.Checkpoint?
  }

  /** The row of record i in one class: its envelope, time and words, under this epoch and directory. */
  ghost predicate RowTells(records: seq<Record>, i: nat, cls: ContentClass, epoch: nat, cwd: Option<string>,
      row: TranscriptRow)
    requires i < |records|
  {
    && row.envelope == records[i].envelope && row.cls == cls && row.createdAt == records[i].createdAt
    && SpeechOf(records[i], cls) == Some(Speech(row.role, row.text))
    && row.epoch == epoch + |CheckpointsBefore(records, i)| && row.cwd == cwd
  }

  // ---------------------------------------------------------------- joined texts

  lemma {:induction false} JoinedFront(parts: seq<string>, separator: string)
    requires |parts| > 1
    ensures JoinedBy(parts, separator) == parts[0] + separator + JoinedBy(parts[1..], separator)
    decreases |parts|
  {
    var front, last := parts[..|parts| - 1], parts[|parts| - 1];
    if |parts| > 2 {
      JoinedFront(front, separator);
      assert parts[1..][..|parts| - 2] == front[1..];
    } else {
      assert parts[1..] == [last] && front == [parts[0]];
    }
  }

  lemma {:induction false} JoinsAgree(calls: seq<Call>)
    ensures JoinNames(calls) == JoinedBy(Names(calls), " ")
    ensures JoinInputs(calls) == JoinedBy(Inputs(calls), "\n")
    decreases |calls|
  {
    if |calls| > 1 {
      JoinsAgree(calls[1..]);
      JoinedFront(Names(calls), " ");
      JoinedFront(Inputs(calls), "\n");
      assert Names(calls)[1..] == Names(calls[1..]) && Inputs(calls)[1..] == Inputs(calls[1..]);
    }
  }

  // ---------------------------------------------------------------- epochs and directories

  lemma {:induction false} EpochCountsCheckpoints(records: seq<Record>, epoch: nat)
    ensures EpochAfter(records, epoch) == epoch + |CheckpointsBefore(records, |records|)|
    decreases |records|
  {
    if records != [] {
      var n := |records| - 1;
      EpochCountsCheckpoints(records[..n], epoch);
      var before := CheckpointsBefore(records[..n], n);
      if records[n].payload.Checkpoint? {
        assert CheckpointsBefore(records, |records|) == before + {n};
      } else {
        assert CheckpointsBefore(records, |records|) == before;
      }
    }
  }

  /** The directory a session establishes is that of its first record that names one. */
  lemma {:induction false} EstablishedIsFirst(records: seq<Record>, i: nat)
    requires i < |records| && RunCommandCwd(records[i].payload).Some?
    requires forall j :: 0 <= j < i ==> RunCommandCwd(records[j].payload).None?
    ensures Established(records) == RunCommandCwd(records[i].payload)
    decreases |records|
  {
    hide RunCommandCwd;
    var n := |records| - 1;
    if i < n {
      EstablishedIsFirst(records[..n], i);
    } else {
      NothingEstablished(records[..n]);
    }
  }

  lemma {:induction false} NothingEstablished(records: seq<Record>)
    requires forall j :: 0 <= j < |records| ==> RunCommandCwd(records[j].payload).None?
    ensures Established(records).None?
    decreases |records|
  {
    hide RunCommandCwd;
    if records != [] { NothingEstablished(records[..|records| - 1]); }
  }

  predicate FirstRunCommand(calls: seq<Call>, i: nat) {
    i < |calls| && calls[i].name == "run_command" && forall j :: 0 <= j < i ==> calls[j].name != "run_command"
  }

  /** A record names the directory of its first `run_command` call, if that call gives a nonempty one. */
  lemma NamesDirectory(p: Payload, d: string)
    ensures RunCommandCwd(p) == Some(d)
       <==> d != "" && p.PlannerResponse?
            && exists i: nat :: FirstRunCommand(p.calls, i) && p.calls[i].cwd == Text(d)
  {
    if p.PlannerResponse? {
      if i: nat :| FirstRunCommand(p.calls, i) {
        FirstRunCommandDecides(p.calls, i);
      } else {
        NoRunCommand(p.calls);
      }
    }
  }

  lemma {:induction false} NoRunCommand(calls: seq<Call>)
    requires forall i: nat :: !FirstRunCommand(calls, i)
    ensures FirstRunCommandCwd(calls).None?
    decreases |calls|
  {
    if calls != [] {
      assert !FirstRunCommand(calls, 0);
      forall i: nat ensures !FirstRunCommand(calls[1..], i) {
        if FirstRunCommand(calls[1..], i) {
          forall j | 0 <= j < i + 1 ensures calls[j].name != "run_command" {
            if j > 0 { assert calls[j] == calls[1..][j - 1]; }
          }
          assert FirstRunCommand(calls, i + 1);
        }
      }
      NoRunCommand(calls[1..]);
    }
  }

  // ---------------------------------------------------------------- rows

  lemma RecordRowsTell(r: Record, epoch: nat, cwd: Option<string>)
    ensures forall row :: row in RecordRows(r, epoch, cwd) ==>
      && row.envelope == r.envelope && row.createdAt == r.createdAt && row.epoch == epoch && row.cwd == cwd
      && SpeechOf(r, row.cls) == Some(Speech(row.role, row.text))
    ensures forall cls :: SpeechOf(r, cls).Some? ==> exists row :: row in RecordRows(r, epoch, cwd) && row.cls == cls
  {
    var rows := RecordRows(r, epoch, cwd);
    if r.payload.PlannerResponse? { JoinsAgree(r.payload.calls); }
    forall cls | SpeechOf(r, cls).Some? ensures exists row :: row in rows && row.cls == cls {
      assert rows[0] in rows;
      if r.payload.PlannerResponse? && r.payload.calls != [] {
        var n := |rows| - 1;
        assert rows[n] in rows && rows[n - 1] in rows;
        assert rows[n].cls == ToolInput && rows[n - 1].cls == ToolName;
      }
    }
  }

  /** Every row comes from a record and tells it. */
  lemma {:induction false} RowsTell(records: seq<Record>, epoch: nat, cwd: Option<string>, row: TranscriptRow)
      returns (i: nat)
    requires row in Rows(records, epoch, cwd)
    ensures i < |records| && RowTells(records, i, row.cls, epoch, cwd, row)
    decreases |records|
  {
    hide RecordRows, SpeechOf;
    var n := |records| - 1;
    var before := records[..n];
    if row in Rows(before, epoch, cwd) {
      i := RowsTell(before, epoch, cwd, row);
      assert CheckpointsBefore(before, i) == CheckpointsBefore(records, i);
    } else {
      i := n;
      EpochCountsCheckpoints(before, epoch);
      assert CheckpointsBefore(before, n) == CheckpointsBefore(records, n);
      RecordRowsTell(records[n], EpochAfter(before, epoch), cwd);
    }
  }

  /** Whatever a record has to say has its row. */
  lemma {:induction false} RecordHasRow(records: seq<Record>, epoch: nat, cwd: Option<string>, i: nat,
      cls: ContentClass)
      returns (row: TranscriptRow)
    requires i < |records| && SpeechOf(records[i], cls).Some?
    ensures row in Rows(records, epoch, cwd) && row.cls == cls && RowTells(records, i, cls, epoch, cwd, row)
    decreases |records|
  {
    hide RecordRows, SpeechOf;
    var n := |records| - 1;
    var before := records[..n];
    if i < n {
      row := RecordHasRow(before, epoch, cwd, i, cls);
      assert CheckpointsBefore(before, i) == CheckpointsBefore(records, i);
    } else {
      EpochCountsCheckpoints(before, epoch);
      assert CheckpointsBefore(before, n) == CheckpointsBefore(records, n);
      var epoch' := EpochAfter(before, epoch);
      RecordRowsTell(records[n], epoch', cwd);
      row :| row in RecordRows(records[n], epoch', cwd) && row.cls == cls;
    }
  }

  // ---------------------------------------------------------------- tables

  /** Records as the reader numbers them. */
  ghost predicate Rising(records: seq<Record>) {
    forall i, j :: 0 <= i < j < |records| ==> records[i].envelope.ordinal < records[j].envelope.ordinal
  }

  lemma {:induction false} KeyedHolds(rows: seq<TranscriptRow>, k: RowKey)
    ensures k in Keyed(rows) <==> exists row :: row in rows && row.Key() == k
    ensures k in Keyed(rows) ==> Keyed(rows)[k] in rows && Keyed(rows)[k].Key() == k
    decreases |rows|
  {
    if rows != [] {
      var front, last := rows[..|rows| - 1], rows[|rows| - 1];
      KeyedHolds(front, k);
      assert rows == front + [last];
      if k == last.Key() { assert last in rows; }
    }
  }

  /** One parse of a session: a record that has something to say in a class has one row there, which
      tells exactly that under the epoch and the directory of the session, and no other row exists. */
  lemma WholeTells(records: seq<Record>, i: nat, cls: ContentClass)
    requires Rising(records) && i < |records|
    ensures var k := RowKey(records[i].envelope.ordinal, cls);
            && (k in Whole(records) <==> SpeechOf(records[i], cls).Some?)
            && (k in Whole(records) ==> RowTells(records, i, cls, 0, Established(records), Whole(records)[k]))
  {
    hide Rows, SpeechOf, Established, Keyed;
    var k := RowKey(records[i].envelope.ordinal, cls);
    var rows := Rows(records, 0, Established(records));
    KeyedHolds(rows, k);
    if k in Whole(records) {
      var j := RowsTell(records, 0, Established(records), Whole(records)[k]);
      SameOrdinal(records, i, j);
    }
    if SpeechOf(records[i], cls).Some? {
      var row := RecordHasRow(records, 0, Established(records), i, cls);
      assert row.Key() == k;
    }
  }

  lemma SameOrdinal(records: seq<Record>, i: nat, j: nat)
    requires Rising(records) && i < |records| && j < |records|
    requires records[i].envelope.ordinal == records[j].envelope.ordinal
    ensures i == j
  {
  }

  lemma WholeComesFromRecords(records: seq<Record>, k: RowKey)
    requires k in Whole(records)
    ensures exists i :: 0 <= i < |records| && records[i].envelope.ordinal == k.ordinal
                        && SpeechOf(records[i], k.cls).Some?
  {
    hide Rows, SpeechOf, Established;
    KeyedHolds(Rows(records, 0, Established(records)), k);
    var i := RowsTell(records, 0, Established(records), Whole(records)[k]);
  }

  // ---------------------------------------------------------------- one source

  /** Envelopes numbered upwards from an ordinal. */
  ghost predicate NumberedFrom(envelopes: seq<R.Envelope>, ordinal: nat) {
    && (forall i :: 0 <= i < |envelopes| ==> envelopes[i].ordinal >= ordinal)
    && forall i, j :: 0 <= i < j < |envelopes| ==> envelopes[i].ordinal < envelopes[j].ordinal
  }

  lemma NumberedMore(first: seq<R.Envelope>, rest: seq<R.Envelope>, ordinal: nat)
    requires |first| <= 1 && (first != [] ==> first[0].ordinal == ordinal) && NumberedFrom(rest, ordinal + 1)
    ensures NumberedFrom(first + rest, ordinal)
  {
  }

  lemma AdmittedNumber(line: R.Bytes, ordinal: nat, offset: nat, limit: nat)
    requires line != []
    ensures var first := R.Admitted(line, ordinal, offset, limit);
            |first| <= 1 && (first != [] ==> first[0].ordinal == ordinal)
  {
  }

  lemma {:induction false} EnvelopesRise(lines: seq<R.Bytes>, ordinal: nat, offset: nat, limit: nat)
    requires forall i :: 0 <= i < |lines| ==> lines[i] != []
    ensures NumberedFrom(R.ReadLines(lines, ordinal, offset, limit).envelopes, ordinal)
    decreases |lines|
  {
    hide NumberedFrom, R.Admitted, R.Rejected;
    if lines == [] {
      NothingNumbered(ordinal);
    } else {
      EnvelopesRise(lines[1..], ordinal + 1, offset + |lines[0]|, limit);
      AdmittedNumber(lines[0], ordinal, offset, limit);
      NumberedMore(R.Admitted(lines[0], ordinal, offset, limit),
                   R.ReadLines(lines[1..], ordinal + 1, offset + |lines[0]|, limit).envelopes, ordinal);
    }
  }

  lemma NothingNumbered(ordinal: nat)
    ensures NumberedFrom([], ordinal)
  {
  }

  lemma SessionRises(p: S.Provider, s: R.Bytes)
    requires p.limits.Positive()
    ensures Rising(S.Session(p, s))
  {
    hide R.ReadLines;
    R.LinesAreLines(s);
    EnvelopesRise(R.Lines(s), 0, 0, p.limits.record);
  }

  /** What an indexed source holds tells every record of its captured prefix, and nothing else. */
  lemma HeldTellsPrefix(p: S.Provider, held: Table, checkpoint: S.Checkpoint, seen: R.Bytes, i: nat, cls: ContentClass)
    requires p.limits.Positive() && S.Current(p, held, Some(checkpoint), seen) && !checkpoint.excluded
    requires i < |S.Session(p, seen)|
    ensures var records := S.Session(p, seen);
            var k := RowKey(records[i].envelope.ordinal, cls);
            && (k in held <==> SpeechOf(records[i], cls).Some?)
            && (k in held ==> RowTells(records, i, cls, 0, Established(records), held[k]))
  {
    hide S.Session, SpeechOf, Established, Whole, Rising, RowTells;
    SessionRises(p, seen);
    WholeTells(S.Session(p, seen), i, cls);
  }

  lemma HeldComesFromPrefix(p: S.Provider, held: Table, checkpoint: S.Checkpoint, seen: R.Bytes, k: RowKey)
    requires p.limits.Positive() && S.Current(p, held, Some(checkpoint), seen) && !checkpoint.excluded && k in held
    ensures var records := S.Session(p, seen);
            exists i :: 0 <= i < |records| && records[i].envelope.ordinal == k.ordinal
                        && SpeechOf(records[i], k.cls).Some?
  {
    hide S.Session, SpeechOf;
    WholeComesFromRecords(S.Session(p, seen), k);
  }

  /** Whether a source is left out was decided by its first record: it is when admission excludes
      that record, and an indexed source has one that admission lets in, or none. */
  lemma AdmissionTells(p: S.Provider, held: Table, checkpoint: S.Checkpoint, seen: R.Bytes)
    requires p.limits.Positive() && S.Current(p, held, Some(checkpoint), seen)
    ensures var envelopes := R.ReadAll(seen, 0, 0, p.limits.record).envelopes;
            var first := envelopes != [] && envelopes[0].ordinal == 0;
            && (checkpoint.excluded <==> first && p.admit(envelopes[0].raw) == S.Excluded)
            && (!checkpoint.excluded && first ==> p.admit(envelopes[0].raw) == S.Admitted)
            && (checkpoint.excluded ==> held == map[])
  {
    hide R.ReadAll, Whole, S.StateAfter, S.Session;
  }
}
