/** One Antigravity source from bytes to held rows: planning, the batch loop over the bounded
    reader and the parser, restamping, reparsing, and the checkpoint that makes runs resumable. */
module SourceIndexing {
  import opened CorpusTables
  import R = BoundedReader
  import A = Antigravity

  datatype Admission = Admitted | Excluded | Blocked

  /** JSON decoding with record recognition: the timestamp and the payload of record bytes. */
  datatype Provider = Provider(
    createdAt: R.Bytes -> string,
    payload: R.Bytes -> A.Payload,
    admit: R.Bytes -> Admission,
    limits: R.Limits)

  // ---------------------------------------------------------------- the whole-file specification

  function RecordsOf(p: Provider, envelopes: seq<R.Envelope>): (records: seq<A.Record>)
    ensures |records| == |envelopes|
    ensures forall i :: 0 <= i < |envelopes| ==>
      records[i] == A.Record(envelopes[i], p.createdAt(envelopes[i].raw), p.payload(envelopes[i].raw))
  {
    if envelopes == [] then []
    else [A.Record(envelopes[0], p.createdAt(envelopes[0].raw), p.payload(envelopes[0].raw))]
           + RecordsOf(p, envelopes[1..])
  }

  lemma RecordsAppend(p: Provider, a: seq<R.Envelope>, b: seq<R.Envelope>)
    ensures RecordsOf(p, a + b) == RecordsOf(p, a) + RecordsOf(p, b)
  {
  }

  function Reading(p: Provider, s: R.Bytes): R.Reading
    requires p.limits.Positive()
  {
    R.ReadAll(s, 0, 0, p.limits.record)
  }

  function Session(p: Provider, s: R.Bytes): seq<A.Record>
    requires p.limits.Positive()
  {
    RecordsOf(p, Reading(p, s).envelopes)
  }

  /** The admission decision: taken on the first record, if the first line is an admissible one. */
  function Decision(p: Provider, envelopes: seq<R.Envelope>): Admission {
    if envelopes != [] && envelopes[0].ordinal == 0 then p.admit(envelopes[0].raw) else Admitted
  }

  function StateAfter(records: seq<A.Record>, from: A.State): A.State {
    A.State(A.EpochAfter(records, from.epoch), if from.cwd.Some? then from.cwd else A.Established(records))
  }

  /** What one parse of a whole captured prefix holds. */
  function Expected(p: Provider, s: R.Bytes): A.Table
    requires p.limits.Positive()
  {
    if Decision(p, Reading(p, s).envelopes) == Excluded then map[] else A.Whole(Session(p, s))
  }

  /** What stops a source from being indexed at all. */
  predicate Unindexable(p: Provider, file: R.Bytes, size: nat, ignoreUnknown: bool)
    requires p.limits.Positive()
  {
    |file| < size || Decision(p, Reading(p, file[..size]).envelopes) == Blocked
    || A.Blocks(Session(p, file[..size]), ignoreUnknown)
  }

  // ---------------------------------------------------------------- supporting lemmas

  lemma BlocksAppend(a: seq<A.Record>, b: seq<A.Record>, ignoreUnknown: bool)
    ensures A.Blocks(a + b, ignoreUnknown) <==> A.Blocks(a, ignoreUnknown) || A.Blocks(b, ignoreUnknown)
  {
    var c := a + b;
    if A.Blocks(a, ignoreUnknown) {
      var i :| 0 <= i < |a| && a[i].payload.Unregistered? && !(ignoreUnknown && a[i].payload.pairUnknown);
      assert c[i] == a[i];
    }
    if A.Blocks(b, ignoreUnknown) {
      var i :| 0 <= i < |b| && b[i].payload.Unregistered? && !(ignoreUnknown && b[i].payload.pairUnknown);
      assert c[|a| + i] == b[i];
    }
    if A.Blocks(c, ignoreUnknown) {
      var i :| 0 <= i < |c| && c[i].payload.Unregistered? && !(ignoreUnknown && c[i].payload.pairUnknown);
      if i < |a| { assert c[i] == a[i]; } else { assert c[i] == b[i - |a|]; }
    }
  }

  lemma {:induction false} OrdinalsFrom(lines: seq<R.Bytes>, ordinal: nat, offset: nat, limit: nat)
    requires forall i :: 0 <= i < |lines| ==> lines[i] != []
    ensures forall e :: e in R.ReadLines(lines, ordinal, offset, limit).envelopes ==> e.ordinal >= ordinal
    decreases |lines|
  {
    if lines != [] { OrdinalsFrom(lines[1..], ordinal + 1, offset + |lines[0]|, limit); }
  }

  /** The rows staged so far are, but for the directory they carry, those of the records so far. */
  ghost predicate StagedUpToCwd(staged: A.Table, records: seq<A.Record>, from: A.State) {
    && A.Stamp(staged, None) == A.Keyed(A.Rows(records, from.epoch, None))
    && (StateAfter(records, from).cwd.None? ==> staged == A.Stamp(staged, None))
  }

  lemma StampTwice(t: A.Table, c: Option<string>, d: Option<string>)
    ensures A.Stamp(A.Stamp(t, c), d) == A.Stamp(t, d)
  {
  }

  lemma StampMerge(t: A.Table, u: A.Table, c: Option<string>)
    ensures A.Stamp(t + u, c) == A.Stamp(t, c) + A.Stamp(u, c)
  {
  }

  lemma NothingStaged(from: A.State)
    ensures StagedUpToCwd(map[], [], from) && StateAfter([], from) == from
  {
    assert A.Keyed([]) == map[];
    assert A.Stamp(map[], None) == map[];
  }

  /** Staging one more parsed batch. */
  lemma StageBatch(staged: A.Table, records: seq<A.Record>, batch: seq<A.Record>, from: A.State)
    requires StagedUpToCwd(staged, records, from)
    ensures var state := StateAfter(records, from);
            var next := StateAfter(batch, state);
            && next == StateAfter(records + batch, from)
            && StagedUpToCwd(staged + A.Keyed(A.Rows(batch, state.epoch, next.cwd)), records + batch, from)
  {
    hide A.EpochAfter, A.Established, A.Rows, A.Keyed, A.Stamp;
    var state := StateAfter(records, from);
    var next := StateAfter(batch, state);
    var rows := A.Keyed(A.Rows(batch, state.epoch, next.cwd));
    A.SessionAppend(records, batch, from.epoch, None);
    A.KeyedAppend(A.Rows(records, from.epoch, None), A.Rows(batch, state.epoch, None));
    A.StampIsReparse(batch, state.epoch, next.cwd, None);
    StampMerge(staged, rows, None);
  }

  /** The final restamp turns the staged rows into those of one parse under the final directory. */
  lemma Restamp(staged: A.Table, records: seq<A.Record>, from: A.State)
    requires StagedUpToCwd(staged, records, from)
    ensures var cwd := StateAfter(records, from).cwd;
            (if cwd.Some? then A.Stamp(staged, cwd) else staged) == A.Keyed(A.Rows(records, from.epoch, cwd))
  {
    var cwd := StateAfter(records, from).cwd;
    StampTwice(staged, None, cwd);
    A.StampIsReparse(records, from.epoch, None, cwd);
  }

  /** What the batch loop has consumed so far, against the reading from its starting point. */
  ghost predicate InStep(p: Provider, file: R.Bytes, size: nat, start: nat, startOrdinal: nat, from: A.State,
      ignoreUnknown: bool,
      offset: nat, ordinal: nat, state: A.State, staged: A.Table, done: seq<R.Envelope>,
      oversized: seq<R.Diagnostic>)
    requires p.limits.Positive()
  {
    && R.ReadAll(R.Rest(file, size, start), startOrdinal, start, p.limits.record)
       == R.Then(done, oversized, R.ReadAll(R.Rest(file, size, offset), ordinal, offset, p.limits.record))
    && start <= offset <= size
    && StagedUpToCwd(staged, RecordsOf(p, done), from) && state == StateAfter(RecordsOf(p, done), from)
    && !A.Blocks(RecordsOf(p, done), ignoreUnknown)
  }

  lemma StartInStep(p: Provider, file: R.Bytes, size: nat, start: nat, startOrdinal: nat, from: A.State,
      ignoreUnknown: bool)
    requires p.limits.Positive() && start <= size
    ensures InStep(p, file, size, start, startOrdinal, from, ignoreUnknown, start, startOrdinal, from, map[], [], [])
  {
    hide R.ReadAll, R.Rest;
    R.ThenNothing(R.ReadAll(R.Rest(file, size, start), startOrdinal, start, p.limits.record));
    NothingStaged(from);
    assert RecordsOf(p, []) == [];
  }

  lemma NothingAtEnd(p: Provider, file: R.Bytes, size: nat, ordinal: nat)
    requires p.limits.Positive()
    ensures R.ReadAll(R.Rest(file, size, size), ordinal, size, p.limits.record) == R.Reading([], [], size, ordinal)
  {
    if size <= |file| { assert file[size..size] == []; }
    R.NothingLeft(R.Rest(file, size, size), ordinal, size, p.limits.record);
  }

  /** When nothing is left, what was staged and restamped is one parse from the starting state. */
  lemma Finish(p: Provider, file: R.Bytes, size: nat, start: nat, startOrdinal: nat, from: A.State, ignoreUnknown: bool,
      offset: nat, ordinal: nat, state: A.State, staged: A.Table, done: seq<R.Envelope>,
      oversized: seq<R.Diagnostic>)
    requires p.limits.Positive()
    requires InStep(p, file, size, start, startOrdinal, from, ignoreUnknown, offset, ordinal, state, staged, done,
                 oversized)
    requires R.ReadAll(R.Rest(file, size, offset), ordinal, offset, p.limits.record)
               == R.Reading([], [], offset, ordinal)
    ensures var whole := R.ReadAll(R.Rest(file, size, start), startOrdinal, start, p.limits.record);
            var records := RecordsOf(p, whole.envelopes);
            && whole.offset == offset && whole.ordinal == ordinal && state == StateAfter(records, from)
            && !A.Blocks(records, ignoreUnknown)
            && (if state.cwd.Some? then A.Stamp(staged, state.cwd) else staged)
                 == A.Keyed(A.Rows(records, from.epoch, state.cwd))
  {
    hide R.ReadAll, R.Rest, RecordsOf, StagedUpToCwd, A.Rows, A.Keyed, StateAfter, A.Blocks;
    assert done + [] == done;
    Restamp(staged, RecordsOf(p, done), from);
  }

  lemma ParsedState(next: A.State, records: seq<A.Record>, state: A.State)
    requires next.epoch == A.EpochAfter(records, state.epoch)
    requires next.cwd == if state.cwd.Some? then state.cwd else A.Established(records)
    ensures next == StateAfter(records, state)
  {
  }

  lemma BatchFacts(p: Provider, file: R.Bytes, size: nat, offset: nat, ordinal: nat, progress: R.Progress,
      stop: R.StopReason)
    requires p.limits.Positive() && offset < size
    requires R.Sound(file, size, offset, ordinal, p.limits, progress)
    requires R.Justified(file, size, offset, p.limits, progress, stop)
    ensures offset <= progress.offset <= size && (offset < progress.offset ==> progress.offset <= |file|)
    ensures stop.StoppedAtTruncation? ==> |file| < size
    ensures stop.BatchLimitReached? ==> offset < progress.offset < size
    ensures stop.TargetReached? || stop.StoppedAtPartialTail? ==> size <= |file|
  {
    hide R.ReadAll, R.Rest, R.Lines, R.Unterminated, R.LineStart, R.RawBytes;
  }

  /** The last batch leaves nothing behind. */
  lemma LastBatch(p: Provider, file: R.Bytes, size: nat, start: nat, progress: R.Progress, stop: R.StopReason)
    requires p.limits.Positive() && R.Justified(file, size, start, p.limits, progress, stop)
    requires stop.TargetReached? || stop.StoppedAtPartialTail?
    ensures R.ReadAll(R.Rest(file, size, progress.offset), progress.ordinal, progress.offset, p.limits.record)
            == R.Reading([], [], progress.offset, progress.ordinal)
  {
    var rest := R.Rest(file, size, progress.offset);
    if stop.TargetReached? && size <= |file| { assert rest == file[size..size]; }
    assert R.Unterminated(rest);
    R.NothingLeft(rest, progress.ordinal, progress.offset, p.limits.record);
  }

  /** The admission taken on the first batch is the one the whole source would give. */
  lemma FirstBatchDecides(p: Provider, file: R.Bytes, size: nat, progress: R.Progress, stop: R.StopReason)
    requires p.limits.Positive() && R.Sound(file, size, 0, 0, p.limits, progress)
    requires R.Justified(file, size, 0, p.limits, progress, stop) && !stop.StoppedAtTruncation?
    ensures Decision(p, progress.envelopes)
              == Decision(p, R.ReadAll(R.Rest(file, size, 0), 0, 0, p.limits.record).envelopes)
  {
    hide R.Sound, R.Justified;
    var rest := R.ReadAll(R.Rest(file, size, progress.offset), progress.ordinal, progress.offset, p.limits.record);
    SoundFacts(p, file, size, progress);
    if progress.envelopes == [] {
      if progress.offset == 0 {
        ZeroProgress(file, size, p, progress, stop);
        LastBatch(p, file, size, 0, progress, stop);
      } else {
        var s := R.Rest(file, size, progress.offset);
        R.LinesAreLines(s);
        OrdinalsFrom(R.Lines(s), progress.ordinal, progress.offset, p.limits.record);
      }
    }
  }

  lemma SoundFacts(p: Provider, file: R.Bytes, size: nat, progress: R.Progress)
    requires p.limits.Positive() && R.Sound(file, size, 0, 0, p.limits, progress)
    ensures progress.offset > 0 ==> progress.ordinal > 0
    ensures R.ReadAll(R.Rest(file, size, 0), 0, 0, p.limits.record).envelopes
            == var rest := R.Rest(file, size, progress.offset);
               progress.envelopes + R.ReadAll(rest, progress.ordinal, progress.offset, p.limits.record).envelopes
  {
    hide R.ReadAll, R.Rest;
    assert R.LineStart(file, size, 0, 0) by { assert R.Captured(file, size)[..0] == []; }
    if progress.offset > 0 {
      var before := R.Captured(file, size)[..progress.offset];
      assert before[|before| - 1] == R.NEWLINE;
    }
  }

  lemma ZeroProgress(file: R.Bytes, size: nat, p: Provider, progress: R.Progress, stop: R.StopReason)
    requires R.Justified(file, size, 0, p.limits, progress, stop) && !stop.StoppedAtTruncation? && progress.offset == 0
    ensures stop.TargetReached? || stop.StoppedAtPartialTail?
  {
    hide R.Lines, R.Rest, R.Unterminated;
  }

  lemma BatchInStep(p: Provider, file: R.Bytes, size: nat, start: nat, startOrdinal: nat, from: A.State,
      ignoreUnknown: bool,
      offset: nat, ordinal: nat, state: A.State, staged: A.Table, done: seq<R.Envelope>,
      oversized: seq<R.Diagnostic>, progress: R.Progress)
    requires p.limits.Positive()
    requires InStep(p, file, size, start, startOrdinal, from, ignoreUnknown, offset, ordinal, state, staged, done,
                 oversized)
    requires R.Sound(file, size, offset, ordinal, p.limits, progress)
    ensures var batch := RecordsOf(p, progress.envelopes);
            var next := StateAfter(batch, state);
            !A.Blocks(batch, ignoreUnknown) ==>
              InStep(p, file, size, start, startOrdinal, from, ignoreUnknown, progress.offset, progress.ordinal, next,
                     staged + A.Keyed(A.Rows(batch, state.epoch, next.cwd)), done + progress.envelopes,
                     oversized + progress.oversized)
    ensures A.Blocks(RecordsOf(p, progress.envelopes), ignoreUnknown) ==>
      var whole := R.ReadAll(R.Rest(file, size, start), startOrdinal, start, p.limits.record);
      A.Blocks(RecordsOf(p, whole.envelopes), ignoreUnknown)
  {
    hide R.ReadAll, R.Rest, RecordsOf, StagedUpToCwd, A.Rows, A.Keyed, StateAfter, A.Blocks, R.LineStart, R.RawBytes;
    var batch := RecordsOf(p, progress.envelopes);
    var rest := R.ReadAll(R.Rest(file, size, progress.offset), progress.ordinal, progress.offset, p.limits.record);
    StageBatch(staged, RecordsOf(p, done), batch, from);
    RecordsAppend(p, done, progress.envelopes);
    BlocksAppend(RecordsOf(p, done), batch, ignoreUnknown);
    R.ThenThen(done, oversized, progress.envelopes, progress.oversized, rest);
    RecordsAppend(p, done + progress.envelopes, rest.envelopes);
    BlocksAppend(RecordsOf(p, done + progress.envelopes), RecordsOf(p, rest.envelopes), ignoreUnknown);
  }

  lemma WholeRest(file: R.Bytes, size: nat)
    ensures R.Rest(file, size, 0) == R.Captured(file, size)
    ensures |file| >= size ==> R.Captured(file, size) == file[..size]
  {
  }

  /** A grown file reads as what was read before, followed by what its tail adds. */
  lemma GrownReading(p: Provider, seen: R.Bytes, file: R.Bytes, size: nat)
    requires p.limits.Positive() && size <= |file| && seen <= file[..size]
    ensures var first := Reading(p, seen);
            var tail := R.ReadAll(R.Rest(file, size, first.offset), first.ordinal, first.offset, p.limits.record);
            && first.offset <= |seen| && (first.offset == 0 ==> first.ordinal == 0)
            && Reading(p, file[..size]) == R.Then(first.envelopes, first.oversized, tail)
            && Session(p, file[..size]) == Session(p, seen) + RecordsOf(p, tail.envelopes)
            && (first.offset > 0 ==> Decision(p, Reading(p, file[..size]).envelopes) == Decision(p, first.envelopes))
            && (first.offset == 0 ==> Session(p, seen) == [] && Reading(p, file[..size]).envelopes == tail.envelopes)
  {
    hide R.ReadAll, R.ReadLines, R.Lines;
    var first := Reading(p, seen);
    R.ResumeEqualsReread(seen, file[..size], p.limits.record);
    assert R.Rest(file, size, first.offset) == file[..size][first.offset..];
    var tail := R.ReadAll(R.Rest(file, size, first.offset), first.ordinal, first.offset, p.limits.record);
    RecordsAppend(p, first.envelopes, tail.envelopes);
    ReadingShape(p, seen);
    TailOrdinals(R.Rest(file, size, first.offset), first.ordinal, first.offset, p.limits.record);
    assert first.envelopes == [] ==> first.envelopes + tail.envelopes == tail.envelopes;
  }

  lemma OffsetWithin(p: Provider, s: R.Bytes)
    requires p.limits.Positive()
    ensures Reading(p, s).offset <= |s|
  {
    hide R.ReadAll;
    assert s[..|s|] == s;
    GrownReading(p, s, s, |s|);
  }

  /** A tail that cannot be indexed makes the whole file one that cannot. */
  lemma GrownFailure(p: Provider, seen: R.Bytes, file: R.Bytes, size: nat, ignoreUnknown: bool)
    requires p.limits.Positive() && size <= |file| && seen <= file[..size]
    requires var first := Reading(p, seen);
             var tail := R.ReadAll(R.Rest(file, size, first.offset), first.ordinal, first.offset, p.limits.record);
             || A.Blocks(RecordsOf(p, tail.envelopes), ignoreUnknown)
             || (first.offset == 0 && Decision(p, tail.envelopes) == Blocked)
    ensures Unindexable(p, file, size, ignoreUnknown)
  {
    hide R.ReadAll, R.Rest, A.Blocks, RecordsOf, Decision;
    var first := Reading(p, seen);
    var tail := R.ReadAll(R.Rest(file, size, first.offset), first.ordinal, first.offset, p.limits.record);
    GrownReading(p, seen, file, size);
    BlocksAppend(Session(p, seen), RecordsOf(p, tail.envelopes), ignoreUnknown);
  }

  /** Appending the rows of a tail that names no new directory to what is held. */
  lemma GrownWhole(p: Provider, seen: R.Bytes, file: R.Bytes, size: nat)
    requires p.limits.Positive() && size <= |file| && seen <= file[..size]
    requires var first := Reading(p, seen);
             var tail := R.ReadAll(R.Rest(file, size, first.offset), first.ordinal, first.offset, p.limits.record);
             A.Established(Session(p, seen)).Some? || A.Established(RecordsOf(p, tail.envelopes)).None?
    ensures var first := Reading(p, seen);
            var tail := R.ReadAll(R.Rest(file, size, first.offset), first.ordinal, first.offset, p.limits.record);
            var state := StateAfter(Session(p, seen), A.INITIAL);
            && StateAfter(Session(p, file[..size]), A.INITIAL) == StateAfter(RecordsOf(p, tail.envelopes), state)
            && A.Whole(Session(p, file[..size]))
               == A.Whole(Session(p, seen)) + A.Keyed(A.Rows(RecordsOf(p, tail.envelopes), state.epoch, state.cwd))
            && StateAfter(RecordsOf(p, tail.envelopes), state).cwd == state.cwd
  {
    hide R.ReadAll, R.Rest, RecordsOf, A.Rows, A.Keyed, A.EpochAfter, A.Established, A.Whole, Session;
    var first := Reading(p, seen);
    var tail := R.ReadAll(R.Rest(file, size, first.offset), first.ordinal, first.offset, p.limits.record);
    GrownReading(p, seen, file, size);
    A.SessionAppend(Session(p, seen), RecordsOf(p, tail.envelopes), 0, None);
    A.TailExtendsWhole(Session(p, seen), RecordsOf(p, tail.envelopes));
  }

  lemma TailOrdinals(s: R.Bytes, ordinal: nat, offset: nat, limit: nat)
    ensures forall e :: e in R.ReadAll(s, ordinal, offset, limit).envelopes ==> e.ordinal >= ordinal
  {
    R.LinesAreLines(s);
    OrdinalsFrom(R.Lines(s), ordinal, offset, limit);
  }

  /** Nothing was consumed exactly when no line was. */
  lemma ReadingShape(p: Provider, s: R.Bytes)
    requires p.limits.Positive()
    ensures var r := Reading(p, s);
            && (r.offset == 0 <==> r.ordinal == 0) && (r.ordinal == 0 ==> r.envelopes == [])
  {
    R.LinesAreLines(s);
    var lines := R.Lines(s);
    R.ReadLinesAppend(lines, [], 0, 0, p.limits.record);
  }

  lemma NothingRead(p: Provider, file: R.Bytes)
    requires p.limits.Positive()
    ensures Decision(p, Reading(p, R.Captured(file, 0)).envelopes) == Admitted
  {
    assert R.Captured(file, 0) == [];
    R.NothingLeft([], 0, 0, p.limits.record);
  }

  /** A source excluded on a grown file had not yielded a record before. */
  lemma NothingHeld(p: Provider, seen: R.Bytes, file: R.Bytes, size: nat)
    requires p.limits.Positive() && Reading(p, seen).offset == 0
    ensures A.Whole(Session(p, seen)) == map[]
    ensures R.Rest(file, size, 0) == R.Captured(file, size)
  {
    ReadingShape(p, seen);
    assert Session(p, seen) == [];
    assert A.Rows([], 0, None) == [];
  }

  /** An exclusion decided on a prefix stands for the grown file. */
  lemma ExclusionStands(p: Provider, seen: R.Bytes, file: R.Bytes, size: nat)
    requires p.limits.Positive() && size <= |file| && seen <= file[..size]
    requires Decision(p, Reading(p, seen).envelopes) == Excluded
    ensures Decision(p, Reading(p, file[..size]).envelopes) == Excluded
  {
    hide Reading;
    ReadingShape(p, seen);
    GrownReading(p, seen, file, size);
  }

  // ---------------------------------------------------------------- one source over many runs

  datatype Checkpoint = Checkpoint(size: nat, offset: nat, ordinal: nat, state: A.State, excluded: bool)

  datatype Disposition = Skip | Append | Replace

  datatype Parsed = ParsedSource(offset: nat, ordinal: nat, state: A.State, established: bool)
                  | ExcludedSource
                  | FailedSource

  /** What the parse phase leaves of one source for the publication of the run. */
  datatype Staging = Skipped | Rejected | Staged(disposition: Disposition, rows: A.Table, checkpoint: Checkpoint)

  datatype Outcome = Unchanged | Indexed | LeftOut | Failed

  /** Whether a source is skipped, continued from its checkpoint, or read again from zero. */
  function PlanOf(checkpoint: Option<Checkpoint>, size: nat, sameFile: bool, sameMtime: bool): Disposition {
    match checkpoint
    case None => Replace
    case Some(cp) =>
      if sameFile && size == cp.size && sameMtime then Skip
      else if cp.excluded && sameFile && size >= cp.size then Skip
      else if !cp.excluded && sameFile && size > cp.size then Append
      else Replace
  }

  /** A file that is not planned to be read again from zero was only appended to. */
  ghost predicate OnlyGrew(checkpoint: Option<Checkpoint>, seen: R.Bytes, file: R.Bytes, size: nat,
      sameFile: bool, sameMtime: bool)
  {
    (!PlanOf(checkpoint, size, sameFile, sameMtime).Replace? && checkpoint.value.size <= size <= |file|)
    ==> seen <= file[..size]
  }

  /** Held rows, continuation state and coordinates are those of one pass over the whole
      captured prefix `seen`. */
  ghost predicate Current(p: Provider, held: A.Table, checkpoint: Option<Checkpoint>, seen: R.Bytes)
    requires p.limits.Positive()
  {
    match checkpoint
    case None => held == map[]
    case Some(cp) =>
      var reading, records := Reading(p, seen), Session(p, seen);
      if cp.excluded then held == map[] && Decision(p, reading.envelopes) == Excluded
      else
        && cp.size == |seen|
        && Decision(p, reading.envelopes) == Admitted
        && held == A.Whole(records)
        && cp.state == StateAfter(records, A.INITIAL)
        && cp.offset == reading.offset && cp.ordinal == reading.ordinal
  }

  lemma CurrentIsOneParse(p: Provider, held: A.Table, checkpoint: Checkpoint, seen: R.Bytes)
    requires p.limits.Positive() && Current(p, held, Some(checkpoint), seen)
    ensures held == Expected(p, seen)
  {
    hide Reading, Session, Decision, A.Whole, StateAfter;
  }

  /** What a source holds once its staging is published. */
  function HeldAfter(held: A.Table, staging: Staging): A.Table {
    if !staging.Staged? then held else if staging.disposition.Append? then held + staging.rows else staging.rows
  }

  /** Publishing this staging leaves the source current for the prefix captured of `file`. */
  ghost predicate Advances(p: Provider, held: A.Table, staging: Staging, file: R.Bytes, size: nat)
    requires p.limits.Positive()
  {
    && staging.Staged? && !staging.disposition.Skip?
    && (staging.checkpoint.excluded || size <= |file|)
    && Current(p, HeldAfter(held, staging), Some(staging.checkpoint), R.Captured(file, size))
  }

  class AntigravitySource {
    const provider: Provider
    var held: A.Table
    var checkpoint: Option<Checkpoint>
    var staged: A.Table

    // the prefix of the file that the last successful run captured
    ghost var seen: R.Bytes

    ghost predicate Valid()
      reads this
    {
      provider.limits.Positive() && Current(provider, held, checkpoint, seen)
    }

    constructor (provider: Provider)
      requires provider.limits.Positive()
      ensures Valid() && this.provider == provider && held == map[] && checkpoint == None
    {
      this.provider := provider;
      held, checkpoint, staged, seen := map[], None, map[], [];
    }

    /** The source as the published corpus holds it. */
    constructor Resume(provider: Provider, held: A.Table, checkpoint: Option<Checkpoint>, ghost seen: R.Bytes)
      requires provider.limits.Positive() && Current(provider, held, checkpoint, seen)
      ensures Valid() && this.provider == provider
      ensures this.held == held && this.checkpoint == checkpoint && this.seen == seen
    {
      this.provider := provider;
      this.held, this.checkpoint, this.seen := held, checkpoint, seen;
      staged := map[];
    }

    /** Read, parse and stage batch after batch until the captured size or its last complete line,
        then restamp what was staged with the directory known at the end. */
    method ParseSourceBatches(file: R.Bytes, size: nat, start: nat, startOrdinal: nat, from: A.State,
        ignoreUnknown: bool)
      returns (r: Parsed)
      requires provider.limits.Positive() && start <= size && staged == map[]
      requires start == 0 ==> startOrdinal == 0
      modifies `staged
      ensures var whole := R.ReadAll(R.Rest(file, size, start), startOrdinal, start, provider.limits.record);
              var records := RecordsOf(provider, whole.envelopes);
              && (r.FailedSource? ==> |file| < size || A.Blocks(records, ignoreUnknown)
                                      || (start == 0 && Decision(provider, whole.envelopes) == Blocked))
              && (r.ExcludedSource? ==>
                    && start == 0 && start < size && staged == map[]
                    && Decision(provider, whole.envelopes) == Excluded)
              && (r.ParsedSource? ==>
                    && (start < size ==> |file| >= size) && !A.Blocks(records, ignoreUnknown)
                    && (start == 0 && start < size ==> Decision(provider, whole.envelopes) == Admitted)
                    && r.offset == whole.offset && r.ordinal == whole.ordinal
                    && r.state == StateAfter(records, from)
                    && r.established == (from.cwd.None? && r.state.cwd.Some?)
                    && staged == A.Keyed(A.Rows(records, from.epoch, r.state.cwd)))
    {
      hide R.ReadAll, R.Rest, R.Sound, R.Justified, RecordsOf, A.Rows, A.Keyed, A.Stamp, A.Blocks, A.EpochAfter,
          A.Established,
        StateAfter, StagedUpToCwd, InStep, Decision;
      var offset, ordinal, state, established := start, startOrdinal, from, false;
      ghost var whole := R.ReadAll(R.Rest(file, size, start), startOrdinal, start, provider.limits.record);
      ghost var done: seq<R.Envelope>, oversized: seq<R.Diagnostic> := [], [];
      StartInStep(provider, file, size, start, startOrdinal, from, ignoreUnknown);
      var limited := true;
      while offset < size && limited
        invariant InStep(provider, file, size, start, startOrdinal, from, ignoreUnknown, offset, ordinal, state,
                      staged, done, oversized)
        invariant start <= offset <= size && (start < offset || !limited ==> |file| >= offset)
        invariant offset == start && limited ==> staged == map[] && ordinal == startOrdinal
        invariant limited && offset == size ==> offset == start
        invariant from.cwd.Some? ==> state.cwd.Some?
        invariant established == (from.cwd.None? && state.cwd.Some?)
        invariant start == 0 && (offset > 0 || !limited) ==> Decision(provider, whole.envelopes) == Admitted
        invariant !limited ==>
          && size <= |file|
          && R.ReadAll(R.Rest(file, size, offset), ordinal, offset, provider.limits.record)
             == R.Reading([], [], offset, ordinal)
        decreases size - offset, limited
      {
        var batch, over := R.ReadBoundedJsonl(file, size, offset, ordinal, ordinal + 1, provider.limits);
        assert R.Acceptable(size, offset, ordinal, ordinal + 1, provider.limits);
        var b := batch.value;
        ghost var progress := R.Progress(b.envelopes, over, b.nextOffset, b.nextOrdinal, b.batchBytes);
        BatchFacts(provider, file, size, offset, ordinal, progress, b.stop);
        if b.stop.StoppedAtTruncation? {
          return FailedSource;
        }
        if offset == 0 {
          FirstBatchDecides(provider, file, size, progress, b.stop);
          var decision := Decision(provider, b.envelopes);
          if decision == Blocked {
            return FailedSource;
          } else if decision == Excluded {
            return ExcludedSource;
          }
        }
        var records := RecordsOf(provider, b.envelopes);
        BatchInStep(provider, file, size, start, startOrdinal, from, ignoreUnknown, offset, ordinal, state, staged,
            done, oversized, progress);
        var parsed := A.ParseAntigravitySession(records, state, ignoreUnknown);
        assert parsed.next == StateAfter(records, state) by { ParsedState(parsed.next, records, state); }
        if parsed.blocked {
          return FailedSource;
        }
        if !b.stop.BatchLimitReached? {
          LastBatch(provider, file, size, offset, progress, b.stop);
        }
        staged := staged + A.Keyed(parsed.rows);
        done, oversized := done + b.envelopes, oversized + over;
        state, established := parsed.next, established || parsed.established;
        offset, ordinal := b.nextOffset, b.nextOrdinal;
        limited := b.stop.BatchLimitReached?;
      }
      if limited {
        NothingAtEnd(provider, file, size, ordinal);
      }
      Finish(provider, file, size, start, startOrdinal, from, ignoreUnknown, offset, ordinal, state, staged, done,
          oversized);
      if state.cwd.Some? {
        staged := A.Stamp(staged, state.cwd);
      }
      return ParsedSource(offset, ordinal, state, established);
    }

    /** The parse phase of one source: plan it, read what is new, and stage it.  A skipped source
        already holds what its file gives; a staged one will, once the staging is published;
        whatever the batch limits are and however the file grew. */
    method Stage(file: R.Bytes, size: nat, sameFile: bool, sameMtime: bool, ignoreUnknown: bool)
      returns (r: Staging)
      requires Valid() && OnlyGrew(checkpoint, seen, file, size, sameFile, sameMtime)
      modifies `staged
      // only a file that did not change, or an excluded one that did not shrink, is skipped
      ensures r.Skipped? <==> && checkpoint.Some? && sameFile
                              && (|| (size == checkpoint.value.size && sameMtime)
                                  || (checkpoint.value.excluded && size >= checkpoint.value.size))
      ensures r.Skipped? && size <= |file| ==> held == Expected(provider, file[..size])
      ensures r.Rejected? ==> Unindexable(provider, file, size, ignoreUnknown)
      ensures r.Staged? ==> Advances(provider, held, r, file, size)
      // nothing that has to stop the source is staged
      ensures r.Staged? && r.disposition.Replace? && !r.checkpoint.excluded ==>
        !Unindexable(provider, file, size, ignoreUnknown)
      ensures r.Staged? && r.disposition.Append? && !r.checkpoint.excluded ==>
        && checkpoint.Some? && sameFile && size > checkpoint.value.size
        && !A.Blocks(TailRecords(file, size, checkpoint.value), ignoreUnknown)
    {
      hide Reading, Session, Decision, A.Whole, StateAfter, Advances, Unindexable, TailRecords;
      var plan := PlanOf(checkpoint, size, sameFile, sameMtime);
      if plan.Skip? {
        if size <= |file| && checkpoint.value.excluded {
          ExclusionStands(provider, seen, file, size);
        } else if size <= |file| {
          assert seen == file[..size];
        }
        return Skipped;
      }
      staged := map[];
      if plan.Append? {
        r := Continue(file, size, ignoreUnknown);
      } else {
        r := Reread(file, size, ignoreUnknown);
      }
    }

    /** The records after a checkpoint. */
    function TailRecords(file: R.Bytes, size: nat, cp: Checkpoint): seq<A.Record>
      requires provider.limits.Positive()
    {
      var rest := R.ReadAll(R.Rest(file, size, cp.offset), cp.ordinal, cp.offset, provider.limits.record);
      RecordsOf(provider, rest.envelopes)
    }

    /** Continue from the checkpoint; a tail that first establishes the directory makes the
        source start over, because rows held from earlier runs cannot be rewritten. */
    method Continue(file: R.Bytes, size: nat, ignoreUnknown: bool) returns (r: Staging)
      requires Valid() && staged == map[]
      requires checkpoint.Some? && !checkpoint.value.excluded && checkpoint.value.size < size
      requires size <= |file| ==> seen <= file[..size]
      modifies `staged
      ensures !r.Skipped?
      ensures r.Rejected? ==> Unindexable(provider, file, size, ignoreUnknown)
      ensures r.Staged? ==> Advances(provider, held, r, file, size)
      ensures r.Staged? && r.disposition.Replace? && !r.checkpoint.excluded ==>
        !Unindexable(provider, file, size, ignoreUnknown)
      ensures r.Staged? && r.disposition.Append? && !r.checkpoint.excluded ==>
        !A.Blocks(TailRecords(file, size, checkpoint.value), ignoreUnknown)
    {
      hide R.ReadAll, RecordsOf, A.Blocks, Decision, A.Rows, A.Keyed, A.EpochAfter, A.Established;
      var cp := checkpoint.value;
      ReadingShape(provider, seen);
      OffsetWithin(provider, seen);
      var parsed := ParseSourceBatches(file, size, cp.offset, cp.ordinal, cp.state, ignoreUnknown);
      if parsed.FailedSource? {
        staged := map[];
        if size <= |file| { GrownFailure(provider, seen, file, size, ignoreUnknown); }
        return Rejected;
      }
      if parsed.ParsedSource? && parsed.established {
        staged := map[];
        r := Reread(file, size, ignoreUnknown);
        return;
      }
      if parsed.ExcludedSource? {
        NothingHeld(provider, seen, file, size);
        return Staged(Append, map[], Checkpoint(size, size, 0, A.INITIAL, true));
      }
      GrownReading(provider, seen, file, size);
      GrownWhole(provider, seen, file, size);
      return Staged(Append, staged, Checkpoint(size, parsed.offset, parsed.ordinal, parsed.state, false));
    }

    /** Read the source from byte zero, to replace what it holds. */
    method Reread(file: R.Bytes, size: nat, ignoreUnknown: bool) returns (r: Staging)
      requires provider.limits.Positive() && staged == map[]
      modifies `staged
      ensures !r.Skipped?
      ensures r.Rejected? ==> Unindexable(provider, file, size, ignoreUnknown)
      ensures r.Staged? ==> r.disposition.Replace? && Advances(provider, held, r, file, size)
      ensures r.Staged? && !r.checkpoint.excluded ==> !Unindexable(provider, file, size, ignoreUnknown)
    {
      hide R.ReadAll, RecordsOf, A.Blocks, Decision, A.Rows, A.Keyed, A.EpochAfter, A.Established;
      WholeRest(file, size);
      var parsed := ParseSourceBatches(file, size, 0, 0, A.INITIAL, ignoreUnknown);
      match parsed
      case FailedSource =>
        staged := map[];
        r := Rejected;
      case ExcludedSource =>
        r := Staged(Replace, map[], Checkpoint(size, size, 0, A.INITIAL, true));
      case ParsedSource(offset, ordinal, state, _) =>
        if size == 0 { NothingRead(provider, file); }
        r := Staged(Replace, staged, Checkpoint(size, offset, ordinal, state, false));
    }

    /** One refresh of the source on its own, the staging published at once.  A failed source keeps
        what it held; a successful one holds exactly what one parse of the whole captured prefix
        gives. */
    method Refresh(file: R.Bytes, size: nat, sameFile: bool, sameMtime: bool,
        ignoreUnknown: bool) returns (outcome: Outcome)
      requires Valid() && OnlyGrew(checkpoint, seen, file, size, sameFile, sameMtime)
      modifies `held, `checkpoint, `staged, `seen
      ensures Valid()
      ensures outcome == Unchanged <==> PlanOf(old(checkpoint), size, sameFile, sameMtime).Skip?
      ensures outcome == Unchanged || outcome == Failed ==>
        held == old(held) && checkpoint == old(checkpoint) && seen == old(seen)
      ensures outcome == Failed ==> Unindexable(provider, file, size, ignoreUnknown)
      ensures outcome == Indexed || outcome == LeftOut ==>
        && seen == R.Captured(file, size) && (outcome == Indexed ==> size <= |file|)
        && checkpoint.Some? && checkpoint.value.excluded == (outcome == LeftOut)
      ensures outcome == LeftOut ==> held == map[] && Decision(provider, Reading(provider, seen).envelopes) == Excluded
      // skipped, left out or indexed: what is held is what the whole file gives
      ensures outcome != Failed && size <= |file| ==> held == Expected(provider, file[..size])
    {
      hide Reading, Session, Decision, A.Whole, StateAfter, Unindexable;
      var staging := Stage(file, size, sameFile, sameMtime, ignoreUnknown);
      if staging.Skipped? {
        return Unchanged;
      } else if staging.Rejected? {
        return Failed;
      }
      held := HeldAfter(held, staging);
      checkpoint := Some(staging.checkpoint);
      seen := R.Captured(file, size);
      CurrentIsOneParse(provider, held, staging.checkpoint, seen);
      return if staging.checkpoint.excluded then LeftOut else Indexed;
    }
  }
}
