/** Bounded JSONL reading: one batch of complete records of a captured prefix, with every limit,
    against the naive split of that prefix into lines. */
module BoundedReader {
  import opened CorpusTables

  type Byte = int
  type Bytes = seq<Byte>

  const NEWLINE: Byte := 10
  const CARRIAGE_RETURN: Byte := 13
  const OVERSIZED_STREAM_CHUNK_BYTES: nat := 65536

  // ---------------------------------------------------------------- naive splitting

  /** The index of the first newline, or the length when there is none. */
  function FirstNewline(s: Bytes): (k: nat)
    ensures k <= |s|
    ensures k < |s| ==> s[k] == NEWLINE
    ensures forall i :: 0 <= i < k ==> s[i] != NEWLINE
  {
    if s == [] || s[0] == NEWLINE then 0 else 1 + FirstNewline(s[1..])
  }

  /** The complete lines of a prefix, each with its terminating newline. */
  function Lines(s: Bytes): seq<Bytes> {
    var k := FirstNewline(s);
    if k == |s| then [] else [s[..k + 1]] + Lines(s[k + 1..])
  }

  /** What follows the last complete line. */
  function Tail(s: Bytes): Bytes {
    var k := FirstNewline(s);
    if k == |s| then s else Tail(s[k + 1..])
  }

  function Joined(lines: seq<Bytes>): Bytes {
    if lines == [] then [] else lines[0] + Joined(lines[1..])
  }

  predicate IsLine(line: Bytes) {
    line != [] && line[|line| - 1] == NEWLINE && forall i :: 0 <= i < |line| - 1 ==> line[i] != NEWLINE
  }

  predicate Unterminated(s: Bytes) { forall i :: 0 <= i < |s| ==> s[i] != NEWLINE }

  lemma FirstNewlineIs(s: Bytes, k: nat)
    requires k <= |s| && (forall i :: 0 <= i < k ==> s[i] != NEWLINE) && (k < |s| ==> s[k] == NEWLINE)
    ensures FirstNewline(s) == k
  {
  }

  /** A decomposition into complete lines and a rest without a newline. */
  predicate Splits(s: Bytes, lines: seq<Bytes>, tail: Bytes) {
    s == Joined(lines) + tail && Unterminated(tail) && forall i :: 0 <= i < |lines| ==> IsLine(lines[i])
  }

  lemma SplitsCons(first: Bytes, rest: Bytes, lines: seq<Bytes>, tail: Bytes)
    requires IsLine(first) && Splits(rest, lines, tail)
    ensures Splits(first + rest, [first] + lines, tail)
  {
    hide IsLine, Unterminated;
    var all := [first] + lines;
    assert all[1..] == lines;
    assert first + (Joined(lines) + tail) == (first + Joined(lines)) + tail;
  }

  lemma {:induction false} SplitOnce(s: Bytes)
    ensures var k := FirstNewline(s);
            if k == |s| then Lines(s) == [] && Tail(s) == s
            else Lines(s) == [s[..k + 1]] + Lines(s[k + 1..]) && Tail(s) == Tail(s[k + 1..])
  {
    hide FirstNewline;
  }

  lemma {:induction false} NoLines(s: Bytes)
    requires FirstNewline(s) == |s|
    ensures Splits(s, [], s)
  {
    hide FirstNewline;
    assert [] + s == s;
  }

  lemma {:induction false} LinesSplit(s: Bytes)
    ensures Splits(s, Lines(s), Tail(s))
    decreases |s|
  {
    hide FirstNewline, Lines, Tail, Splits;
    var k := FirstNewline(s);
    SplitOnce(s);
    if k == |s| {
      NoLines(s);
    } else {
      LinesSplit(s[k + 1..]);
      SplitsCons(s[..k + 1], s[k + 1..], Lines(s[k + 1..]), Tail(s[k + 1..]));
      assert s == s[..k + 1] + s[k + 1..];
    }
  }

  lemma {:induction false} SplitIsUnique(s: Bytes, lines: seq<Bytes>, tail: Bytes)
    requires Splits(s, lines, tail)
    ensures lines == Lines(s) && tail == Tail(s)
    decreases |lines|
  {
    if lines == [] {
      assert s == tail;
      FirstNewlineIs(s, |s|);
    } else {
      var first, rest := lines[0], Joined(lines[1..]) + tail;
      assert s == first + rest;
      forall i | 0 <= i < |first| - 1 ensures s[i] != NEWLINE { assert s[i] == first[i]; }
      assert s[|first| - 1] == first[|first| - 1];
      FirstNewlineIs(s, |first| - 1);
      assert s[..|first|] == first && s[|first|..] == rest;
      SplitIsUnique(rest, lines[1..], tail);
      assert lines == [first] + lines[1..];
    }
  }

  /** Lines and tail are the only decomposition of a prefix into complete lines and a rest
      without a newline. */
  lemma {:induction false} SplitIsTheOnlyOne(s: Bytes, lines: seq<Bytes>, tail: Bytes)
    ensures Splits(s, lines, tail) <==> lines == Lines(s) && tail == Tail(s)
  {
    LinesSplit(s);
    if Splits(s, lines, tail) { SplitIsUnique(s, lines, tail); }
  }

  lemma {:induction false} JoinParts(a: Bytes, b: Bytes, k: nat)
    requires k <= |a|
    ensures (a + b)[..k] == a[..k] && (a + b)[k..] == a[k..] + b
  {
  }

  lemma {:induction false} LinesOfJoin(a: Bytes, b: Bytes)
    requires Tail(a) == []
    ensures Lines(a + b) == Lines(a) + Lines(b) && Tail(a + b) == Tail(b)
    decreases |a|
  {
    hide FirstNewline, Lines, Tail;
    var k := FirstNewline(a);
    SplitOnce(a);
    if k == |a| {
      assert a + b == b;
    } else {
      FirstNewlineIs(a + b, k);
      SplitOnce(a + b);
      JoinParts(a, b, k + 1);
      LinesOfJoin(a[k + 1..], b);
      assert [a[..k + 1]] + (Lines(a[k + 1..]) + Lines(b)) == ([a[..k + 1]] + Lines(a[k + 1..])) + Lines(b);
    }
  }

  lemma {:induction false} JoinedHasNoTail(s: Bytes)
    ensures Joined(Lines(s)) + Tail(s) == s && Joined(Lines(s)) <= s
    ensures Tail(Joined(Lines(s))) == [] && Lines(Joined(Lines(s))) == Lines(s)
    decreases |s|
  {
    LinesSplit(s);
    var j := Joined(Lines(s));
    assert j + [] == j;
    SplitIsUnique(j, Lines(s), []);
  }

  // ---------------------------------------------------------------- the specification

  datatype Envelope = Envelope(ordinal: nat, line: nat, offset: nat, raw: Bytes)

  datatype DiagnosticCode = PartialTail | OversizedRecord | SourceTruncated

  datatype Diagnostic = Diagnostic(code: DiagnosticCode, ordinal: nat, line: nat, offset: nat)

  /** A record ends at a newline, or at a carriage return and a newline, and keeps neither. */
  predicate Ends(record: Bytes, delimiter: Bytes) {
    || (delimiter == [NEWLINE] && (record != [] ==> record[|record| - 1] != CARRIAGE_RETURN))
    || delimiter == [CARRIAGE_RETURN, NEWLINE]
  }

  /** The record bytes of a complete line: the newline and one carriage return before it removed. */
  function Content(line: Bytes): (c: Bytes)
    requires line != []
    ensures |line| - 2 <= |c| < |line|
  {
    var s := line[..|line| - 1];
    if s != [] && s[|s| - 1] == CARRIAGE_RETURN then s[..|s| - 1] else s
  }

  /** Everything a reader can learn from consecutive complete lines: the admissible records, the
      oversized ones, and the coordinates after the last line. */
  datatype Reading = Reading(envelopes: seq<Envelope>, oversized: seq<Diagnostic>, offset: nat, ordinal: nat)

  /** The record of one complete line, unless it is oversized. */
  function Admitted(line: Bytes, ordinal: nat, offset: nat, limit: nat): seq<Envelope>
    requires line != []
  {
    if |Content(line)| <= limit then [Envelope(ordinal, ordinal + 1, offset, Content(line))] else []
  }

  /** The diagnostic of one complete line that is oversized. */
  function Rejected(line: Bytes, ordinal: nat, offset: nat, limit: nat): seq<Diagnostic>
    requires line != []
  {
    if |Content(line)| <= limit then [] else [Diagnostic(OversizedRecord, ordinal, ordinal + 1, offset)]
  }

  function Then(envelopes: seq<Envelope>, oversized: seq<Diagnostic>, rest: Reading): Reading {
    rest.(envelopes := envelopes + rest.envelopes, oversized := oversized + rest.oversized)
  }

  function ReadLines(lines: seq<Bytes>, ordinal: nat, offset: nat, limit: nat): Reading
    requires forall i :: 0 <= i < |lines| ==> lines[i] != []
  {
    if lines == [] then Reading([], [], offset, ordinal)
    else Then(Admitted(lines[0], ordinal, offset, limit), Rejected(lines[0], ordinal, offset, limit),
              ReadLines(lines[1..], ordinal + 1, offset + |lines[0]|, limit))
  }

  lemma LinesAreLines(s: Bytes)
    ensures forall i :: 0 <= i < |Lines(s)| ==> IsLine(Lines(s)[i])
  {
    LinesSplit(s);
  }

  /** Reading a byte string that starts at the given coordinates. */
  function ReadAll(s: Bytes, ordinal: nat, offset: nat, limit: nat): Reading {
    LinesAreLines(s);
    ReadLines(Lines(s), ordinal, offset, limit)
  }

  lemma ThenNothing(rest: Reading)
    ensures Then([], [], rest) == rest
  {
    assert [] + rest.envelopes == rest.envelopes && [] + rest.oversized == rest.oversized;
  }

  lemma ThenThen(e: seq<Envelope>, d: seq<Diagnostic>, e': seq<Envelope>, d': seq<Diagnostic>, rest: Reading)
    ensures Then(e, d, Then(e', d', rest)) == Then(e + e', d + d', rest)
  {
    assert (e + e') + rest.envelopes == e + (e' + rest.envelopes);
    assert (d + d') + rest.oversized == d + (d' + rest.oversized);
  }

  lemma {:induction false} ReadLinesAppend(a: seq<Bytes>, b: seq<Bytes>, ordinal: nat, offset: nat, limit: nat)
    requires forall i :: 0 <= i < |a| ==> a[i] != []
    requires forall i :: 0 <= i < |b| ==> b[i] != []
    ensures var first := ReadLines(a, ordinal, offset, limit);
            && first.offset == offset + |Joined(a)| && first.ordinal == ordinal + |a|
            && ReadLines(a + b, ordinal, offset, limit)
               == Then(first.envelopes, first.oversized, ReadLines(b, first.ordinal, first.offset, limit))
    decreases |a|
  {
    hide Admitted, Rejected;
    if a == [] {
      assert a + b == b;
      ThenNothing(ReadLines(b, ordinal, offset, limit));
    } else {
      assert (a + b)[1..] == a[1..] + b && (a + b)[0] == a[0];
      ReadLinesAppend(a[1..], b, ordinal + 1, offset + |a[0]|, limit);
      var inner := ReadLines(a[1..], ordinal + 1, offset + |a[0]|, limit);
      ThenThen(Admitted(a[0], ordinal, offset, limit), Rejected(a[0], ordinal, offset, limit), inner.envelopes,
          inner.oversized,
               ReadLines(b, inner.ordinal, inner.offset, limit));
    }
  }

  /** Resuming equals rereading: after reading a file to its last complete line, reading only
      what a grown file has from there gives what reading the grown file from zero gives. */
  lemma {:induction false} ResumeEqualsReread(before: Bytes, after: Bytes, limit: nat)
    requires before <= after
    ensures var first := ReadAll(before, 0, 0, limit);
            && first.offset <= |before|
            && first.ordinal == |Lines(before)|
            && ReadAll(after, 0, 0, limit)
               == Then(first.envelopes, first.oversized,
                   ReadAll(after[first.offset..], first.ordinal, first.offset, limit))
  {
    hide Lines, Tail, Joined, ReadLines, Then;
    var lines, done := Lines(before), Joined(Lines(before));
    JoinedHasNoTail(before);
    LinesAreLines(before);
    var rest := after[|done|..];
    assert done <= before;
    assert after == done + rest;
    LinesOfJoin(done, rest);
    LinesAreLines(rest);
    LinesAreLines(after);
    ReadLinesAppend(lines, Lines(rest), 0, 0, limit);
  }

  // ---------------------------------------------------------------- one bounded batch

  datatype StopReason = TargetReached | BatchLimitReached | StoppedAtPartialTail | StoppedAtTruncation

  datatype BatchResult = BatchResult(
    envelopes: seq<Envelope>, diagnostics: seq<Diagnostic>,
    nextOffset: nat, nextOrdinal: nat, nextLine: nat, stop: StopReason, batchBytes: nat)

  datatype Limits = Limits(records: int, bytes: int, record: int)
  {
    predicate Positive() { records > 0 && bytes > 0 && record > 0 }
  }

  /** The resume coordinates and limits a caller must supply. */
  predicate Acceptable(target: int, start: int, ordinal: int, line: int, limits: Limits) {
    && target >= 0 && limits.Positive()
    && start >= 0 && ordinal >= 0 && line == ordinal + 1 && start <= target
  }

  /** The captured prefix that is still there. */
  function Captured(file: Bytes, target: nat): Bytes {
    if target <= |file| then file[..target] else file
  }

  /** The part of the captured prefix from an offset on. */
  function Rest(file: Bytes, target: nat, offset: nat): (s: Bytes)
    ensures offset >= |file| ==> s == []
    ensures offset <= target <= |file| ==> s == file[offset..target]
    ensures offset <= |file| <= target ==> s == file[offset..]
  {
    if offset <= |Captured(file, target)| then Captured(file, target)[offset..] else []
  }

  predicate Terminated(line: Bytes) { line != [] && line[|line| - 1] == NEWLINE }

  /** `handle.readline(limit)` at a position. */
  function ReadLine(file: Bytes, position: nat, limit: nat): (line: Bytes)
    ensures |line| <= limit
    ensures position <= |file| ==> position + |line| <= |file| && line == file[position..position + |line|]
    ensures Terminated(line) ==> IsLine(line)
    ensures !Terminated(line) ==> Unterminated(line) && (|line| == limit || position + |line| >= |file|)
    ensures line != [] ==> position < |file|
    ensures line == [] ==> limit == 0 || position >= |file|
  {
    if position >= |file| then []
    else
      var end := if position + limit <= |file| then position + limit else |file|;
      var available := file[position..end];
      var k := FirstNewline(available);
      assert Unterminated(available[..k]);
      if k < |available| then
        assert available[..k + 1] == file[position..position + k + 1];
        assert available[..k + 1][k] == NEWLINE;
        available[..k + 1]
      else available
  }

  lemma CapturedSlice(file: Bytes, target: nat, lo: nat, hi: nat)
    requires lo <= hi <= target && hi <= |file|
    ensures hi <= |Captured(file, target)| && Captured(file, target)[lo..hi] == file[lo..hi]
  {
  }

  function Newlines(s: Bytes): nat {
    if s == [] then 0 else (if s[|s| - 1] == NEWLINE then 1 else 0) + Newlines(s[..|s| - 1])
  }

  /** The offset starts the line with this ordinal: as many newlines precede it, the last of
      them immediately. */
  predicate LineStart(file: Bytes, target: nat, offset: nat, ordinal: nat) {
    && offset <= |Captured(file, target)|
    && Newlines(Captured(file, target)[..offset]) == ordinal
    && (offset == 0 || Captured(file, target)[offset - 1] == NEWLINE)
  }

  lemma {:induction false} NewlinesOfPrefix(s: Bytes, lo: nat, hi: nat)
    requires lo <= hi <= |s|
    requires forall i :: lo <= i < hi ==> s[i] != NEWLINE
    ensures Newlines(s[..hi]) == Newlines(s[..lo])
    decreases hi
  {
    if lo < hi {
      assert s[..hi][..hi - 1] == s[..hi - 1];
      NewlinesOfPrefix(s, lo, hi - 1);
    }
  }

  lemma LineStartMoves(file: Bytes, target: nat, offset: nat, ordinal: nat, n: nat)
    requires n > 0 && offset + n <= |Captured(file, target)|
    requires IsLine(Captured(file, target)[offset..offset + n])
    requires LineStart(file, target, offset, ordinal)
    ensures LineStart(file, target, offset + n, ordinal + 1)
  {
    var p := Captured(file, target);
    var line := p[offset..offset + n];
    forall i | offset <= i < offset + n - 1 ensures p[i] != NEWLINE { assert p[i] == line[i - offset]; }
    NewlinesOfPrefix(p, offset, offset + n - 1);
    assert p[..offset + n][..offset + n - 1] == p[..offset + n - 1];
    assert p[offset + n - 1] == line[n - 1];
  }

  lemma HeadLine(s: Bytes, n: nat)
    requires 0 < n <= |s| && IsLine(s[..n])
    ensures Lines(s) == [s[..n]] + Lines(s[n..])
  {
    hide FirstNewline;
    var line := s[..n];
    assert s[n - 1] == line[n - 1];
    assert FirstNewline(s) == n - 1 by {
      forall i | 0 <= i < n - 1 ensures s[i] != NEWLINE { assert s[i] == line[i]; }
      FirstNewlineIs(s, n - 1);
    }
  }

  lemma ReadHead(s: Bytes, n: nat, ordinal: nat, offset: nat, limit: nat)
    requires 0 < n <= |s| && IsLine(s[..n])
    ensures ReadAll(s, ordinal, offset, limit)
            == Then(Admitted(s[..n], ordinal, offset, limit), Rejected(s[..n], ordinal, offset, limit),
                    ReadAll(s[n..], ordinal + 1, offset + n, limit))
    ensures Lines(s) != [] && Lines(s)[0] == s[..n]
  {
    hide IsLine, Admitted, Rejected, Then;
    HeadLine(s, n);
    var lines := Lines(s[n..]);
    hide Lines;
    LinesAreLines(s);
    LinesAreLines(s[n..]);
    assert ([s[..n]] + lines)[1..] == lines;
  }

  /** One complete line moves the accumulated reading forward. */
  lemma Consume(file: Bytes, target: nat, offset: nat, ordinal: nat, n: nat, limit: nat,
                envelopes: seq<Envelope>, oversized: seq<Diagnostic>)
    requires n > 0 && offset + n <= |Captured(file, target)|
    requires IsLine(Captured(file, target)[offset..offset + n])
    ensures var line := Captured(file, target)[offset..offset + n];
            && Then(envelopes, oversized, ReadAll(Rest(file, target, offset), ordinal, offset, limit))
               == Then(envelopes + Admitted(line, ordinal, offset, limit),
                    oversized + Rejected(line, ordinal, offset, limit),
                       ReadAll(Rest(file, target, offset + n), ordinal + 1, offset + n, limit))
            && Lines(Rest(file, target, offset)) != [] && Lines(Rest(file, target, offset))[0] == line
    ensures LineStart(file, target, offset, ordinal) ==> LineStart(file, target, offset + n, ordinal + 1)
  {
    hide ReadAll, Lines, LineStart, Admitted, Rejected, Then, IsLine;
    var line, s := Captured(file, target)[offset..offset + n], Rest(file, target, offset);
    assert s[..n] == line && s[n..] == Rest(file, target, offset + n);
    ReadHead(s, n, ordinal, offset, limit);
    ThenThen(envelopes, oversized, Admitted(line, ordinal, offset, limit), Rejected(line, ordinal, offset, limit),
             ReadAll(s[n..], ordinal + 1, offset + n, limit));
    if LineStart(file, target, offset, ordinal) { LineStartMoves(file, target, offset, ordinal, n); }
  }

  /** Reading stops where no complete line is left. */
  lemma NothingLeft(s: Bytes, ordinal: nat, offset: nat, limit: nat)
    requires Unterminated(s)
    ensures ReadAll(s, ordinal, offset, limit) == Reading([], [], offset, ordinal)
  {
    FirstNewlineIs(s, |s|);
  }

  function RawBytes(envelopes: seq<Envelope>): nat {
    if envelopes == [] then 0 else RawBytes(envelopes[..|envelopes| - 1]) + |envelopes[|envelopes| - 1].raw|
  }

  lemma RawBytesAppend(envelopes: seq<Envelope>, e: Envelope)
    ensures RawBytes(envelopes + [e]) == RawBytes(envelopes) + |e.raw|
    ensures RawBytes([]) == 0
  {
    assert (envelopes + [e])[..|envelopes|] == envelopes;
  }

  /** The diagnostic that ends a batch, if its stop reason has one. */
  function Final(stop: StopReason, ordinal: nat, offset: nat): seq<Diagnostic> {
    match stop
    case StoppedAtPartialTail => [Diagnostic(PartialTail, ordinal, ordinal + 1, offset)]
    case StoppedAtTruncation => [Diagnostic(SourceTruncated, ordinal, ordinal + 1, offset)]
    case _ => []
  }

  /** After the oversized records a partial tail or a truncated file is reported, where the next
      record would start, and nothing else is. */
  ghost predicate Reported(all: seq<Diagnostic>, oversized: seq<Diagnostic>, stop: StopReason, ordinal: nat,
      offset: nat)
  {
    if stop.StoppedAtPartialTail? then all == oversized + [Diagnostic(PartialTail, ordinal, ordinal + 1, offset)]
    else if stop.StoppedAtTruncation?
           then all == oversized + [Diagnostic(SourceTruncated, ordinal, ordinal + 1, offset)]
    else all == oversized
  }

  lemma FinalIs(oversized: seq<Diagnostic>, stop: StopReason, ordinal: nat, offset: nat)
    ensures Reported(oversized + Final(stop, ordinal, offset), oversized, stop, ordinal, offset)
  {
    assert oversized + [] == oversized;
  }

  /** Where a batch stands: coordinates, and what it has collected. */
  datatype Progress = Progress(envelopes: seq<Envelope>, oversized: seq<Diagnostic>, offset: nat, ordinal: nat,
      bytes: nat)

  /** Nothing is lost, repeated or reordered: what was read and what remains is what there was;
      the coordinates stay those of a line start; the limits are respected. */
  ghost predicate Sound(file: Bytes, target: nat, start: nat, ordinal: nat, limits: Limits, p: Progress)
    requires limits.Positive()
  {
    && ReadAll(Rest(file, target, start), ordinal, start, limits.record)
       == Then(p.envelopes, p.oversized, ReadAll(Rest(file, target, p.offset), p.ordinal, p.offset, limits.record))
    && start <= p.offset <= target
    && (LineStart(file, target, start, ordinal) ==> LineStart(file, target, p.offset, p.ordinal))
    && p.bytes == RawBytes(p.envelopes) && (p.bytes <= limits.bytes || |p.envelopes| == 1)
    && |p.envelopes| + |p.oversized| <= limits.records
    && (|p.envelopes| + |p.oversized| > 0 ==> start < p.offset)
    && (start < p.offset ==> p.offset <= |file|)
  }

  /** Why a batch may stop where it does. */
  ghost predicate Justified(file: Bytes, target: nat, start: nat, limits: Limits, p: Progress, stop: StopReason) {
    var rest := Rest(file, target, p.offset);
    match stop
    case TargetReached => p.offset == target
    case StoppedAtPartialTail => p.offset < target <= |file| && Unterminated(rest)
    case StoppedAtTruncation => p.offset < target && |file| < target && Unterminated(rest)
    case BatchLimitReached =>
      && start < p.offset < target
      && (|p.envelopes| + |p.oversized| == limits.records
          || (p.envelopes != [] && Lines(rest) != [] && Lines(rest)[0] != []
              && p.bytes + |Content(Lines(rest)[0])| > limits.bytes))
  }

  lemma SoundAtStart(file: Bytes, target: nat, start: nat, ordinal: nat, limits: Limits)
    requires start <= target && limits.Positive()
    ensures Sound(file, target, start, ordinal, limits, Progress([], [], start, ordinal, 0))
  {
    hide ReadAll, Rest, LineStart;
    ThenNothing(ReadAll(Rest(file, target, start), ordinal, start, limits.record));
  }

  /** The envelope holds the bytes of the file at its offset, up to where a record ends. */
  ghost predicate Delimited(file: Bytes, target: nat, e: Envelope) {
    var end := e.offset + |e.raw|;
    && end < target && end < |file| && file[e.offset..end] == e.raw && NEWLINE !in e.raw
    && (|| Ends(e.raw, file[end..end + 1])
        || (end + 2 <= target && end + 2 <= |file| && Ends(e.raw, file[end..end + 2])))
  }

  ghost predicate AllDelimited(file: Bytes, target: nat, envelopes: seq<Envelope>) {
    forall e :: e in envelopes ==> Delimited(file, target, e)
  }

  lemma NoneDelimited(file: Bytes, target: nat)
    ensures AllDelimited(file, target, [])
  {
  }

  lemma ContentEnds(line: Bytes)
    requires IsLine(line)
    ensures var c := Content(line); c == line[..|c|] && Ends(c, line[|c|..])
  {
  }

  lemma LineIsDelimited(file: Bytes, target: nat, p: Progress, line: Bytes)
    requires p.offset + |line| <= target && p.offset + |line| <= |file|
    requires IsLine(line) && line == file[p.offset..p.offset + |line|]
    ensures Delimited(file, target, Envelope(p.ordinal, p.ordinal + 1, p.offset, Content(line)))
  {
    var c := Content(line);
    ContentEnds(line);
    var end := p.offset + |c|;
    assert line[|c|..] == file[end..p.offset + |line|];
    assert file[p.offset..end] == line[..|c|];
  }

  /** The line found at the current offset, as a caller of `NextRecord` knows it. */
  ghost predicate At(file: Bytes, target: nat, offset: nat, line: Bytes) {
    && line != [] && offset + |line| <= |Captured(file, target)| && offset + |line| <= target
    && IsLine(line) && Captured(file, target)[offset..offset + |line|] == line
  }

  lemma AfterRecordIs(p: Progress, record: Bytes, length: nat)
    ensures AfterRecord(p, record, length).envelopes
            == p.envelopes + [Envelope(p.ordinal, p.ordinal + 1, p.offset, record)]
    ensures AfterOversized(p, length).envelopes == p.envelopes
  {
  }

  /** Recording one oversized line. */
  function AfterOversized(p: Progress, length: nat): (q: Progress)
    ensures q.offset == p.offset + length
  {
    Progress(p.envelopes, p.oversized + [Diagnostic(OversizedRecord, p.ordinal, p.ordinal + 1, p.offset)],
             p.offset + length, p.ordinal + 1, p.bytes)
  }

  /** Recording one admissible line. */
  function AfterRecord(p: Progress, record: Bytes, length: nat): (q: Progress)
    ensures q.offset == p.offset + length
  {
    Progress(p.envelopes + [Envelope(p.ordinal, p.ordinal + 1, p.offset, record)], p.oversized,
             p.offset + length, p.ordinal + 1, p.bytes + |record|)
  }

  /** What is read so far, one line further. */
  lemma {:induction false} LineRead(file: Bytes, target: nat, start: nat, ordinal: nat, limits: Limits, p: Progress,
      line: Bytes)
    requires limits.Positive() && Sound(file, target, start, ordinal, limits, p) && At(file, target, p.offset, line)
    ensures var next := p.offset + |line|;
            && ReadAll(Rest(file, target, start), ordinal, start, limits.record)
               == Then(p.envelopes + Admitted(line, p.ordinal, p.offset, limits.record),
                       p.oversized + Rejected(line, p.ordinal, p.offset, limits.record),
                       ReadAll(Rest(file, target, next), p.ordinal + 1, next, limits.record))
            && start < next <= target && next <= |file|
            && (LineStart(file, target, start, ordinal) ==> LineStart(file, target, next, p.ordinal + 1))
  {
    hide ReadAll, Rest, LineStart, Then, IsLine, RawBytes, Admitted, Rejected;
    Consume(file, target, p.offset, p.ordinal, |line|, limits.record, p.envelopes, p.oversized);
  }

  lemma {:induction false} SoundAfterOversized(file: Bytes, target: nat, start: nat, ordinal: nat, limits: Limits,
      p: Progress, line: Bytes)
    requires limits.Positive() && Sound(file, target, start, ordinal, limits, p) && At(file, target, p.offset, line)
    requires |p.envelopes| + |p.oversized| < limits.records && |Content(line)| > limits.record
    ensures Sound(file, target, start, ordinal, limits, AfterOversized(p, |line|))
  {
    hide ReadAll, Rest, LineStart, Content, Then, At, RawBytes;
    LineRead(file, target, start, ordinal, limits, p, line);
    assert p.envelopes + [] == p.envelopes;
  }

  lemma {:induction false} SoundAfterRecord(file: Bytes, target: nat, start: nat, ordinal: nat, limits: Limits,
      p: Progress, line: Bytes)
    requires limits.Positive() && Sound(file, target, start, ordinal, limits, p) && At(file, target, p.offset, line)
    requires |p.envelopes| + |p.oversized| < limits.records && |Content(line)| <= limits.record
    requires p.envelopes == [] || p.bytes + |Content(line)| <= limits.bytes
    ensures Sound(file, target, start, ordinal, limits, AfterRecord(p, Content(line), |line|))
  {
    hide ReadAll, Rest, LineStart, Content, Then, At, RawBytes;
    LineRead(file, target, start, ordinal, limits, p, line);
    assert p.oversized + [] == p.oversized;
    RawBytesAppend(p.envelopes, Envelope(p.ordinal, p.ordinal + 1, p.offset, Content(line)));
  }

  lemma StopJustified(file: Bytes, target: nat, start: nat, ordinal: nat, limits: Limits, p: Progress, stop: StopReason)
    requires limits.Positive() && Sound(file, target, start, ordinal, limits, p)
    requires match stop
             case TargetReached => p.offset >= target
             case BatchLimitReached => p.offset < target && |p.envelopes| + |p.oversized| >= limits.records
             case StoppedAtPartialTail => p.offset < target <= |file| && Unterminated(Rest(file, target, p.offset))
             case StoppedAtTruncation => p.offset < target && |file| < target
                                         && Unterminated(Rest(file, target, p.offset))
    ensures Justified(file, target, start, limits, p, stop)
  {
    hide ReadAll, LineStart, Content, Then, IsLine, RawBytes, Lines, Rest, Unterminated;
  }

  lemma FullByBytes(file: Bytes, target: nat, start: nat, ordinal: nat, limits: Limits, p: Progress, line: Bytes)
    requires limits.Positive() && Sound(file, target, start, ordinal, limits, p) && At(file, target, p.offset, line)
    requires p.envelopes != [] && p.bytes + |Content(line)| > limits.bytes
    ensures Justified(file, target, start, limits, p, BatchLimitReached)
  {
    hide ReadAll, LineStart, Content, Then, IsLine, RawBytes, Lines;
    Consume(file, target, p.offset, p.ordinal, |line|, limits.record, p.envelopes, p.oversized);
  }

  /** Read one bounded batch ending at or before the target. */
  method ReadBoundedJsonl(file: Bytes, target: int, start: int, nextOrdinal: int, nextLine: int, limits: Limits)
    returns (r: Option<BatchResult>, ghost oversized: seq<Diagnostic>)
    ensures r.Some? <==> && 0 <= start <= target && 0 <= nextOrdinal && nextLine == nextOrdinal + 1
                         && limits.records > 0 && limits.bytes > 0 && limits.record > 0
    ensures r.Some? ==>
      && var b := r.value;
      && var p := Progress(b.envelopes, oversized, b.nextOffset, b.nextOrdinal, b.batchBytes);
      && limits.Positive() && Sound(file, target, start, nextOrdinal, limits, p)
      && Justified(file, target, start, limits, p, b.stop)
      && Reported(b.diagnostics, oversized, b.stop, b.nextOrdinal, b.nextOffset)
      && b.nextLine == b.nextOrdinal + 1
      && AllDelimited(file, target, b.envelopes)
  {
    oversized := [];
    if !Acceptable(target, start, nextOrdinal, nextLine, limits) {
      return None, [];
    }
    hide Sound, Justified, AllDelimited, Final, Reported, RawBytes;
    NoneDelimited(file, target);
    var p := Progress([], [], start, nextOrdinal, 0);
    var stop := None;
    SoundAtStart(file, target, start, nextOrdinal, limits);
    while p.offset < target && stop.None?
      invariant Sound(file, target, start, nextOrdinal, limits, p) && AllDelimited(file, target, p.envelopes)
      invariant p.offset <= target && (stop.Some? ==> Justified(file, target, start, limits, p, stop.value))
      decreases target - p.offset, stop.None?
    {
      p, stop := ReadOne(file, target, start, nextOrdinal, limits, p);
    }
    if stop.None? {
      StopJustified(file, target, start, nextOrdinal, limits, p, TargetReached);
    }
    var reason := if stop.Some? then stop.value else TargetReached;
    oversized := p.oversized;
    var diagnostics := p.oversized + Final(reason, p.ordinal, p.offset);
    FinalIs(p.oversized, reason, p.ordinal, p.offset);
    return Some(BatchResult(p.envelopes, diagnostics, p.offset, p.ordinal, p.ordinal + 1, reason, p.bytes)), oversized;
  }

  /** One turn of the batch loop: consume one complete record, or say why the batch stops here. */
  method ReadOne(file: Bytes, target: nat, start: nat, ordinal: nat, limits: Limits, p: Progress)
    returns (q: Progress, stop: Option<StopReason>)
    requires limits.Positive() && p.offset < target && Sound(file, target, start, ordinal, limits, p)
    requires AllDelimited(file, target, p.envelopes)
    ensures Sound(file, target, start, ordinal, limits, q) && AllDelimited(file, target, q.envelopes)
    ensures if stop.None? then p.offset < q.offset <= target
            else q == p && Justified(file, target, start, limits, p, stop.value)
  {
    hide Captured, Rest, IsLine, Unterminated, Content, Sound, Justified, AfterOversized, AfterRecord, Delimited;
    q, stop := p, None;
    if |p.envelopes| + |p.oversized| >= limits.records {
      StopJustified(file, target, start, ordinal, limits, p, BatchLimitReached);
      return p, Some(BatchLimitReached);
    }
    var found := NextRecord(file, target, p.offset, limits.record);
    if found.Incomplete? || found.Truncated? {
      var reason := if found.Truncated? then StoppedAtTruncation else StoppedAtPartialTail;
      StopJustified(file, target, start, ordinal, limits, p, reason);
      return p, Some(reason);
    }
    var text := file[p.offset..p.offset + found.n];
    if |Content(text)| > limits.record { SoundAfterOversized(file, target, start, ordinal, limits, p, text); }
    AfterRecordIs(p, [], found.n);
    if found.Oversized? {
      return AfterOversized(p, found.n), None;
    }
    var record := Content(text);
    if |record| > limits.record {
      return AfterOversized(p, found.n), None;
    }
    if p.envelopes != [] && p.bytes + |record| > limits.bytes {
      FullByBytes(file, target, start, ordinal, limits, p, text);
      return p, Some(BatchLimitReached);
    }
    SoundAfterRecord(file, target, start, ordinal, limits, p, text);
    LineIsDelimited(file, target, p, text);
    AfterRecordIs(p, record, found.n);
    return AfterRecord(p, record, found.n), None;
  }

  datatype Found = Complete(n: nat) | Oversized(n: nat) | Incomplete | Truncated

  /** Find the extent of the next complete record: one read within the record limit, then, if
      that found no newline, streaming through the rest without keeping it.  What is streamed
      past is above the record limit and need not be measured. */
  method NextRecord(file: Bytes, target: nat, offset: nat, limit: nat) returns (r: Found)
    requires offset < target && limit > 0
    ensures r.Complete? || r.Oversized? ==>
      0 < r.n && offset + r.n <= target && offset + r.n <= |file|
      && At(file, target, offset, file[offset..offset + r.n])
    ensures r.Oversized? ==> |Content(file[offset..offset + r.n])| > limit
    ensures r.Incomplete? || r.Truncated? ==>
              Unterminated(Rest(file, target, offset)) && (r.Truncated? <==> |file| < target)
  {
    hide Captured, Rest, ReadLine, IsLine, Unterminated;
    var remaining := target - offset;
    var readLimit := if remaining <= limit + 2 then remaining else limit + 2;
    var text := ReadLine(file, offset, readLimit);
    if text == [] {
      return Truncated;
    }
    if Terminated(text) {
      CapturedSlice(file, target, offset, offset + |text|);
      return Complete(|text|);
    }
    if |text| == readLimit && readLimit < remaining {
      var found, ended, consumed := StreamOversized(file, target, offset, |text|);
      if found {
        assert |Content(file[offset..offset + consumed])| >= consumed - 2;
        return Oversized(consumed);
      }
      return if ended then Truncated else Incomplete;
    }
    assert text == file[offset..offset + |text|];
    assert Rest(file, target, offset) == text;
    if |text| < remaining {
      return Truncated;
    }
    return Incomplete;
  }

  /** Skip the rest of a record that did not fit the read limit, chunk by chunk. */
  method StreamOversized(file: Bytes, target: nat, offset: nat, already: nat) returns (found: bool, ended: bool,
      consumed: nat)
    requires 0 < already && offset + already < target && offset + already <= |file|
    requires Unterminated(file[offset..offset + already])
    ensures offset + consumed <= target
    ensures found ==> already < consumed && offset + consumed <= |file| && offset + consumed <= |Captured(file, target)|
                      && Captured(file, target)[offset..offset + consumed] == file[offset..offset + consumed]
                      && IsLine(Captured(file, target)[offset..offset + consumed])
    ensures !found ==> Unterminated(Rest(file, target, offset))
    ensures !found ==> (ended <==> |file| < target)
  {
    hide Captured, Rest, ReadLine, IsLine, Unterminated;
    var remaining := target - offset;
    consumed, found, ended := already, false, false;
    while consumed < remaining
      invariant already <= consumed <= remaining && offset + consumed <= |file|
      invariant Unterminated(file[offset..offset + consumed])
      invariant !found && !ended
    {
      var left := remaining - consumed;
      var chunkLimit := if left <= OVERSIZED_STREAM_CHUNK_BYTES then left else OVERSIZED_STREAM_CHUNK_BYTES;
      var chunk := ReadLine(file, offset + consumed, chunkLimit);
      if chunk == [] {
        ended := true;
        break;
      }
      Longer(file, offset, offset + consumed, offset + consumed + |chunk|);
      consumed := consumed + |chunk|;
      if Terminated(chunk) {
        found := true;
        CapturedSlice(file, target, offset, offset + consumed);
        break;
      }
      if |chunk| < chunkLimit {
        ended := true;
        break;
      }
    }
    if !found {
      RestIs(file, target, offset, offset + consumed);
    }
  }

  lemma RestIs(file: Bytes, target: nat, offset: nat, end: nat)
    requires offset <= end <= |file| && end <= target && (end == target || end == |file|)
    ensures Rest(file, target, offset) == file[offset..end]
  {
  }

  lemma Longer(file: Bytes, lo: nat, mid: nat, hi: nat)
    requires lo <= mid < hi <= |file| && Unterminated(file[lo..mid])
    ensures Unterminated(file[mid..hi]) ==> Unterminated(file[lo..hi])
    ensures IsLine(file[mid..hi]) ==> IsLine(file[lo..hi])
  {
    assert file[lo..hi] == file[lo..mid] + file[mid..hi];
  }
}
