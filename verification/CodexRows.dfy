/** What the rows held of a Codex session say, record by record, whatever the cuts. */
module CodexRows {
  import opened CorpusTables
  import opened Sorting
  import opened Canonicalization
  import opened CodexParser

  datatype Speech = Speech(role: string, text: string)

  /** What a record has to say in one class, if anything. */
  function SpeechOf(r: Record, cls: ContentClass): Option<Speech> {
    match r.payload
    case ResponseText(role, text, _) => if cls.Prose? then Some(Speech(role, text)) else None
    case EventText(role, text) => if cls.Prose? then Some(Speech(role, text)) else None
    case ToolCall(name, input) =>
      if cls.ToolName? then Some(Speech("assistant", name))
      else if cls.ToolInput? then Some(Speech("assistant", input))
      else None
    case _ => None
  }

  /** A native id where the response carries one, and else the record itself. */
  function PlaceOf(ctx: Context, r: Record): Locator {
    if r.payload.ResponseText? && r.payload.id.Some? then IdLocator(ctx.session, r.payload.id.value)
    else OrdinalLocator(ctx.session, r.ordinal, r.digest)
  }

  function IdentityOf(place: Locator): LogicalId {
    match place
    case IdLocator(_, id) => NativeId(id)
    case OrdinalLocator(_, number, digest) => RecordId(number, digest)
  }

  /** The distinct compactions before a record. */
  function CompactionsBefore(records: seq<Record>, x: nat): set<int>
    requires x <= |records|
  {
    set i | 0 <= i < x && records[i].payload.Compacted? :: records[i].digest
  }

  /** The row of record x in one class: its words, its epoch, its own occurrence, and the identity
      and time of itself or of an earlier record that says the same. */
  ghost predicate RowTells(ctx: Context, records: seq<Record>, x: nat, cls: ContentClass, row: StagedRow)
    requires x < |records|
  {
    var r := records[x];
    && SpeechOf(r, cls) == Some(Speech(row.role, row.text)) && row.cls == cls && row.kind == ctx.kind
    && row.epoch == |CompactionsBefore(records, x)|
    && row.submittedBy == (if row.role == "user" && ctx.kind == Agent then IdentifiedHarness else UnknownSubmitter)
    && row.alias == PhysicalAlias(PlaceOf(ctx, r), ctx.file, r.ordinal, r.offset, r.length, r.digest)
    && row.logicalId == IdentityOf(row.canonical)
    && exists y :: 0 <= y <= x && LendsIdentity(ctx, records, y, x, cls, row)
  }

  ghost predicate LendsIdentity(ctx: Context, records: seq<Record>, y: nat, x: nat, cls: ContentClass,
      row: StagedRow)
    requires y < |records| && x < |records|
  {
    && SpeechOf(records[y], cls) == SpeechOf(records[x], cls)
    && row.canonical == PlaceOf(ctx, records[y]) && row.timestamp == records[y].timestamp
  }

  // ---------------------------------------------------------------- candidates and their records

  /** A candidate is the projection of this record at this epoch. */
  ghost predicate Projects(ctx: Context, r: Record, epoch: nat, c: Candidate) {
    var m := c.message;
    && SpeechOf(r, m.cls) == Some(Speech(m.role, m.text)) && m.kind == ctx.kind && m.epoch == epoch
    && m.submittedBy == (if m.role == "user" && ctx.kind == Agent then IdentifiedHarness else UnknownSubmitter)
    && m.aliases == [PhysicalAlias(PlaceOf(ctx, r), ctx.file, r.ordinal, r.offset, r.length, r.digest)]
    && m.canonical == PlaceOf(ctx, r) && m.logicalId == IdentityOf(m.canonical) && m.timestamp == r.timestamp
  }

  lemma RecordProjects(ctx: Context, r: Record, epoch: nat)
    ensures forall c :: c in RecordCandidates(ctx, r, epoch) ==> Projects(ctx, r, epoch, c)
    ensures forall cls :: SpeechOf(r, cls).Some? ==>
              exists c :: c in RecordCandidates(ctx, r, epoch) && c.message.cls == cls
  {
    var cs := RecordCandidates(ctx, r, epoch);
    forall cls | SpeechOf(r, cls).Some? ensures exists c :: c in cs && c.message.cls == cls {
      assert cs[0] in cs;
      if cls.ToolInput? { assert cs[1] in cs; }
    }
  }

  lemma EpochIsCompactions(records: seq<Record>, x: nat)
    requires x <= |records|
    ensures After(records[..x], INITIAL.continuation).epoch == |CompactionsBefore(records, x)|
  {
    hide After;
    EpochCountsCompactions(records[..x], INITIAL.continuation);
    var seen := After(records[..x], INITIAL.continuation).seen;
    forall d ensures d in seen <==> d in CompactionsBefore(records, x) {
      if i :| 0 <= i < x && records[i].payload.Compacted? && records[i].digest == d {
        assert records[..x][i] == records[i];
      }
    }
    assert seen == CompactionsBefore(records, x);
  }

  /** Every candidate of a session is the projection of one of its records. */
  lemma {:induction false} RecordOf(ctx: Context, records: seq<Record>, i: nat) returns (x: nat)
    requires i < |Session(ctx, records)|
    ensures x < |records| && |Session(ctx, records[..x])| <= i < |Session(ctx, records[..x + 1])|
    ensures Projects(ctx, records[x], After(records[..x], INITIAL.continuation).epoch, Session(ctx, records)[i])
    decreases |records|
  {
    hide RecordCandidates, Projects, After;
    var front, last := records[..|records| - 1], records[|records| - 1];
    if i < |Session(ctx, front)| {
      x := RecordOf(ctx, front, i);
      assert front[..x] == records[..x] && front[..x + 1] == records[..x + 1];
    } else {
      x := |front|;
      assert records[..x + 1] == records;
      var epoch := After(front, INITIAL.continuation).epoch;
      RecordProjects(ctx, last, epoch);
      assert Session(ctx, records)[i] in RecordCandidates(ctx, last, epoch);
    }
  }

  /** Whatever a record has to say is a candidate of the session. */
  lemma {:induction false} CandidateAt(ctx: Context, records: seq<Record>, x: nat, cls: ContentClass) returns (i: nat)
    requires x < |records| && SpeechOf(records[x], cls).Some?
    ensures i < |Session(ctx, records)| && Session(ctx, records)[i].message.cls == cls
    ensures Projects(ctx, records[x], After(records[..x], INITIAL.continuation).epoch, Session(ctx, records)[i])
    decreases |records|
  {
    hide RecordCandidates, Projects, After, SpeechOf;
    var front, last := records[..|records| - 1], records[|records| - 1];
    if x < |front| {
      i := CandidateAt(ctx, front, x, cls);
      assert front[..x] == records[..x];
    } else {
      var epoch := After(front, INITIAL.continuation).epoch;
      RecordProjects(ctx, last, epoch);
      var own := RecordCandidates(ctx, last, epoch);
      var c :| c in own && c.message.cls == cls;
      var j :| 0 <= j < |own| && own[j] == c;
      i := |Session(ctx, front)| + j;
    }
  }

  // ---------------------------------------------------------------- rows and their candidates

  /** Every candidate read so far has its row, with the columns of itself or of an earlier match. */
  ghost predicate RowsTold(ctx: Context, cs: seq<Candidate>, m: nat, held: Table)
    requires Shaped(ctx, cs) && AllValid(cs) && m <= |cs|
  {
    forall i: nat :: i < m ==> cs[i].message.aliases != [] && exists l: nat :: RowOfLeader(ctx, cs, i, l, held)
  }

  ghost predicate RowOfLeader(ctx: Context, cs: seq<Candidate>, i: nat, l: nat, held: Table)
    requires AllValid(cs) && i < |cs| && cs[i].message.aliases != []
  {
    && l <= i && (l == i || Match(cs, i, l)) && KeyOf(cs[i]) in held
    && held[KeyOf(cs[i])] == RowOf(cs[l].message, CodexParser.Alias(cs[i]))
  }

  /** The row a window gives a candidate is that of itself or of an earlier match. */
  lemma WindowLeader(ctx: Context, cs: seq<Candidate>, at: seq<nat>, w: seq<Candidate>, u: nat, s: set<nat>,
      before: Table, held: Table)
    requires Shaped(ctx, cs) && AllValid(cs) && Shaped(ctx, w) && AllValid(w) && Window(cs, at, w) && u < |w|
    requires Put(ctx, w, s, before, held) && u in s
    ensures at[u] < |cs| && cs[at[u]].message.aliases != [] && exists l: nat :: RowOfLeader(ctx, cs, at[u], l, held)
  {
    hide Shaped, AllValid, KeyOf, RowOf, Partner, Matches;
    var v := Leader(w, u);
    if v != u {
      PartnerIs(w, u, v);
      MatchedOfPaired(w, u, v);
      WindowMatch(cs, at, w, u, v);
    }
    assert w[u] == cs[at[u]] && w[v] == cs[at[v]];
    assert RowOfLeader(ctx, cs, at[u], at[v], held);
  }

  lemma StageTells(ctx: Context, cs: seq<Candidate>, m: nat, n: nat, records: seq<Record>, state: State, held: Table)
    requires Shaped(ctx, cs) && AllValid(cs) && m <= n <= |cs| && AtCut(cs, m, state)
    requires Candidates(ctx, records, state.continuation) == cs[m..n]
    requires RowsTold(ctx, cs, m, held)
    requires forall k :: k in held ==>
               k in Stage(ctx, records, state, held) && Stage(ctx, records, state, held)[k] == held[k]
    ensures RowsTold(ctx, cs, n, Stage(ctx, records, state, held))
  {
    hide Shaped, AllValid, CarryOk, EpochsSplit, Candidates, Staged, Touching, Outputs, Occurring, Stage, KeyOf,
      StagedAfter, RowAt, RowOf, Put, Match, WindowOf;
    var w := WindowOf(state.trailing, cs[m..n]);
    var carry := Carried(cs, m, state.continuation.epoch, state.trailing);
    var at := Positions(carry, m, n);
    StageIs(ctx, cs, m, n, records, state, held);
    var s := StagedAfter(w, |w|, Occurring(cs[m..n]));
    var after := Stage(ctx, records, state, held);
    WindowIs(cs, m, n, carry);
    BatchStages(ctx, w, |w|, Occurring(cs[m..n]), held);
    StagedSet(ctx, cs, m, n, carry, w);
    forall i: nat | i < n
      ensures cs[i].message.aliases != [] && exists l: nat :: RowOfLeader(ctx, cs, i, l, after)
    {
      if i < m {
        var l: nat :| RowOfLeader(ctx, cs, i, l, held);
        assert RowOfLeader(ctx, cs, i, l, after);
      } else {
        var u: nat := if carry.Some? then i - m + 1 else i - m;
        assert u < |at| && at[u] == i;
        WindowLeader(ctx, cs, at, w, u, s, held, after);
      }
    }
  }

  /** After any batches every candidate has its row. */
  lemma {:induction false} RunTells(ctx: Context, batches: seq<seq<Record>>, rest: seq<Record>)
    requires InOrder(Flat(batches) + rest)
    ensures var cs := Session(ctx, Flat(batches) + rest);
            && Shaped(ctx, cs) && AllValid(cs) && |Session(ctx, Flat(batches))| <= |cs|
            && RowsTold(ctx, cs, |Session(ctx, Flat(batches))|, Held(ctx, batches))
    decreases |batches|
  {
    hide Shaped, AllValid, Candidates, CarryOk, EpochsSplit, InOrder, NextState, Session, Stage, RowsTold, Rooted;
    SessionShaped(ctx, Flat(batches) + rest);
    if batches == [] {
      assert Flat(batches) + rest == rest;
      NothingTold(ctx, rest);
    } else {
      var front, last := batches[..|batches| - 1], batches[|batches| - 1];
      assert Flat(batches) + rest == Flat(front) + (last + rest) == Flat(front) + last + rest;
      RunTells(ctx, front, last + rest);
      RunRooted(ctx, front, last + rest);
      Cut(ctx, Flat(batches) + rest, front, last, rest);
      var cs := Session(ctx, Flat(batches) + rest);
      var m, n := |Session(ctx, Flat(front))|, |Session(ctx, Flat(batches))|;
      StageKeeps(ctx, cs, m, n, last, StateAfter(ctx, front), Held(ctx, front));
      StageTells(ctx, cs, m, n, last, StateAfter(ctx, front), Held(ctx, front));
    }
  }

  lemma NothingTold(ctx: Context, rest: seq<Record>)
    requires Shaped(ctx, Session(ctx, rest)) && AllValid(Session(ctx, rest))
    ensures Session(ctx, []) == [] && RowsTold(ctx, Session(ctx, rest), 0, map[])
  {
  }

  // ---------------------------------------------------------------- the meaning of what is held

  /** Matching candidates say the same words in the same epoch. */
  lemma MatchSaysSame(cs: seq<Candidate>, i: nat, l: nat)
    requires AllValid(cs) && Match(cs, i, l)
    ensures var a, b := cs[i].message, cs[l].message;
            && a.role == b.role && a.text == b.text && a.epoch == b.epoch && a.cls == b.cls
  {
    hide NativeMessage.Valid, Earliest;
    assert cs[i].TextDigest() == cs[l].TextDigest();
  }

  /** The row of a candidate tells its record. */
  lemma RowOfCandidate(ctx: Context, records: seq<Record>, i: nat, x: nat, held: Table)
    requires InOrder(records) && AllValid(Session(ctx, records)) && Shaped(ctx, Session(ctx, records))
    requires i < |Session(ctx, records)| && RowsTold(ctx, Session(ctx, records), |Session(ctx, records)|, held)
    requires x < |records|
    requires |Session(ctx, records[..x])| <= i < |Session(ctx, records[..x + 1])|
    requires Projects(ctx, records[x], After(records[..x], INITIAL.continuation).epoch, Session(ctx, records)[i])
    ensures var cls := Session(ctx, records)[i].message.cls;
            && RowKey(records[x].ordinal, cls) in held
            && RowTells(ctx, records, x, cls, held[RowKey(records[x].ordinal, cls)])
  {
    hide Shaped, AllValid, Session, After, SpeechOf, PlaceOf, IdentityOf, Match, InOrder;
    var cs := Session(ctx, records);
    EpochIsCompactions(records, x);
    var l: nat :| RowOfLeader(ctx, cs, i, l, held);
    var y := RecordOf(ctx, records, l);
    if l != i { MatchSaysSame(cs, i, l); }
    if y > x { SessionGrows(ctx, records, x + 1, y); }
    var row := held[RowKey(records[x].ordinal, cs[i].message.cls)];
    assert LendsIdentity(ctx, records, y, x, cs[i].message.cls, row);
  }

  lemma {:induction false} SessionGrows(ctx: Context, records: seq<Record>, x: nat, y: nat)
    requires x <= y <= |records|
    ensures |Session(ctx, records[..x])| <= |Session(ctx, records[..y])|
  {
    CandidatesAppend(ctx, records[..x], records[x..y], INITIAL.continuation);
    assert records[..x] + records[x..y] == records[..y];
  }

  /** For every session and every way of cutting it: a record that has something to say in a class
      has a row there which tells exactly that, and nothing else is held. */
  lemma HeldRowsTellTheirRecords(ctx: Context, batches: seq<seq<Record>>, x: nat, cls: ContentClass)
    requires InOrder(Flat(batches)) && x < |Flat(batches)|
    ensures var records, held := Flat(batches), Held(ctx, batches);
            var k := RowKey(records[x].ordinal, cls);
            && (k in held <==> SpeechOf(records[x], cls).Some?)
            && (k in held ==> RowTells(ctx, records, x, cls, held[k]))
  {
    hide Shaped, AllValid, Session, After, SpeechOf, InOrder, RowsTold, Projects, RowTells, Rooted, Held, StateAfter;
    var records, held := Flat(batches), Held(ctx, batches);
    assert records + [] == records;
    RunTells(ctx, batches, []);
    RunRooted(ctx, batches, []);
    if SpeechOf(records[x], cls).Some? {
      var i := CandidateAt(ctx, records, x, cls);
      CandidatePlace(ctx, records, x, i);
      RowOfCandidate(ctx, records, i, x, held);
    }
    if RowKey(records[x].ordinal, cls) in held {
      var i, y := HeldRecord(ctx, batches, RowKey(records[x].ordinal, cls));
      SameOrdinal(records, x, y);
    }
  }

  /** Every row held is that of a record. */
  lemma HeldRowsComeFromRecords(ctx: Context, batches: seq<seq<Record>>, k: RowKey)
    requires InOrder(Flat(batches)) && k in Held(ctx, batches)
    ensures exists x :: 0 <= x < |Flat(batches)| && Flat(batches)[x].ordinal == k.ordinal
                        && SpeechOf(Flat(batches)[x], k.cls).Some?
  {
    var i, y := HeldRecord(ctx, batches, k);
  }

  lemma HeldRecord(ctx: Context, batches: seq<seq<Record>>, k: RowKey) returns (i: nat, y: nat)
    requires InOrder(Flat(batches)) && k in Held(ctx, batches)
    ensures y < |Flat(batches)| && Flat(batches)[y].ordinal == k.ordinal && SpeechOf(Flat(batches)[y], k.cls).Some?
  {
    hide Shaped, AllValid, Session, After, SpeechOf, InOrder, Held, StateAfter;
    var records := Flat(batches);
    assert records + [] == records;
    RunRooted(ctx, batches, []);
    i :| 0 <= i < |Session(ctx, records)| && Session(ctx, records)[i].message.aliases != []
         && KeyOf(Session(ctx, records)[i]) == k;
    y := RecordOf(ctx, records, i);
  }

  lemma SameOrdinal(records: seq<Record>, x: nat, y: nat)
    requires InOrder(records) && x < |records| && y < |records| && records[x].ordinal == records[y].ordinal
    ensures x == y
  {
  }

  /** A projection stands among those of its own record. */
  lemma CandidatePlace(ctx: Context, records: seq<Record>, x: nat, i: nat)
    requires InOrder(records) && x < |records| && i < |Session(ctx, records)|
    requires Projects(ctx, records[x], After(records[..x], INITIAL.continuation).epoch, Session(ctx, records)[i])
    ensures |Session(ctx, records[..x])| <= i < |Session(ctx, records[..x + 1])|
  {
    hide Session, After, SpeechOf, InOrder;
    var y := RecordOf(ctx, records, i);
    SameOrdinal(records, x, y);
  }

  /** The first compaction of each digest opens the next epoch and is recorded where it stands;
      nothing else is. */
  lemma BoundariesTellRecords(ctx: Context, records: seq<Record>, x: nat)
    requires x < |records|
    ensures var r := records[x];
            var before := Boundaries(ctx, records[..x], INITIAL.continuation);
            var after := Boundaries(ctx, records[..x + 1], INITIAL.continuation);
            if r.payload.Compacted? && r.digest !in CompactionsBefore(records, x) then
              after == before
                       + [EpochBoundary(|CompactionsBefore(records, x)| + 1,
                                        PhysicalAlias(OrdinalLocator(ctx.session, r.ordinal, r.digest), ctx.file,
                                                      r.ordinal, r.offset, r.length, r.digest))]
            else after == before
  {
    hide After;
    assert records[..x + 1][..x] == records[..x];
    EpochIsCompactions(records, x);
    SeenIsCompactions(records, x);
  }

  lemma SeenIsCompactions(records: seq<Record>, x: nat)
    requires x <= |records|
    ensures After(records[..x], INITIAL.continuation).seen == CompactionsBefore(records, x)
  {
    hide After;
    EpochCountsCompactions(records[..x], INITIAL.continuation);
    forall d ensures d in After(records[..x], INITIAL.continuation).seen <==> d in CompactionsBefore(records, x) {
      if i :| 0 <= i < x && records[i].payload.Compacted? && records[i].digest == d {
        assert records[..x][i] == records[i];
      }
    }
  }
}
