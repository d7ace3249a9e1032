/** The published corpus as one mutable store: projection, semantic preparation, the single
    publication transaction, and the run that strings them together. */
module CoherentIndex {
  import opened CorpusTables
  import opened DeltaPublication
  import opened SemanticPreparation
  import S = SourceIndexing

  datatype Status = Building | Complete | Failed

  datatype Generation = Generation(status: Status, build: Option<nat>, messageCount: nat, aliasCount: nat)

  datatype Build = Build(status: Status, generation: nat, embedded: nat)

  datatype Refusal =
    | ConflictingObservations
    | ChunkerRejected
    | EmbeddingFailed
    | OccurrenceMoved
    | PublicationIncomplete

  datatype Preparation = Prepared(build: nat, embedded: nat) | Unprepared(reason: Refusal)

  datatype Outcome = NothingToDo | NoSourceSucceeded | Refused(reason: Refusal) | Published(generation: nat)

  // ---------------------------------------------------------------- the permanent relations

  datatype Database = Database(
    messages: MessageTable,
    aliases: AliasTable,
    chunks: ChunkTable,
    vectors: set<VectorKey>,
    generations: map<nat, Generation>,
    builds: map<nat, Build>,
    selected: Option<nat>,
    checkpoints: map<Source, S.Checkpoint>)
  {
    /** The relations a reader of the selected corpus sees, and where the next run resumes. */
    function Visible(): (MessageTable, AliasTable, ChunkTable, Option<nat>, map<Source, S.Checkpoint>) {
      (messages, aliases, chunks, selected, checkpoints)
    }

    /** The selection is absent or names a complete generation with a complete build; then every
        eligible message is chunked under its current digest, every such chunk has a vector,
        and the recorded counts are those of the tables. */
    ghost predicate Coherent() {
      selected.Some? ==>
        && selected.value in generations && generations[selected.value].build.Some?
        && generations[selected.value].build.value in builds
        && generations[selected.value] == Finished(generations[selected.value].build.value, messages, aliases)
        && builds[generations[selected.value].build.value]
             == Build(Complete, selected.value, EmbeddedCount(messages, chunks))
        && Covered(messages, chunks, vectors)
    }

    ghost predicate Valid(c: Contents) {
      Built(messages, aliases, c) && ChunksSound(chunks, messages) && Coherent()
    }
  }

  /** The row of a generation published over these tables. */
  function Finished(build: nat, messages: MessageTable, aliases: AliasTable): (g: Generation)
    ensures g.status == Complete && g.build == Some(build)
  {
    Generation(Complete, Some(build), |messages|, |aliases|)
  }

  function EmbeddedCount(messages: MessageTable, chunks: ChunkTable): nat {
    |MatchingChunks(chunks, messages)|
  }

  ghost predicate Covered(messages: MessageTable, chunks: ChunkTable, vectors: set<VectorKey>) {
    && ChunkedMessages(MatchingChunks(chunks, messages)) == EligibleMessages(messages)
    && Unmapped(MatchingChunks(chunks, messages), vectors) == {}
  }

  ghost predicate Extends<T>(before: map<nat, T>, after: map<nat, T>) {
    forall i :: i in before ==> i in after && after[i] == before[i]
  }

  /** `after` differs from `before` only by new bookkeeping rows and new vectors. */
  ghost predicate OnlyBookkeeping(before: Database, after: Database) {
    && after.Visible() == before.Visible() && before.vectors <= after.vectors
    && Extends(before.generations, after.generations) && Extends(before.builds, after.builds)
  }

  /** The generation and build a refused run began are recorded as failed. */
  ghost predicate NothingLeftBuilding(before: Database, after: Database) {
    && (forall g :: g in after.generations && g !in before.generations ==> after.generations[g].status == Failed)
    && (forall b :: b in after.builds && b !in before.builds ==> after.builds[b].status == Failed)
  }

  lemma BookkeepingKeepsValid(before: Database, after: Database, c: Contents)
    requires before.Valid(c) && OnlyBookkeeping(before, after)
    ensures after.Valid(c)
  {
    hide MatchingChunks, ChunkedMessages, EligibleMessages, Finished, EmbeddedCount, Built, ChunksSound;
    if before.selected.Some? {
      assert after.generations[before.selected.value] == before.generations[before.selected.value];
      MoreVectorsKeepMapped(MatchingChunks(before.chunks, before.messages), before.vectors, after.vectors);
    }
  }

  lemma BookkeepingAddsUp(first: Database, second: Database, third: Database)
    requires OnlyBookkeeping(first, second) && OnlyBookkeeping(second, third)
    ensures OnlyBookkeeping(first, third)
    ensures third.Visible() == second.Visible() == first.Visible()
  {
  }

  lemma NothingChanged(db: Database)
    ensures OnlyBookkeeping(db, db)
  {
  }

  lemma VectorsAdded(before: Database, db: Database, after: Database)
    requires OnlyBookkeeping(before, db) && db.vectors <= after.vectors && after == db.(vectors := after.vectors)
    ensures OnlyBookkeeping(before, after)
  {
  }

  /** What the selected generation and its build record: one message for every message observed, one
      alias for every occurrence, and one embedded chunk for every chunk of a message's present text. */
  lemma SelectedCounts(db: Database, c: Contents)
    requires db.Valid(c) && db.selected.Some?
    ensures db.selected.value in db.generations
    ensures var g := db.generations[db.selected.value];
            && g.status == Complete && g.messageCount == |Owners(c)| && g.aliasCount == |c|
            && g.build.Some? && g.build.value in db.builds
            && var b := db.builds[g.build.value];
            && b.status == Complete && b.generation == db.selected.value
            && b.embedded == |CurrentChunks(db.messages, db.chunks)|
  {
    hide ChunksSound, Covered, Built, Conflicted, WithoutCwd, RebuiltMessages, Owners, MatchingChunks, CurrentChunks;
    BuiltSizes(db.messages, db.aliases, c);
    CurrentIsMatching(db.messages, db.chunks);
  }

  lemma BuiltSizes(messages: MessageTable, aliases: AliasTable, c: Contents)
    requires Built(messages, aliases, c)
    ensures |messages| == |Owners(c)| && |aliases| == |c|
  {
    hide Conflicted, FirstOccurrence, Owners;
    BuiltGivesPoints(messages, aliases, c);
    assert messages.Keys == Owners(c);
    assert aliases.Keys == c.Keys;
    assert |messages| == |messages.Keys| && |aliases| == |aliases.Keys| && |c| == |c.Keys|;
  }

  /** No source was read, appended to or removed: `successful_changes` is zero. */
  predicate NoChanges(st: Stage) {
    st.replaced == {} && st.appended == {} && st.removed == {}
  }

  // ---------------------------------------------------------------- the temporary relations

  datatype Workspace = Workspace(
    affected: set<MessageKey>,
    aliases: map<AliasKey, CandidateAlias>,
    messages: MessageTable,
    rechunked: set<MessageKey>,
    chunks: ChunkTable,
    removed: set<Source>,
    checkpoints: map<Source, S.Checkpoint>)

  function Pending(db: Database, w: Workspace): Candidate {
    Candidate(db.messages, db.chunks, w.affected, w.messages)
  }

  /** The workspace holds the projection of `st` over the published tables. */
  ghost predicate Projects(db: Database, w: Workspace, st: Stage) {
    && w.affected == Affected(db.aliases, st)
    && w.aliases == CandidateAliases(db.aliases, st)
    && w.messages == CandidateMessages(Observations(db.messages, w.aliases, st))
  }

  lemma ProjectsKept(db: Database, w: Workspace, db': Database, w': Workspace, st: Stage)
    requires Projects(db, w, st) && db'.Visible() == db.Visible()
    requires w'.(rechunked := {}, chunks := map[]) == w.(rechunked := {}, chunks := map[])
    ensures Projects(db', w', st)
    ensures Pending(db', w') == Pending(db, w)
  {
    hide Affected, CandidateAliases, Observations, CandidateMessages;
    assert w'.affected == w.affected && w'.aliases == w.aliases && w'.messages == w.messages;
  }

  /** The candidate a stage will give over these tables. */
  ghost function CandidateOf(db: Database, st: Stage): Candidate {
    Candidate(db.messages, db.chunks, Affected(db.aliases, st),
              CandidateMessages(Observations(db.messages, CandidateAliases(db.aliases, st), st)))
  }

  lemma PendingIsCandidate(db: Database, w: Workspace, st: Stage)
    requires Projects(db, w, st)
    ensures Pending(db, w) == CandidateOf(db, st)
  {
    hide Affected, CandidateAliases, Observations, CandidateMessages;
  }

  /** The workspace holds every chunk the candidate needs. */
  ghost predicate Chunks(db: Database, w: Workspace, chunker: string -> seq<string>) {
    && ChunkerAccepted(Pending(db, w), chunker)
    && w.rechunked == Pending(db, w).Requiring()
    && w.chunks == Pending(db, w).Staged(chunker)
  }

  lemma ChunksKept(db: Database, w: Workspace, db': Database, chunker: string -> seq<string>)
    requires Chunks(db, w, chunker) && db'.messages == db.messages && db'.chunks == db.chunks
    ensures Pending(db', w) == Pending(db, w) && Chunks(db', w, chunker)
  {
    hide Candidate.Requiring, Candidate.Staged, ChunkerAccepted;
  }

  /** Every eligible message is chunked, so the consistency check made before embedding holds. */
  lemma ViewIsFullyChunked(db: Database, w: Workspace, chunker: string -> seq<string>)
    requires Pending(db, w).Fits() && Chunks(db, w, chunker)
    ensures |ChunkedMessages(Pending(db, w).View(w.chunks))| == |Pending(db, w).ViewMessages()|
  {
    hide ChunkedMessages, Candidate.View, Candidate.ViewMessages, Candidate.Fits, Candidate.Requiring,
      Candidate.Staged, ChunkerAccepted;
    ViewCoversEligible(Pending(db, w), chunker);
  }

  // ---------------------------------------------------------------- the publication transaction

  /** The unique occurrence index refuses some inserted occurrence. */
  predicate Clashes(db: Database, w: Workspace) {
    RemainingAliases(db.aliases, w.affected).Keys * w.aliases.Keys != {}
  }

  /** The relations after every statement of the transaction up to its guard. */
  function Applied(db: Database, w: Workspace): Database {
    db.(messages := (db.messages - w.affected) + w.messages,
        aliases := RemainingAliases(db.aliases, w.affected) + Inserted(w.aliases),
        chunks := WithoutMessages(WithoutMessages(db.chunks, w.affected), w.rechunked) + w.chunks,
        checkpoints := (db.checkpoints - w.removed) + w.checkpoints)
  }

  /** The relations after the statements that follow a guard that held. */
  function Selected(db: Database, generation: nat, build: nat, embedded: nat): Database {
    db.(builds := db.builds[build := Build(Complete, generation, embedded)],
        generations := db.generations[generation := Finished(build, db.messages, db.aliases)],
        selected := Some(generation),
        vectors := Referenced(db.chunks, db.vectors))
  }

  lemma ClashExactlyAsMoved(db: Database, w: Workspace, st: Stage)
    requires Projects(db, w, st)
    ensures Clashes(db, w) <==> OccurrenceClash(db.aliases, st)
  {
    hide RemainingAliases, Affected, CandidateAliases, Observations, CandidateMessages;
    var rest := RemainingAliases(db.aliases, w.affected);
    if k :| k in rest.Keys * w.aliases.Keys { assert k in rest && k in w.aliases; }
    if OccurrenceClash(db.aliases, st) { var k :| k in rest && k in w.aliases; assert k in rest.Keys * w.aliases.Keys; }
  }

  /** Applying a fully chunked and mapped candidate passes the guard, and what remains is sound
      and covered. */
  lemma {:induction false} AppliedIsCovered(db: Database, w: Workspace, chunker: string -> seq<string>)
    requires Pending(db, w).Fits() && Chunks(db, w, chunker)
    requires Unmapped(Pending(db, w).View(w.chunks), db.vectors) == {}
    ensures var a := Applied(db, w);
            && JointlyComplete(a.messages, a.chunks, a.vectors, |Pending(db, w).View(w.chunks)|)
            && EmbeddedCount(a.messages, a.chunks) == |Pending(db, w).View(w.chunks)|
            && ChunksSound(a.chunks, a.messages)
            && Covered(a.messages, a.chunks, a.vectors)
  {
    hide ChunksSound, Candidate.View, Candidate.Requiring, Candidate.Staged, Candidate.ViewMessages, MatchingChunks,
      ChunkedMessages, EligibleMessages, ChunkerAccepted, Unmapped, Mapped, Referenced, RemainingAliases, Inserted,
      WithoutMessages;
    var p, a := Pending(db, w), Applied(db, w);
    assert a.messages == p.Projected() && a.chunks == p.PublishedChunks(p.Staged(chunker));
    GuardHolds(p, chunker, db.vectors);
    PublishedChunksSound(p, chunker);
  }

  /** Applying a fully chunked candidate gives every message the chunks of its text. */
  lemma AppliedIsChunked(db: Database, w: Workspace, st: Stage, chunker: string -> seq<string>, generation: nat,
      build: nat, embedded: nat)
    requires Projects(db, w, st) && Pending(db, w).Fits() && Chunks(db, w, chunker)
    ensures var a := Selected(Applied(db, w), generation, build, embedded);
            forall m :: Rechunked(db.messages, db.chunks, Affected(db.aliases, st), a.messages, a.chunks, chunker, m)
  {
    hide ChunksSound, Candidate.Requiring, Candidate.Staged, ChunkerAccepted, WithoutMessages, RemainingAliases,
        Inserted,
      Rechunked, Candidate.Fits, Affected, CandidateAliases, Observations, CandidateMessages, Finished, Referenced;
    var p, a := Pending(db, w), Applied(db, w);
    assert a.messages == p.Projected() && a.chunks == p.PublishedChunks(p.Staged(chunker));
    forall m ensures Rechunked(db.messages, db.chunks, w.affected, a.messages, a.chunks, chunker, m) {
      PublishedChunksAre(p, chunker, m);
    }
  }

  /** Applying the literal delta refines the rebuild. */
  lemma {:induction false} AppliedIsBuilt(db: Database, w: Workspace, st: Stage, c: Contents)
    requires Projects(db, w, st) && Built(db.messages, db.aliases, c)
    requires !Conflicted(NewContents(c, st)) && !Clashes(db, w)
    ensures Built(Applied(db, w).messages, Applied(db, w).aliases, NewContents(c, st))
  {
    hide Built, Conflicted, NewContents, RemainingAliases, Inserted, WithoutMessages, Affected, CandidateAliases,
      Observations, CandidateMessages, OccurrenceClash, Clashes;
    ClashExactlyAsMoved(db, w, st);
    DeltaRefinesRebuild(db.messages, db.aliases, c, st);
    assert PublishedMessages(db.messages, db.aliases, st) == Applied(db, w).messages;
    assert PublishedAliases(db.aliases, st) == Applied(db, w).aliases;
  }

  lemma CollectedExactly(chunks: ChunkTable, vectors: set<VectorKey>)
    ensures forall v :: v in Referenced(chunks, vectors)
              <==> v in vectors && exists k :: k in chunks && v.profile == k.profile && v.input == chunks[k].input
  {
    forall v | v in vectors && exists k :: k in chunks && v.profile == k.profile && v.input == chunks[k].input
      ensures v in Referenced(chunks, vectors)
    {
      var k :| k in chunks && v.profile == k.profile && v.input == chunks[k].input;
      assert v == VectorKey(k.profile, chunks[k].input);
    }
  }

  /** Selecting what was just applied, collecting the vector pool included, leaves a valid corpus. */
  lemma SelectedIsValid(db: Database, generation: nat, build: nat, embedded: nat, c: Contents)
    requires Built(db.messages, db.aliases, c) && ChunksSound(db.chunks, db.messages)
    requires embedded == EmbeddedCount(db.messages, db.chunks)
    requires Covered(db.messages, db.chunks, db.vectors)
    ensures Selected(db, generation, build, embedded).Valid(c)
    // the pool keeps exactly the vectors some chunk refers to
    ensures forall v :: v in Selected(db, generation, build, embedded).vectors
              <==> v in db.vectors
                   && exists k :: k in db.chunks && v.profile == k.profile && v.input == db.chunks[k].input
  {
    CollectedExactly(db.chunks, db.vectors);
    hide Built, ChunksSound, EmbeddedCount, Referenced, Finished, MatchingChunks, ChunkedMessages, EligibleMessages,
        Unmapped;
    CollectionKeepsMapped(db.chunks, db.messages, db.vectors);
  }

  // ---------------------------------------------------------------- the index owner

  class CorpusIndex {
    var db: Database
    var work: Workspace
    var queue: Queue

    // every source's latest staged rows, over all published runs
    ghost var contents: Contents

    ghost predicate Valid()
      reads this
    {
      db.Valid(contents)
    }

    constructor ()
      ensures Valid() && contents == map[] && db == Database(map[], map[], map[], {}, map[], map[], None, map[])
    {
      db := Database(map[], map[], map[], {}, map[], map[], None, map[]);
      work := Workspace({}, map[], map[], {}, map[], {}, map[]);
      queue, contents := map[], map[];
      new;
      assert Owners(map[]) == {};
      assert RebuiltMessages(map[]) == map[];
    }

    // -------------------------------------------------------------- projection

    /** Materialise the affected rows of one refresh, or report a conflict between observations. */
    method CreateCandidateProjection(st: Stage, checkpoints: map<Source, S.Checkpoint>) returns (conflict: bool)
      requires Valid()
      modifies `work
      ensures work.removed == st.removed && work.checkpoints == checkpoints
      ensures conflict <==> Conflicted(NewContents(contents, st))
      ensures !conflict ==> Projects(db, work, st) && Pending(db, work).Fits()
    {
      hide Built, Database.Coherent, Affected, CandidateAliases, Observations, CandidateMessages, ConflictSeen,
          Conflicted,
        NewContents, ChunksSound;
      work := Workspace(Affected(db.aliases, st), CandidateAliases(db.aliases, st), map[], {}, map[], st.removed,
          checkpoints);
      var observations := Observations(db.messages, work.aliases, st);
      conflict := ConflictSeen(observations);
      ConflictCheckIsComplete(db.messages, db.aliases, contents, st);
      if !conflict {
        work := work.(messages := CandidateMessages(observations));
        CandidateFitsTables(db.messages, db.aliases, contents, st);
      }
    }

    // -------------------------------------------------------------- preparation

    /** Chunk every message that needs it, message by message. */
    method StageCandidateChunks(chunker: string -> seq<string>) returns (ok: bool)
      modifies `work
      ensures work.(rechunked := {}, chunks := map[]) == old(work).(rechunked := {}, chunks := map[])
      ensures ok <==> ChunkerAccepted(Pending(db, work), chunker)
      ensures ok ==> Chunks(db, work, chunker)
      // every message that required chunks has exactly the passages of its text
      ensures ok ==> work.rechunked == Pending(db, work).Requiring()
      ensures ok ==> forall m, text :: m in work.rechunked && HasText(Pending(db, work), m, text) ==>
        ChunkedInto(work.chunks, m, text, chunker(text))
    {
      hide Candidate.Requiring, Candidate.Staged, Candidate.StagedFor, Candidate.MessageChunks, Candidate.TextOf,
          Accepts, ChunkedInto, HasText;
      var c := Pending(db, work);
      var waiting := c.Requiring();
      work := work.(rechunked := {}, chunks := map[]);
      StageAll(c, chunker);
      while waiting != {}
        invariant Pending(db, work) == c
        invariant work.(rechunked := {}, chunks := map[]) == old(work).(rechunked := {}, chunks := map[])
        invariant waiting <= c.Requiring() && work.rechunked == c.Requiring() - waiting
        invariant forall m :: m in work.rechunked ==> Accepts(chunker(c.TextOf(m)))
        invariant work.chunks == c.StagedFor(work.rechunked, chunker)
        decreases |waiting|
      {
        var m :| m in waiting;
        var passages := chunker(c.TextOf(m));
        if !Accepts(passages) {
          return false;
        }
        StageOneMore(c, chunker, work.rechunked, m);
        waiting := waiting - {m};
        work := work.(rechunked := work.rechunked + {m}, chunks := work.chunks + c.MessageChunks(m, passages));
      }
      assert work.rechunked == c.Requiring();
      forall m, text | m in work.rechunked && HasText(c, m, text) {
        StagedIntoPassages(c, chunker, m, text);
      }
      return true;
    }

    /** Prepare chunks and reusable vectors for a candidate without selecting them.  Embedding may
        fail on any batch; batches may be drained in any order. */
    method PrepareCandidateSemantics(generation: nat, chunker: string -> seq<string>,
        embedFails: set<Digest> -> bool, batchSize: nat)
      returns (r: Preparation)
      requires Pending(db, work).Fits() && batchSize > 0
      modifies `db, `work, `queue
      ensures OnlyBookkeeping(old(db), db) && db.generations == old(db).generations
      ensures work.(rechunked := {}, chunks := map[]) == old(work).(rechunked := {}, chunks := map[])
      ensures r.Unprepared? ==>
        && (r.reason == ChunkerRejected <==> !ChunkerAccepted(Pending(db, work), chunker))
        && (r.reason == ChunkerRejected || r.reason == EmbeddingFailed)
        && (r.reason == EmbeddingFailed ==> exists batch :: batch != {} && embedFails(batch))
        && (forall b :: b in db.builds && b !in old(db).builds ==> db.builds[b].status == Failed)
      ensures r.Prepared? ==>
        && r.build !in old(db).builds && db.builds.Keys == old(db).builds.Keys + {r.build}
        && Chunks(db, work, chunker)
        && r.embedded == |Pending(db, work).View(work.chunks)|
        && Unmapped(Pending(db, work).View(work.chunks), db.vectors) == {}
    {
      hide ChunksSound, ChunkerAccepted, ChunkedMessages, Unmapped, Candidate.View, Candidate.Requiring,
        Candidate.Staged, Candidate.ViewMessages, OnlyBookkeeping, Candidate.Fits, QueueOf, Chunks, Extends,
        Database.Visible;
      var build := BeginBuild(generation);
      var chunked := StageCandidateChunks(chunker);
      if !chunked {
        FailBuild(old(db), generation, build);
        return Unprepared(ChunkerRejected);
      }
      ghost var before := db;
      var view := Pending(db, work).View(work.chunks);
      ViewIsFullyChunked(db, work, chunker);
      assert |ChunkedMessages(view)| == |Pending(db, work).ViewMessages()|;
      var embedded := EmbedView(view, embedFails, batchSize);
      VectorsAdded(old(db), before, db);
      if !embedded {
        FailBuild(old(db), generation, build);
        return Unprepared(EmbeddingFailed);
      }
      ChunksKept(before, work, db, chunker);
      return Prepared(build, |view|);
    }

    /** Insert the run's build row. */
    method BeginBuild(generation: nat) returns (build: nat)
      modifies `db
      ensures OnlyBookkeeping(old(db), db) && build !in old(db).builds && db.generations == old(db).generations
      ensures db.builds.Keys == old(db).builds.Keys + {build}
      ensures db.messages == old(db).messages && db.chunks == old(db).chunks
    {
      build := FreshId(db.builds.Keys);
      db := db.(builds := db.builds[build := Build(Building, generation, 0)]);
    }

    /** Mark the run's build as failed. */
    method FailBuild(ghost before: Database, generation: nat, build: nat)
      requires OnlyBookkeeping(before, db) && build !in before.builds && build in db.builds
      modifies `db
      ensures OnlyBookkeeping(before, db) && db.generations == old(db).generations
      ensures db.builds.Keys == old(db).builds.Keys && db.builds[build].status == Failed
      ensures db.messages == old(db).messages && db.chunks == old(db).chunks
    {
      db := db.(builds := db.builds[build := Build(Failed, generation, 0)]);
    }

    /** Queue the passages of the view that have no vector and drain the queue batch by batch.
        Completed units and queued units always add up to the whole view. */
    method EmbedView(view: ChunkTable, embedFails: set<Digest> -> bool, batchSize: nat) returns (ok: bool)
      requires batchSize > 0
      modifies `db, `queue
      ensures old(db).vectors <= db.vectors && db == old(db).(vectors := db.vectors)
      // nothing else is embedded
      ensures forall v :: v in db.vectors ==>
        v in old(db).vectors || exists k :: k in view && v == VectorKey(PROFILE_ID, view[k].input)
      ensures if ok then Unmapped(view, db.vectors) == {}
              else exists batch ::
                batch != {} && |batch| <= batchSize && batch <= QueueOf(view, old(db).vectors).Keys && embedFails(batch)
    {
      hide QueueOf, Units, Part, Mapped, Unmapped;
      queue := QueueOf(view, db.vectors);
      var total := |view|;
      PartOfAll(queue);
      var queued := BatchUnits(queue.Keys);
      var completed := total - queued;
      QueuedUnitsAreUnmapped(view, db.vectors);
      MappedAndUnmapped(view, db.vectors);
      while completed < total
        invariant queue == QueueOf(view, db.vectors)
        invariant completed + Units(queue) == total == |view|
        invariant completed == |Mapped(view, db.vectors)|
        invariant old(db).vectors <= db.vectors && db == old(db).(vectors := db.vectors)
        invariant queue.Keys <= QueueOf(view, old(db).vectors).Keys
        invariant forall v :: v in db.vectors ==>
          v in old(db).vectors || exists k :: k in view && v == VectorKey(PROFILE_ID, view[k].input)
        decreases |queue|
      {
        // the queue is never found empty before every chunk is mapped
        if queue.Keys == {} { UnitsOfNothing(queue); assert false; }
        var batch :| batch <= queue.Keys && batch != {} && |batch| <= batchSize by {
          var d :| d in queue.Keys;
          assert {d} <= queue.Keys && |{d}| == 1;
        }
        if embedFails(batch) {
          return false;
        }
        DrainBatch(view, db.vectors, batch);
        QueuedInputs(view, db.vectors, batch);
        UnitsSplit(queue, batch);
        var units := BatchUnits(batch);
        db := db.(vectors := db.vectors + VectorKeys(batch));
        assert |queue.Keys - batch| < |queue.Keys| by { assert queue.Keys - batch < queue.Keys; }
        queue := queue - batch;
        completed := completed + units;
      }
      MappedAndUnmapped(view, db.vectors);
      return true;
    }

    /** An identity not yet taken, as an identity column gives one. */
    static method FreshId(taken: set<nat>) returns (id: nat)
      ensures id !in taken
    {
      var rest := taken;
      id := 0;
      while rest != {}
        invariant rest <= taken
        invariant forall t :: t in taken && t !in rest ==> t < id
        decreases |rest|
      {
        var t :| t in rest;
        rest := rest - {t};
        if t >= id { id := t + 1; }
      }
    }

    /** `sum(mapped_units)` over the rows of one batch. */
    method BatchUnits(batch: set<Digest>) returns (units: nat)
      requires batch <= queue.Keys
      ensures units == Units(Part(queue, batch))
    {
      var rest := batch;
      units := 0;
      while rest != {}
        invariant rest <= batch
        invariant units + Units(Part(queue, rest)) == Units(Part(queue, batch))
        decreases |rest|
      {
        var d :| d in rest;
        UnitsRemove(Part(queue, rest), d);
        assert Part(queue, rest) - {d} == Part(queue, rest - {d});
        units, rest := units + queue[d], rest - {d};
      }
      assert Part(queue, {}) == map[];
    }

    // -------------------------------------------------------------- publication

    /** Publish the literal delta and the prepared semantic build in one transaction: either
        every statement takes effect or none does. */
    method PublishCoherentCandidate(generation: nat, build: nat, embedded: nat) returns (refusal: Option<Refusal>)
      modifies `db
      ensures refusal == if old(Clashes(db, work)) then Some(OccurrenceMoved)
                         else if !JointlyComplete(old(Applied(db, work)).messages, old(Applied(db, work)).chunks,
                                  old(db).vectors, embedded)
                         then Some(PublicationIncomplete)
                         else None
      ensures db == if refusal.Some? then old(db) else Selected(old(Applied(db, work)), generation, build, embedded)
    {
      hide RemainingAliases, Inserted, WithoutMessages, JointlyComplete, Finished, Referenced;
      var before := db;
      db := db.(aliases := RemainingAliases(db.aliases, work.affected));
      db := db.(messages := db.messages - work.affected);
      db := db.(chunks := WithoutMessages(db.chunks, work.affected));  // ON DELETE CASCADE
      db := db.(messages := db.messages + work.messages);
      if db.aliases.Keys * work.aliases.Keys != {} {
        db := before;
        return Some(OccurrenceMoved);
      }
      db := db.(aliases := db.aliases + Inserted(work.aliases));
      db := db.(checkpoints := db.checkpoints - work.removed);
      db := db.(checkpoints := db.checkpoints + work.checkpoints);
      db := db.(chunks := WithoutMessages(db.chunks, work.rechunked));
      db := db.(chunks := db.chunks + work.chunks);
      if !JointlyComplete(db.messages, db.chunks, db.vectors, embedded) {
        db := before;
        return Some(PublicationIncomplete);
      }
      db := db.(builds := db.builds[build := Build(Complete, generation, embedded)]);
      db := db.(generations := db.generations[generation := Finished(build, db.messages, db.aliases)]);
      db := db.(selected := Some(generation));
      db := db.(vectors := Referenced(db.chunks, db.vectors));
      return None;
    }

    // -------------------------------------------------------------- one run

    /** The candidate of one run: project, prepare, publish, and record what failed. */
    method PublishCandidate(st: Stage, checkpoints: map<Source, S.Checkpoint>, chunker: string -> seq<string>,
        embedFails: set<Digest> -> bool, batchSize: nat)
      returns (outcome: Outcome)
      requires Valid() && batchSize > 0
      modifies this
      ensures Valid() && (outcome.Refused? || outcome.Published?)
      ensures outcome.Refused? ==>
        && OnlyBookkeeping(old(db), db) && contents == old(contents)
        && outcome.reason != PublicationIncomplete
        && (outcome.reason == ConflictingObservations <==> Conflicted(NewContents(contents, st)))
        && (outcome.reason == ChunkerRejected
            <==> !Conflicted(NewContents(contents, st)) && !ChunkerAccepted(CandidateOf(old(db), st), chunker))
        && (outcome.reason == EmbeddingFailed ==> exists batch :: batch != {} && embedFails(batch))
        && (outcome.reason == OccurrenceMoved ==> OccurrenceClash(old(db).aliases, st))
        && NothingLeftBuilding(old(db), db)
      ensures outcome.Published? ==>
        && db.checkpoints == (old(db).checkpoints - st.removed) + checkpoints
        && contents == NewContents(old(contents), st) && !Conflicted(contents) && !OccurrenceClash(old(db).aliases, st)
        && ChunkerAccepted(CandidateOf(old(db), st), chunker)
        && (forall m :: Rechunked(old(db).messages, old(db).chunks, Affected(old(db).aliases, st), db.messages,
                                  db.chunks, chunker, m))
        && db.selected == Some(outcome.generation) && outcome.generation !in old(db).generations
    {
      hide NothingLeftBuilding, Rechunked, Affected, Built, ChunksSound, Conflicted, NewContents, OccurrenceClash,
        JointlyComplete, Chunks, Projects, Covered,
        Candidate.View, Candidate.Fits, Unmapped, Database.Valid, Clashes, Applied, Selected, ChunkerAccepted,
        OnlyBookkeeping;
      var generation := BeginGeneration();
      BookkeepingKeepsValid(old(db), db, contents);
      var conflict := CreateCandidateProjection(st, checkpoints);
      if conflict {
        RecordFailure(old(db), generation, None);
        BookkeepingKeepsValid(old(db), db, contents);
        return Refused(ConflictingObservations);
      }
      ghost var begun, projected := db, work;
      PendingIsCandidate(begun, projected, st);
      var prepared := PrepareCandidateSemantics(generation, chunker, embedFails, batchSize);
      BookkeepingAddsUp(old(db), begun, db);
      assert Pending(db, work) == Pending(begun, projected) == CandidateOf(old(db), st);
      BookkeepingKeepsValid(old(db), db, contents);
      if prepared.Unprepared? {
        RecordFailure(old(db), generation, None);
        BookkeepingKeepsValid(old(db), db, contents);
        return Refused(prepared.reason);
      }
      ProjectsKept(begun, projected, db, work, st);
      Foreseen(st, prepared.embedded, generation, prepared.build, chunker);
      AppliedIsChunked(db, work, st, chunker, generation, prepared.build, prepared.embedded);
      var refusal := PublishCoherentCandidate(generation, prepared.build, prepared.embedded);
      if refusal.Some? {
        RecordFailure(old(db), generation, Some(prepared.build));
        BookkeepingKeepsValid(old(db), db, contents);
        return Refused(refusal.value);
      }
      contents := NewContents(contents, st);
      return Published(generation);
    }

    /** Insert the run's generation row. */
    method BeginGeneration() returns (generation: nat)
      modifies `db
      ensures OnlyBookkeeping(old(db), db) && generation !in old(db).generations && db.Visible() == old(db).Visible()
      ensures db.builds == old(db).builds && db.generations.Keys == old(db).generations.Keys + {generation}
    {
      generation := FreshId(db.generations.Keys);
      db := db.(generations := db.generations[generation := Generation(Building, None, 0, 0)]);
    }

    /** Mark the run's generation, and its build once there is one, as failed. */
    method RecordFailure(ghost before: Database, generation: nat, build: Option<nat>)
      requires OnlyBookkeeping(before, db) && generation !in before.generations
      requires db.generations.Keys == before.generations.Keys + {generation}
      requires build.Some? ==> build.value !in before.builds
      requires forall b :: b in db.builds && b !in before.builds && build != Some(b) ==> db.builds[b].status == Failed
      modifies `db
      ensures OnlyBookkeeping(before, db) && db.Visible() == before.Visible()
      ensures NothingLeftBuilding(before, db)
      ensures generation in db.generations && db.generations[generation].status == Failed
    {
      if build.Some? {
        db := db.(builds := db.builds[build.value := Build(Failed, generation, 0)]);
      }
      db := db.(generations := db.generations[generation := Generation(Failed, None, 0, 0)]);
    }

    /** What publishing a prepared candidate will find and leave. */
    lemma Foreseen(st: Stage, embedded: nat, generation: nat, build: nat, chunker: string -> seq<string>)
      requires Valid() && Projects(db, work, st) && Pending(db, work).Fits() && !Conflicted(NewContents(contents, st))
      requires Chunks(db, work, chunker)
      requires embedded == |Pending(db, work).View(work.chunks)|
      requires Unmapped(Pending(db, work).View(work.chunks), db.vectors) == {}
      ensures Clashes(db, work) <==> OccurrenceClash(db.aliases, st)
      ensures ChunkerAccepted(Pending(db, work), chunker)
      ensures JointlyComplete(Applied(db, work).messages, Applied(db, work).chunks, db.vectors, embedded)
      ensures var selected := Selected(Applied(db, work), generation, build, embedded);
              selected.selected == Some(generation)
              && selected.checkpoints == (db.checkpoints - work.removed) + work.checkpoints
      ensures !Clashes(db, work) ==>
        Selected(Applied(db, work), generation, build, embedded).Valid(NewContents(contents, st))
    {
      hide Built, ChunksSound, Conflicted, NewContents, OccurrenceClash, JointlyComplete, Projects, Covered,
          Candidate.Staged,
        Candidate.Requiring, ChunkerAccepted, Candidate.View, Candidate.Fits, Unmapped, Clashes, EmbeddedCount,
        Referenced, Finished, RemainingAliases, Inserted, WithoutMessages;
      ClashExactlyAsMoved(db, work, st);
      AppliedIsCovered(db, work, chunker);
      if !Clashes(db, work) {
        AppliedIsBuilt(db, work, st, contents);
        SelectedIsValid(Applied(db, work), generation, build, embedded, NewContents(contents, st));
      }
    }

    /** One index run over what the parse phase staged.  Whatever phase refuses, the published
        messages, occurrences, chunks and selection stay as they were; otherwise they become the
        coherent corpus of the new contents.  The joint-publication guard never fires. */
    method IndexCorpus(st: Stage, checkpoints: map<Source, S.Checkpoint>, failedSources: nat,
        chunker: string -> seq<string>, embedFails: set<Digest> -> bool, batchSize: nat)
      returns (outcome: Outcome)
      requires Valid() && batchSize > 0
      modifies this
      ensures Valid()
      ensures outcome == NothingToDo
         <==> && st.replaced == {} && st.appended == {} && st.removed == {}
              && failedSources == 0 && old(db).selected.Some?
      ensures outcome == NoSourceSucceeded
         <==> st.replaced == {} && st.appended == {} && st.removed == {} && failedSources > 0
      ensures !outcome.Published? ==> OnlyBookkeeping(old(db), db) && contents == old(contents)
      ensures outcome.Published? ==>
        && db.checkpoints == (old(db).checkpoints - st.removed) + checkpoints
        && contents == NewContents(old(contents), st) && !Conflicted(contents) && !OccurrenceClash(old(db).aliases, st)
        && ChunkerAccepted(CandidateOf(old(db), st), chunker)
        && (forall m :: Rechunked(old(db).messages, old(db).chunks, Affected(old(db).aliases, st), db.messages,
                                  db.chunks, chunker, m))
        && db.selected == Some(outcome.generation) && outcome.generation !in old(db).generations
      // the first of these that holds is the reason
      ensures outcome.Refused? ==>
        if Conflicted(NewContents(old(contents), st)) then outcome.reason == ConflictingObservations
        else if !ChunkerAccepted(CandidateOf(old(db), st), chunker) then outcome.reason == ChunkerRejected
        else if outcome.reason == EmbeddingFailed then exists batch :: batch != {} && embedFails(batch)
        else outcome.reason == OccurrenceMoved && OccurrenceClash(old(db).aliases, st)
      ensures outcome.Refused? ==> NothingLeftBuilding(old(db), db)
    {
      hide NothingLeftBuilding, Rechunked, Affected, Database.Valid, Conflicted, NewContents, OccurrenceClash,
          ChunkerAccepted,
          CandidateOf, OnlyBookkeeping;
      if NoChanges(st) && failedSources == 0 && db.selected.Some? {
        NothingChanged(db);
        return NothingToDo;
      }
      if NoChanges(st) && !(db.selected.None? && failedSources == 0) {
        NothingChanged(db);
        return NoSourceSucceeded;
      }
      outcome := PublishCandidate(st, checkpoints, chunker, embedFails, batchSize);
    }
  }
}
