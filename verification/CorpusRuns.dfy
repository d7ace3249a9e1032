/** Whole runs over Antigravity sources: the parse phase over every discovered file, and the
    publication that moves rows and checkpoints together or not at all. */
module CorpusRuns {
  import opened CorpusTables
  import D = DeltaPublication
  import M = SemanticPreparation
  import I = CoherentIndex
  import R = BoundedReader
  import A = Antigravity
  import S = SourceIndexing

  /** The staged columns of one transcript row: message identity, facts, directory and place. */
  type Observer = (Source, A.TranscriptRow) -> Observation

  /** What discovery and `stat` say of one file, and how that compares with its checkpoint. */
  datatype Found = Found(file: R.Bytes, size: nat, sameFile: bool, sameMtime: bool)

  type Held = map<Source, A.Table>
  type Checkpoints = map<Source, S.Checkpoint>
  type Prefixes = map<Source, R.Bytes>
  type Stagings = map<Source, S.Staging>

  function HeldBy(held: Held, s: Source): A.Table {
    if s in held then held[s] else map[]
  }

  function Resumes(checkpoints: Checkpoints, s: Source): Option<S.Checkpoint> {
    if s in checkpoints then Some(checkpoints[s]) else None
  }

  function SeenOf(seen: Prefixes, s: Source): R.Bytes {
    if s in seen then seen[s] else []
  }

  // ---------------------------------------------------------------- the rows of all sources

  function LiftedKeys(held: Held): set<AliasKey> {
    set s, k | s in held && k in held[s] :: AliasKey(s, k.ordinal, k.cls)
  }

  /** The rows of every source as occurrences of messages. */
  function Lifted(held: Held, observe: Observer): Contents {
    map k | k in LiftedKeys(held) :: observe(k.source, held[k.source][A.RowKey(k.ordinal, k.cls)])
  }

  lemma LiftedAt(held: Held, observe: Observer, k: AliasKey)
    ensures k in Lifted(held, observe) <==> A.RowKey(k.ordinal, k.cls) in HeldBy(held, k.source)
    ensures k in Lifted(held, observe) ==>
      Lifted(held, observe)[k] == observe(k.source, held[k.source][A.RowKey(k.ordinal, k.cls)])
  {
    if A.RowKey(k.ordinal, k.cls) in HeldBy(held, k.source) {
      assert k == AliasKey(k.source, A.RowKey(k.ordinal, k.cls).ordinal, A.RowKey(k.ordinal, k.cls).cls);
    }
  }

  // ---------------------------------------------------------------- one parse phase

  function StagedSources(stagings: Stagings): set<Source> {
    set s | s in stagings && stagings[s].Staged?
  }

  function StagedRows(stagings: Stagings): Held {
    map s | s in StagedSources(stagings) :: stagings[s].rows
  }

  function StagedCheckpoints(stagings: Stagings): Checkpoints {
    map s | s in StagedSources(stagings) :: stagings[s].checkpoint
  }

  /** The temporary staging relations after the parse phase. */
  function StageOf(stagings: Stagings, removed: set<Source>, observe: Observer): D.Stage {
    var appended := set s | s in StagedSources(stagings) && stagings[s].disposition.Append?;
    D.Stage(Lifted(StagedRows(stagings), observe), StagedSources(stagings) - appended, appended, removed)
  }

  /** What was checkpointed but is no longer discovered, unless its root could not be fully traversed. */
  function Removed(checkpoints: Checkpoints, discovered: set<Source>, vouched: int -> bool): set<Source> {
    set s | s in checkpoints && s !in discovered && vouched(s.root)
  }

  /** What every source holds once the stagings are published. */
  function HeldAfter(held: Held, stagings: Stagings, removed: set<Source>): Held {
    map s | s in (held.Keys - removed) + StagedSources(stagings) ::
      if s in stagings then S.HeldAfter(HeldBy(held, s), stagings[s]) else HeldBy(held, s)
  }

  function CheckpointsAfter(checkpoints: Checkpoints, stagings: Stagings, removed: set<Source>): Checkpoints {
    (checkpoints - removed) + StagedCheckpoints(stagings)
  }

  function Parses(p: S.Provider, seen: Prefixes): Held
    requires p.limits.Positive()
  {
    map s | s in seen :: S.Expected(p, seen[s])
  }

  function SeenAfter(seen: Prefixes, found: map<Source, Found>, stagings: Stagings,
      removed: set<Source>): Prefixes
    requires stagings.Keys <= found.Keys
  {
    map s | s in (seen.Keys - removed) + StagedSources(stagings) ::
      if s in StagedSources(stagings) then R.Captured(found[s].file, found[s].size) else SeenOf(seen, s)
  }

  /** Publishing the staged rows as one delta leaves what every source holds. */
  lemma {:induction false} StageLifts(held: Held, stagings: Stagings, removed: set<Source>, observe: Observer)
    requires StagedSources(stagings) !! removed
    ensures D.NewContents(Lifted(held, observe), StageOf(stagings, removed, observe))
            == Lifted(HeldAfter(held, stagings, removed), observe)
    ensures StageOf(stagings, removed, observe).removed == removed
  {
    hide Lifted;
    var st := StageOf(stagings, removed, observe);
    var before, after := Lifted(held, observe), Lifted(HeldAfter(held, stagings, removed), observe);
    var new' := D.NewContents(before, st);
    forall k: AliasKey
      ensures k in new' <==> k in after
      ensures k in new' ==> new'[k] == after[k]
    {
      LiftedAt(held, observe, k);
      LiftedAt(StagedRows(stagings), observe, k);
      LiftedAt(HeldAfter(held, stagings, removed), observe, k);
    }
  }

  // ---------------------------------------------------------------- what every source holds

  /** The source is held and checkpointed as one pass over its captured prefix leaves it. */
  ghost predicate CurrentAt(p: S.Provider, held: Held, checkpoints: Checkpoints, seen: Prefixes, s: Source)
    requires p.limits.Positive()
  {
    S.Current(p, HeldBy(held, s), Resumes(checkpoints, s), SeenOf(seen, s))
  }

  ghost predicate AllCurrent(p: S.Provider, held: Held, checkpoints: Checkpoints, seen: Prefixes)
    requires p.limits.Positive()
  {
    && held.Keys == checkpoints.Keys == seen.Keys
    && forall s :: s in held ==> CurrentAt(p, held, checkpoints, seen, s)
  }

  lemma SameSources(p: S.Provider, held: Held, checkpoints: Checkpoints, seen: Prefixes)
    requires p.limits.Positive() && AllCurrent(p, held, checkpoints, seen)
    ensures held.Keys == checkpoints.Keys
  {
  }

  /** The discovered file has only grown since its checkpoint, or is to be read again from zero. */
  ghost predicate Grew(checkpoints: Checkpoints, seen: Prefixes, s: Source, f: Found) {
    S.OnlyGrew(Resumes(checkpoints, s), SeenOf(seen, s), f.file, f.size, f.sameFile, f.sameMtime)
  }

  /** What the staging of a source says of it. */
  ghost predicate Answers(p: S.Provider, held: Held, checkpoints: Checkpoints, s: Source, f: Found,
      ignoreUnknown: bool, r: S.Staging)
    requires p.limits.Positive()
  {
    match r
    case Skipped => s in checkpoints && (f.size <= |f.file| ==> HeldBy(held, s) == S.Expected(p, f.file[..f.size]))
    case Rejected => S.Unindexable(p, f.file, f.size, ignoreUnknown)
    case Staged(_, _, _) => S.Advances(p, HeldBy(held, s), r, f.file, f.size)
  }

  ghost predicate AllAnswer(p: S.Provider, held: Held, checkpoints: Checkpoints, found: map<Source, Found>,
      ignoreUnknown: bool, stagings: Stagings)
    requires p.limits.Positive()
  {
    && stagings.Keys <= found.Keys
    && forall s :: s in stagings ==> Answers(p, held, checkpoints, s, found[s], ignoreUnknown, stagings[s])
  }

  /** Publishing the answers of a parse phase keeps every source current. */
  lemma {:induction false} AllCurrentAfter(p: S.Provider, held: Held, checkpoints: Checkpoints, seen: Prefixes,
      found: map<Source, Found>, ignoreUnknown: bool, stagings: Stagings, removed: set<Source>)
    requires p.limits.Positive() && AllCurrent(p, held, checkpoints, seen)
    requires AllAnswer(p, held, checkpoints, found, ignoreUnknown, stagings) && removed !! found.Keys
    ensures AllCurrent(p, HeldAfter(held, stagings, removed), CheckpointsAfter(checkpoints, stagings, removed),
                       SeenAfter(seen, found, stagings, removed))
  {
    hide S.Current, S.Expected, S.Unindexable;
    var held', checkpoints' := HeldAfter(held, stagings, removed), CheckpointsAfter(checkpoints, stagings, removed);
    var seen' := SeenAfter(seen, found, stagings, removed);
    forall s | s in held' ensures CurrentAt(p, held', checkpoints', seen', s) {
      if s in StagedSources(stagings) {
        assert Answers(p, held, checkpoints, s, found[s], ignoreUnknown, stagings[s]);
      } else {
        assert CurrentAt(p, held, checkpoints, seen, s);
      }
    }
  }

  /** A planned source then holds what its whole file gives, unless it cannot be indexed. */
  lemma PlannedHolds(p: S.Provider, held: Held, checkpoints: Checkpoints, found: map<Source, Found>,
      ignoreUnknown: bool, stagings: Stagings, removed: set<Source>, s: Source)
    requires p.limits.Positive() && held.Keys == checkpoints.Keys
    requires AllAnswer(p, held, checkpoints, found, ignoreUnknown, stagings) && removed !! found.Keys
    requires s in stagings && found[s].size <= |found[s].file|
    ensures var f, held' := found[s], HeldAfter(held, stagings, removed);
            || (s in held' && held'[s] == S.Expected(p, f.file[..f.size]))
            || (S.Unindexable(p, f.file, f.size, ignoreUnknown) && HeldBy(held', s) == HeldBy(held, s))
  {
    hide S.Current, S.Expected, S.Unindexable;
    var f := found[s];
    assert Answers(p, held, checkpoints, s, f, ignoreUnknown, stagings[s]);
    if stagings[s].Staged? {
      S.CurrentIsOneParse(p, S.HeldAfter(HeldBy(held, s), stagings[s]), stagings[s].checkpoint,
          R.Captured(f.file, f.size));
    }
  }

  /** Every other source keeps what it held, or is gone when it is no longer there. */
  lemma OtherHolds(held: Held, checkpoints: Checkpoints, discovered: set<Source>, vouched: int -> bool,
      stagings: Stagings, s: Source)
    requires held.Keys == checkpoints.Keys && s !in stagings
    ensures var held' := HeldAfter(held, stagings, Removed(checkpoints, discovered, vouched));
            if s in discovered || !vouched(s.root) then HeldBy(held', s) == HeldBy(held, s) else s !in held'
  {
  }

  /** A parse phase that neither staged nor rejected a source found every planned one up to date. */
  lemma UpToDate(p: S.Provider, held: Held, checkpoints: Checkpoints, found: map<Source, Found>, ignoreUnknown: bool,
      stagings: Stagings, removed: set<Source>, observe: Observer, s: Source)
    requires p.limits.Positive() && AllAnswer(p, held, checkpoints, found, ignoreUnknown, stagings)
    requires I.NoChanges(StageOf(stagings, removed, observe)) && s in stagings && !stagings[s].Rejected?
    requires found[s].size <= |found[s].file|
    ensures HeldBy(held, s) == S.Expected(p, found[s].file[..found[s].size])
  {
    hide S.Expected, S.Advances, Lifted;
    var st := StageOf(stagings, removed, observe);
    assert s !in st.replaced && s !in st.appended;
    assert Answers(p, held, checkpoints, s, found[s], ignoreUnknown, stagings[s]);
  }

  // ---------------------------------------------------------------- the parse phase

  /** Stage one source from what the published corpus holds of it. */
  method StageOne(p: S.Provider, held: Held, checkpoints: Checkpoints, ghost seen: Prefixes, s: Source, f: Found,
      ignoreUnknown: bool)
    returns (staging: S.Staging)
    requires p.limits.Positive() && AllCurrent(p, held, checkpoints, seen) && Grew(checkpoints, seen, s, f)
    ensures Answers(p, held, checkpoints, s, f, ignoreUnknown, staging)
  {
    hide S.Advances, S.Expected, S.Unindexable, S.OnlyGrew;
    assert CurrentAt(p, held, checkpoints, seen, s);
    var source := new S.AntigravitySource.Resume(p, HeldBy(held, s), Resumes(checkpoints, s), SeenOf(seen, s));
    staging := source.Stage(f.file, f.size, f.sameFile, f.sameMtime, ignoreUnknown);
  }

  /** Every planned source is staged or rejected on its own. */
  method StageSources(p: S.Provider, held: Held, checkpoints: Checkpoints, ghost seen: Prefixes,
      found: map<Source, Found>, blocked: set<Source>, ignoreUnknown: bool)
    returns (stagings: Stagings, failed: nat)
    requires p.limits.Positive() && AllCurrent(p, held, checkpoints, seen)
    requires forall s :: s in found ==> Grew(checkpoints, seen, s, found[s])
    ensures stagings.Keys == found.Keys - blocked
    ensures AllAnswer(p, held, checkpoints, found, ignoreUnknown, stagings)
    ensures failed == 0 <==> forall s :: s in stagings ==> !stagings[s].Rejected?
  {
    hide Answers, AllCurrent, Grew;
    stagings, failed := map[], 0;
    var waiting := found.Keys - blocked;
    while waiting != {}
      invariant waiting <= found.Keys - blocked && stagings.Keys == found.Keys - blocked - waiting
      invariant AllAnswer(p, held, checkpoints, found, ignoreUnknown, stagings)
      invariant failed == 0 <==> forall s :: s in stagings ==> !stagings[s].Rejected?
      decreases |waiting|
    {
      var s :| s in waiting;
      var staging := StageOne(p, held, checkpoints, seen, s, found[s], ignoreUnknown);
      stagings, waiting := stagings[s := staging], waiting - {s};
      if staging.Rejected? {
        failed := failed + 1;
      }
    }
  }

  // ---------------------------------------------------------------- the corpus over many runs

  class AntigravityCorpus {
    const provider: S.Provider
    const observe: Observer
    const index: I.CorpusIndex

    // the transcript rows of every indexed source
    var held: Held
    // the prefix of every indexed source that its last successful run captured
    ghost var seen: Prefixes

    /** The published tables are the coherent corpus of the held rows. */
    ghost predicate Valid()
      reads this, index
    {
      && provider.limits.Positive() && index.Valid()
      && index.contents == Lifted(held, observe)
      && AllCurrent(provider, held, index.db.checkpoints, seen)
    }

    constructor (provider: S.Provider, observe: Observer)
      requires provider.limits.Positive()
      ensures Valid() && fresh(index) && held == map[]
    {
      this.provider, this.observe := provider, observe;
      index := new I.CorpusIndex();
      held, seen := map[], map[];
    }

    /** At all times the tables are the build of one parse of every source's captured prefix. */
    lemma TablesAreOneParse()
      requires Valid()
      ensures Built(index.db.messages, index.db.aliases, Lifted(Parses(provider, seen), observe))
    {
      hide Built, S.Current, S.Expected, Lifted, I.Database.Coherent, M.ChunksSound;
      forall s | s in held ensures held[s] == S.Expected(provider, seen[s]) {
        assert CurrentAt(provider, held, index.db.checkpoints, seen, s);
        S.CurrentIsOneParse(provider, held[s], index.db.checkpoints[s], seen[s]);
      }
      assert held == Parses(provider, seen);
    }

    /** One index run.  What was checkpointed but is no longer discovered is removed, unless its
        root could not be fully traversed.  Unless the run publishes, neither tables nor
        checkpoints nor held rows move; when it does, all of them move together. */
    method RefreshCorpus(found: map<Source, Found>, discovered: set<Source>, vouched: int -> bool,
        blocked: set<Source>, unreadable: nat, ignoreUnknown: bool, chunker: string -> seq<string>,
        embedFails: set<Digest> -> bool, batchSize: nat)
      returns (outcome: I.Outcome)
      requires Valid() && batchSize > 0 && found.Keys <= discovered
      requires forall s :: s in found ==> Grew(index.db.checkpoints, seen, s, found[s])
      modifies this, index
      ensures Valid()
      ensures !outcome.Published? ==>
        index.db.Visible() == old(index.db).Visible() && held == old(held) && seen == old(seen)
      // a run that finds nothing to do finds every planned source up to date
      ensures outcome == I.NothingToDo ==>
        forall s :: s in found && s !in blocked && found[s].size <= |found[s].file| ==>
          HeldBy(held, s) == S.Expected(provider, found[s].file[..found[s].size])
      ensures outcome.Published? ==> index.db.selected == Some(outcome.generation)
      // a planned source then holds what its whole file gives, or cannot be indexed and holds what it held
      ensures outcome.Published? ==> forall s :: s in found && s !in blocked && found[s].size <= |found[s].file| ==>
        || (s in held && held[s] == S.Expected(provider, found[s].file[..found[s].size]))
        || (S.Unindexable(provider, found[s].file, found[s].size, ignoreUnknown)
            && HeldBy(held, s) == HeldBy(old(held), s))
      // every other source keeps what it held, or is gone when it is no longer there
      ensures outcome.Published? ==> forall s :: s !in found || s in blocked ==>
        if s in discovered || !vouched(s.root) then HeldBy(held, s) == HeldBy(old(held), s) else s !in held
    {
      hide Grew, Answers, CurrentAt, Lifted, SeenAfter, StagedCheckpoints, StageOf, S.Expected, S.Unindexable,
        I.CorpusIndex.Valid, D.NewContents, Conflicted, D.OccurrenceClash, M.ChunkerAccepted, I.CandidateOf,
        HeldAfter, HeldBy, AllCurrent;
      SameSources(provider, held, index.db.checkpoints, seen);
      var removed := Removed(index.db.checkpoints, discovered, vouched);
      var stagings, failed := StageSources(provider, held, index.db.checkpoints, seen, found, blocked, ignoreUnknown);
      var st := StageOf(stagings, removed, observe);
      StageLifts(held, stagings, removed, observe);
      AllCurrentAfter(provider, held, index.db.checkpoints, seen, found, ignoreUnknown, stagings, removed);
      forall s | s in stagings && found[s].size <= |found[s].file| {
        PlannedHolds(provider, held, index.db.checkpoints, found, ignoreUnknown, stagings, removed, s);
      }
      forall s | s !in stagings {
        OtherHolds(held, index.db.checkpoints, discovered, vouched, stagings, s);
      }
      if I.NoChanges(st) && failed == 0 {
        forall s | s in stagings && found[s].size <= |found[s].file| {
          UpToDate(provider, held, index.db.checkpoints, found, ignoreUnknown, stagings, removed, observe, s);
        }
      }
      outcome := index.IndexCorpus(st, StagedCheckpoints(stagings), unreadable + failed, chunker, embedFails,
        batchSize);
      if outcome.Published? {
        held := HeldAfter(held, stagings, removed);
        seen := SeenAfter(seen, found, stagings, removed);
      }
    }
  }
}
