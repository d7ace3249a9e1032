/** The semantic half of a candidate: which messages must be chunked again, the virtual view of
    chunks that publication will expose, and the queue of passages without a vector. */
module SemanticPreparation {
  import opened CorpusTables

  const PROFILE_ID := "nemotron-3-embed-8b-bf16:chunks-v1"
  const CHUNKER_ID := "nemotron-token-chunks-768-1024-96:v1"
  const PASSAGE_PREFIX := "passage: "

  /** The primary key of `semantic_chunk_current`. */
  datatype ChunkKey = ChunkKey(message: MessageKey, profile: string, ordinal: nat)

  datatype Chunk = Chunk(chunker: string, source: Digest, passage: string, input: Digest)

  type ChunkTable = map<ChunkKey, Chunk>

  /** The primary key of `embedding_value`; the vector itself is opaque. */
  datatype VectorKey = VectorKey(profile: string, input: Digest)

  type Queue = map<Digest, nat>

  predicate IsSpace(c: char) { c in " \t\n\r" || c as int == 11 || c as int == 12 }

  predicate NonBlank(text: string) { exists i :: 0 <= i < |text| && !IsSpace(text[i]) }

  predicate Eligible(m: MessageKey, row: Row) { m.cls.Prose? && NonBlank(row.facts.prose) }

  function EligibleMessages(messages: MessageTable): set<MessageKey> {
    set m | m in messages && Eligible(m, messages[m])
  }

  /** A chunk of this profile and chunker, made from the text its message has now. */
  predicate Matching(chunks: ChunkTable, messages: MessageTable, k: ChunkKey) {
    && k in chunks && k.profile == PROFILE_ID && chunks[k].chunker == CHUNKER_ID
    && k.message in messages && chunks[k].source == messages[k.message].facts.InputDigest()
  }

  function MatchingChunks(chunks: ChunkTable, messages: MessageTable): ChunkTable {
    map k | k in chunks && Matching(chunks, messages, k) :: chunks[k]
  }

  function ChunkedMessages(chunks: ChunkTable): set<MessageKey> {
    set k | k in chunks :: k.message
  }

  function WithoutMessages(chunks: ChunkTable, gone: set<MessageKey>): ChunkTable {
    map k | k in chunks && k.message !in gone :: chunks[k]
  }

  /** The pool after garbage collection: the vectors some chunk refers to. */
  function Referenced(chunks: ChunkTable, vectors: set<VectorKey>): set<VectorKey> {
    set k | k in chunks && VectorKey(k.profile, chunks[k].input) in vectors :: VectorKey(k.profile, chunks[k].input)
  }

  /** The comparison made inside the publication transaction. */
  predicate JointlyComplete(messages: MessageTable, chunks: ChunkTable, vectors: set<VectorKey>, embedded: nat) {
    var matching := MatchingChunks(chunks, messages);
    && |EligibleMessages(messages)| == |ChunkedMessages(matching)|
    && |matching| == |Mapped(matching, vectors)|
    && |matching| == embedded
  }

  /** Foreign key, and the fact that this chunker is only ever given nonblank prose. */
  ghost predicate ChunksSound(chunks: ChunkTable, messages: MessageTable) {
    forall k :: k in chunks ==>
      && k.message in messages
      && (k.profile == PROFILE_ID && chunks[k].chunker == CHUNKER_ID ==>
            k.message.cls.Prose? && NonBlank(chunks[k].source.text))
  }

  // ---------------------------------------------------------------- the candidate

  /** The published tables together with one candidate projection over them. */
  datatype Candidate = Candidate(messages: MessageTable, chunks: ChunkTable,
                                 affected: set<MessageKey>, rows: MessageTable)
  {
    /** The message table as publication will leave it. */
    function Projected(): MessageTable { (messages - affected) + rows }

    ghost predicate Fits() { rows.Keys <= affected && ChunksSound(chunks, messages) }

    /** `_candidate_messages_requiring_chunks`. */
    function Requiring(): (s: set<MessageKey>) {
      (set m | m in rows && Eligible(m, rows[m]))
      + (set m | m in messages && Eligible(m, messages[m]) && m !in affected
                 && m !in ChunkedMessages(MatchingChunks(chunks, messages)))
    }

    function TextOf(m: MessageKey): string {
      if m in rows then rows[m].facts.prose else if m in messages then messages[m].facts.prose else ""
    }

    /** `semantic_candidate_chunk` once every batch has been chunked. */
    function Staged(chunker: string -> seq<string>): ChunkTable {
      map k | k in StagedKeys(chunker) :: StagedChunk(chunker(TextOf(k.message)), k)
    }

    /** The same relation while only `done` has been chunked. */
    function StagedFor(done: set<MessageKey>, chunker: string -> seq<string>): ChunkTable {
      map k | k in StagedKeys(chunker) && k.message in done :: StagedChunk(chunker(TextOf(k.message)), k)
    }

    function StagedKeys(chunker: string -> seq<string>): set<ChunkKey> {
      set m, i | m in Requiring() && 0 <= i < |chunker(TextOf(m))| :: ChunkKey(m, PROFILE_ID, i)
    }

    /** The rows inserted for one message. */
    function MessageChunks(m: MessageKey, passages: seq<string>): ChunkTable {
      map k | k in (set i | 0 <= i < |passages| :: ChunkKey(m, PROFILE_ID, i)) :: StagedChunk(passages, k)
    }

    function StagedChunk(passages: seq<string>, k: ChunkKey): Chunk {
      var passage := if k.ordinal < |passages| then passages[k.ordinal] else "";
      Chunk(CHUNKER_ID, Sha256(TextOf(k.message)), passage, Sha256(PASSAGE_PREFIX + passage))
    }

    /** The virtual view that preparation counts: staged chunks, and the matching published
        chunks of messages that are neither affected nor rechunked. */
    function View(staged: ChunkTable): ChunkTable {
      var kept := map k | k in chunks && Matching(chunks, messages, k) && k.message !in affected
                          && k.message !in Requiring() :: chunks[k];
      staged + kept
    }

    /** The messages the virtual view counts. */
    function ViewMessages(): set<MessageKey> {
      (set m | m in rows && Eligible(m, rows[m]))
      + (set m | m in messages && Eligible(m, messages[m]) && m !in affected)
    }

    /** The chunk table after publication: the cascade from deleted messages, the delete of
        rechunked messages, and the insert of the staged chunks. */
    function PublishedChunks(staged: ChunkTable): ChunkTable {
      WithoutMessages(WithoutMessages(chunks, affected), Requiring()) + staged
    }
  }

  /** The validation of one message's passages: some, and none of them blank. */
  predicate Accepts(passages: seq<string>) {
    passages != [] && forall i :: 0 <= i < |passages| ==> NonBlank(passages[i])
  }

  predicate ChunkerAccepted(c: Candidate, chunker: string -> seq<string>) {
    forall m :: m in c.Requiring() ==> Accepts(chunker(c.TextOf(m)))
  }

  /** Chunking one more message adds exactly its rows. */
  // ---------------------------------------------------------------- what the guard decides

  lemma SubsetOfSize<T>(a: set<T>, b: set<T>)
    requires a <= b && |a| == |b|
    ensures a == b
  {
    assert b == a + (b - a);
  }

  /** A chunk of this profile and chunker made from the text its message has now. */
  predicate IsCurrent(messages: MessageTable, chunks: ChunkTable, k: ChunkKey) {
    && k in chunks && k.profile == PROFILE_ID && chunks[k].chunker == CHUNKER_ID
    && k.message in messages && chunks[k].source == Sha256(messages[k.message].facts.prose)
  }

  ghost predicate CurrentlyChunked(messages: MessageTable, chunks: ChunkTable, m: MessageKey) {
    exists k :: k in chunks && k.message == m && IsCurrent(messages, chunks, k)
  }

  function CurrentChunks(messages: MessageTable, chunks: ChunkTable): set<ChunkKey> {
    set k | k in chunks && IsCurrent(messages, chunks, k)
  }

  lemma CurrentIsMatching(messages: MessageTable, chunks: ChunkTable)
    ensures MatchingChunks(chunks, messages).Keys == CurrentChunks(messages, chunks)
    ensures |MatchingChunks(chunks, messages)| == |CurrentChunks(messages, chunks)|
    ensures forall m :: CurrentlyChunked(messages, chunks, m)
              <==> m in ChunkedMessages(MatchingChunks(chunks, messages))
  {
    var matching := MatchingChunks(chunks, messages);
    assert |matching| == |matching.Keys|;
    forall m ensures CurrentlyChunked(messages, chunks, m) <==> m in ChunkedMessages(matching) {
      if CurrentlyChunked(messages, chunks, m) {
        var k :| k in chunks && k.message == m && IsCurrent(messages, chunks, k);
        assert k in matching;
      }
    }
  }

  /** The counts compared inside the transaction agree exactly when every eligible message is chunked
      under its present text and every such chunk is mapped, as many as were embedded. */
  lemma GuardMeansCovered(messages: MessageTable, chunks: ChunkTable, vectors: set<VectorKey>, embedded: nat)
    requires ChunksSound(chunks, messages)
    ensures JointlyComplete(messages, chunks, vectors, embedded)
       <==> && (forall m :: m in messages && m.cls == Prose && NonBlank(messages[m].facts.prose)
                      ==> CurrentlyChunked(messages, chunks, m))
            && (forall k :: k in CurrentChunks(messages, chunks)
                      ==> VectorKey(PROFILE_ID, chunks[k].input) in vectors)
            && embedded == |CurrentChunks(messages, chunks)|
  {
    hide CurrentlyChunked, NonBlank, CurrentChunks;
    var matching := MatchingChunks(chunks, messages);
    CurrentIsMatching(messages, chunks);
    assert ChunkedMessages(matching) <= EligibleMessages(messages);
    assert Mapped(matching, vectors) <= matching.Keys && |matching| == |matching.Keys|;
    if JointlyComplete(messages, chunks, vectors, embedded) {
      SubsetOfSize(ChunkedMessages(matching), EligibleMessages(messages));
      SubsetOfSize(Mapped(matching, vectors), matching.Keys);
    } else if (forall m :: m in messages && m.cls == Prose && NonBlank(messages[m].facts.prose)
                 ==> CurrentlyChunked(messages, chunks, m))
              && (forall k :: k in matching.Keys ==> VectorKey(PROFILE_ID, chunks[k].input) in vectors) {
      assert ChunkedMessages(matching) == EligibleMessages(messages);
      assert Mapped(matching, vectors) == matching.Keys;
    }
  }

  // ---------------------------------------------------------------- the chunks of one message

  /** The chunks of a message are exactly the passages of its text, in order, each under the digest
      of its text and that of its embedding input. */
  ghost predicate ChunkedInto(chunks: ChunkTable, m: MessageKey, text: string, passages: seq<string>) {
    forall k: ChunkKey :: k.message == m ==>
      && (k in chunks <==> k.profile == PROFILE_ID && k.ordinal < |passages|)
      && (k in chunks ==>
            chunks[k] == Chunk(CHUNKER_ID, Sha256(text), passages[k.ordinal],
                               Sha256(PASSAGE_PREFIX + passages[k.ordinal])))
  }

  /** The text a candidate gives a message: that of its projected row, or else the published one. */
  ghost predicate HasText(c: Candidate, m: MessageKey, text: string) {
    (m in c.rows && c.rows[m].facts.prose == text)
    || (m !in c.rows && m in c.messages && c.messages[m].facts.prose == text)
  }

  /** What a fully chunked candidate holds for every message that required chunks. */
  lemma StagedIntoPassages(c: Candidate, chunker: string -> seq<string>, m: MessageKey, text: string)
    requires m in c.Requiring() && HasText(c, m, text)
    ensures ChunkedInto(c.Staged(chunker), m, text, chunker(text))
  {
    hide Candidate.Requiring;
    assert c.TextOf(m) == text;
    forall k: ChunkKey | k.message == m
      ensures k in c.Staged(chunker) <==> k.profile == PROFILE_ID && k.ordinal < |chunker(text)|
      ensures k in c.Staged(chunker) ==>
        c.Staged(chunker)[k] == Chunk(CHUNKER_ID, Sha256(text), chunker(text)[k.ordinal],
                                      Sha256(PASSAGE_PREFIX + chunker(text)[k.ordinal]))
    {
      if k.profile == PROFILE_ID && k.ordinal < |chunker(text)| {
        assert k == ChunkKey(m, PROFILE_ID, k.ordinal);
      }
    }
  }

  /** What publication does to the chunks of one message, and to its row. */
  ghost predicate Rechunked(messages: MessageTable, chunks: ChunkTable, affected: set<MessageKey>,
      messages': MessageTable, chunks': ChunkTable, chunker: string -> seq<string>, m: MessageKey)
  {
    && (m !in affected ==>
          && (m in messages' <==> m in messages) && (m in messages ==> messages'[m] == messages[m]))
    && if m in messages' && Eligible(m, messages'[m])
          && (m in affected || !CurrentlyChunked(messages, chunks, m)) then
         ChunkedInto(chunks', m, messages'[m].facts.prose, chunker(messages'[m].facts.prose))
       else if m in affected then
         forall k: ChunkKey :: k.message == m ==> k !in chunks'
       else
         forall k: ChunkKey :: k.message == m ==>
           (k in chunks' <==> k in chunks) && (k in chunks ==> chunks'[k] == chunks[k])
  }

  lemma RequiresChunks(c: Candidate, m: MessageKey)
    requires c.Fits()
    ensures m in c.Requiring() <==>
              && m in c.Projected() && Eligible(m, c.Projected()[m])
              && (m in c.affected || !CurrentlyChunked(c.messages, c.chunks, m))
  {
    hide CurrentlyChunked, MatchingChunks, ChunkedMessages, ChunksSound, Eligible;
    CurrentIsMatching(c.messages, c.chunks);
  }

  /** Every eligible message that is affected, or not yet chunked under its current text, gets the
      passages of its text; another affected one loses its chunks; the rest keep theirs. */
  lemma PublishedChunksAre(c: Candidate, chunker: string -> seq<string>, m: MessageKey)
    requires c.Fits()
    ensures Rechunked(c.messages, c.chunks, c.affected, c.Projected(), c.PublishedChunks(c.Staged(chunker)), chunker, m)
  {
    hide Candidate.Staged, Candidate.TextOf, Candidate.Requiring, ChunksSound, Eligible, ChunkedInto, CurrentlyChunked;
    RequiresChunks(c, m);
    var staged := c.Staged(chunker);
    forall k | k in staged ensures k.message in c.Requiring() { StagedRequires(c, chunker, k); }
    if m in c.Requiring() {
      var text := c.Projected()[m].facts.prose;
      StagedIntoPassages(c, chunker, m, text);
      SameChunks(staged, c.PublishedChunks(staged), m, text, chunker(text));
    }
  }

  lemma StagedRequires(c: Candidate, chunker: string -> seq<string>, k: ChunkKey)
    requires k in c.Staged(chunker)
    ensures k.message in c.Requiring()
  {
    hide Candidate.Requiring;
  }

  lemma SameChunks(a: ChunkTable, b: ChunkTable, m: MessageKey, text: string, passages: seq<string>)
    requires ChunkedInto(a, m, text, passages)
    requires forall k: ChunkKey :: k.message == m ==> (k in b <==> k in a) && (k in a ==> b[k] == a[k])
    ensures ChunkedInto(b, m, text, passages)
  {
  }

  /** Every eligible message of the table is chunked into the passages of its text. */
  ghost predicate AllChunkedInto(messages: MessageTable, chunks: ChunkTable, chunker: string -> seq<string>) {
    forall m :: m in messages && Eligible(m, messages[m]) ==>
      ChunkedInto(chunks, m, messages[m].facts.prose, chunker(messages[m].facts.prose))
  }

  /** So under one chunker a corpus that is wholly chunked stays wholly chunked. */
  lemma RechunkingKeepsAll(messages: MessageTable, chunks: ChunkTable, affected: set<MessageKey>,
      messages': MessageTable, chunks': ChunkTable, chunker: string -> seq<string>)
    requires AllChunkedInto(messages, chunks, chunker)
    requires forall m :: Rechunked(messages, chunks, affected, messages', chunks', chunker, m)
    ensures AllChunkedInto(messages', chunks', chunker)
  {
    hide Eligible, ChunkedInto, CurrentlyChunked;
    forall m | m in messages' && Eligible(m, messages'[m])
      ensures ChunkedInto(chunks', m, messages'[m].facts.prose, chunker(messages'[m].facts.prose))
    {
      assert Rechunked(messages, chunks, affected, messages', chunks', chunker, m);
      if m !in affected && CurrentlyChunked(messages, chunks, m) {
        SameChunks(chunks, chunks', m, messages'[m].facts.prose, chunker(messages'[m].facts.prose));
      }
    }
  }

  lemma StageOneMore(c: Candidate, chunker: string -> seq<string>, done: set<MessageKey>, m: MessageKey)
    requires m in c.Requiring()
    ensures c.StagedFor(done + {m}, chunker) == c.StagedFor(done, chunker) + c.MessageChunks(m, chunker(c.TextOf(m)))
  {
    hide Candidate.Requiring, Candidate.StagedChunk, Candidate.TextOf;
  }

  lemma StageAll(c: Candidate, chunker: string -> seq<string>)
    ensures c.StagedFor(c.Requiring(), chunker) == c.Staged(chunker)
    ensures c.StagedFor({}, chunker) == map[]
  {
    hide Candidate.Requiring, Candidate.StagedChunk, Candidate.TextOf;
  }

  lemma StagedMatches(c: Candidate, chunker: string -> seq<string>, k: ChunkKey)
    requires c.Fits() && k in c.Staged(chunker)
    ensures k.message in c.Requiring() && k.message in c.Projected() && Eligible(k.message, c.Projected()[k.message])
    ensures k.profile == PROFILE_ID && c.Staged(chunker)[k].chunker == CHUNKER_ID
    ensures c.Staged(chunker)[k].source == c.Projected()[k.message].facts.InputDigest()
  {
  }

  lemma ViewIsPublishedAt(c: Candidate, chunker: string -> seq<string>, k: ChunkKey)
    requires c.Fits()
    ensures var staged := c.Staged(chunker);
            && (Matching(c.PublishedChunks(staged), c.Projected(), k) <==> k in c.View(staged))
            && (k in c.View(staged) ==> c.PublishedChunks(staged)[k] == c.View(staged)[k])
  {
    var staged := c.Staged(chunker);
    if k in staged {
      StagedMatches(c, chunker, k);
    } else if k in c.chunks && k.message !in c.affected {
      assert k.message !in c.rows;
      assert c.Projected()[k.message] == c.messages[k.message];
    }
  }

  /** Predicted rows are published rows: the virtual view holds exactly the chunks that match
      their message once publication's deletes and inserts have run. */
  lemma {:induction false} ViewIsPublished(c: Candidate, chunker: string -> seq<string>)
    requires c.Fits()
    ensures MatchingChunks(c.PublishedChunks(c.Staged(chunker)), c.Projected()) == c.View(c.Staged(chunker))
  {
    var staged := c.Staged(chunker);
    var matching, view := MatchingChunks(c.PublishedChunks(staged), c.Projected()), c.View(staged);
    forall k ensures k in matching <==> k in view
             ensures k in view && k in matching ==> view[k] == matching[k]
    {
      ViewIsPublishedAt(c, chunker, k);
    }
    assert matching == view;
  }

  lemma ViewMessagesArePublished(c: Candidate)
    requires c.Fits()
    ensures EligibleMessages(c.Projected()) == c.ViewMessages()
  {
    assert forall m :: m in EligibleMessages(c.Projected()) <==> m in c.ViewMessages();
  }

  /** Every eligible message is chunked in the view, and nothing else is: the first check of
      preparation cannot fail on what the chunker accepted. */
  lemma {:induction false} ViewCoversEligible(c: Candidate, chunker: string -> seq<string>)
    requires c.Fits() && ChunkerAccepted(c, chunker)
    ensures ChunkedMessages(c.View(c.Staged(chunker))) == c.ViewMessages()
  {
    var staged := c.Staged(chunker);
    var view := c.View(staged);
    forall m ensures m in ChunkedMessages(view) <==> m in c.ViewMessages() {
      if m in ChunkedMessages(view) {
        var k :| k in view && k.message == m;
        if k in staged { StagedMatches(c, chunker, k); }
      }
      if m in c.ViewMessages() {
        if m in c.Requiring() {
          var k := ChunkKey(m, PROFILE_ID, 0);
          assert k in c.StagedKeys(chunker);
          assert k in view && k.message == m;
        } else {
          assert m in ChunkedMessages(MatchingChunks(c.chunks, c.messages));
          var k :| k in MatchingChunks(c.chunks, c.messages) && k.message == m;
          assert k in view && k.message == m;
        }
      }
    }
  }

  /** Publication keeps the chunk table sound. */
  lemma {:induction false} PublishedChunksSound(c: Candidate, chunker: string -> seq<string>)
    requires c.Fits()
    ensures ChunksSound(c.PublishedChunks(c.Staged(chunker)), c.Projected())
  {
    var staged := c.Staged(chunker);
    forall k | k in staged
      ensures k.message in c.Projected() && k.message.cls.Prose? && NonBlank(staged[k].source.text)
    {
      StagedMatches(c, chunker, k);
    }
  }

  // ---------------------------------------------------------------- the embedding queue

  function Unmapped(view: ChunkTable, vectors: set<VectorKey>): set<ChunkKey> {
    set k | k in view && VectorKey(PROFILE_ID, view[k].input) !in vectors
  }

  function Mapped(view: ChunkTable, vectors: set<VectorKey>): set<ChunkKey> {
    set k | k in view && VectorKey(PROFILE_ID, view[k].input) in vectors
  }

  function WithInput(view: ChunkTable, d: Digest): set<ChunkKey> {
    set k | k in view && view[k].input == d
  }

  /** `semantic_embedding_queue`: one row a missing digest, with the chunks it will map. */
  function QueueOf(view: ChunkTable, vectors: set<VectorKey>): Queue {
    map d | d in (set k | k in view :: view[k].input) && VectorKey(PROFILE_ID, d) !in vectors
        :: |WithInput(view, d)|
  }

  ghost function Units(q: Queue): nat {
    if q == map[] then 0 else var d :| d in q; q[d] + Units(q - {d})
  }

  function Part(q: Queue, keys: set<Digest>): Queue { map d | d in q && d in keys :: q[d] }

  lemma {:induction false} UnitsRemove(q: Queue, d: Digest)
    requires d in q
    ensures Units(q) == q[d] + Units(q - {d})
    decreases |q|
  {
    var e :| e in q && Units(q) == q[e] + Units(q - {e});
    if e != d {
      UnitsRemove(q - {e}, d);
      UnitsRemove(q - {d}, e);
      assert q - {e} - {d} == q - {d} - {e};
    }
  }

  lemma PartOfAll(q: Queue)
    ensures Part(q, q.Keys) == q
  {
  }

  lemma UnitsOfNothing(q: Queue)
    requires q.Keys == {}
    ensures Units(q) == 0
  {
    assert q == map[];
  }

  lemma PartWithout(q: Queue, keys: set<Digest>, d: Digest)
    requires d in q
    ensures d in keys ==> d in Part(q, keys) && Part(q, keys)[d] == q[d]
                          && Part(q, keys) - {d} == Part(q - {d}, keys) && q - keys == q - {d} - keys
    ensures d !in keys ==> d in q - keys && (q - keys)[d] == q[d]
                           && Part(q, keys) == Part(q - {d}, keys) && q - keys - {d} == q - {d} - keys
  {
  }

  lemma {:induction false} UnitsSplit(q: Queue, keys: set<Digest>)
    ensures Units(q) == Units(Part(q, keys)) + Units(q - keys)
    decreases |q|
  {
    hide Part, Units;
    if d :| d in q {
      UnitsRemove(q, d);
      UnitsSplit(q - {d}, keys);
      PartWithout(q, keys, d);
      if d in keys { UnitsRemove(Part(q, keys), d); } else { UnitsRemove(q - keys, d); }
    } else {
      PartOfNothing(q, keys);
    }
  }

  lemma PartOfNothing(q: Queue, keys: set<Digest>)
    requires q.Keys == {}
    ensures Units(q) == 0 && Units(Part(q, keys)) == 0 && Units(q - keys) == 0
  {
    UnitsOfNothing(q);
    UnitsOfNothing(Part(q, keys));
    UnitsOfNothing(q - keys);
  }

  lemma QueuedInputs(view: ChunkTable, vectors: set<VectorKey>, batch: set<Digest>)
    requires batch <= QueueOf(view, vectors).Keys
    ensures forall v :: v in VectorKeys(batch) ==> exists k :: k in view && v == VectorKey(PROFILE_ID, view[k].input)
  {
  }

  /** Storing one vector takes its digest off the queue and its chunks out of the unmapped. */
  lemma StoreOne(view: ChunkTable, vectors: set<VectorKey>, d: Digest)
    requires d in QueueOf(view, vectors)
    ensures var more := vectors + {VectorKey(PROFILE_ID, d)};
            && QueueOf(view, more) == QueueOf(view, vectors) - {d}
            && |Unmapped(view, vectors)| == |Unmapped(view, more)| + |WithInput(view, d)|
  {
    var more := vectors + {VectorKey(PROFILE_ID, d)};
    assert Unmapped(view, vectors) == Unmapped(view, more) + WithInput(view, d);
    assert Unmapped(view, more) !! WithInput(view, d);
    assert QueueOf(view, more) == QueueOf(view, vectors) - {d};
  }

  /** Conservation: the units queued are exactly the chunks without a vector. */
  lemma {:induction false} QueuedUnitsAreUnmapped(view: ChunkTable, vectors: set<VectorKey>)
    ensures Units(QueueOf(view, vectors)) == |Unmapped(view, vectors)|
    decreases |Unmapped(view, vectors)|
  {
    var q := QueueOf(view, vectors);
    assert forall k :: k in Unmapped(view, vectors) ==> view[k].input in q;
    if d :| d in q {
      var k :| k in view && view[k].input == d;
      var more := vectors + {VectorKey(PROFILE_ID, d)};
      StoreOne(view, vectors, d);
      assert k in WithInput(view, d);
      QueuedUnitsAreUnmapped(view, more);
      UnitsRemove(q, d);
    } else {
      assert q == map[] && Unmapped(view, vectors) == {};
    }
  }

  lemma MappedAndUnmapped(view: ChunkTable, vectors: set<VectorKey>)
    ensures |Mapped(view, vectors)| + |Unmapped(view, vectors)| == |view|
  {
    assert Mapped(view, vectors) + Unmapped(view, vectors) == view.Keys;
    assert Mapped(view, vectors) !! Unmapped(view, vectors);
  }

  function VectorKeys(batch: set<Digest>): set<VectorKey> {
    set d | d in batch :: VectorKey(PROFILE_ID, d)
  }

  /** One drained batch: storing its vectors maps exactly its queued units, and the queue left
      is the queue of the larger pool. */
  lemma {:induction false} DrainBatch(view: ChunkTable, vectors: set<VectorKey>, batch: set<Digest>)
    requires batch <= QueueOf(view, vectors).Keys
    ensures var q := QueueOf(view, vectors);
            && QueueOf(view, vectors + VectorKeys(batch)) == q - batch
            && |Mapped(view, vectors + VectorKeys(batch))| == |Mapped(view, vectors)| + Units(Part(q, batch))
  {
    var q, more := QueueOf(view, vectors), vectors + VectorKeys(batch);
    assert QueueOf(view, more) == q - batch;
    UnitsSplit(q, batch);
    QueuedUnitsAreUnmapped(view, vectors);
    QueuedUnitsAreUnmapped(view, more);
    MappedAndUnmapped(view, vectors);
    MappedAndUnmapped(view, more);
  }

  /** Predicted counts equal published counts: once every chunk of the view has a vector, the
      guard inside the publication transaction holds and cannot fire. */
  lemma {:induction false} GuardHolds(c: Candidate, chunker: string -> seq<string>, vectors: set<VectorKey>)
    requires c.Fits() && ChunkerAccepted(c, chunker)
    requires Unmapped(c.View(c.Staged(chunker)), vectors) == {}
    ensures var view := c.View(c.Staged(chunker));
            var matching := MatchingChunks(c.PublishedChunks(c.Staged(chunker)), c.Projected());
            && matching == view
            && ChunkedMessages(matching) == EligibleMessages(c.Projected())
            && Mapped(matching, vectors) == matching.Keys
            && |matching| == |Mapped(matching, vectors)| == |view|
  {
    hide Candidate.View, Candidate.Requiring, Candidate.Staged, Candidate.ViewMessages, Candidate.Projected,
      Candidate.PublishedChunks, MatchingChunks, ChunkedMessages, EligibleMessages, ChunkerAccepted, ChunksSound;
    ViewIsPublished(c, chunker);
    ViewMessagesArePublished(c);
    ViewCoversEligible(c, chunker);
    AllMapped(c.View(c.Staged(chunker)), vectors);
  }

  lemma AllMapped(view: ChunkTable, vectors: set<VectorKey>)
    requires Unmapped(view, vectors) == {}
    ensures Mapped(view, vectors) == view.Keys && |Mapped(view, vectors)| == |view|
  {
    assert forall k :: k in view && k !in Mapped(view, vectors) ==> k in Unmapped(view, vectors);
    assert Mapped(view, vectors) == view.Keys;
  }

  /** Garbage collection keeps the vector of every matching chunk. */
  lemma CollectionKeepsMapped(chunks: ChunkTable, messages: MessageTable, vectors: set<VectorKey>)
    requires Unmapped(MatchingChunks(chunks, messages), vectors) == {}
    ensures Unmapped(MatchingChunks(chunks, messages), Referenced(chunks, vectors)) == {}
  {
    forall k | k in MatchingChunks(chunks, messages)
      ensures VectorKey(PROFILE_ID, chunks[k].input) in Referenced(chunks, vectors)
    {
      assert k !in Unmapped(MatchingChunks(chunks, messages), vectors);
      assert VectorKey(k.profile, chunks[k].input) in Referenced(chunks, vectors);
    }
  }

  lemma MoreVectorsKeepMapped(view: ChunkTable, vectors: set<VectorKey>, more: set<VectorKey>)
    requires Unmapped(view, vectors) == {} && vectors <= more
    ensures Unmapped(view, more) == {}
  {
    assert forall k :: k in Unmapped(view, more) ==> k in Unmapped(view, vectors);
  }
}
