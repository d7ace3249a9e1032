/** One refresh as the delta it publishes: which messages are affected, what the candidate
    projection holds, when it is refused, and what the tables are afterwards. */
module DeltaPublication {
  import opened CorpusTables

  /** The staged input of one refresh.  A source that failed to parse is in none of the parts. */
  datatype Stage = Stage(rows: Contents, replaced: set<Source>, appended: set<Source>, removed: set<Source>)
  {
    predicate Dropped(s: Source) { s in replaced || s in removed }
  }

  datatype CandidateAlias = CandidateAlias(id: MessageId, place: Place, fromStage: bool)

  datatype Seen = Seen(id: MessageId, row: Row)

  // ---------------------------------------------------------------- specification

  /** What every source holds once the stage is published: replaced and removed sources lose
      their old rows, appended ones keep them, and a restaged occurrence wins. */
  function NewContents(c: Contents, st: Stage): Contents {
    (map k | k in c && !st.Dropped(k.source) :: c[k]) + st.rows
  }

  // ---------------------------------------------------------------- the projection

  /** `refresh_affected_message`. */
  function Affected(aliases: AliasTable, st: Stage): set<MessageKey> {
    (set k | k in aliases && st.Dropped(k.source) :: Owner(k, aliases[k].id))
    + (set k | k in st.rows :: Owner(k, st.rows[k].id))
  }

  /** `refresh_candidate_alias`: retained occurrences of affected messages, then the staged
      rows upserted on the occurrence key. */
  function CandidateAliases(aliases: AliasTable, st: Stage): map<AliasKey, CandidateAlias> {
    (map k | k in aliases && Owner(k, aliases[k].id) in Affected(aliases, st) && !st.Dropped(k.source)
         :: CandidateAlias(aliases[k].id, aliases[k].place, false))
    + (map k | k in st.rows :: CandidateAlias(st.rows[k].id, st.rows[k].place, true))
  }

  /** `refresh_candidate_observation`: a retained occurrence re-observes the published row of
      its message, a staged one observes its own row. */
  function Observations(messages: MessageTable, cand: map<AliasKey, CandidateAlias>, st: Stage)
    : map<AliasKey, Seen>
  {
    map k | k in cand
            && (cand[k].fromStage ==> k in st.rows)
            && (!cand[k].fromStage ==> Owner(k, cand[k].id) in messages)
         :: Seen(cand[k].id, if cand[k].fromStage then st.rows[k].row else messages[Owner(k, cand[k].id)])
  }

  predicate ConflictSeen(obs: map<AliasKey, Seen>) {
    exists a, b :: a in obs && b in obs && Owner(a, obs[a].id) == Owner(b, obs[b].id)
                   && obs[a].row.facts != obs[b].row.facts
  }

  function SeenOccurrences(obs: map<AliasKey, Seen>, m: MessageKey): set<AliasKey> {
    set k | k in obs && Owner(k, obs[k].id) == m
  }

  /** `refresh_candidate_message`. */
  function CandidateMessages(obs: map<AliasKey, Seen>): (t: MessageTable)
    ensures forall m :: m in t <==> exists k :: k in obs && Owner(k, obs[k].id) == m
    ensures forall m :: m in t ==> exists k :: k in obs && Owner(k, obs[k].id) == m && t[m] == obs[k].row
  {
    var owners := set k | k in obs :: Owner(k, obs[k].id);
    map m | m in owners ::
      var w :| w in obs && Owner(w, obs[w].id) == m;
      assert w in SeenOccurrences(obs, m);
      obs[First(SeenOccurrences(obs, m))].row
  }

  // ---------------------------------------------------------------- publication

  function RemainingAliases(aliases: AliasTable, affected: set<MessageKey>): AliasTable {
    map k | k in aliases && Owner(k, aliases[k].id) !in affected :: aliases[k]
  }

  function Inserted(cand: map<AliasKey, CandidateAlias>): AliasTable {
    map k | k in cand :: Alias(cand[k].id, cand[k].place)
  }

  /** Inserting the candidate occurrences would break the unique occurrence index. */
  predicate OccurrenceClash(aliases: AliasTable, st: Stage) {
    exists k :: k in RemainingAliases(aliases, Affected(aliases, st)) && k in CandidateAliases(aliases, st)
  }

  function PublishedMessages(messages: MessageTable, aliases: AliasTable, st: Stage): MessageTable {
    (messages - Affected(aliases, st))
    + CandidateMessages(Observations(messages, CandidateAliases(aliases, st), st))
  }

  function PublishedAliases(aliases: AliasTable, st: Stage): AliasTable {
    RemainingAliases(aliases, Affected(aliases, st)) + Inserted(CandidateAliases(aliases, st))
  }

  // ---------------------------------------------------------------- theorems about one refresh

  /** Publication is refused by the occurrence index exactly when a staged row takes an
      occurrence away from a published message that nothing else in the stage touches. */
  lemma {:induction false} ClashExactly(aliases: AliasTable, st: Stage)
    ensures OccurrenceClash(aliases, st) <==>
      exists k :: k in st.rows && k in aliases && Owner(k, aliases[k].id) !in Affected(aliases, st)
  {
    var affected, cand := Affected(aliases, st), CandidateAliases(aliases, st);
    if OccurrenceClash(aliases, st) {
      var k :| k in RemainingAliases(aliases, affected) && k in cand;
      assert k in st.rows && k in aliases && Owner(k, aliases[k].id) !in affected;
    }
    if k :| k in st.rows && k in aliases && Owner(k, aliases[k].id) !in affected {
      assert k in RemainingAliases(aliases, affected) && k in cand;
    }
  }

  /** The observations the delta looks at are, by facts, the new contents of affected messages. */
  lemma ObservationsAreNewContents(messages: MessageTable, aliases: AliasTable, c: Contents, st: Stage)
    requires Built(messages, aliases, c)
    ensures var obs := Observations(messages, CandidateAliases(aliases, st), st);
            var n := NewContents(c, st);
            && (forall k :: k in obs <==> k in n && Owner(k, n[k].id) in Affected(aliases, st))
            && (forall k :: k in obs ==> obs[k].id == n[k].id && obs[k].row.facts == n[k].row.facts)
            && obs.Keys == CandidateAliases(aliases, st).Keys
  {
    hide Built, Conflicted, WithoutCwd, RebuiltMessages, FirstOccurrence;
    BuiltGivesPoints(messages, aliases, c);
    var affected, cand := Affected(aliases, st), CandidateAliases(aliases, st);
    var obs, n := Observations(messages, cand, st), NewContents(c, st);
    forall k ensures k in obs <==> k in n && Owner(k, n[k].id) in affected
             ensures k in obs ==> obs[k].id == n[k].id && obs[k].row.facts == n[k].row.facts
             ensures k in obs <==> k in cand
    {
      if k in st.rows {
        assert Owner(k, st.rows[k].id) in affected;
        assert n[k] == st.rows[k];
      } else if k in c {
        assert aliases[k].id == c[k].id;
        assert Owner(k, c[k].id) in messages;
      }
    }
  }

  /** A message outside the affected set keeps exactly its old observations. */
  lemma UnaffectedKeepTheirContents(messages: MessageTable, aliases: AliasTable, c: Contents, st: Stage, k: AliasKey)
    requires Built(messages, aliases, c)
    ensures var n := NewContents(c, st);
            k in n && Owner(k, n[k].id) !in Affected(aliases, st) ==> k in c && n[k] == c[k]
    ensures k in c && Owner(k, c[k].id) !in Affected(aliases, st) ==>
              !st.Dropped(k.source) && (k !in st.rows ==> k in NewContents(c, st) && NewContents(c, st)[k] == c[k])
  {
    var n := NewContents(c, st);
    if k in st.rows {
      assert Owner(k, st.rows[k].id) in Affected(aliases, st);
    }
    if k in c && st.Dropped(k.source) {
      assert k in aliases && aliases[k].id == c[k].id;
      assert Owner(k, c[k].id) in Affected(aliases, st);
    }
  }

  /** The incremental conflict check fires exactly when a rebuild from nothing would find a
      conflict, although it compares retained occurrences by the published row only. */
  lemma {:induction false} ConflictCheckIsComplete(messages: MessageTable, aliases: AliasTable, c: Contents, st: Stage)
    requires Built(messages, aliases, c)
    ensures ConflictSeen(Observations(messages, CandidateAliases(aliases, st), st))
            <==> Conflicted(NewContents(c, st))
  {
    var n := NewContents(c, st);
    var affected := Affected(aliases, st);
    var obs := Observations(messages, CandidateAliases(aliases, st), st);
    ObservationsAreNewContents(messages, aliases, c, st);
    if ConflictSeen(obs) {
      var a, b :| a in obs && b in obs && Owner(a, obs[a].id) == Owner(b, obs[b].id)
                  && obs[a].row.facts != obs[b].row.facts;
      assert a in n && b in n && Owner(a, n[a].id) == Owner(b, n[b].id) && n[a].row.facts != n[b].row.facts;
    }
    if Conflicted(n) {
      var a, b :| a in n && b in n && Owner(a, n[a].id) == Owner(b, n[b].id) && n[a].row.facts != n[b].row.facts;
      if Owner(a, n[a].id) in affected {
        assert a in obs && b in obs;
      } else {
        UnaffectedKeepTheirContents(messages, aliases, c, st, a);
        UnaffectedKeepTheirContents(messages, aliases, c, st, b);
        assert false;
      }
    }
  }

  /** The candidate rows fit the tables: they are rows of affected messages only, so no primary
      key clashes, and every candidate occurrence has its message row. */
  lemma {:induction false} CandidateFitsTables(messages: MessageTable, aliases: AliasTable, c: Contents, st: Stage)
    requires Built(messages, aliases, c)
    ensures var cand := CandidateAliases(aliases, st);
            var rows := CandidateMessages(Observations(messages, cand, st));
            && rows.Keys <= Affected(aliases, st)
            && (forall k :: k in cand ==> Owner(k, cand[k].id) in rows)
  {
    ObservationsAreNewContents(messages, aliases, c, st);
    var cand := CandidateAliases(aliases, st);
    var obs := Observations(messages, cand, st);
    forall k | k in cand ensures Owner(k, cand[k].id) in CandidateMessages(obs) {
      assert k in obs && obs[k].id == cand[k].id;
    }
  }

  /** The published occurrences are those of the new contents. */
  lemma {:induction false} PublishedAliasesAreRebuilt(messages: MessageTable, aliases: AliasTable, c: Contents,
      st: Stage)
    requires Built(messages, aliases, c)
    requires !OccurrenceClash(aliases, st)
    ensures PublishedAliases(aliases, st) == RebuiltAliases(NewContents(c, st))
  {
    hide Conflicted, WithoutCwd, RebuiltMessages, FirstOccurrence;
    var n, a' := NewContents(c, st), PublishedAliases(aliases, st);
    var affected, cand := Affected(aliases, st), CandidateAliases(aliases, st);
    forall k ensures k in a' <==> k in n
             ensures k in a' ==> a'[k] == Alias(n[k].id, n[k].place)
    {
      UnaffectedKeepTheirContents(messages, aliases, c, st, k);
      if k in st.rows {
        assert k in cand;
      } else if k in c {
        assert aliases[k] == Alias(c[k].id, c[k].place);
      }
    }
  }

  /** Without a clash, an occurrence of an unaffected message survives unchanged. */
  lemma {:induction false} UnaffectedSurvive(messages: MessageTable, aliases: AliasTable, c: Contents, st: Stage,
      k: AliasKey)
    requires Built(messages, aliases, c)
    requires !OccurrenceClash(aliases, st)
    requires k in c && Owner(k, c[k].id) !in Affected(aliases, st)
    ensures k in NewContents(c, st) && NewContents(c, st)[k] == c[k]
  {
    UnaffectedKeepTheirContents(messages, aliases, c, st, k);
    assert aliases[k] == Alias(c[k].id, c[k].place);
    assert k in RemainingAliases(aliases, Affected(aliases, st));
    assert k !in CandidateAliases(aliases, st);
  }

  /** The published message rows hold the facts of the new contents. */
  lemma {:induction false} PublishedRowHasNewFacts(messages: MessageTable, aliases: AliasTable, c: Contents,
      st: Stage, k: AliasKey)
    requires Built(messages, aliases, c)
    requires !Conflicted(NewContents(c, st))
    requires k in NewContents(c, st)
    ensures var n, m' := NewContents(c, st), PublishedMessages(messages, aliases, st);
            Owner(k, n[k].id) in m' && m'[Owner(k, n[k].id)].facts == n[k].row.facts
  {
    hide Built, WithoutCwd, RebuiltMessages, FirstOccurrence, RebuiltAliases, CandidateAliases;
    var n := NewContents(c, st);
    var obs := Observations(messages, CandidateAliases(aliases, st), st);
    var rows := CandidateMessages(obs);
    var m := Owner(k, n[k].id);
    BuiltGivesPoints(messages, aliases, c);
    ObservationsAreNewContents(messages, aliases, c, st);
    if m in Affected(aliases, st) {
      assert k in obs && m in rows;
      var w :| w in obs && Owner(w, obs[w].id) == m && rows[m] == obs[w].row;
      assert w in n && Owner(w, n[w].id) == m;
    } else {
      UnaffectedKeepTheirContents(messages, aliases, c, st, k);
      CandidateFitsTables(messages, aliases, c, st);
    }
  }

  /** Every published message row is a message of the new contents. */
  lemma {:induction false} PublishedRowIsObserved(messages: MessageTable, aliases: AliasTable, c: Contents,
      st: Stage, m: MessageKey)
    requires Built(messages, aliases, c)
    requires !OccurrenceClash(aliases, st)
    requires m in PublishedMessages(messages, aliases, st)
    ensures m in Owners(NewContents(c, st))
  {
    var n := NewContents(c, st);
    var obs := Observations(messages, CandidateAliases(aliases, st), st);
    BuiltGivesPoints(messages, aliases, c);
    ObservationsAreNewContents(messages, aliases, c, st);
    if m in CandidateMessages(obs) {
      var k :| k in obs && Owner(k, obs[k].id) == m;
      assert k in n;
    } else {
      assert m in messages && m !in Affected(aliases, st);
      var k :| k in c && Owner(k, c[k].id) == m;
      UnaffectedSurvive(messages, aliases, c, st, k);
      assert k in n;
    }
  }

  /** Delta refines rebuild, one run: what publication leaves behind is the build from nothing
      of the new contents, in every message column but `cwd`. */
  lemma {:induction false} DeltaRefinesRebuild(messages: MessageTable, aliases: AliasTable, c: Contents, st: Stage)
    requires Built(messages, aliases, c)
    requires !Conflicted(NewContents(c, st))
    requires !OccurrenceClash(aliases, st)
    ensures Built(PublishedMessages(messages, aliases, st), PublishedAliases(aliases, st), NewContents(c, st))
  {
    var n, m' := NewContents(c, st), PublishedMessages(messages, aliases, st);
    PublishedAliasesAreRebuilt(messages, aliases, c, st);
    forall k | k in n
      ensures Owner(k, n[k].id) in m' && m'[Owner(k, n[k].id)].facts == n[k].row.facts
    {
      PublishedRowHasNewFacts(messages, aliases, c, st, k);
    }
    forall m ensures m in m' <==> m in Owners(n) {
      if m in m' { PublishedRowIsObserved(messages, aliases, c, st, m); }
    }
    PointsGiveBuilt(m', PublishedAliases(aliases, st), n);
  }

  /** With nothing staged, an affected message that keeps an occurrence keeps its published row. */
  lemma RetainedKeepsRow(messages: MessageTable, aliases: AliasTable, c: Contents, st: Stage, m: MessageKey,
      k: AliasKey)
    requires Built(messages, aliases, c) && st.rows == map[] && m in Affected(aliases, st)
    requires k in NewContents(c, st) && Owner(k, NewContents(c, st)[k].id) == m
    ensures m in PublishedMessages(messages, aliases, st) && PublishedMessages(messages, aliases, st)[m] == messages[m]
  {
    hide CandidateMessages, Built, NewContents, Affected;
    ObservationsAreNewContents(messages, aliases, c, st);
    var obs := Observations(messages, CandidateAliases(aliases, st), st);
    assert k in obs;
    forall o | o in obs && Owner(o, obs[o].id) == m ensures obs[o].row == messages[m] {
      assert !CandidateAliases(aliases, st)[o].fromStage;
    }
  }

  /** `cwd` is the one column that cannot be claimed: when the source whose row was kept goes away,
      the surviving occurrence observes the published row again instead of its own. */
  lemma CwdIsNotRebuilt() returns (messages: MessageTable, aliases: AliasTable, c: Contents, st: Stage)
    ensures Built(messages, aliases, c) && messages == RebuiltMessages(c)
    ensures !Conflicted(NewContents(c, st))
    ensures PublishedMessages(messages, aliases, st) != RebuiltMessages(NewContents(c, st))
  {
    hide PublishedMessages, CandidateMessages, RebuiltMessages, CandidateAliases, RemainingAliases;
    var id, facts, place := MessageId(0, 0, 0), Facts("", "", "", "", 0, "", None, ""), Place("", 1, 0, 0, "");
    var gone, kept := AliasKey(Source(0, 0), 0, Prose), AliasKey(Source(0, 1), 0, Prose);
    var m := MessageKey(id, Prose);
    var first, second := Observation(id, Row(facts, Some("first")), place),
        Observation(id, Row(facts, Some("second")), place);
    c, st := map[gone := first, kept := second], Stage(map[], {}, {}, {Source(0, 0)});
    messages, aliases := RebuiltMessages(c), RebuiltAliases(c);
    FirstOf(c, m, gone);
    assert NewContents(c, st) == map[kept := second];
    FirstOf(NewContents(c, st), m, kept);
    assert gone in aliases && m in Affected(aliases, st);
    RetainedKeepsRow(messages, aliases, c, st, m, kept);
  }

  lemma FirstOf(c: Contents, m: MessageKey, k: AliasKey)
    requires k in c && Owner(k, c[k].id) == m
    requires forall o :: o in c && o != k && Owner(o, c[o].id) == m ==> Before(k, o)
    ensures m in Owners(c) && RebuiltMessages(c)[m] == c[k].row
  {
    assert k in Occurrences(c, m);
    var f := FirstOccurrence(c, m);
    assert f in Occurrences(c, m);
  }

  /** The row a candidate message is made of: that of its first observation. */
  lemma CandidateRowIsFirst(obs: map<AliasKey, Seen>, m: MessageKey)
    requires m in CandidateMessages(obs)
    ensures SeenOccurrences(obs, m) != {}
    ensures CandidateMessages(obs)[m] == obs[First(SeenOccurrences(obs, m))].row
  {
    var w :| w in obs && Owner(w, obs[w].id) == m;
    assert w in SeenOccurrences(obs, m);
  }

  /** An affected message is published with its rebuilt row exactly when its first occurrence was
      staged, or has the `cwd` that the published row already had. */
  lemma AffectedRowIsRebuiltWhen(messages: MessageTable, aliases: AliasTable, c: Contents, st: Stage, m: MessageKey)
    requires Built(messages, aliases, c) && !Conflicted(NewContents(c, st))
    requires m in Affected(aliases, st) && m in Owners(NewContents(c, st))
    ensures var n := NewContents(c, st);
            var f := FirstOccurrence(n, m);
            && m in PublishedMessages(messages, aliases, st) && (f !in st.rows ==> m in messages)
            && (PublishedMessages(messages, aliases, st)[m] == RebuiltMessages(n)[m]
                <==> f in st.rows || n[f].row.cwd == messages[m].cwd)
  {
    hide Built, Conflicted, Affected, CandidateMessages, RebuiltMessages, First;
    var n, cand := NewContents(c, st), CandidateAliases(aliases, st);
    var obs := Observations(messages, cand, st);
    ObservationsAreNewContents(messages, aliases, c, st);
    var f := FirstOccurrence(n, m);
    assert f in obs && m in CandidateMessages(obs);
    CandidateRowIsFirst(obs, m);
    SameFirst(n, obs, m);
    RebuiltRow(n, m);
    PublishedRowHasNewFacts(messages, aliases, c, st, f);
  }

  lemma SameFirst(n: Contents, obs: map<AliasKey, Seen>, m: MessageKey)
    requires m in Owners(n) && SeenOccurrences(obs, m) != {}
    requires forall k :: k in obs && Owner(k, obs[k].id) == m <==> k in n && Owner(k, n[k].id) == m
    ensures First(SeenOccurrences(obs, m)) == FirstOccurrence(n, m)
  {
    hide First;
    assert SeenOccurrences(obs, m) == Occurrences(n, m);
  }

  lemma RebuiltRow(n: Contents, m: MessageKey)
    requires m in Owners(n)
    ensures m in RebuiltMessages(n) && RebuiltMessages(n)[m] == n[FirstOccurrence(n, m)].row
  {
  }

  /** A message that is not affected keeps the rebuilt row it has. */
  lemma UnaffectedRowIsRebuilt(messages: MessageTable, aliases: AliasTable, c: Contents, st: Stage, m: MessageKey)
    requires Built(messages, aliases, c) && messages == RebuiltMessages(c) && !OccurrenceClash(aliases, st)
    requires m !in Affected(aliases, st) && m in Owners(NewContents(c, st))
    ensures m in PublishedMessages(messages, aliases, st)
    ensures PublishedMessages(messages, aliases, st)[m] == RebuiltMessages(NewContents(c, st))[m]
  {
    hide Built, NewContents, Affected, CandidateMessages, RebuiltMessages, OccurrenceClash, First;
    var n := NewContents(c, st);
    forall k ensures k in Occurrences(n, m) <==> k in Occurrences(c, m)
      ensures k in Occurrences(c, m) ==> n[k] == c[k]
    {
      UnaffectedKeepTheirContents(messages, aliases, c, st, k);
      if k in Occurrences(c, m) { UnaffectedSurvive(messages, aliases, c, st, k); }
    }
    assert Occurrences(n, m) == Occurrences(c, m);
    var f := FirstOccurrence(n, m);
    assert f in Occurrences(n, m) && f in Occurrences(c, m);
    assert m in Owners(c);
    RebuiltRow(n, m);
    RebuiltRow(c, m);
    CandidateFitsTables(messages, aliases, c, st);
  }

  /** The published `cwd` of one message is the one a rebuild would give. */
  predicate CwdStands(messages: MessageTable, aliases: AliasTable, c: Contents, st: Stage, m: MessageKey) {
    m in Affected(aliases, st) && m in Owners(NewContents(c, st)) ==>
      var f := FirstOccurrence(NewContents(c, st), m);
      f in st.rows || (m in messages && NewContents(c, st)[f].row.cwd == messages[m].cwd)
  }

  /** From tables that are a rebuild in every column, publication leaves a rebuild in every column,
      `cwd` included, exactly when each affected message was staged by its first occurrence or has
      the `cwd` of that occurrence already. */
  lemma CwdIsRebuiltExactly(messages: MessageTable, aliases: AliasTable, c: Contents, st: Stage)
    requires Built(messages, aliases, c) && messages == RebuiltMessages(c)
    requires !Conflicted(NewContents(c, st)) && !OccurrenceClash(aliases, st)
    ensures PublishedMessages(messages, aliases, st) == RebuiltMessages(NewContents(c, st))
       <==> forall m :: CwdStands(messages, aliases, c, st, m)
  {
    hide Built, Conflicted, NewContents, Affected, PublishedMessages, RebuiltMessages, OccurrenceClash,
        FirstOccurrence, Owners;
    var n := NewContents(c, st);
    var after, rebuilt := PublishedMessages(messages, aliases, st), RebuiltMessages(n);
    forall m ensures m in after <==> m in rebuilt
      ensures m in after ==> (after[m] == rebuilt[m] <==> CwdStands(messages, aliases, c, st, m))
      ensures m !in after ==> CwdStands(messages, aliases, c, st, m)
    {
      RebuiltDomain(n, m);
      if m in Owners(n) {
        if m in Affected(aliases, st) {
          AffectedRowIsRebuiltWhen(messages, aliases, c, st, m);
        } else {
          UnaffectedRowIsRebuilt(messages, aliases, c, st, m);
        }
      } else if m in after {
        PublishedRowIsObserved(messages, aliases, c, st, m);
      }
    }
    if forall m :: CwdStands(messages, aliases, c, st, m) { assert after == rebuilt; }
  }

  lemma RebuiltDomain(n: Contents, m: MessageKey)
    ensures m in RebuiltMessages(n) <==> m in Owners(n)
  {
  }

  /** The sources that hold a message agree on its `cwd`. */
  ghost predicate CwdAgreed(c: Contents) {
    forall a, b :: a in c && b in c && Owner(a, c[a].id) == Owner(b, c[b].id) ==> c[a].row.cwd == c[b].row.cwd
  }

  /** Where they agreed before, the published `cwd` stays the rebuilt one. */
  lemma AgreedCwdStands(messages: MessageTable, aliases: AliasTable, c: Contents, st: Stage, m: MessageKey)
    requires Built(messages, aliases, c) && messages == RebuiltMessages(c) && CwdAgreed(c)
    ensures CwdStands(messages, aliases, c, st, m)
  {
    hide Built, Affected, RebuiltMessages, First;
    var n := NewContents(c, st);
    if m in Owners(n) {
      var f := FirstOccurrence(n, m);
      if f !in st.rows {
        assert f in c && n[f] == c[f];
        assert m in Owners(c);
        RebuiltRow(c, m);
      }
    }
  }

  /** Every message that publication leaves has at least one occurrence, and conversely. */
  lemma {:induction false} EveryMessageHasAnAlias(messages: MessageTable, aliases: AliasTable, c: Contents,
      m: MessageKey)
    requires Built(messages, aliases, c)
    ensures m in messages <==> exists k :: k in aliases && Owner(k, aliases[k].id) == m
  {
    BuiltGivesPoints(messages, aliases, c);
    if m in messages {
      var k :| k in c && Owner(k, c[k].id) == m;
      assert k in aliases && aliases[k].id == c[k].id;
    }
    if k :| k in aliases && Owner(k, aliases[k].id) == m {
      assert k in c && Owner(k, c[k].id) == m;
    }
  }

  // ---------------------------------------------------------------- theorems about histories

  /** What the tables and the per-source contents are after a history of refreshes, where a run
      that is refused changes neither. */
  datatype Corpus = Corpus(messages: MessageTable, aliases: AliasTable)

  predicate Accepted(t: Corpus, st: Stage) {
    && !OccurrenceClash(t.aliases, st)
    && !ConflictSeen(Observations(t.messages, CandidateAliases(t.aliases, st), st))
  }

  function Refresh(t: Corpus, st: Stage): Corpus {
    if Accepted(t, st)
    then Corpus(PublishedMessages(t.messages, t.aliases, st), PublishedAliases(t.aliases, st))
    else t
  }

  function AfterHistory(history: seq<Stage>): Corpus {
    if history == [] then Corpus(map[], map[])
    else Refresh(AfterHistory(history[..|history| - 1]), history[|history| - 1])
  }

  function LatestContents(history: seq<Stage>): Contents {
    if history == [] then map[]
    else
      var past := history[..|history| - 1];
      var st := history[|history| - 1];
      if Accepted(AfterHistory(past), st) then NewContents(LatestContents(past), st) else LatestContents(past)
  }

  /** Over any sequence of refreshes (replacements, appends, removals, failed sources, refused
      runs) the tables are the build from nothing of every source's latest staged rows. */
  lemma {:induction false} HistoryRefinesRebuild(history: seq<Stage>)
    ensures var t := AfterHistory(history);
            Built(t.messages, t.aliases, LatestContents(history))
  {
    if history == [] {
      assert Owners(map[]) == {};
      assert RebuiltMessages(map[]) == map[];
    } else {
      var past, st := history[..|history| - 1], history[|history| - 1];
      HistoryRefinesRebuild(past);
      var t, c := AfterHistory(past), LatestContents(past);
      if Accepted(t, st) {
        ConflictCheckIsComplete(t.messages, t.aliases, c, st);
        DeltaRefinesRebuild(t.messages, t.aliases, c, st);
      }
    }
  }

  /** After each refresh of the history the message table is a rebuild in every column. */
  ghost predicate RebuiltAllAlong(history: seq<Stage>) {
    forall n :: 0 <= n <= |history| ==>
      AfterHistory(history[..n]).messages == RebuiltMessages(LatestContents(history[..n]))
  }

  ghost predicate StepStands(history: seq<Stage>, n: nat)
    requires n < |history|
  {
    var t, c := AfterHistory(history[..n]), LatestContents(history[..n]);
    Accepted(t, history[n]) ==> forall m :: CwdStands(t.messages, t.aliases, c, history[n], m)
  }

  lemma StepRebuilds(history: seq<Stage>, n: nat)
    requires n < |history| && AfterHistory(history[..n]).messages == RebuiltMessages(LatestContents(history[..n]))
    ensures AfterHistory(history[..n + 1]).messages == RebuiltMessages(LatestContents(history[..n + 1]))
       <==> StepStands(history, n)
    ensures CwdAgreed(LatestContents(history[..n])) ==> StepStands(history, n)
  {
    hide Built, Conflicted, NewContents, PublishedMessages, PublishedAliases, RebuiltMessages, OccurrenceClash,
        ConflictSeen, Observations,
      CandidateAliases, CwdStands, CwdAgreed;
    var past, st := history[..n], history[n];
    var t, c := AfterHistory(past), LatestContents(past);
    assert history[..n + 1][..n] == past;
    HistoryRefinesRebuild(past);
    if Accepted(t, st) {
      ConflictCheckIsComplete(t.messages, t.aliases, c, st);
      CwdIsRebuiltExactly(t.messages, t.aliases, c, st);
      if CwdAgreed(c) {
        forall m ensures CwdStands(t.messages, t.aliases, c, st, m) {
          AgreedCwdStands(t.messages, t.aliases, c, st, m);
        }
      }
    }
  }

  /** A history keeps even `cwd` rebuilt all along exactly when each accepted refresh of it does;
      agreement of the sources before each refresh is enough. */
  lemma {:induction false} HistoryRebuildsCwd(history: seq<Stage>)
    ensures RebuiltAllAlong(history) <==> forall n: nat :: n < |history| ==> StepStands(history, n)
    ensures (forall n: nat :: n < |history| ==> CwdAgreed(LatestContents(history[..n]))) ==> RebuiltAllAlong(history)
  {
    hide AfterHistory, LatestContents, RebuiltMessages, CwdAgreed, StepStands;
    RebuiltAtStart(history);
    var n := 0;
    while n < |history| && StepStands(history, n)
      invariant 0 <= n <= |history|
      invariant forall k :: 0 <= k <= n ==>
        AfterHistory(history[..k]).messages == RebuiltMessages(LatestContents(history[..k]))
      invariant forall k: nat :: k < n ==> StepStands(history, k)
    {
      StepRebuilds(history, n);
      n := n + 1;
    }
    if n < |history| { StepRebuilds(history, n); }
  }

  lemma RebuiltAtStart(history: seq<Stage>)
    ensures AfterHistory(history[..0]).messages == RebuiltMessages(LatestContents(history[..0]))
  {
    assert history[..0] == [];
    assert Owners(map[]) == {};
    assert RebuiltMessages(map[]) == map[];
  }

  /** A refresh is refused exactly when the rebuild would be, or when an append moves an
      occurrence off a message the refresh does not otherwise touch. */
  lemma {:induction false} RefusedExactly(history: seq<Stage>, st: Stage)
    ensures var t := AfterHistory(history);
            !Accepted(t, st) <==>
              || Conflicted(NewContents(LatestContents(history), st))
              || exists k :: k in st.rows && k in t.aliases && Owner(k, t.aliases[k].id) !in Affected(t.aliases, st)
  {
    var t := AfterHistory(history);
    HistoryRefinesRebuild(history);
    ConflictCheckIsComplete(t.messages, t.aliases, LatestContents(history), st);
    ClashExactly(t.aliases, st);
  }
}
