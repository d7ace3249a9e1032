/** Conservative pairing of the two projections Codex writes of one message: a bucketed, bisecting
    matcher against its brute-force meaning. */
module Canonicalization {
  import opened CorpusTables
  import opened Sorting

  // ---------------------------------------------------------------- messages and candidates

  datatype Family = ResponseMessage | EventMessage | Tool | Canonical

  /** A physical key: a native id, or a record's own ordinal and digest. */
  datatype Locator =
    | IdLocator(session: int, id: int)
    | OrdinalLocator(session: int, number: nat, digest: int)
  {
    function Rank(): Key {
      match this
      case IdLocator(session, id) => [session, 0, id]
      case OrdinalLocator(session, number, digest) => [session, 1, number, digest]
    }
  }

  datatype PhysicalAlias = PhysicalAlias(locator: Locator, file: int, ordinal: nat, offset: nat, length: nat,
      digest: int)

  datatype LogicalId = NativeId(id: int) | RecordId(number: nat, digest: int)

  /** A native timestamp; the instant is there when it is timezone-aware ISO text. */
  datatype Timestamp = Timestamp(text: string, instant: Option<int>)

  datatype NativeMessage = NativeMessage(
    logicalId: LogicalId, canonical: Locator, aliases: seq<PhysicalAlias>, timestamp: Timestamp, role: string,
    kind: SessionKind, epoch: nat, cls: ContentClass, text: string, submittedBy: SubmittedBy,
    evidence: set<string>, cardinality: nat)
  {
    /** What constructing a message rejects. */
    predicate Valid() {
      && aliases != [] && (exists a :: a in aliases && a.locator == canonical)
      && (forall a :: a in aliases ==> a.locator.session == canonical.session)
      && (if submittedBy.UnknownSubmitter? then evidence == {} && cardinality == 0
          else evidence != {} && cardinality == 1)
    }
  }

  datatype Candidate = Candidate(message: NativeMessage, family: Family)
  {
    function TextDigest(): Digest { Sha256(message.text) }
  }

  // ---------------------------------------------------------------- orders

  function AliasKey(a: PhysicalAlias): Key { [a.file, a.ordinal, a.offset] + a.locator.Rank() }

  /** The first alias with the smallest key. */
  function Earliest(aliases: seq<PhysicalAlias>): (a: PhysicalAlias)
    requires aliases != []
    ensures a in aliases
  {
    if |aliases| == 1 then aliases[0]
    else
      var least := Earliest(aliases[..|aliases| - 1]);
      if Less(AliasKey(aliases[|aliases| - 1]), AliasKey(least)) then aliases[|aliases| - 1] else least
  }

  function MessageKey(m: NativeMessage): Key {
    if m.aliases == [] then [] else [Earliest(m.aliases).locator.session] + AliasKey(Earliest(m.aliases))
  }

  function CandidateKey(c: Candidate): Key { MessageKey(c.message) }

  // ---------------------------------------------------------------- compatibility

  predicate OppositeFamilies(a: Family, b: Family) {
    (a == ResponseMessage && b == EventMessage) || (a == EventMessage && b == ResponseMessage)
  }

  predicate Pairable(c: Candidate) { c.family == ResponseMessage || c.family == EventMessage }

  predicate TimestampsFollowPhysicalOrder(left: Candidate, right: Candidate) {
    && left.message.timestamp.instant.Some? && right.message.timestamp.instant.Some?
    && var l, r := left.message.timestamp.instant.value, right.message.timestamp.instant.value;
       if AtMost(CandidateKey(left), CandidateKey(right)) then l <= r else r <= l
  }

  predicate BaseCompatible(left: Candidate, right: Candidate)
    requires left.message.Valid() && right.message.Valid()
  {
    && OppositeFamilies(left.family, right.family)
    && left.message.canonical.session == right.message.canonical.session
    && Earliest(left.message.aliases).file == Earliest(right.message.aliases).file
    && left.message.kind == right.message.kind
    && left.message.epoch == right.message.epoch
    && left.message.role == right.message.role
    && left.message.cls.Prose? && right.message.cls.Prose?
    && left.TextDigest() == right.TextDigest()
    && TimestampsFollowPhysicalOrder(left, right)
  }

  /** The order-free relation: the response is always compared with the event. */
  predicate Matches(a: Candidate, b: Candidate)
    requires a.message.Valid() && b.message.Valid()
  {
    if a.family == ResponseMessage then BaseCompatible(a, b) else BaseCompatible(b, a)
  }

  lemma MatchesSymmetric(a: Candidate, b: Candidate)
    requires a.message.Valid() && b.message.Valid()
    ensures Matches(a, b) == Matches(b, a)
    ensures Matches(a, b) ==> Pairable(a) && Pairable(b) && a.family != b.family
  {
  }

  ghost predicate AllValid(cs: seq<Candidate>) {
    forall i :: 0 <= i < |cs| ==> cs[i].message.Valid()
  }

  // ---------------------------------------------------------------- the brute-force meaning

  ghost predicate Match(cs: seq<Candidate>, i: nat, j: nat)
    requires AllValid(cs)
  {
    i < |cs| && j < |cs| && Matches(cs[i], cs[j])
  }

  ghost predicate OnlyPartner(cs: seq<Candidate>, i: nat, j: nat)
    requires AllValid(cs)
  {
    Match(cs, i, j) && forall k: nat :: Match(cs, i, k) ==> k == j
  }

  datatype Boundary = Boundary(session: int, file: int, epoch: nat)

  function VisibilityBoundary(c: Candidate): Boundary
    requires c.message.Valid()
  {
    var alias := Earliest(c.message.aliases);
    Boundary(alias.locator.session, alias.file, c.message.epoch)
  }

  function Ordinal(c: Candidate): nat
    requires c.message.Valid()
  {
    Earliest(c.message.aliases).ordinal
  }

  /** Some visible message of the boundary lies strictly between two ordinals. */
  ghost predicate VisibleBetween(cs: seq<Candidate>, boundary: Boundary, x: nat, y: nat)
    requires AllValid(cs)
  {
    exists k :: 0 <= k < |cs| && cs[k].message.cls.Prose? && VisibilityBoundary(cs[k]) == boundary
                && (x < Ordinal(cs[k]) < y || y < Ordinal(cs[k]) < x)
  }

  /** Two candidates are projections of one message when each is the other's only match and
      nothing visible separates them. */
  ghost predicate Paired(cs: seq<Candidate>, i: nat, j: nat)
    requires AllValid(cs)
  {
    && OnlyPartner(cs, i, j) && OnlyPartner(cs, j, i)
    && !VisibleBetween(cs, VisibilityBoundary(cs[i]), Ordinal(cs[i]), Ordinal(cs[j]))
  }

  lemma SameBoundary(a: Candidate, b: Candidate)
    requires a.message.Valid() && b.message.Valid() && Matches(a, b)
    ensures VisibilityBoundary(a) == VisibilityBoundary(b)
  {
  }

  /** The gate is symmetric, so no candidate can be emitted both alone and merged. */
  lemma PairedSymmetric(cs: seq<Candidate>, i: nat, j: nat)
    requires AllValid(cs)
    ensures Paired(cs, i, j) == Paired(cs, j, i)
    ensures Paired(cs, i, j) ==> i < |cs| && j < |cs| && i != j
    ensures forall k :: Paired(cs, i, j) && Paired(cs, i, k) ==> k == j
  {
    hide BaseCompatible, VisibilityBoundary, Ordinal, NativeMessage.Valid;
    if Match(cs, i, j) {
      SameBoundary(cs[i], cs[j]);
      MatchesSymmetric(cs[i], cs[j]);
    }
    if Match(cs, j, i) {
      SameBoundary(cs[j], cs[i]);
      MatchesSymmetric(cs[i], cs[j]);
    }
  }

  ghost function Partner(cs: seq<Candidate>, i: nat): (p: Option<nat>)
    requires AllValid(cs)
    ensures p.Some? ==> Paired(cs, i, p.value)
    ensures p.None? ==> forall j :: !Paired(cs, i, j)
  {
    if exists j :: Paired(cs, i, j) then
      var j :| Paired(cs, i, j);
      Some(j)
    else None
  }

  lemma PartnerIs(cs: seq<Candidate>, i: nat, j: nat)
    requires AllValid(cs)
    ensures Partner(cs, i) == Some(j) <==> Paired(cs, i, j)
    ensures Partner(cs, i) == Some(j) <==> Partner(cs, j) == Some(i)
    ensures Partner(cs, i) == Some(j) ==> i < |cs| && j < |cs| && i != j
  {
    hide Paired;
    PairedSymmetric(cs, i, j);
    if Paired(cs, i, j) {
      PairedSymmetric(cs, i, Partner(cs, i).value);
      PairedSymmetric(cs, j, Partner(cs, j).value);
    }
  }

  // ---------------------------------------------------------------- merging

  function Submission(a: NativeMessage, b: NativeMessage): (SubmittedBy, set<string>, nat) {
    if a.submittedBy.UnknownSubmitter? && b.submittedBy.UnknownSubmitter? then (UnknownSubmitter, {}, 0)
    else if a.submittedBy.UnknownSubmitter? then (b.submittedBy, b.evidence, b.cardinality)
    else if b.submittedBy.UnknownSubmitter? then (a.submittedBy, a.evidence, a.cardinality)
    else if a.submittedBy == b.submittedBy then
      (a.submittedBy, a.evidence + b.evidence, if a.cardinality >= b.cardinality then a.cardinality else b.cardinality)
    else (UnknownSubmitter, {}, 0)
  }

  function CodexLogicalMessageId(alias: PhysicalAlias): LogicalId {
    match alias.locator
    case IdLocator(_, id) => NativeId(id)
    case OrdinalLocator(_, _, _) => RecordId(alias.ordinal, alias.digest)
  }

  function MergeMessages(a: NativeMessage, b: NativeMessage): NativeMessage
    requires a.Valid() && b.Valid()
  {
    var aliases := SortBy(a.aliases + b.aliases, AliasKey);
    assert |multiset(aliases)| == |multiset(a.aliases + b.aliases)|;
    var first := Earliest(aliases);
    var representative := if first in a.aliases then a else b;
    var submission := Submission(a, b);
    representative.(logicalId := CodexLogicalMessageId(first), canonical := first.locator, aliases := aliases,
                    submittedBy := submission.0, evidence := submission.1, cardinality := submission.2)
  }

  /** Merging keeps every occurrence and satisfies what constructing a message demands. */
  lemma MergeIsValid(a: NativeMessage, b: NativeMessage)
    requires a.Valid() && b.Valid() && a.canonical.session == b.canonical.session
    ensures MergeMessages(a, b).Valid()
    ensures multiset(MergeMessages(a, b).aliases) == multiset(a.aliases) + multiset(b.aliases)
  {
    var m := MergeMessages(a, b);
    SameElements(m.aliases, a.aliases + b.aliases);
    assert Earliest(m.aliases) in m.aliases;
    forall x | x in m.aliases ensures x.locator.session == m.canonical.session {
      assert x in a.aliases + b.aliases && Earliest(m.aliases) in a.aliases + b.aliases;
    }
  }

  /** Which of the two comes first does not matter when their occurrences can be told apart. */
  lemma MergeSymmetric(a: NativeMessage, b: NativeMessage)
    requires a.Valid() && b.Valid() && Distinguishes(AliasKey, a.aliases + b.aliases)
    requires multiset(a.aliases) !! multiset(b.aliases)
    ensures MergeMessages(a, b) == MergeMessages(b, a)
  {
    hide SortBy, Less, AliasKey, Earliest;
    assert multiset(a.aliases + b.aliases) == multiset(b.aliases + a.aliases);
    SortForgetsOrder(a.aliases + b.aliases, b.aliases + a.aliases, AliasKey);
    var first := Earliest(MergeMessages(a, b).aliases);
    SameElements(MergeMessages(a, b).aliases, a.aliases + b.aliases);
    assert first in a.aliases + b.aliases;
    assert first in multiset(a.aliases) <==> first in a.aliases;
    assert first in multiset(b.aliases) <==> first in b.aliases;
    assert a.evidence + b.evidence == b.evidence + a.evidence;
  }

  lemma {:induction false} EarliestIsLeast(aliases: seq<PhysicalAlias>)
    requires aliases != []
    ensures forall a :: a in aliases ==> AtMost(AliasKey(Earliest(aliases)), AliasKey(a))
    decreases |aliases|
  {
    hide Less, AliasKey;
    var front, last := aliases[..|aliases| - 1], aliases[|aliases| - 1];
    Trichotomy(AliasKey(last), AliasKey(last));
    if front != [] {
      EarliestIsLeast(front);
      var least := Earliest(front);
      Trichotomy(AliasKey(last), AliasKey(least));
      forall a | a in aliases ensures AtMost(AliasKey(Earliest(aliases)), AliasKey(a)) {
        if a in front { LessTransitive(AliasKey(Earliest(aliases)), AliasKey(least), AliasKey(a)); }
      }
    }
  }

  /** The merged message keeps the identity of its earliest occurrence: a candidate all of whose
      occurrences come first keeps its logical id and its canonical locator. */
  lemma MergeKeepsEarliest(a: NativeMessage, b: NativeMessage)
    requires a.Valid() && b.Valid()
    requires forall x, y :: x in a.aliases && y in b.aliases ==> Less(AliasKey(x), AliasKey(y))
    ensures var m := MergeMessages(a, b);
            var first := Earliest(m.aliases);
            && first in a.aliases && AliasKey(first) == AliasKey(Earliest(a.aliases))
            && m.canonical == first.locator && m.logicalId == CodexLogicalMessageId(first)
            && m.timestamp == a.timestamp && m.role == a.role && m.text == a.text && m.epoch == a.epoch
            && m.kind == a.kind
  {
    hide Less, AliasKey;
    var m := MergeMessages(a, b);
    SameElements(m.aliases, a.aliases + b.aliases);
    EarliestIsLeast(m.aliases);
    EarliestIsLeast(a.aliases);
    var first, own := Earliest(m.aliases), Earliest(a.aliases);
    assert first in a.aliases + b.aliases && own in a.aliases + b.aliases;
    Trichotomy(AliasKey(first), AliasKey(own));
  }

  // ---------------------------------------------------------------- the output, one group a message

  /** The candidates that the message emitted at position i is made of. */
  ghost function GroupAt(cs: seq<Candidate>, i: nat): seq<seq<nat>>
    requires AllValid(cs)
  {
    match Partner(cs, i)
    case None => [[i]]
    case Some(j) => if j < i then [] else [[i, j]]
  }

  ghost function Groups(cs: seq<Candidate>, n: nat): seq<seq<nat>>
    requires AllValid(cs)
  {
    if n == 0 then [] else Groups(cs, n - 1) + GroupAt(cs, n - 1)
  }

  /** Whether candidate x has been emitted once the first n have been visited. */
  ghost predicate Emitted(cs: seq<Candidate>, n: nat, x: nat)
    requires AllValid(cs)
  {
    x < n || (Partner(cs, x).Some? && Partner(cs, x).value < n)
  }

  /** In how many groups a candidate is. */
  ghost function Times(groups: seq<seq<nat>>, x: nat): nat {
    if groups == [] then 0
    else Times(groups[..|groups| - 1], x) + if x in groups[|groups| - 1] then 1 else 0
  }

  lemma TimesOne(groups: seq<seq<nat>>, group: seq<nat>, x: nat)
    ensures Times(groups + [group], x) == Times(groups, x) + if x in group then 1 else 0
  {
    assert (groups + [group])[..|groups|] == groups;
  }

  /** Visiting one candidate emits its group, of which nothing was emitted before. */
  lemma EmittedStep(cs: seq<Candidate>, n: nat, x: nat)
    requires AllValid(cs)
    ensures GroupAt(cs, n) == [] ==> Emitted(cs, n + 1, x) == Emitted(cs, n, x)
    ensures GroupAt(cs, n) != [] ==>
      && |GroupAt(cs, n)| == 1 && !(Emitted(cs, n, x) && x in GroupAt(cs, n)[0])
      && (Emitted(cs, n + 1, x) <==> Emitted(cs, n, x) || x in GroupAt(cs, n)[0])
  {
    hide Partner, AllValid, Paired;
    PartnerIs(cs, x, n);
    if Partner(cs, n).Some? { PartnerIs(cs, n, Partner(cs, n).value); }
  }

  lemma {:induction false} EmittedOnce(cs: seq<Candidate>, n: nat, x: nat)
    requires AllValid(cs)
    ensures Times(Groups(cs, n), x) == if Emitted(cs, n, x) then 1 else 0
  {
    hide Partner, AllValid, Paired, Emitted, GroupAt, Times;
    if n == 0 {
      assert Times([], x) == 0 by { NoTimes(x); }
      assert !Emitted(cs, 0, x) by { NothingEmitted(cs, x); }
    } else {
      EmittedOnce(cs, n - 1, x);
      EmittedStep(cs, n - 1, x);
      var added := GroupAt(cs, n - 1);
      if added == [] {
        assert Groups(cs, n) == Groups(cs, n - 1);
      } else {
        assert added == [added[0]];
        TimesOne(Groups(cs, n - 1), added[0], x);
      }
    }
  }

  lemma NoTimes(x: nat)
    ensures Times([], x) == 0
  {
  }

  lemma NothingEmitted(cs: seq<Candidate>, x: nat)
    requires AllValid(cs)
    ensures !Emitted(cs, 0, x)
  {
  }

  /** The emitted messages partition the candidates: each is in exactly one of them. */
  lemma OutputsPartitionCandidates(cs: seq<Candidate>, x: nat)
    requires AllValid(cs)
    ensures Times(Groups(cs, |cs|), x) == if x < |cs| then 1 else 0
  {
    hide Partner, AllValid;
    EmittedOnce(cs, |cs|, x);
    if Partner(cs, x).Some? { PartnerIs(cs, x, Partner(cs, x).value); }
  }

  ghost function OutputAt(cs: seq<Candidate>, i: nat): seq<NativeMessage>
    requires AllValid(cs) && i < |cs|
  {
    match Partner(cs, i)
    case None => [cs[i].message]
    case Some(j) => if j < i then [] else [MergeMessages(cs[i].message, cs[j].message)]
  }

  /** The messages emitted for the first n candidates of a sorted list. */
  ghost function Outputs(cs: seq<Candidate>, n: nat): seq<NativeMessage>
    requires AllValid(cs) && n <= |cs|
  {
    if n == 0 then [] else Outputs(cs, n - 1) + OutputAt(cs, n - 1)
  }

  function Occurrences(m: NativeMessage, a: PhysicalAlias): nat { multiset(m.aliases)[a] }

  function OccurrencesIn(messages: seq<NativeMessage>, a: PhysicalAlias): nat {
    if messages == [] then 0
    else OccurrencesIn(messages[..|messages| - 1], a) + Occurrences(messages[|messages| - 1], a)
  }

  /** How often an occurrence is among the candidates selected by s, of the first k. */
  ghost function Selected(cs: seq<Candidate>, k: nat, s: nat -> bool, a: PhysicalAlias): nat
    requires k <= |cs|
  {
    if k == 0 then 0 else Selected(cs, k - 1, s, a) + if s(k - 1) then Occurrences(cs[k - 1].message, a) else 0
  }

  lemma {:induction false} SelectedSplits(cs: seq<Candidate>, k: nat, s: nat -> bool, t: nat -> bool, u: nat -> bool,
      a: PhysicalAlias)
    requires k <= |cs| && forall x: nat :: x < k ==> (s(x) <==> t(x) || u(x)) && !(t(x) && u(x))
    ensures Selected(cs, k, s, a) == Selected(cs, k, t, a) + Selected(cs, k, u, a)
  {
    if k > 0 { SelectedSplits(cs, k - 1, s, t, u, a); }
  }

  lemma {:induction false} SelectedOne(cs: seq<Candidate>, k: nat, i: nat, a: PhysicalAlias)
    requires k <= |cs| && i < |cs|
    ensures Selected(cs, k, (x: nat) => x == i, a) == if i < k then Occurrences(cs[i].message, a) else 0
  {
    if k > 0 { SelectedOne(cs, k - 1, i, a); }
  }

  lemma {:induction false} SelectedNone(cs: seq<Candidate>, k: nat, s: nat -> bool, a: PhysicalAlias)
    requires k <= |cs| && forall x: nat :: x < k ==> !s(x)
    ensures Selected(cs, k, s, a) == 0
  {
    if k > 0 { SelectedNone(cs, k - 1, s, a); }
  }

  lemma OccurrencesOne(messages: seq<NativeMessage>, m: NativeMessage, a: PhysicalAlias)
    ensures OccurrencesIn(messages + [m], a) == OccurrencesIn(messages, a) + Occurrences(m, a)
  {
    assert (messages + [m])[..|messages|] == messages;
  }

  /** One visit: the occurrences emitted are those of the group it emits. */
  lemma OutputStep(cs: seq<Candidate>, n: nat, a: PhysicalAlias)
    requires AllValid(cs) && n < |cs|
    ensures OccurrencesIn(Outputs(cs, n + 1), a)
            == OccurrencesIn(Outputs(cs, n), a)
              + Selected(cs, |cs|, (x: nat) => GroupAt(cs, n) != [] && x in GroupAt(cs, n)[0], a)
  {
    hide Paired, Matches, NativeMessage.Valid, MergeMessages, Occurrences;
    var group := (x: nat) => GroupAt(cs, n) != [] && x in GroupAt(cs, n)[0];
    match Partner(cs, n)
    case None =>
      OccurrencesOne(Outputs(cs, n), cs[n].message, a);
      SelectedNone(cs, |cs|, (x: nat) => false, a);
      SelectedSplits(cs, |cs|, group, (x: nat) => x == n, (x: nat) => false, a);
      SelectedOne(cs, |cs|, n, a);
    case Some(j) =>
      PartnerIs(cs, n, j);
      if j < n {
        assert Outputs(cs, n + 1) == Outputs(cs, n);
        SelectedNone(cs, |cs|, group, a);
      } else {
        OccurrencesOne(Outputs(cs, n), MergeMessages(cs[n].message, cs[j].message), a);
        MergedOccurrences(cs, n, j, a);
        SelectedSplits(cs, |cs|, group, (x: nat) => x == n, (x: nat) => x == j, a);
        SelectedOne(cs, |cs|, n, a);
        SelectedOne(cs, |cs|, j, a);
      }
  }

  lemma MergedOccurrences(cs: seq<Candidate>, i: nat, j: nat, a: PhysicalAlias)
    requires AllValid(cs) && Paired(cs, i, j)
    ensures MergeMessages(cs[i].message, cs[j].message).Valid()
    ensures Occurrences(MergeMessages(cs[i].message, cs[j].message), a)
              == Occurrences(cs[i].message, a) + Occurrences(cs[j].message, a)
  {
    hide NativeMessage.Valid, MergeMessages, VisibilityBoundary, Earliest;
    MergeIsValid(cs[i].message, cs[j].message);
  }

  lemma {:induction false} OutputOccurrences(cs: seq<Candidate>, n: nat, a: PhysicalAlias)
    requires AllValid(cs) && n <= |cs|
    ensures OccurrencesIn(Outputs(cs, n), a) == Selected(cs, |cs|, (x: nat) => Emitted(cs, n, x), a)
  {
    hide AllValid, GroupAt, Emitted, Outputs;
    if n == 0 {
      forall x: nat ensures !Emitted(cs, 0, x) { NothingEmitted(cs, x); }
      SelectedNone(cs, |cs|, (x: nat) => Emitted(cs, 0, x), a);
      NoOutputs(cs, a);
    } else {
      OutputOccurrences(cs, n - 1, a);
      OutputStep(cs, n - 1, a);
      var now, earlier := (x: nat) => Emitted(cs, n, x), (x: nat) => Emitted(cs, n - 1, x);
      var added := (x: nat) => GroupAt(cs, n - 1) != [] && x in GroupAt(cs, n - 1)[0];
      forall x: nat ensures (now(x) <==> earlier(x) || added(x)) && !(earlier(x) && added(x)) {
        EmittedStep(cs, n - 1, x);
      }
      SelectedSplits(cs, |cs|, now, earlier, added, a);
    }
  }

  lemma NoOutputs(cs: seq<Candidate>, a: PhysicalAlias)
    requires AllValid(cs)
    ensures OccurrencesIn(Outputs(cs, 0), a) == 0
  {
  }

  function MessagesOf(cs: seq<Candidate>): (r: seq<NativeMessage>)
    ensures |r| == |cs| && forall i :: 0 <= i < |cs| ==> r[i] == cs[i].message
  {
    seq(|cs|, i requires 0 <= i < |cs| => cs[i].message)
  }

  lemma {:induction false} SelectedAll(cs: seq<Candidate>, k: nat, s: nat -> bool, a: PhysicalAlias)
    requires k <= |cs| && forall x: nat :: x < k ==> s(x)
    ensures Selected(cs, k, s, a) == OccurrencesIn(MessagesOf(cs)[..k], a)
  {
    if k > 0 {
      SelectedAll(cs, k - 1, s, a);
      assert MessagesOf(cs)[..k] == MessagesOf(cs)[..k - 1] + [cs[k - 1].message];
      OccurrencesOne(MessagesOf(cs)[..k - 1], cs[k - 1].message, a);
    }
  }

  /** Canonicalization neither loses nor repeats a physical occurrence. */
  lemma OccurrencesKept(cs: seq<Candidate>, a: PhysicalAlias)
    requires AllValid(cs)
    ensures OccurrencesIn(Outputs(cs, |cs|), a) == OccurrencesIn(MessagesOf(cs), a)
  {
    hide AllValid, Emitted, Outputs, OccurrencesIn, Selected;
    OutputOccurrences(cs, |cs|, a);
    forall x: nat | x < |cs| ensures Emitted(cs, |cs|, x) { EmittedWhenVisited(cs, x); }
    SelectedAll(cs, |cs|, (x: nat) => Emitted(cs, |cs|, x), a);
    assert MessagesOf(cs)[..|cs|] == MessagesOf(cs);
  }

  lemma EmittedWhenVisited(cs: seq<Candidate>, x: nat)
    requires AllValid(cs) && x < |cs|
    ensures Emitted(cs, |cs|, x)
  {
  }

  // ---------------------------------------------------------------- diagnostics

  datatype DiagnosticCode = NoCompatiblePartner | MultipleCompatiblePartners

  datatype Diagnostic = Diagnostic(code: DiagnosticCode, aliases: seq<PhysicalAlias>)

  ghost predicate Several(cs: seq<Candidate>, i: nat)
    requires AllValid(cs)
  {
    exists j: nat, k: nat :: Match(cs, i, j) && Match(cs, i, k) && j != k
  }

  ghost predicate Ambiguous(cs: seq<Candidate>, i: nat)
    requires AllValid(cs)
  {
    Several(cs, i) || exists j: nat :: Match(cs, i, j) && Several(cs, j)
  }

  ghost function DiagnosticAt(cs: seq<Candidate>, i: nat): seq<Diagnostic>
    requires AllValid(cs) && i < |cs|
  {
    if !Pairable(cs[i]) || Partner(cs, i).Some? then []
    else
      var code := if Ambiguous(cs, i) then MultipleCompatiblePartners else NoCompatiblePartner;
      [Diagnostic(code, cs[i].message.aliases)]
  }

  ghost function Diagnostics(cs: seq<Candidate>, n: nat): seq<Diagnostic>
    requires AllValid(cs) && n <= |cs|
  {
    if n == 0 then [] else Diagnostics(cs, n - 1) + DiagnosticAt(cs, n - 1)
  }

  // ---------------------------------------------------------------- the bucketed partner index

  datatype CompatibilityKey = CompatibilityKey(session: int, file: int, kind: SessionKind, epoch: nat, role: string,
      cls: ContentClass, text: string)

  function CompatibilityKeyOf(c: Candidate): CompatibilityKey
    requires c.message.Valid()
  {
    var m := c.message;
    CompatibilityKey(m.canonical.session, Earliest(m.aliases).file, m.kind, m.epoch, m.role, m.cls, m.text)
  }

  /** Bucketing loses no pair: only candidates of one bucket can match. */
  lemma MatchesShareBucket(a: Candidate, b: Candidate)
    requires a.message.Valid() && b.message.Valid() && Matches(a, b)
    ensures CompatibilityKeyOf(a) == CompatibilityKeyOf(b)
  {
  }

  ghost predicate NoDuplicates<T>(s: seq<T>) { forall i, j :: 0 <= i < j < |s| ==> s[i] != s[j] }

  datatype Bucket = Bucket(responses: seq<nat>, events: seq<nat>)
  {
    /** This bucket with one more candidate, by its family. */
    function With(c: Candidate, i: nat): Bucket {
      if c.family == ResponseMessage then Bucket(responses + [i], events)
      else if c.family == EventMessage then Bucket(responses, events + [i])
      else this
    }

    ghost predicate Holds(cs: seq<Candidate>, n: nat, key: CompatibilityKey)
      requires AllValid(cs) && n <= |cs|
    {
      && NoDuplicates(responses) && NoDuplicates(events)
      && (forall i: nat :: i in responses
           <==> i < n && cs[i].family == ResponseMessage && CompatibilityKeyOf(cs[i]) == key)
      && (forall i: nat :: i in events <==> i < n && cs[i].family == EventMessage && CompatibilityKeyOf(cs[i]) == key)
    }
  }

  lemma Placed(cs: seq<Candidate>, n: nat, bucket: Bucket, key: CompatibilityKey)
    requires AllValid(cs) && n < |cs| && bucket.Holds(cs, n, key)
    ensures var joins := Pairable(cs[n]) && CompatibilityKeyOf(cs[n]) == key;
            (if joins then bucket.With(cs[n], n) else bucket).Holds(cs, n + 1, key)
  {
    hide CompatibilityKeyOf, AllValid;
    assert cs[n].message.Valid() by { ValidAt(cs, n); }
  }

  lemma NothingToHold(cs: seq<Candidate>, n: nat, key: CompatibilityKey)
    requires AllValid(cs) && n <= |cs|
    requires forall i :: 0 <= i < n && Pairable(cs[i]) ==> CompatibilityKeyOf(cs[i]) != key
    ensures Bucket([], []).Holds(cs, n, key)
  {
    hide CompatibilityKeyOf, AllValid;
  }

  ghost predicate Bucketed(cs: seq<Candidate>, n: nat, buckets: map<CompatibilityKey, Bucket>,
      order: seq<CompatibilityKey>)
    requires AllValid(cs) && n <= |cs|
  {
    && NoDuplicates(order) && (forall key :: key in order <==> key in buckets)
    && (forall key :: key in buckets ==> buckets[key].Holds(cs, n, key))
    && (forall i :: 0 <= i < n && Pairable(cs[i]) ==> CompatibilityKeyOf(cs[i]) in buckets)
  }

  method CompatibilityBuckets(cs: seq<Candidate>) returns (buckets: map<CompatibilityKey, Bucket>,
      order: seq<CompatibilityKey>)
    requires AllValid(cs)
    ensures Bucketed(cs, |cs|, buckets, order)
  {
    hide CompatibilityKeyOf, AllValid, Bucket.Holds, Bucket.With;
    buckets, order := map[], [];
    for n := 0 to |cs|
      invariant Bucketed(cs, n, buckets, order)
    {
      assert cs[n].message.Valid() by { ValidAt(cs, n); }
      forall key
        ensures key in buckets ==>
          (if Pairable(cs[n]) && CompatibilityKeyOf(cs[n]) == key then buckets[key].With(cs[n], n) else buckets[key])
            .Holds(cs, n + 1, key)
      {
        if key in buckets { Placed(cs, n, buckets[key], key); }
      }
      if Pairable(cs[n]) {
        var key := CompatibilityKeyOf(cs[n]);
        var bucket := if key in buckets then buckets[key] else Bucket([], []);
        if key !in buckets {
          NothingToHold(cs, n, key) by { assert Bucketed(cs, n, buckets, order); }
          Placed(cs, n, bucket, key);
          order := order + [key];
        }
        buckets := buckets[key := bucket.With(cs[n], n)];
      }
    }
  }

  lemma ValidAt(cs: seq<Candidate>, i: nat)
    requires AllValid(cs) && i < |cs|
    ensures cs[i].message.Valid()
  {
  }

  /** Partner lists hold exactly the matches one of whose sides is done; while a response is being
      compared, its matches among the events already seen count as well. */
  ghost predicate Linked(cs: seq<Candidate>, partners: seq<seq<nat>>, done: set<nat>, r: nat, seen: set<nat>)
    requires AllValid(cs)
  {
    && |partners| == |cs|
    && forall x: nat :: x < |cs| ==>
         && NoDuplicates(partners[x])
         && forall v: nat :: v in partners[x]
              <==> Match(cs, x, v) && (x in done || v in done || (x == r && v in seen) || (v == r && x in seen))
  }

  /** Compare one response with the events of its bucket. */
  method CompareResponse(cs: seq<Candidate>, r: nat, events: seq<nat>, partners: seq<seq<nat>>, ghost done: set<nat>)
    returns (linked: seq<seq<nat>>)
    requires AllValid(cs) && r < |cs| && cs[r].family == ResponseMessage && r !in done
    requires NoDuplicates(events) && forall e :: e in events ==> e < |cs| && cs[e].family == EventMessage && e !in done
    requires forall e: nat :: Match(cs, r, e) ==> e in events
    requires Linked(cs, partners, done, r, {}) && |partners| == |cs|
    ensures Linked(cs, linked, done + {r}, r, {}) && |linked| == |cs|
  {
    hide BaseCompatible, AllValid, Linked, Matches;
    linked := partners;
    ghost var seen: set<nat> := {};
    for t := 0 to |events|
      invariant forall e :: e in seen <==> e in events[..t]
      invariant Linked(cs, linked, done, r, seen) && |linked| == |cs|
    {
      var e := events[t];
      assert e in events;
      assert cs[r].message.Valid() && cs[e].message.Valid() by { ValidAt(cs, r); ValidAt(cs, e); }
      assert BaseCompatible(cs[r], cs[e]) == Match(cs, r, e) == Match(cs, e, r) by { MatchByResponse(cs, r, e); }
      LinkOne(cs, linked, done, r, seen, e);
      if BaseCompatible(cs[r], cs[e]) {
        linked := linked[r := linked[r] + [e]][e := linked[e] + [r]];
      }
      seen := seen + {e};
    }
    Compared(cs, linked, done, r, seen);
  }

  lemma MatchByResponse(cs: seq<Candidate>, r: nat, e: nat)
    requires AllValid(cs) && r < |cs| && e < |cs| && cs[r].family == ResponseMessage && cs[e].family == EventMessage
    ensures BaseCompatible(cs[r], cs[e]) == Match(cs, r, e) == Match(cs, e, r)
  {
  }

  lemma LinkOne(cs: seq<Candidate>, partners: seq<seq<nat>>, done: set<nat>, r: nat, seen: set<nat>, e: nat)
    requires AllValid(cs) && r < |cs| && e < |cs| && r != e && r !in done && e !in done && e !in seen && r !in seen
    requires Linked(cs, partners, done, r, seen) && Match(cs, r, e) == Match(cs, e, r)
    ensures var linked := partners[r := partners[r] + [e]][e := partners[e] + [r]];
            Linked(cs, if Match(cs, r, e) then linked else partners, done, r, seen + {e})
  {
    hide Matches, AllValid;
  }

  lemma Compared(cs: seq<Candidate>, partners: seq<seq<nat>>, done: set<nat>, r: nat, seen: set<nat>)
    requires AllValid(cs) && r < |cs| && Linked(cs, partners, done, r, seen)
    requires forall e: nat :: Match(cs, r, e) ==> e in seen
    ensures Linked(cs, partners, done + {r}, r, {})
  {
    hide Matches, AllValid;
    forall x: nat, v: nat ensures Match(cs, x, v) ==> Match(cs, v, x) { MatchBothWays(cs, x, v); }
  }

  lemma MatchBothWays(cs: seq<Candidate>, x: nat, v: nat)
    requires AllValid(cs)
    ensures Match(cs, x, v) ==> Match(cs, v, x)
  {
    if Match(cs, x, v) { MatchesSymmetric(cs[x], cs[v]); }
  }

  ghost function KeyAt(cs: seq<Candidate>, i: nat): CompatibilityKey
    requires AllValid(cs) && i < |cs|
  {
    CompatibilityKeyOf(cs[i])
  }

  /** The responses of the first buckets have been compared. */
  ghost predicate DoneUpTo(cs: seq<Candidate>, done: set<nat>, keys: seq<CompatibilityKey>)
    requires AllValid(cs)
  {
    forall x: nat :: x in done <==> x < |cs| && cs[x].family == ResponseMessage && KeyAt(cs, x) in keys
  }

  lemma NothingLinked(cs: seq<Candidate>, partners: seq<seq<nat>>)
    requires AllValid(cs) && |partners| == |cs| && forall i :: 0 <= i < |cs| ==> partners[i] == []
    ensures Linked(cs, partners, {}, 0, {})
  {
    hide Matches, AllValid;
  }

  lemma SeenNothing(cs: seq<Candidate>, partners: seq<seq<nat>>, done: set<nat>, r: nat, q: nat)
    requires AllValid(cs)
    ensures Linked(cs, partners, done, r, {}) == Linked(cs, partners, done, q, {})
  {
    hide Matches, AllValid;
  }

  lemma AllLinked(cs: seq<Candidate>, partners: seq<seq<nat>>, done: set<nat>)
    requires AllValid(cs) && Linked(cs, partners, done, 0, {})
    requires forall x: nat :: x < |cs| && cs[x].family == ResponseMessage ==> x in done
    ensures |partners| == |cs|
    ensures forall i: nat :: i < |cs| ==>
              NoDuplicates(partners[i]) && forall j: nat :: j in partners[i] <==> Match(cs, i, j)
  {
    hide Matches, AllValid;
    forall x: nat, v: nat ensures Match(cs, x, v) ==> x in done || v in done {
      if Match(cs, x, v) { OneSideResponse(cs, x, v); }
    }
  }

  lemma OneSideResponse(cs: seq<Candidate>, x: nat, v: nat)
    requires AllValid(cs) && Match(cs, x, v)
    ensures cs[x].family == ResponseMessage || cs[v].family == ResponseMessage
  {
  }

  /** The matches of a response are among the events of its own bucket. */
  lemma BucketComplete(cs: seq<Candidate>, bucket: Bucket, key: CompatibilityKey, r: nat)
    requires AllValid(cs) && bucket.Holds(cs, |cs|, key) && r in bucket.responses
    ensures r < |cs| && cs[r].family == ResponseMessage && KeyAt(cs, r) == key
    ensures forall e: nat :: Match(cs, r, e) ==> e in bucket.events
    ensures NoDuplicates(bucket.events) && forall e :: e in bucket.events ==> e < |cs| && cs[e].family == EventMessage
  {
    hide AllValid, Matches, CompatibilityKeyOf;
    forall e: nat | Match(cs, r, e) ensures e in bucket.events {
      assert cs[r].message.Valid() && cs[e].message.Valid() by { ValidAt(cs, r); ValidAt(cs, e); }
      MatchesShareBucket(cs[r], cs[e]);
      MatchesSymmetric(cs[r], cs[e]);
    }
  }

  lemma ResponsesDistinct(cs: seq<Candidate>, bucket: Bucket, key: CompatibilityKey)
    requires AllValid(cs) && bucket.Holds(cs, |cs|, key)
    ensures NoDuplicates(bucket.responses)
    ensures forall i: nat :: i in bucket.responses
              <==> i < |cs| && cs[i].family == ResponseMessage && KeyAt(cs, i) == key
  {
  }

  method CompareBucket(cs: seq<Candidate>, bucket: Bucket, ghost key: CompatibilityKey, partners: seq<seq<nat>>,
      ghost done: set<nat>)
    returns (linked: seq<seq<nat>>, ghost now: set<nat>)
    requires AllValid(cs) && bucket.Holds(cs, |cs|, key) && Linked(cs, partners, done, 0, {}) && |partners| == |cs|
    requires forall x :: x in done ==> x < |cs| && cs[x].family == ResponseMessage && KeyAt(cs, x) != key
    ensures Linked(cs, linked, now, 0, {}) && |linked| == |cs|
    ensures forall x :: x in now <==> x in done || x in bucket.responses
  {
    hide AllValid, Linked, Matches, Bucket.Holds, KeyAt;
    ResponsesDistinct(cs, bucket, key);
    linked, now := partners, done;
    for t := 0 to |bucket.responses|
      invariant Linked(cs, linked, now, 0, {}) && |linked| == |cs|
      invariant forall x :: x in now <==> x in done || x in bucket.responses[..t]
    {
      var r := bucket.responses[t];
      BucketComplete(cs, bucket, key, r);
      SeenNothing(cs, linked, now, 0, r);
      linked := CompareResponse(cs, r, bucket.events, linked, now);
      now := now + {r};
      SeenNothing(cs, linked, now, 0, r);
    }
  }

  lemma EveryResponseDone(cs: seq<Candidate>, done: set<nat>, buckets: map<CompatibilityKey, Bucket>,
      order: seq<CompatibilityKey>)
    requires AllValid(cs) && Bucketed(cs, |cs|, buckets, order) && DoneUpTo(cs, done, order[..|order|])
    ensures forall x: nat :: x < |cs| && cs[x].family == ResponseMessage ==> x in done
  {
    hide AllValid, CompatibilityKeyOf, Bucket.Holds;
    assert order[..|order|] == order;
    forall x: nat | x < |cs| && cs[x].family == ResponseMessage ensures x in done {
      assert Pairable(cs[x]) && cs[x].message.Valid() by { ValidAt(cs, x); }
    }
  }

  /** The bucketed index is the all-pairs relation. */
  method CompatiblePartners(cs: seq<Candidate>) returns (partners: seq<seq<nat>>)
    requires AllValid(cs)
    ensures |partners| == |cs|
    ensures forall i: nat :: i < |cs| ==>
              NoDuplicates(partners[i]) && forall j: nat :: j in partners[i] <==> Match(cs, i, j)
  {
    hide AllValid, Linked, Matches, Bucket.Holds, KeyAt;
    partners := seq(|cs|, (i: nat) => []);
    var buckets, order := CompatibilityBuckets(cs);
    ghost var done: set<nat> := {};
    NothingLinked(cs, partners);
    for k := 0 to |order|
      invariant Linked(cs, partners, done, 0, {}) && |partners| == |cs|
      invariant DoneUpTo(cs, done, order[..k])
    {
      var bucket := buckets[order[k]];
      ResponsesDistinct(cs, bucket, order[k]);
      partners, done := CompareBucket(cs, bucket, order[k], partners, done);
    }
    EveryResponseDone(cs, done, buckets, order);
    AllLinked(cs, partners, done);
  }

  // ---------------------------------------------------------------- the separation gate

  ghost predicate Ascending(s: seq<nat>) { forall i, j :: 0 <= i < j < |s| ==> s[i] <= s[j] }

  /** The first position whose value is not below x. */
  function BisectLeft(s: seq<nat>, x: nat): (p: nat)
    ensures p <= |s| && (forall i :: 0 <= i < p ==> s[i] < x) && (p < |s| ==> s[p] >= x)
  {
    if s == [] || s[0] >= x then 0 else 1 + BisectLeft(s[1..], x)
  }

  /** The first position whose value is above x. */
  function BisectRight(s: seq<nat>, x: nat): (p: nat)
    ensures p <= |s| && (forall i :: 0 <= i < p ==> s[i] <= x) && (p < |s| ==> s[p] > x)
  {
    if s == [] || s[0] > x then 0 else 1 + BisectRight(s[1..], x)
  }

  /** The two bisections bracket a value exactly when one lies strictly between. */
  lemma BisectFindsBetween(s: seq<nat>, lower: nat, upper: nat)
    requires Ascending(s) && lower <= upper
    ensures BisectRight(s, lower) < BisectLeft(s, upper) <==> exists v :: v in s && lower < v < upper
  {
    hide BisectLeft, BisectRight;
    var r, l := BisectRight(s, lower), BisectLeft(s, upper);
    if r < l { assert s[r] in s; }
    if v :| v in s && lower < v < upper {
      var i :| 0 <= i < |s| && s[i] == v;
      assert r <= i < l;
    }
  }

  type VisibleIndex = map<Boundary, seq<nat>>

  ghost predicate VisibleAt(cs: seq<Candidate>, n: nat, boundary: Boundary, v: nat)
    requires AllValid(cs) && n <= |cs|
  {
    exists k :: 0 <= k < n && cs[k].message.cls.Prose? && VisibilityBoundary(cs[k]) == boundary && Ordinal(cs[k]) == v
  }

  ghost predicate Collects(cs: seq<Candidate>, n: nat, index: VisibleIndex)
    requires AllValid(cs) && n <= |cs|
  {
    && (forall b :: b in index ==> forall v: nat :: v in index[b] <==> VisibleAt(cs, n, b, v))
    && (forall b, v: nat :: VisibleAt(cs, n, b, v) ==> b in index)
  }

  function Collect(index: VisibleIndex, c: Candidate): VisibleIndex
    requires c.message.Valid()
  {
    if !c.message.cls.Prose? then index
    else
      var boundary := VisibilityBoundary(c);
      index[boundary := (if boundary in index then index[boundary] else []) + [Ordinal(c)]]
  }

  lemma CollectOne(cs: seq<Candidate>, n: nat, index: VisibleIndex)
    requires AllValid(cs) && n < |cs| && cs[n].message.Valid() && Collects(cs, n, index)
    ensures Collects(cs, n + 1, Collect(index, cs[n]))
  {
    hide VisibilityBoundary, Ordinal, AllValid, VisibleAt;
    var next := Collect(index, cs[n]);
    forall b | b in next ensures forall v: nat :: v in next[b] <==> VisibleAt(cs, n + 1, b, v) {
      forall v: nat ensures v in next[b] <==> VisibleAt(cs, n + 1, b, v) { OneMoreVisible(cs, n, b, v); }
    }
    var m := n + 1;
    forall b, v: nat | VisibleAt(cs, m, b, v) ensures b in next { OneMoreVisible(cs, n, b, v); }
  }

  ghost predicate IndexesVisible(cs: seq<Candidate>, index: VisibleIndex)
    requires AllValid(cs)
  {
    Collects(cs, |cs|, index) && forall b :: b in index ==> Ascending(index[b])
  }

  method VisibleOrdinalsByBoundary(cs: seq<Candidate>) returns (index: VisibleIndex)
    requires AllValid(cs)
    ensures IndexesVisible(cs, index)
  {
    hide AllValid, Collects, SortBy, Ascending;
    var collected: VisibleIndex := map[];
    NothingVisible(cs);
    for n := 0 to |cs|
      invariant Collects(cs, n, collected)
    {
      assert cs[n].message.Valid() by { ValidAt(cs, n); }
      CollectOne(cs, n, collected);
      collected := Collect(collected, cs[n]);
    }
    index := map b | b in collected :: SortBy(collected[b], (v: nat) => [v]);
    SortedIndex(cs, collected, index);
  }

  lemma SortedIndex(cs: seq<Candidate>, collected: VisibleIndex, index: VisibleIndex)
    requires AllValid(cs) && Collects(cs, |cs|, collected)
    requires index.Keys == collected.Keys
    requires forall b :: b in index ==> index[b] == SortBy(collected[b], (v: nat) => [v])
    ensures IndexesVisible(cs, index)
  {
    hide AllValid, SortBy, VisibleAt;
    forall b | b in index ensures Ascending(index[b]) && forall v: nat :: v in index[b] <==> v in collected[b] {
      SortedOrdinals(collected[b]);
    }
  }

  lemma SortedOrdinals(s: seq<nat>)
    ensures Ascending(SortBy(s, (v: nat) => [v])) && forall v: nat :: v in SortBy(s, (v: nat) => [v]) <==> v in s
  {
    var key := (v: nat) => [v];
    var r := SortBy(s, key);
    SortOrdered(s, key);
    SameElements(s, r);
    forall i, j | 0 <= i < j < |r| ensures r[i] <= r[j] {
      assert !Less(key(r[j]), key(r[i]));
    }
  }

  lemma NothingVisible(cs: seq<Candidate>)
    requires AllValid(cs)
    ensures Collects(cs, 0, map[])
  {
  }

  lemma OneMoreVisible(cs: seq<Candidate>, n: nat, b: Boundary, v: nat)
    requires AllValid(cs) && n < |cs|
    ensures VisibleAt(cs, n + 1, b, v)
       <==> (|| VisibleAt(cs, n, b, v)
             || (cs[n].message.cls.Prose? && VisibilityBoundary(cs[n]) == b && Ordinal(cs[n]) == v))
  {
    hide VisibilityBoundary, Ordinal, NativeMessage.Valid;
  }

  function HasIntervening(left: Candidate, right: Candidate, index: VisibleIndex): bool
    requires left.message.Valid() && right.message.Valid()
  {
    var x, y := Ordinal(left), Ordinal(right);
    var lower, upper := if x <= y then x else y, if x <= y then y else x;
    var boundary := VisibilityBoundary(left);
    var ordinals := if boundary in index then index[boundary] else [];
    BisectRight(ordinals, lower) < BisectLeft(ordinals, upper)
  }

  /** The bisection over the index is the all-candidates separation test. */
  lemma InterveningIsVisibleBetween(cs: seq<Candidate>, index: VisibleIndex, i: nat, j: nat)
    requires AllValid(cs) && i < |cs| && j < |cs|
    requires IndexesVisible(cs, index)
    ensures HasIntervening(cs[i], cs[j], index)
              == VisibleBetween(cs, VisibilityBoundary(cs[i]), Ordinal(cs[i]), Ordinal(cs[j]))
  {
    hide VisibilityBoundary, Ordinal, NativeMessage.Valid, BisectLeft, BisectRight;
    var x, y, boundary := Ordinal(cs[i]), Ordinal(cs[j]), VisibilityBoundary(cs[i]);
    var lower, upper := if x <= y then x else y, if x <= y then y else x;
    var ordinals := if boundary in index then index[boundary] else [];
    BisectFindsBetween(ordinals, lower, upper);
    if VisibleBetween(cs, boundary, x, y) {
      var k :| 0 <= k < |cs| && cs[k].message.cls.Prose? && VisibilityBoundary(cs[k]) == boundary
               && (x < Ordinal(cs[k]) < y || y < Ordinal(cs[k]) < x);
      assert VisibleAt(cs, |cs|, boundary, Ordinal(cs[k]));
      assert Ordinal(cs[k]) in ordinals && lower < Ordinal(cs[k]) < upper;
    }
    if v :| v in ordinals && lower < v < upper {
      assert VisibleAt(cs, |cs|, boundary, v);
    }
  }

  // ---------------------------------------------------------------- the normalizer

  datatype Value = Parsed(candidate: Candidate) | AlreadyCanonical(message: NativeMessage)

  function CandidateOf(v: Value): Candidate {
    match v case Parsed(c) => c case AlreadyCanonical(m) => Candidate(m, Canonical)
  }

  function CandidatesOf(values: seq<Value>): (cs: seq<Candidate>)
    ensures |cs| == |values| && forall i :: 0 <= i < |cs| ==> cs[i] == CandidateOf(values[i])
  {
    seq(|values|, i requires 0 <= i < |values| => CandidateOf(values[i]))
  }

  function Arranged(values: seq<Value>): seq<Candidate> { SortBy(CandidatesOf(values), CandidateKey) }

  lemma ArrangedValid(values: seq<Value>)
    requires AllValid(CandidatesOf(values))
    ensures AllValid(Arranged(values))
  {
    hide NativeMessage.Valid, SortBy;
    SameElements(CandidatesOf(values), Arranged(values));
    var cs := Arranged(values);
    forall i | 0 <= i < |cs| ensures cs[i].message.Valid() {
      assert cs[i] in CandidatesOf(values);
    }
  }

  /** What canonicalization means: the messages of the brute-force pairing, in key order. */
  ghost function Canonicalized(values: seq<Value>): seq<NativeMessage>
    requires AllValid(CandidatesOf(values))
  {
    ArrangedValid(values);
    SortBy(Outputs(Arranged(values), |Arranged(values)|), MessageKey)
  }

  ghost predicate Indexes(cs: seq<Candidate>, partners: seq<seq<nat>>)
    requires AllValid(cs)
  {
    && |partners| == |cs|
    && forall i: nat :: i < |cs| ==> NoDuplicates(partners[i]) && forall j: nat :: j in partners[i] <==> Match(cs, i, j)
  }

  lemma UniqueInIndex(cs: seq<Candidate>, partners: seq<seq<nat>>, i: nat)
    requires AllValid(cs) && Indexes(cs, partners) && i < |cs|
    ensures |partners[i]| == 1 ==> OnlyPartner(cs, i, partners[i][0])
    ensures forall j: nat :: OnlyPartner(cs, i, j) ==> partners[i] == [j]
    ensures |partners[i]| > 1 <==> Several(cs, i)
  {
    hide Match;
    if |partners[i]| > 1 { assert partners[i][0] in partners[i] && partners[i][1] in partners[i]; }
    if |partners[i]| == 1 { assert partners[i][0] in partners[i]; }
    forall j: nat | OnlyPartner(cs, i, j) ensures partners[i] == [j] {
      assert j in partners[i] && partners[i][0] in partners[i] && partners[i][|partners[i]| - 1] in partners[i];
    }
    if Several(cs, i) {
      var j: nat, k: nat :| Match(cs, i, j) && Match(cs, i, k) && j != k;
      assert j in partners[i] && k in partners[i];
    }
  }

  ghost predicate PassesTest(cs: seq<Candidate>, partners: seq<seq<nat>>, i: nat, j: nat)
    requires AllValid(cs) && Indexes(cs, partners) && i < |cs|
  {
    && |partners[i]| == 1 && partners[i][0] == j && j < |cs| && |partners[j]| == 1 && partners[j][0] == i
    && !VisibleBetween(cs, VisibilityBoundary(cs[i]), Ordinal(cs[i]), Ordinal(cs[j]))
  }

  /** The index test for merging is the brute-force one. */
  lemma MergeTest(cs: seq<Candidate>, partners: seq<seq<nat>>, i: nat, j: nat)
    requires AllValid(cs) && Indexes(cs, partners) && i < |cs|
    ensures Paired(cs, i, j) <==> PassesTest(cs, partners, i, j)
  {
    hide Match, VisibleBetween, VisibilityBoundary, Ordinal, Several, AllValid;
    UniqueInIndex(cs, partners, i);
    if j < |cs| { UniqueInIndex(cs, partners, j); }
    if OnlyPartner(cs, i, j) { MatchInRange(cs, i, j); }
  }

  lemma MatchInRange(cs: seq<Candidate>, i: nat, j: nat)
    requires AllValid(cs) && Match(cs, i, j)
    ensures i < |cs| && j < |cs| && Pairable(cs[i])
  {
  }

  ghost predicate PairedBefore(cs: seq<Candidate>, n: nat, paired: set<nat>)
    requires AllValid(cs)
  {
    forall x: nat :: x in paired <==> Partner(cs, x).Some? && (x < n || Partner(cs, x).value < n)
  }

  /** Visiting a candidate that an earlier one was merged with. */
  lemma VisitPaired(cs: seq<Candidate>, n: nat, paired: set<nat>)
    requires AllValid(cs) && n < |cs| && PairedBefore(cs, n, paired) && n in paired
    ensures OutputAt(cs, n) == [] && DiagnosticAt(cs, n) == [] && PairedBefore(cs, n + 1, paired)
  {
    hide Paired, AllValid;
    var j := Partner(cs, n).value;
    PartnerIs(cs, n, j);
    forall x: nat ensures Partner(cs, x) == Some(n) ==> x == j { PartnerIs(cs, x, n); PartnerIs(cs, n, x); }
  }

  /** Visiting a candidate that merges with a later one. */
  lemma VisitMerged(cs: seq<Candidate>, n: nat, paired: set<nat>, j: nat)
    requires AllValid(cs) && n < |cs| && PairedBefore(cs, n, paired) && n !in paired && Paired(cs, n, j)
    ensures n < j < |cs| && OutputAt(cs, n) == [MergeMessages(cs[n].message, cs[j].message)]
    ensures DiagnosticAt(cs, n) == []
    ensures PairedBefore(cs, n + 1, paired + {n, j})
  {
    hide Paired, AllValid, MergeMessages;
    PartnerIs(cs, n, j);
    forall x: nat ensures Partner(cs, x) == Some(n) ==> x == j { PartnerIs(cs, x, n); PartnerIs(cs, n, x); }
  }

  /** Visiting a candidate that stays alone. */
  lemma VisitAlone(cs: seq<Candidate>, n: nat, paired: set<nat>)
    requires AllValid(cs) && n < |cs| && PairedBefore(cs, n, paired) && forall j :: !Paired(cs, n, j)
    ensures OutputAt(cs, n) == [cs[n].message] && PairedBefore(cs, n + 1, paired)
  {
    hide Paired, AllValid;
    assert Partner(cs, n).None?;
    forall x: nat ensures Partner(cs, x) != Some(n) { PartnerIs(cs, x, n); }
  }

  /** Conservatively pair event and response projections into logical messages. */
  method CanonicalizeCodexCandidates(values: seq<Value>) returns (messages: seq<NativeMessage>,
      diagnostics: seq<Diagnostic>)
    requires AllValid(CandidatesOf(values))
    ensures messages == Canonicalized(values)
    ensures AllValid(Arranged(values)) && diagnostics == Diagnostics(Arranged(values), |Arranged(values)|)
  {
    hide AllValid, Partner, Paired, MergeMessages, VisibilityBoundary, Ordinal, PairedBefore, SortBy, IndexesVisible,
        Indexes,
      DiagnosticAt, OutputAt, HasIntervening, Arranged;
    ArrangedValid(values);
    var cs := Arranged(values);
    var partners := CompatiblePartners(cs);
    assert Indexes(cs, partners) by { IsIndex(cs, partners); }
    var visible := VisibleOrdinalsByBoundary(cs);
    var paired: set<nat> := {};
    messages, diagnostics := [], [];
    NothingPaired(cs);
    for n := 0 to |cs|
      invariant PairedBefore(cs, n, paired)
      invariant messages == Outputs(cs, n) && diagnostics == Diagnostics(cs, n)
    {
      var emitted, reported, joined := Visit(cs, n, partners, visible, paired);
      messages, diagnostics, paired := messages + emitted, diagnostics + reported, paired + joined;
    }
    messages := SortBy(messages, MessageKey);
  }

  lemma IsIndex(cs: seq<Candidate>, partners: seq<seq<nat>>)
    requires AllValid(cs) && |partners| == |cs|
    requires forall i: nat :: i < |cs| ==>
               NoDuplicates(partners[i]) && forall j: nat :: j in partners[i] <==> Match(cs, i, j)
    ensures Indexes(cs, partners)
  {
  }

  lemma NothingPaired(cs: seq<Candidate>)
    requires AllValid(cs)
    ensures PairedBefore(cs, 0, {})
  {
  }

  /** Visit one candidate of the sorted list. */
  method Visit(cs: seq<Candidate>, n: nat, partners: seq<seq<nat>>, visible: VisibleIndex, paired: set<nat>)
    returns (emitted: seq<NativeMessage>, reported: seq<Diagnostic>, joined: set<nat>)
    requires AllValid(cs) && n < |cs| && Indexes(cs, partners) && IndexesVisible(cs, visible)
    requires PairedBefore(cs, n, paired)
    ensures emitted == OutputAt(cs, n) && reported == DiagnosticAt(cs, n) && PairedBefore(cs, n + 1, paired + joined)
  {
    hide AllValid, Partner, Paired, MergeMessages, VisibilityBoundary, Ordinal, PairedBefore, IndexesVisible,
        HasIntervening, Match,
      VisibleBetween, NativeMessage.Valid, Ambiguous;
    emitted, reported, joined := [], [], {};
    if n in paired {
      VisitPaired(cs, n, paired);
      assert paired + joined == paired;
      return;
    }
    if !Pairable(cs[n]) {
      forall j ensures !Paired(cs, n, j) { UnpairableAlone(cs, n, j); }
      VisitAlone(cs, n, paired);
      assert paired + joined == paired;
      return [cs[n].message], [], {};
    }
    var compatible := partners[n];
    if |compatible| == 1 {
      var partner := compatible[0];
      InRange(cs, partners, n, partner);
      ValidAt(cs, n);
      ValidAt(cs, partner);
      var reciprocal := partners[partner];
      InterveningIsVisibleBetween(cs, visible, n, partner);
      MergeTest(cs, partners, n, partner);
      if |reciprocal| == 1 && reciprocal[0] == n && !HasIntervening(cs[n], cs[partner], visible) {
        VisitMerged(cs, n, paired, partner);
        return [MergeMessages(cs[n].message, cs[partner].message)], [], {n, partner};
      }
    }
    forall j: nat ensures !Paired(cs, n, j) { MergeTest(cs, partners, n, j); }
    VisitAlone(cs, n, paired);
    assert paired + joined == paired;
    AmbiguousInIndex(cs, partners, n);
    var several := |compatible| > 1 || exists p :: p in compatible && |partners[p]| > 1;
    var code := if several then MultipleCompatiblePartners else NoCompatiblePartner;
    return [cs[n].message], [Diagnostic(code, cs[n].message.aliases)], {};
  }

  lemma UnpairableAlone(cs: seq<Candidate>, i: nat, j: nat)
    requires AllValid(cs) && i < |cs| && !Pairable(cs[i])
    ensures !Paired(cs, i, j)
  {
  }

  lemma InRange(cs: seq<Candidate>, partners: seq<seq<nat>>, i: nat, j: nat)
    requires AllValid(cs) && Indexes(cs, partners) && i < |cs| && j in partners[i]
    ensures j < |cs|
  {
  }

  lemma AmbiguousInIndex(cs: seq<Candidate>, partners: seq<seq<nat>>, i: nat)
    requires AllValid(cs) && Indexes(cs, partners) && i < |cs|
    ensures forall p :: p in partners[i] ==> p < |cs|
    ensures Ambiguous(cs, i) <==> |partners[i]| > 1 || exists p :: p in partners[i] && |partners[p]| > 1
  {
    hide Match, Several, AllValid;
    UniqueInIndex(cs, partners, i);
    forall p: nat ensures Match(cs, i, p) ==> p < |cs| && (Several(cs, p) <==> |partners[p]| > 1) {
      if Match(cs, i, p) {
        MatchInRange(cs, i, p);
        UniqueInIndex(cs, partners, p);
      }
    }
  }

  // ---------------------------------------------------------------- laws of the normalizer

  function AsCanonical(messages: seq<NativeMessage>): (values: seq<Value>)
    ensures |values| == |messages| && forall i :: 0 <= i < |messages| ==> values[i] == AlreadyCanonical(messages[i])
  {
    seq(|messages|, i requires 0 <= i < |messages| => AlreadyCanonical(messages[i]))
  }

  lemma UnpairableOutput(cs: seq<Candidate>, i: nat)
    requires AllValid(cs) && i < |cs| && !Pairable(cs[i])
    ensures OutputAt(cs, i) == [cs[i].message]
  {
    hide AllValid, Paired;
    forall j ensures !Paired(cs, i, j) { UnpairableAlone(cs, i, j); }
  }

  lemma {:induction false} CanonicalOutputs(cs: seq<Candidate>, n: nat)
    requires AllValid(cs) && n <= |cs| && forall i :: 0 <= i < |cs| ==> cs[i].family == Canonical
    ensures Outputs(cs, n) == MessagesOf(cs)[..n]
  {
    hide AllValid, Paired, Partner, OutputAt;
    if n > 0 {
      CanonicalOutputs(cs, n - 1);
      UnpairableOutput(cs, n - 1);
      assert MessagesOf(cs)[..n] == MessagesOf(cs)[..n - 1] + [cs[n - 1].message];
    }
  }

  lemma {:induction false} OutputsValid(cs: seq<Candidate>, n: nat)
    requires AllValid(cs) && n <= |cs|
    ensures forall m :: m in Outputs(cs, n) ==> m.Valid()
  {
    hide Paired, NativeMessage.Valid, MergeMessages;
    if n > 0 {
      OutputsValid(cs, n - 1);
      if Partner(cs, n - 1).Some? {
        PartnerIs(cs, n - 1, Partner(cs, n - 1).value);
        PairMerges(cs, n - 1, Partner(cs, n - 1).value);
      }
    }
  }

  lemma PairMerges(cs: seq<Candidate>, i: nat, j: nat)
    requires AllValid(cs) && i < |cs| && j < |cs| && Paired(cs, i, j)
    ensures MergeMessages(cs[i].message, cs[j].message).Valid()
  {
    hide NativeMessage.Valid, MergeMessages, Earliest, CandidateKey;
    assert cs[i].message.canonical.session == cs[j].message.canonical.session;
    MergeIsValid(cs[i].message, cs[j].message);
  }

  /** Every message emitted is one that may be constructed, and the list is in key order. */
  lemma CanonicalizedIsValid(values: seq<Value>)
    requires AllValid(CandidatesOf(values))
    ensures forall m :: m in Canonicalized(values) ==> m.Valid()
    ensures Ordered(Canonicalized(values), MessageKey)
  {
    hide NativeMessage.Valid, Outputs, AllValid, SortBy, Arranged;
    ArrangedValid(values);
    var out := Outputs(Arranged(values), |Arranged(values)|);
    OutputsValid(Arranged(values), |Arranged(values)|);
    SortOrdered(out, MessageKey);
    SameElements(out, SortBy(out, MessageKey));
  }

  /** Canonicalizing what was canonicalized changes nothing. */
  lemma Idempotent(values: seq<Value>)
    requires AllValid(CandidatesOf(values))
    ensures AllValid(CandidatesOf(AsCanonical(Canonicalized(values))))
    ensures Canonicalized(AsCanonical(Canonicalized(values))) == Canonicalized(values)
  {
    hide NativeMessage.Valid, Outputs, SortBy, Earliest, MessageKey, Less;
    var once := Canonicalized(values);
    CanonicalizedIsValid(values);
    var again := CandidatesOf(AsCanonical(once));
    forall i, j | 0 <= i < j < |again| ensures AtMost(CandidateKey(again[i]), CandidateKey(again[j])) {
      assert AtMost(MessageKey(once[i]), MessageKey(once[j]));
    }
    SortIdentity(again, CandidateKey);
    CanonicalOutputs(again, |again|);
    assert MessagesOf(again)[..|again|] == once;
    SortIdentity(once, MessageKey);
  }

  // ---------------------------------------------------------------- the order of collection

  /** No two pairable candidates share a key, and none was collected twice. */
  ghost predicate PairablesApart(cs: multiset<Candidate>) {
    forall a, b :: a in cs && b in cs && Pairable(a) && Pairable(b) ==>
      cs[a] == 1 && (CandidateKey(a) == CandidateKey(b) ==> a == b)
  }

  lemma CountedTwice(cs: seq<Candidate>, i: nat, j: nat)
    requires i < j < |cs| && cs[i] == cs[j]
    ensures multiset(cs)[cs[i]] >= 2
  {
    assert cs == cs[..j] + cs[j..];
    assert cs[i] in cs[..j] && cs[j] in cs[j..];
  }

  lemma SameIndex(cs: seq<Candidate>, i: nat, j: nat)
    requires PairablesApart(multiset(cs)) && i < |cs| && j < |cs| && Pairable(cs[i]) && Pairable(cs[j])
    requires CandidateKey(cs[i]) == CandidateKey(cs[j])
    ensures i == j
  {
    hide CandidateKey;
    assert cs[i] in multiset(cs) && cs[j] in multiset(cs);
    if i < j { CountedTwice(cs, i, j); } else if j < i { CountedTwice(cs, j, i); }
  }

  /** The same relations over the mere set of candidates. */
  ghost predicate OnlyMatch(all: set<Candidate>, a: Candidate, b: Candidate)
    requires forall c :: c in all ==> c.message.Valid()
    requires a in all && b in all
  {
    Matches(a, b) && forall c :: c in all && Matches(a, c) ==> c == b
  }

  ghost predicate Separated(all: set<Candidate>, a: Candidate, b: Candidate)
    requires forall c :: c in all ==> c.message.Valid()
    requires a in all && b in all
  {
    exists c :: c in all && c.message.cls.Prose? && VisibilityBoundary(c) == VisibilityBoundary(a)
                && (Ordinal(a) < Ordinal(c) < Ordinal(b) || Ordinal(b) < Ordinal(c) < Ordinal(a))
  }

  ghost predicate Joined(all: set<Candidate>, a: Candidate, b: Candidate) {
    && (forall c :: c in all ==> c.message.Valid()) && a in all && b in all
    && OnlyMatch(all, a, b) && OnlyMatch(all, b, a) && !Separated(all, a, b)
  }

  lemma JoinedIsPaired(cs: seq<Candidate>, all: set<Candidate>, i: nat, j: nat)
    requires AllValid(cs) && PairablesApart(multiset(cs)) && all == set c | c in cs
    requires i < |cs| && j < |cs|
    ensures Joined(all, cs[i], cs[j]) <==> Paired(cs, i, j)
  {
    hide Matches, VisibilityBoundary, Ordinal, NativeMessage.Valid, PairablesApart, CandidateKey;
    OnlyMatchIsPartner(cs, all, i, j);
    OnlyMatchIsPartner(cs, all, j, i);
    if Separated(all, cs[i], cs[j]) {
      var c :| c in all && c.message.cls.Prose? && VisibilityBoundary(c) == VisibilityBoundary(cs[i])
               && (Ordinal(cs[i]) < Ordinal(c) < Ordinal(cs[j]) || Ordinal(cs[j]) < Ordinal(c) < Ordinal(cs[i]));
      var k :| 0 <= k < |cs| && cs[k] == c;
      assert VisibleBetween(cs, VisibilityBoundary(cs[i]), Ordinal(cs[i]), Ordinal(cs[j]));
    }
  }

  lemma OnlyMatchIsPartner(cs: seq<Candidate>, all: set<Candidate>, i: nat, j: nat)
    requires AllValid(cs) && PairablesApart(multiset(cs)) && all == set c | c in cs
    requires i < |cs| && j < |cs|
    ensures OnlyMatch(all, cs[i], cs[j]) <==> OnlyPartner(cs, i, j)
  {
    hide NativeMessage.Valid, BaseCompatible, PairablesApart, CandidateKey;
    if OnlyMatch(all, cs[i], cs[j]) {
      forall k: nat | Match(cs, i, k) ensures k == j {
        assert cs[k] in all;
        MatchesSymmetric(cs[i], cs[j]);
        SameIndex(cs, k, j);
      }
    }
    if OnlyPartner(cs, i, j) {
      forall c | c in all && Matches(cs[i], c) ensures c == cs[j] {
        var k :| 0 <= k < |cs| && cs[k] == c;
        assert Match(cs, i, k);
      }
    }
  }

  /** What a candidate contributes to the output, whatever order it stands in. */
  ghost function Contribution(all: set<Candidate>, a: Candidate): seq<NativeMessage> {
    if exists b :: Joined(all, a, b) then
      var b :| Joined(all, a, b);
      if Less(CandidateKey(b), CandidateKey(a)) then [] else [MergeMessages(a.message, b.message)]
    else [a.message]
  }

  lemma OutputIsContribution(cs: seq<Candidate>, all: set<Candidate>, i: nat)
    requires AllValid(cs) && PairablesApart(multiset(cs)) && all == set c | c in cs
    requires Ordered(cs, CandidateKey) && i < |cs|
    ensures OutputAt(cs, i) == Contribution(all, cs[i])
  {
    hide Joined, Paired, Matches, NativeMessage.Valid, PairablesApart, CandidateKey, MergeMessages, Less;
    if Partner(cs, i).Some? {
      var j := Partner(cs, i).value;
      PartnerIs(cs, i, j);
      JoinedIsPaired(cs, all, i, j);
    }
    if b :| Joined(all, cs[i], b) {
      assert b in all by { JoinedIsIn(all, cs[i], b); }
      var j :| 0 <= j < |cs| && cs[j] == b;
      JoinedIsPaired(cs, all, i, j);
      PartnerIs(cs, i, j);
      JoinedOnce(all, cs[i], b);
      PairedKeys(cs, i, j);
    }
  }

  lemma JoinedIsIn(all: set<Candidate>, a: Candidate, b: Candidate)
    requires Joined(all, a, b)
    ensures b in all
  {
  }

  lemma JoinedOnce(all: set<Candidate>, a: Candidate, b: Candidate)
    requires Joined(all, a, b)
    ensures forall c :: Joined(all, a, c) ==> c == b
  {
    hide NativeMessage.Valid, Matches, Separated;
  }

  /** Of two paired candidates the one with the smaller key comes first. */
  lemma PairedKeys(cs: seq<Candidate>, i: nat, j: nat)
    requires AllValid(cs) && PairablesApart(multiset(cs)) && Ordered(cs, CandidateKey)
    requires i < |cs| && j < |cs| && Paired(cs, i, j)
    ensures Less(CandidateKey(cs[j]), CandidateKey(cs[i])) <==> j < i
  {
    hide NativeMessage.Valid, BaseCompatible, PairablesApart, CandidateKey, Less, VisibleBetween;
    PairedSymmetric(cs, i, j);
    MatchesSymmetric(cs[i], cs[j]);
    Trichotomy(CandidateKey(cs[i]), CandidateKey(cs[j]));
    if CandidateKey(cs[i]) == CandidateKey(cs[j]) {
      SameIndex(cs, i, j);
    } else if i < j {
      assert AtMost(CandidateKey(cs[i]), CandidateKey(cs[j]));
    } else {
      assert AtMost(CandidateKey(cs[j]), CandidateKey(cs[i]));
    }
  }

  ghost function Contributions(all: set<Candidate>, cs: seq<Candidate>): seq<NativeMessage> {
    if cs == [] then [] else Contributions(all, cs[..|cs| - 1]) + Contribution(all, cs[|cs| - 1])
  }

  lemma {:induction false} OutputsAreContributions(cs: seq<Candidate>, all: set<Candidate>, n: nat)
    requires AllValid(cs) && PairablesApart(multiset(cs)) && all == set c | c in cs
    requires Ordered(cs, CandidateKey) && n <= |cs|
    ensures Outputs(cs, n) == Contributions(all, cs[..n])
  {
    hide AllValid, PairablesApart, Ordered, OutputAt, Contribution;
    if n > 0 {
      OutputsAreContributions(cs, all, n - 1);
      OutputIsContribution(cs, all, n - 1);
      assert cs[..n][..n - 1] == cs[..n - 1];
    }
  }

  lemma {:induction false} ContributionsAppend(all: set<Candidate>, a: seq<Candidate>, b: seq<Candidate>)
    ensures Contributions(all, a + b) == Contributions(all, a) + Contributions(all, b)
    decreases |b|
  {
    hide Contribution;
    if b == [] {
      assert a + b == a;
    } else {
      assert (a + b)[..|a + b| - 1] == a + b[..|b| - 1];
      ContributionsAppend(all, a, b[..|b| - 1]);
    }
  }

  lemma {:induction false} ContributionsForgetOrder(all: set<Candidate>, a: seq<Candidate>, b: seq<Candidate>)
    requires multiset(a) == multiset(b)
    ensures multiset(Contributions(all, a)) == multiset(Contributions(all, b))
    decreases |a|
  {
    hide Contribution;
    if a != [] {
      var front, last := a[..|a| - 1], a[|a| - 1];
      assert a == front + [last];
      var before, after := WithoutLast(front, last, b);
      ContributionsForgetOrder(all, front, before + after);
      ContributionsAppend(all, before, after);
      ContributionsAppend(all, before + [last], after);
      assert (before + [last])[..|before|] == before;
    } else {
      SameElements(a, b);
    }
  }

  /** The result does not depend on the order in which the occurrences were collected: the same
      messages come out, and in the same order where their keys tell them apart. */
  lemma OrderForgotten(values: seq<Value>, others: seq<Value>)
    requires AllValid(CandidatesOf(values)) && AllValid(CandidatesOf(others))
    requires multiset(CandidatesOf(values)) == multiset(CandidatesOf(others))
    requires PairablesApart(multiset(CandidatesOf(values)))
    ensures multiset(Canonicalized(values)) == multiset(Canonicalized(others))
    ensures Distinguishes(MessageKey, Canonicalized(values)) ==> Canonicalized(values) == Canonicalized(others)
  {
    hide NativeMessage.Valid, Outputs, SortBy, CandidateKey, MessageKey, AllValid, PairablesApart, Ordered, Less;
    var a, b := Arranged(values), Arranged(others);
    ArrangedValid(values);
    ArrangedValid(others);
    SortOrdered(CandidatesOf(values), CandidateKey);
    SortOrdered(CandidatesOf(others), CandidateKey);
    SameElements(a, b);
    var all := set c | c in a;
    OutputsAreContributions(a, all, |a|);
    OutputsAreContributions(b, all, |b|);
    assert a[..|a|] == a && b[..|b|] == b;
    ContributionsForgetOrder(all, a, b);
    CanonicalizedIsValid(values);
    CanonicalizedIsValid(others);
    if Distinguishes(MessageKey, Canonicalized(values)) {
      SortedIsUnique(Canonicalized(values), Canonicalized(others), MessageKey);
    }
  }
}
