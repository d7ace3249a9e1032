/** What pairing means for the candidates themselves: which fields two projections of one message
    share, and when two candidates that share them become one message. */
module CanonicalPairs {
  import opened CorpusTables
  import opened Sorting
  import opened Canonicalization

  // ---------------------------------------------------------------- the order of occurrences

  /** Of two locators of one session a native id comes before a record. */
  predicate LocatorBefore(x: Locator, y: Locator) {
    match x
    case IdLocator(_, id) => if y.IdLocator? then id < y.id else true
    case OrdinalLocator(_, number, digest) =>
      y.OrdinalLocator? && (number < y.number || (number == y.number && digest < y.digest))
  }

  /** Session, file, record, offset, then locator. */
  predicate Precedes(x: PhysicalAlias, y: PhysicalAlias) {
    if x.locator.session != y.locator.session then x.locator.session < y.locator.session
    else if x.file != y.file then x.file < y.file
    else if x.ordinal != y.ordinal then x.ordinal < y.ordinal
    else if x.offset != y.offset then x.offset < y.offset
    else LocatorBefore(x.locator, y.locator)
  }

  lemma RankOrder(x: Locator, y: Locator)
    requires x.session == y.session
    ensures Less(x.Rank(), y.Rank()) <==> LocatorBefore(x, y)
  {
    var a, b := x.Rank(), y.Rank();
    HeadDecides(a[0], a[1..], b[0], b[1..]);
    HeadDecides(a[1], a[2..], b[1], b[2..]);
    assert a == [a[0]] + a[1..] && a[1..] == [a[1]] + a[2..];
    assert b == [b[0]] + b[1..] && b[1..] == [b[1]] + b[2..];
    if x.IdLocator? == y.IdLocator? {
      HeadDecides(a[2], a[3..], b[2], b[3..]);
      assert a[2..] == [a[2]] + a[3..] && b[2..] == [b[2]] + b[3..];
      if x.OrdinalLocator? {
        HeadDecides(a[3], [], b[3], []);
        assert a[3..] == [a[3]] + [] && b[3..] == [b[3]] + [];
      }
    }
  }

  lemma AliasOrder(x: PhysicalAlias, y: PhysicalAlias)
    requires x.locator.session == y.locator.session
    ensures Less(Canonicalization.AliasKey(x), Canonicalization.AliasKey(y)) <==> Precedes(x, y)
  {
    hide Locator.Rank;
    var a, b := x.locator.Rank(), y.locator.Rank();
    RankOrder(x.locator, y.locator);
    assert Canonicalization.AliasKey(x) == [x.file] + ([x.ordinal] + ([x.offset] + a));
    assert Canonicalization.AliasKey(y) == [y.file] + ([y.ordinal] + ([y.offset] + b));
    HeadDecides(x.file, [x.ordinal] + ([x.offset] + a), y.file, [y.ordinal] + ([y.offset] + b));
    HeadDecides(x.ordinal, [x.offset] + a, y.ordinal, [y.offset] + b);
    HeadDecides(x.offset, a, y.offset, b);
  }

  /** Candidates are ordered by their first occurrence. */
  lemma CandidateOrder(a: Candidate, b: Candidate)
    requires a.message.aliases != [] && b.message.aliases != []
    ensures Less(CandidateKey(a), CandidateKey(b))
       <==> Precedes(Earliest(a.message.aliases), Earliest(b.message.aliases))
  {
    hide Canonicalization.AliasKey, Earliest;
    var x, y := Earliest(a.message.aliases), Earliest(b.message.aliases);
    HeadDecides(x.locator.session, Canonicalization.AliasKey(x), y.locator.session, Canonicalization.AliasKey(y));
    if x.locator.session == y.locator.session { AliasOrder(x, y); }
  }

  // ---------------------------------------------------------------- what partners share

  /** The instants of two candidates do not run against their occurrences. */
  predicate InstantsFollow(a: Candidate, b: Candidate)
    requires a.message.aliases != [] && b.message.aliases != []
  {
    && a.message.timestamp.instant.Some? && b.message.timestamp.instant.Some?
    && var x, y := Earliest(a.message.aliases), Earliest(b.message.aliases);
       if Precedes(y, x) then b.message.timestamp.instant.value <= a.message.timestamp.instant.value
       else a.message.timestamp.instant.value <= b.message.timestamp.instant.value
  }

  /** A response and an event that say the same in the same place. */
  predicate SameUtterance(response: Candidate, event: Candidate)
    requires response.message.aliases != [] && event.message.aliases != []
  {
    var a, b := response.message, event.message;
    && response.family == ResponseMessage && event.family == EventMessage
    && a.canonical.session == b.canonical.session && Earliest(a.aliases).file == Earliest(b.aliases).file
    && a.kind == b.kind && a.epoch == b.epoch && a.role == b.role && a.text == b.text
    && a.cls == Prose && b.cls == Prose
    && InstantsFollow(response, event)
  }

  predicate Partners(a: Candidate, b: Candidate)
    requires a.message.aliases != [] && b.message.aliases != []
  {
    SameUtterance(a, b) || SameUtterance(b, a)
  }

  lemma MatchesArePartners(a: Candidate, b: Candidate)
    requires a.message.Valid() && b.message.Valid()
    ensures Matches(a, b) <==> Partners(a, b)
  {
    hide Earliest, CandidateKey, Less, Precedes;
    CandidateOrder(a, b);
    CandidateOrder(b, a);
  }

  /** Something visible of the same session, file and epoch lies strictly between. */
  ghost predicate VisiblySeparated(cs: seq<Candidate>, i: nat, j: nat)
    requires AllValid(cs) && i < |cs| && j < |cs|
  {
    exists k: nat :: k < |cs| && StandsBetween(cs, i, j, k)
  }

  predicate StandsBetween(cs: seq<Candidate>, i: nat, j: nat, k: nat)
    requires AllValid(cs) && i < |cs| && j < |cs| && k < |cs|
  {
    var x, y, z := Earliest(cs[i].message.aliases), Earliest(cs[j].message.aliases), Earliest(cs[k].message.aliases);
    && cs[k].message.cls == Prose && z.locator.session == x.locator.session && z.file == x.file
    && cs[k].message.epoch == cs[i].message.epoch
    && (x.ordinal < z.ordinal < y.ordinal || y.ordinal < z.ordinal < x.ordinal)
  }

  /** Each is the other's only partner and nothing visible stands between them. */
  ghost predicate OnlyPartners(cs: seq<Candidate>, i: nat, j: nat)
    requires AllValid(cs)
  {
    && i < |cs| && j < |cs| && Partners(cs[i], cs[j])
    && (forall k: nat :: k < |cs| && Partners(cs[i], cs[k]) ==> k == j)
    && (forall k: nat :: k < |cs| && Partners(cs[j], cs[k]) ==> k == i)
    && !VisiblySeparated(cs, i, j)
  }

  /** The gate in terms of the candidates' own fields. */
  lemma PairedExactly(cs: seq<Candidate>, i: nat, j: nat)
    requires AllValid(cs)
    ensures Paired(cs, i, j) <==> OnlyPartners(cs, i, j)
  {
    hide NativeMessage.Valid, Matches, Partners, VisiblySeparated, VisibleBetween;
    HaveAliases(cs);
    if i < |cs| && j < |cs| {
      SeparationIs(cs, i, j);
      forall k: nat | k < |cs|
        ensures Match(cs, i, k) <==> Partners(cs[i], cs[k])
        ensures Match(cs, j, k) <==> Partners(cs[j], cs[k])
      {
        MatchesArePartners(cs[i], cs[k]);
        MatchesArePartners(cs[j], cs[k]);
      }
      assert (forall k: nat :: Match(cs, i, k) ==> k == j)
        <==> forall k: nat :: k < |cs| && Partners(cs[i], cs[k]) ==> k == j;
      assert (forall k: nat :: Match(cs, j, k) ==> k == i)
        <==> forall k: nat :: k < |cs| && Partners(cs[j], cs[k]) ==> k == i;
      assert Match(cs, i, j) == Match(cs, j, i) by { MatchesSymmetric(cs[i], cs[j]); }
    }
  }

  lemma HaveAliases(cs: seq<Candidate>)
    requires AllValid(cs)
    ensures forall i :: 0 <= i < |cs| ==> cs[i].message.aliases != []
  {
  }

  lemma SeparationIs(cs: seq<Candidate>, i: nat, j: nat)
    requires AllValid(cs) && i < |cs| && j < |cs|
    ensures VisiblySeparated(cs, i, j)
       <==> VisibleBetween(cs, VisibilityBoundary(cs[i]), Ordinal(cs[i]), Ordinal(cs[j]))
  {
    hide NativeMessage.Valid, Earliest;
    if VisiblySeparated(cs, i, j) {
      var k: nat :| k < |cs| && StandsBetween(cs, i, j, k);
      assert cs[k].message.cls.Prose? && VisibilityBoundary(cs[k]) == VisibilityBoundary(cs[i]);
    }
    if VisibleBetween(cs, VisibilityBoundary(cs[i]), Ordinal(cs[i]), Ordinal(cs[j])) {
      var k :| 0 <= k < |cs| && cs[k].message.cls.Prose? && VisibilityBoundary(cs[k]) == VisibilityBoundary(cs[i])
               && (Ordinal(cs[i]) < Ordinal(cs[k]) < Ordinal(cs[j])
                    || Ordinal(cs[j]) < Ordinal(cs[k]) < Ordinal(cs[i]));
      assert StandsBetween(cs, i, j, k);
    }
  }

  // ---------------------------------------------------------------- groups and messages

  /** A group of two is a response and an event that say the same, and its message says it too. */
  lemma GroupSaysSame(cs: seq<Candidate>, i: nat, group: seq<nat>)
    requires AllValid(cs) && i < |cs| && group in GroupAt(cs, i)
    ensures |OutputAt(cs, i)| == 1 && (group == [i] || (|group| == 2 && group[0] == i))
    ensures forall x :: x in group ==> x < |cs| && SaysAs(OutputAt(cs, i)[0], cs[x].message)
    ensures |group| == 2 ==> Partners(cs[i], cs[group[1]])
    ensures multiset(OutputAt(cs, i)[0].aliases)
            == multiset(cs[i].message.aliases)
               + if |group| == 2 then multiset(cs[group[1]].message.aliases) else multiset{}
  {
    hide NativeMessage.Valid, Partners, MergeMessages, Paired, OnlyPartners;
    match Partner(cs, i)
    case None =>
    case Some(j) =>
      PartnerIs(cs, i, j);
      PairedExactly(cs, i, j);
      PartnersSay(cs, i, j);
  }

  /** The columns every projection of a message shares with it. */
  predicate SaysAs(m: NativeMessage, c: NativeMessage) {
    && m.text == c.text && m.role == c.role && m.kind == c.kind && m.epoch == c.epoch && m.cls == c.cls
    && m.canonical.session == c.canonical.session
  }

  lemma PartnersSay(cs: seq<Candidate>, i: nat, j: nat)
    requires AllValid(cs) && OnlyPartners(cs, i, j)
    ensures Partners(cs[i], cs[j])
    ensures var m := MergeMessages(cs[i].message, cs[j].message);
            && SaysAs(m, cs[i].message) && SaysAs(m, cs[j].message)
            && multiset(m.aliases) == multiset(cs[i].message.aliases) + multiset(cs[j].message.aliases)
  {
    var a, b := cs[i].message, cs[j].message;
    MergedColumns(a, b);
  }

  lemma MergedColumns(a: NativeMessage, b: NativeMessage)
    requires a.Valid() && b.Valid() && a.canonical.session == b.canonical.session
    requires a.text == b.text && a.role == b.role && a.kind == b.kind && a.epoch == b.epoch && a.cls == b.cls
    ensures SaysAs(MergeMessages(a, b), a) && SaysAs(MergeMessages(a, b), b)
    ensures multiset(MergeMessages(a, b).aliases) == multiset(a.aliases) + multiset(b.aliases)
  {
    hide SortBy, Canonicalization.AliasKey, Earliest;
    MergeIsValid(a, b);
    var m := MergeMessages(a, b);
    SameElements(m.aliases, a.aliases + b.aliases);
    assert Earliest(m.aliases) in a.aliases + b.aliases;
  }

  /** A response and an event that say the same, with no other such partner and nothing visible
      between them, are emitted as one message. */
  lemma PartnersAreOneMessage(cs: seq<Candidate>, i: nat, j: nat)
    requires AllValid(cs) && OnlyPartners(cs, i, j) && i < j
    ensures GroupAt(cs, i) == [[i, j]] && GroupAt(cs, j) == []
    ensures |OutputAt(cs, i)| == 1 && OutputAt(cs, j) == []
    ensures SaysAs(OutputAt(cs, i)[0], cs[i].message) && SaysAs(OutputAt(cs, i)[0], cs[j].message)
  {
    hide NativeMessage.Valid, Partners, MergeMessages, Paired, OnlyPartners, SaysAs;
    PairedExactly(cs, i, j);
    PartnerIs(cs, i, j);
    PartnersSay(cs, i, j);
  }

  /** Any other candidate is emitted alone and unchanged. */
  lemma UnpartneredIsAlone(cs: seq<Candidate>, i: nat)
    requires AllValid(cs) && i < |cs| && forall j: nat :: !OnlyPartners(cs, i, j)
    ensures GroupAt(cs, i) == [[i]] && OutputAt(cs, i) == [cs[i].message]
  {
    hide NativeMessage.Valid, Paired, OnlyPartners;
    forall j: nat ensures !Paired(cs, i, j) { PairedExactly(cs, i, j); }
  }

  /** How many partners a candidate has. */
  ghost function PartnersOf(cs: seq<Candidate>, i: nat): set<nat>
    requires AllValid(cs) && i < |cs|
  {
    HaveAliases(cs);
    set j: nat | j < |cs| && Partners(cs[i], cs[j])
  }

  /** A projection that stays alone is reported with its occurrences, and as ambiguous exactly when
      it or one of its partners has more than one partner; nothing else is reported. */
  lemma UnpartneredIsReported(cs: seq<Candidate>, i: nat)
    requires AllValid(cs) && i < |cs|
    ensures DiagnosticAt(cs, i) == [] <==>
              !Pairable(cs[i]) || exists j: nat :: OnlyPartners(cs, i, j)
    ensures forall d :: d in DiagnosticAt(cs, i) ==>
      && DiagnosticAt(cs, i) == [d] && d.aliases == cs[i].message.aliases
      && (d.code == MultipleCompatiblePartners
          <==> || |PartnersOf(cs, i)| > 1
               || exists j :: j in PartnersOf(cs, i) && |PartnersOf(cs, j)| > 1)
  {
    hide NativeMessage.Valid, Paired, OnlyPartners, Partners, PartnersOf, Match, Several;
    forall j: nat ensures Paired(cs, i, j) <==> OnlyPartners(cs, i, j) { PairedExactly(cs, i, j); }
    SeveralPartners(cs, i);
    forall j: nat | j < |cs| ensures Several(cs, j) <==> |PartnersOf(cs, j)| > 1 { SeveralPartners(cs, j); }
    forall j: nat ensures j in PartnersOf(cs, i) <==> Match(cs, i, j) { PartnersMatch(cs, i, j); }
    forall j: nat | Match(cs, i, j) ensures j < |cs| { MatchInRange(cs, i, j); }
  }

  lemma PartnersMatch(cs: seq<Candidate>, i: nat, j: nat)
    requires AllValid(cs) && i < |cs|
    ensures j in PartnersOf(cs, i) <==> Match(cs, i, j)
  {
    hide NativeMessage.Valid, Partners, Matches;
    HaveAliases(cs);
    if j < |cs| { MatchesArePartners(cs[i], cs[j]); }
  }

  lemma SeveralPartners(cs: seq<Candidate>, i: nat)
    requires AllValid(cs) && i < |cs|
    ensures Several(cs, i) <==> |PartnersOf(cs, i)| > 1
  {
    hide NativeMessage.Valid, PartnersOf, Match;
    forall j: nat ensures j in PartnersOf(cs, i) <==> Match(cs, i, j) { PartnersMatch(cs, i, j); }
    MoreThanOne(PartnersOf(cs, i));
  }

  lemma MoreThanOne(s: set<nat>)
    ensures |s| > 1 <==> exists j, k :: j in s && k in s && j != k
  {
    if j, k :| j in s && k in s && j != k {
      assert {j, k} <= s && |{j, k}| == 2;
      SubsetSize({j, k}, s);
    } else if s != {} {
      var j :| j in s;
      assert s == {j};
    }
  }

  lemma SubsetSize(a: set<nat>, b: set<nat>)
    requires a <= b
    ensures |a| <= |b|
  {
    assert b == a + (b - a);
  }

  // ---------------------------------------------------------------- the whole list

  /** What is emitted tells every occurrence it holds: some candidate has it and says the same. */
  lemma EmittedTellsOccurrences(values: seq<Value>, m: NativeMessage, a: PhysicalAlias)
    requires AllValid(CandidatesOf(values)) && m in Canonicalized(values) && a in m.aliases
    ensures exists c :: c in CandidatesOf(values) && a in c.message.aliases && SaysAs(m, c.message)
  {
    hide AllValid, SortBy, NativeMessage.Valid, SaysAs, Outputs;
    ArrangedValid(values);
    var cs := Arranged(values);
    SameElements(Outputs(cs, |cs|), Canonicalized(values));
    var i := VisitOf(cs, |cs|, m);
    var x := HolderOf(cs, i, a);
    SameElements(cs, CandidatesOf(values));
    assert cs[x] in cs;
  }

  /** Nothing said is lost: every candidate's words and occurrences are those of an emitted message. */
  lemma CandidatesAreTold(values: seq<Value>, c: Candidate)
    requires AllValid(CandidatesOf(values)) && c in CandidatesOf(values)
    ensures exists m :: m in Canonicalized(values) && SaysAs(m, c.message)
                        && forall a :: a in c.message.aliases ==> a in m.aliases
  {
    hide AllValid, SortBy, NativeMessage.Valid, SaysAs, Outputs, Partner, OutputAt, GroupAt;
    ArrangedValid(values);
    var cs := Arranged(values);
    assert c in cs by { assert c in multiset(cs); }
    var x :| 0 <= x < |cs| && cs[x] == c;
    var i := VisitorOf(cs, x);
    GroupHolds(cs, i, x);
    OutputsHold(cs, |cs|, i);
    SameElements(Outputs(cs, |cs|), Canonicalized(values));
    assert OutputAt(cs, i)[0] in Canonicalized(values);
  }

  lemma GroupHolds(cs: seq<Candidate>, i: nat, x: nat)
    requires AllValid(cs) && i < |cs| && |GroupAt(cs, i)| == 1 && x in GroupAt(cs, i)[0] && x < |cs|
    ensures |OutputAt(cs, i)| == 1 && SaysAs(OutputAt(cs, i)[0], cs[x].message)
    ensures forall a :: a in cs[x].message.aliases ==> a in OutputAt(cs, i)[0].aliases
  {
    hide AllValid, NativeMessage.Valid, SaysAs, OutputAt, GroupAt;
    var group := GroupAt(cs, i)[0];
    GroupSaysSame(cs, i, group);
    assert x == i || x == group[1];
    forall a | a in cs[x].message.aliases ensures a in OutputAt(cs, i)[0].aliases {
      assert multiset(cs[x].message.aliases)[a] > 0;
      assert multiset(OutputAt(cs, i)[0].aliases)[a] > 0;
    }
  }

  /** The visit whose group holds a candidate. */
  lemma VisitorOf(cs: seq<Candidate>, x: nat) returns (i: nat)
    requires AllValid(cs) && x < |cs|
    ensures i < |cs| && |GroupAt(cs, i)| == 1 && x in GroupAt(cs, i)[0]
  {
    hide NativeMessage.Valid, Paired;
    i := x;
    if Partner(cs, x).Some? {
      var j := Partner(cs, x).value;
      PartnerIs(cs, x, j);
      if j < x { i := j; }
    }
  }

  lemma {:induction false} OutputsHold(cs: seq<Candidate>, n: nat, i: nat)
    requires AllValid(cs) && i < n <= |cs|
    ensures forall m :: m in OutputAt(cs, i) ==> m in Outputs(cs, n)
    decreases n
  {
    hide AllValid, OutputAt;
    if i < n - 1 { OutputsHold(cs, n - 1, i); }
  }

  lemma {:induction false} VisitOf(cs: seq<Candidate>, n: nat, m: NativeMessage) returns (i: nat)
    requires AllValid(cs) && n <= |cs| && m in Outputs(cs, n)
    ensures i < n && m in OutputAt(cs, i)
    decreases n
  {
    hide AllValid, OutputAt;
    if m in OutputAt(cs, n - 1) { i := n - 1; } else { i := VisitOf(cs, n - 1, m); }
  }

  lemma HolderOf(cs: seq<Candidate>, i: nat, a: PhysicalAlias) returns (x: nat)
    requires AllValid(cs) && i < |cs| && OutputAt(cs, i) != [] && a in OutputAt(cs, i)[0].aliases
    ensures x < |cs| && a in cs[x].message.aliases && SaysAs(OutputAt(cs, i)[0], cs[x].message)
  {
    hide NativeMessage.Valid, SaysAs, MergeMessages, Paired;
    if Partner(cs, i).Some? { PartnerIs(cs, i, Partner(cs, i).value); }
    var group := GroupAt(cs, i)[0];
    GroupSaysSame(cs, i, group);
    assert multiset(OutputAt(cs, i)[0].aliases)[a] > 0;
    x := if a in cs[i].message.aliases then i else group[1];
  }

  /** Who submitted a merged message: whoever either projection knows of, unless they disagree. */
  lemma MergedAuthorship(a: NativeMessage, b: NativeMessage)
    requires a.Valid() && b.Valid()
    ensures var m := MergeMessages(a, b);
            && (m.submittedBy == UnknownSubmitter
                <==> || (a.submittedBy == UnknownSubmitter && b.submittedBy == UnknownSubmitter)
                     || (a.submittedBy != UnknownSubmitter && b.submittedBy != UnknownSubmitter
                         && a.submittedBy != b.submittedBy))
            && (m.submittedBy != UnknownSubmitter ==> m.submittedBy == a.submittedBy || m.submittedBy == b.submittedBy)
            && (m.submittedBy == UnknownSubmitter ==> m.evidence == {} && m.cardinality == 0)
            && (m.submittedBy != UnknownSubmitter ==> m.evidence == a.evidence + b.evidence && m.cardinality == 1)
  {
    hide SortBy, Earliest;
  }
}
