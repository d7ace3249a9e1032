/** The relations of the published corpus and the value-level meaning of one refresh.

    Text columns that the database orders by are represented by their rank in its
    collation; every other text column is a string.  SHA-256 is an injective constructor,
    so a digest is equal to another exactly when the digested texts are equal. */
module CorpusTables {

  datatype Option<+T> = None | Some(value: T)

  datatype ContentClass = Prose | ToolName | ToolInput | ToolOutput

  datatype SessionKind = Primary | Agent | Unknown

  datatype SubmittedBy = Human | IdentifiedHarness | UnknownSubmitter

  datatype Digest = Sha256(text: string)

  // ---------------------------------------------------------------- keys and rows

  /** One native file: its configured root and its path below that root. */
  datatype Source = Source(root: int, relative: int)

  /** The unique occurrence index of `physical_alias_current`. */
  datatype AliasKey = AliasKey(source: Source, ordinal: nat, cls: ContentClass)

  datatype MessageId = MessageId(provider: int, session: int, logical: int)

  /** The primary key of `message_current`. */
  datatype MessageKey = MessageKey(id: MessageId, cls: ContentClass)

  /** Every message column except `cwd`.  `embedding_input_digest` is the digest of `prose`. */
  datatype Facts = Facts(canonicalLocator: string, timestamp: string, role: string, kind: string,
                         epoch: nat, prose: string, repository: Option<string>, submittedBy: string)
  {
    function InputDigest(): Digest { Sha256(prose) }
  }

  datatype Row = Row(facts: Facts, cwd: Option<string>)

  datatype Place = Place(locator: string, line: nat, offset: nat, length: nat, digest: string)

  datatype Alias = Alias(id: MessageId, place: Place)

  /** One staged row: the message it observes, the observed columns, and where. */
  datatype Observation = Observation(id: MessageId, row: Row, place: Place)

  type Contents = map<AliasKey, Observation>
  type MessageTable = map<MessageKey, Row>
  type AliasTable = map<AliasKey, Alias>

  function Owner(k: AliasKey, id: MessageId): MessageKey { MessageKey(id, k.cls) }

  // ---------------------------------------------------------------- DISTINCT ON order

  /** `ORDER BY source_root_id, source_file_relative, record_ordinal`. */
  predicate Before(a: AliasKey, b: AliasKey) {
    || a.source.root < b.source.root
    || (a.source.root == b.source.root && a.source.relative < b.source.relative)
    || (a.source == b.source && a.ordinal < b.ordinal)
  }

  ghost predicate IsFirst(k: AliasKey, keys: set<AliasKey>) {
    k in keys && forall o :: o in keys && o != k ==> Before(k, o)
  }

  lemma FirstExists(keys: set<AliasKey>)
    requires keys != {}
    requires forall a, b :: a in keys && b in keys ==> a.cls == b.cls
    ensures exists k :: IsFirst(k, keys)
    decreases keys
  {
    var k :| k in keys;
    if keys == {k} {
      assert IsFirst(k, keys);
    } else {
      var rest := keys - {k};
      assert rest < keys;
      assert keys == rest + {k};
      FirstExists(rest);
      var f :| IsFirst(f, rest);
      var least := if Before(k, f) then k else f;
      forall o | o in keys && o != least ensures Before(least, o) {
        assert o == k || o == f || Before(f, o);
      }
      assert IsFirst(least, keys);
    }
  }

  /** The row a `SELECT DISTINCT ON` keeps for one message. */
  function First(keys: set<AliasKey>): (k: AliasKey)
    requires keys != {}
    requires forall a, b :: a in keys && b in keys ==> a.cls == b.cls
    ensures k in keys
    ensures forall o :: o in keys && o != k ==> Before(k, o)
  {
    FirstExists(keys);
    assert forall a, b :: IsFirst(a, keys) && IsFirst(b, keys) ==> a == b;
    var k :| k in keys && forall o :: o in keys && o != k ==> Before(k, o);
    k
  }

  /** The kept row is the least by root, then path, then record ordinal. */
  lemma FirstIsLeast(keys: set<AliasKey>, o: AliasKey)
    requires o in keys && forall a, b :: a in keys && b in keys ==> a.cls == b.cls
    ensures var k := First(keys);
            k == o || (if k.source.root != o.source.root then k.source.root < o.source.root
                       else if k.source.relative != o.source.relative then k.source.relative < o.source.relative
                       else k.ordinal < o.ordinal)
  {
  }

  // ---------------------------------------------------------------- the from-scratch build

  function Owners(c: Contents): set<MessageKey> {
    set k | k in c :: Owner(k, c[k].id)
  }

  function Occurrences(c: Contents, m: MessageKey): set<AliasKey> {
    set k | k in c && Owner(k, c[k].id) == m
  }

  /** Two observations of one message disagree on a column that conflict detection compares. */
  ghost predicate Conflicted(c: Contents) {
    exists a, b :: a in c && b in c && Owner(a, c[a].id) == Owner(b, c[b].id)
                   && c[a].row.facts != c[b].row.facts
  }

  /** The message table a rebuild from nothing produces: one DISTINCT ON row a message. */
  function RebuiltMessages(c: Contents): (t: MessageTable)
  {
    map m | m in Owners(c) :: c[FirstOccurrence(c, m)].row
  }

  function FirstOccurrence(c: Contents, m: MessageKey): (k: AliasKey)
    requires m in Owners(c)
    ensures k in c && Owner(k, c[k].id) == m
  {
    var w :| w in c && Owner(w, c[w].id) == m;
    assert w in Occurrences(c, m);
    First(Occurrences(c, m))
  }

  function RebuiltAliases(c: Contents): AliasTable {
    map k | k in c :: Alias(c[k].id, c[k].place)
  }

  /** A message table with its `cwd` column dropped. */
  function WithoutCwd(t: MessageTable): map<MessageKey, Facts> {
    map m | m in t :: t[m].facts
  }

  /** The published tables are, up to `cwd`, the build of `c` from nothing. */
  ghost predicate Built(messages: MessageTable, aliases: AliasTable, c: Contents) {
    && !Conflicted(c)
    && aliases == RebuiltAliases(c)
    && WithoutCwd(messages) == WithoutCwd(RebuiltMessages(c))
  }

  /** The same predicate in pointwise form, which is the form proofs use. */
  ghost predicate BuiltPoints(messages: MessageTable, aliases: AliasTable, c: Contents) {
    && aliases == RebuiltAliases(c)
    && (forall m :: m in messages <==> m in Owners(c))
    && (forall k :: k in c ==> Owner(k, c[k].id) in messages && messages[Owner(k, c[k].id)].facts == c[k].row.facts)
  }

  lemma BuiltGivesPoints(messages: MessageTable, aliases: AliasTable, c: Contents)
    requires Built(messages, aliases, c)
    ensures BuiltPoints(messages, aliases, c)
  {
    var r := RebuiltMessages(c);
    forall m ensures m in messages <==> m in Owners(c) {
      assert m in messages <==> m in WithoutCwd(messages);
      assert m in r <==> m in WithoutCwd(r);
    }
    forall k | k in c
      ensures Owner(k, c[k].id) in messages && messages[Owner(k, c[k].id)].facts == c[k].row.facts
    {
      var m := Owner(k, c[k].id);
      assert m in Owners(c);
      assert WithoutCwd(messages)[m] == WithoutCwd(r)[m] == c[FirstOccurrence(c, m)].row.facts;
    }
  }

  lemma PointsGiveBuilt(messages: MessageTable, aliases: AliasTable, c: Contents)
    requires BuiltPoints(messages, aliases, c)
    ensures Built(messages, aliases, c)
  {
    var r := RebuiltMessages(c);
    forall m ensures m in WithoutCwd(messages) <==> m in WithoutCwd(r)
             ensures m in WithoutCwd(messages) ==> WithoutCwd(messages)[m] == WithoutCwd(r)[m]
    {
      if m in Owners(c) {
        var k := FirstOccurrence(c, m);
        assert messages[Owner(k, c[k].id)].facts == c[k].row.facts;
      }
    }
  }
}
