/** The version-1 locator grammar: printing and parsing native locators. */
module Locator {
  import opened CorpusTables

  datatype Provider = Claude | Codex | Antigravity
  datatype KeyKind = Uuid | Id | Ordinal
  datatype RecordKey = TextKey(text: string) | NumberKey(number: nat)

  datatype NativeLocator = NativeLocator(provider: Provider, session: string, kind: KeyKind, key: RecordKey,
      digest: Option<string>)
  {
    /** What constructing a locator demands. */
    predicate Valid() {
      && Opaque(session) && kind in PermittedKinds(provider)
      && match kind
         case Ordinal => key.NumberKey? && digest.Some? && CanonicalDigest(digest.value)
         case _ => key.TextKey? && Opaque(key.text) && digest.None?
    }
  }

  function PermittedKinds(p: Provider): set<KeyKind> {
    match p case Claude => {Uuid} case Codex => {Id, Ordinal} case Antigravity => {Ordinal}
  }

  predicate IsSpace(c: char) {
    var n := c as int;
    9 <= n <= 13 || 28 <= n <= 32 || n == 0x85 || n == 0xA0 || n == 0x1680 || 0x2000 <= n <= 0x200A
    || n == 0x2028 || n == 0x2029 || n == 0x202F || n == 0x205F || n == 0x3000
  }

  /** A nonblank component without a delimiter. */
  predicate Opaque(s: string) {
    (exists i :: 0 <= i < |s| && !IsSpace(s[i])) && ':' !in s && '\r' !in s && '\n' !in s
  }

  predicate CanonicalDigest(s: string) {
    |s| == 64 && forall i :: 0 <= i < |s| ==> '0' <= s[i] <= '9' || 'a' <= s[i] <= 'f'
  }

  // ---------------------------------------------------------------- decimal ordinals

  predicate IsDigit(c: char) { '0' <= c <= '9' }

  predicate CanonicalOrdinal(s: string) {
    s != [] && (forall i :: 0 <= i < |s| ==> IsDigit(s[i])) && (s[0] == '0' ==> |s| == 1)
  }

  function Digit(n: nat): (c: char)
    requires n < 10
    ensures IsDigit(c) && (c == '0' <==> n == 0)
  {
    ['0', '1', '2', '3', '4', '5', '6', '7', '8', '9'][n]
  }

  function DigitValue(c: char): (n: nat)
    requires IsDigit(c)
    ensures n < 10
  {
    c as int - '0' as int
  }

  function Decimal(n: nat): string {
    if n < 10 then [Digit(n)] else Decimal(n / 10) + [Digit(n % 10)]
  }

  function Value(s: string): nat
    requires forall i :: 0 <= i < |s| ==> IsDigit(s[i])
  {
    if s == [] then 0 else Value(s[..|s| - 1]) * 10 + DigitValue(s[|s| - 1])
  }

  lemma DigitInverse(n: nat, c: char)
    ensures n < 10 ==> DigitValue(Digit(n)) == n
    ensures IsDigit(c) ==> Digit(DigitValue(c)) == c
  {
    if IsDigit(c) { var v := DigitValue(c); }
  }

  lemma {:induction false} DecimalIsCanonical(n: nat)
    ensures CanonicalOrdinal(Decimal(n)) && Value(Decimal(n)) == n && (Decimal(n)[0] == '0' <==> n == 0)
    decreases n
  {
    if n < 10 {
      DigitInverse(n, '0');
      assert Decimal(n)[..0] == [];
    } else {
      DecimalIsCanonical(n / 10);
      DigitInverse(n % 10, '0');
      var s := Decimal(n);
      assert s[..|s| - 1] == Decimal(n / 10);
    }
  }

  lemma LastDigit(v: nat, d: nat)
    requires d < 10
    ensures (v * 10 + d) / 10 == v && (v * 10 + d) % 10 == d
  {
  }

  lemma {:induction false} DecimalOfValue(s: string)
    requires CanonicalOrdinal(s)
    ensures Decimal(Value(s)) == s && (s[0] != '0' ==> Value(s) > 0)
    decreases |s|
  {
    hide Digit, DigitValue, IsDigit;
    var front, last := s[..|s| - 1], s[|s| - 1];
    assert IsDigit(last);
    DigitInverse(0, last);
    assert s == front + [last];
    if |s| == 1 {
      assert Value(front) == 0;
    } else {
      DecimalOfValue(front);
      LastDigit(Value(front), DigitValue(last));
    }
  }

  // ---------------------------------------------------------------- fields

  function Join(parts: seq<string>): string
    requires parts != []
  {
    if |parts| == 1 then parts[0] else parts[0] + ":" + Join(parts[1..])
  }

  function FirstColon(s: string): (k: nat)
    ensures k <= |s| && (forall i :: 0 <= i < k ==> s[i] != ':') && (k < |s| ==> s[k] == ':')
  {
    if s == [] || s[0] == ':' then 0 else 1 + FirstColon(s[1..])
  }

  function Split(s: string): (parts: seq<string>)
    ensures parts != []
    decreases |s|
  {
    var k := FirstColon(s);
    if k == |s| then [s] else [s[..k]] + Split(s[k + 1..])
  }

  lemma FirstColonIs(s: string, k: nat)
    requires k <= |s| && (forall i :: 0 <= i < k ==> s[i] != ':') && (k < |s| ==> s[k] == ':')
    ensures FirstColon(s) == k
  {
  }

  lemma SplitFirst(first: string, rest: string)
    requires ':' !in first
    ensures Split(first + ":" + rest) == [first] + Split(rest) && Split(first) == [first]
  {
    var s := first + ":" + rest;
    FirstColonIs(first, |first|);
    assert s[|first|] == ':' && s[..|first|] == first && s[|first| + 1..] == rest;
    forall i | 0 <= i < |first| ensures s[i] != ':' { assert s[i] == first[i] && first[i] in first; }
    FirstColonIs(s, |first|);
  }

  lemma {:induction false} SplitOfJoin(parts: seq<string>)
    requires parts != [] && forall i :: 0 <= i < |parts| ==> ':' !in parts[i]
    ensures Split(Join(parts)) == parts
    decreases |parts|
  {
    hide Split;
    if |parts| == 1 {
      SplitFirst(parts[0], "");
      assert parts == [parts[0]];
    } else {
      SplitFirst(parts[0], Join(parts[1..]));
      SplitOfJoin(parts[1..]);
      assert parts == [parts[0]] + parts[1..];
    }
  }

  lemma {:induction false} JoinOfSplit(s: string)
    ensures Join(Split(s)) == s && forall i :: 0 <= i < |Split(s)| ==> ':' !in Split(s)[i]
    decreases |s|
  {
    var k := FirstColon(s);
    if k < |s| {
      JoinOfSplit(s[k + 1..]);
      assert Split(s)[1..] == Split(s[k + 1..]);
      assert s == s[..k] + ":" + s[k + 1..];
    }
  }

  // ---------------------------------------------------------------- tokens

  function ProviderToken(p: Provider): string {
    match p case Claude => "claude" case Codex => "codex" case Antigravity => "antigravity"
  }

  function ProviderOf(s: string): Option<Provider> {
    if s == "claude" then Some(Claude)
    else if s == "codex" then Some(Codex)
    else if s == "antigravity" then Some(Antigravity)
    else None
  }

  function KindToken(k: KeyKind): string {
    match k case Uuid => "uuid" case Id => "id" case Ordinal => "ordinal"
  }

  function KindOf(s: string): Option<KeyKind> {
    if s == "uuid" then Some(Uuid) else if s == "id" then Some(Id) else if s == "ordinal" then Some(Ordinal) else None
  }

  lemma Tokens(p: Provider, k: KeyKind, s: string)
    ensures ProviderOf(ProviderToken(p)) == Some(p) && KindOf(KindToken(k)) == Some(k)
    ensures ':' !in ProviderToken(p) && ':' !in KindToken(k)
    ensures ProviderOf(s).Some? ==> ProviderToken(ProviderOf(s).value) == s
    ensures KindOf(s).Some? ==> KindToken(KindOf(s).value) == s
  {
  }

  // ---------------------------------------------------------------- printing and parsing

  function KeyText(key: RecordKey): string {
    match key case TextKey(text) => text case NumberKey(number) => Decimal(number)
  }

  function Fields(l: NativeLocator): (fields: seq<string>)
    requires l.Valid()
    ensures |fields| == if l.kind == Ordinal then 8 else 6
  {
    var prefix := ["ccchat", "v1", ProviderToken(l.provider), l.session, KindToken(l.kind), KeyText(l.key)];
    if l.kind == Ordinal then prefix + ["sha256", l.digest.value] else prefix
  }

  function FormatLocator(l: NativeLocator): string
    requires l.Valid()
  {
    Join(Fields(l))
  }

  function Checked(l: NativeLocator): Option<NativeLocator> { if l.Valid() then Some(l) else None }

  /** None is the malformed-locator outcome. */
  function ParseLocator(s: string): Option<NativeLocator> {
    var parts := Split(s);
    if (|parts| != 6 && |parts| != 8) || parts[0] != "ccchat" || parts[1] != "v1" then None
    else
      var provider, kind := ProviderOf(parts[2]), KindOf(parts[4]);
      if provider.None? || kind.None? then None
      else if kind.value == Ordinal then
        if |parts| != 8 || parts[6] != "sha256" || !CanonicalOrdinal(parts[5]) then None
        else Checked(NativeLocator(provider.value, parts[3], Ordinal, NumberKey(Value(parts[5])), Some(parts[7])))
      else if |parts| != 6 then None
      else Checked(NativeLocator(provider.value, parts[3], kind.value, TextKey(parts[5]), None))
  }

  /** Every valid locator is read back from its text. */
  lemma ParseOfFormat(l: NativeLocator)
    requires l.Valid()
    ensures ParseLocator(FormatLocator(l)) == Some(l)
  {
    hide Split, Join, IsSpace, CanonicalOrdinal;
    var fields := Fields(l);
    Tokens(l.provider, l.kind, "");
    if l.kind == Ordinal {
      DecimalIsCanonical(l.key.number);
      NoColons(Decimal(l.key.number), l.digest.value);
    }
    SplitOfJoin(fields);
  }

  lemma NoColons(ordinal: string, digest: string)
    ensures CanonicalOrdinal(ordinal) ==> ':' !in ordinal
    ensures CanonicalDigest(digest) ==> ':' !in digest
  {
  }

  /** Every accepted text is the text of the locator it is read as. */
  lemma FormatOfParse(s: string)
    requires ParseLocator(s).Some?
    ensures ParseLocator(s).value.Valid() && FormatLocator(ParseLocator(s).value) == s
  {
    hide Split, Join, IsSpace, Value, Decimal;
    var parts := Split(s);
    JoinOfSplit(s);
    Tokens(ProviderOf(parts[2]).value, KindOf(parts[4]).value, parts[2]);
    Tokens(ProviderOf(parts[2]).value, KindOf(parts[4]).value, parts[4]);
    if |parts| == 8 { DecimalOfValue(parts[5]); }
    assert Fields(ParseLocator(s).value) == parts;
  }

  /** No two valid locators share a text, so a locator text identifies what it locates. */
  lemma LocatorTextsAreUnique(l: NativeLocator, m: NativeLocator)
    requires l.Valid() && m.Valid() && FormatLocator(l) == FormatLocator(m)
    ensures l == m
  {
    ParseOfFormat(l);
    ParseOfFormat(m);
  }

  /** The grammar is exactly the printed locators. */
  lemma AcceptedExactlyPrinted(s: string)
    ensures ParseLocator(s).Some? <==> exists l: NativeLocator :: l.Valid() && FormatLocator(l) == s
  {
    hide NativeLocator.Valid, FormatLocator, ParseLocator;
    if ParseLocator(s).Some? {
      FormatOfParse(s);
    } else if l: NativeLocator :| l.Valid() && FormatLocator(l) == s {
      ParseOfFormat(l);
    }
  }

  /** The text of a locator: version, provider, session, kind and key, and for an ordinal its digest. */
  lemma PrintedText(l: NativeLocator)
    requires l.Valid()
    ensures var provider := match l.provider
                            case Claude => "claude" case Codex => "codex" case Antigravity => "antigravity";
            FormatLocator(l)
            == match l.kind
               case Uuid => Join(["ccchat", "v1", provider, l.session, "uuid", l.key.text])
               case Id => Join(["ccchat", "v1", provider, l.session, "id", l.key.text])
               case Ordinal =>
                 Join(["ccchat", "v1", provider, l.session, "ordinal", Decimal(l.key.number), "sha256", l.digest.value])
    // with a colon between its parts and nowhere else
    ensures Split(FormatLocator(l)) == Fields(l)
  {
    hide Join, Split, CanonicalOrdinal;
    var fields := Fields(l);
    Tokens(l.provider, l.kind, "");
    if l.kind == Ordinal {
      DecimalIsCanonical(l.key.number);
      NoColons(Decimal(l.key.number), l.digest.value);
      assert fields == ["ccchat", "v1", ProviderToken(l.provider), l.session, "ordinal", Decimal(l.key.number),
                 "sha256",
                        l.digest.value];
    }
    SplitOfJoin(fields);
  }

  /** A valid locator has a session, and what its provider's records are known by: Claude a UUID,
      Codex an id or an ordinal, Antigravity an ordinal; an ordinal goes with a SHA-256 digest. */
  lemma ValidLocators(l: NativeLocator)
    ensures l.Valid()
       <==> && Opaque(l.session)
            && (l.kind == Uuid ==> l.provider == Claude) && (l.kind == Id ==> l.provider == Codex)
            && (l.kind == Ordinal ==> l.provider == Codex || l.provider == Antigravity)
            && (if l.kind == Ordinal then
                  && l.key.NumberKey? && l.digest.Some? && |l.digest.value| == 64
                  && forall i :: 0 <= i < 64 ==> '0' <= l.digest.value[i] <= '9' || 'a' <= l.digest.value[i] <= 'f'
                else l.key.TextKey? && Opaque(l.key.text) && l.digest == None)
  {
    hide Opaque;
  }
}
