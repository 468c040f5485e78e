/** `apiAnalysis/tool/parameter_identity.py`: from flattened parameter names to alias identities.
    The alias table of `parameter_dependency.py` is a parameter. */
module ParameterIdentity {
  import opened Text
  import opened PreferredNames

  predicate LeafChar(c: char) {
    'a' <= c <= 'z' || '0' <= c <= '9' || c == '_'
  }

  predicate Underscore(c: char) { c == '_' }

  /** Deletes every `[...]` group: from a `[` to the next `]`. */
  function DropBrackets(s: string): (r: string)
    ensures '[' !in s ==> r == s
    decreases |s|
  {
    if s == "" then ""
    else if s[0] == '[' && ']' in s[1..] then DropBrackets(s[1..][IndexOf(s[1..], ']') + 1..])
    else [s[0]] + DropBrackets(s[1..])
  }

  predicate Upper(c: char) { 'A' <= c <= 'Z' }

  predicate LowerOrDigit(c: char) { 'a' <= c <= 'z' || '0' <= c <= '9' }

  /** Inserts `_` between a lower-case letter or digit and an upper-case letter. */
  function SplitCamel(s: string): (r: string)
    ensures (forall i | 0 <= i < |s| :: !Upper(s[i])) ==> r == s
  {
    if |s| < 2 then s
    else
      var head := if LowerOrDigit(s[0]) && Upper(s[1]) then [s[0], '_'] else [s[0]];
      head + SplitCamel(s[1..])
  }

  predicate NoDouble(s: string) {
    forall i | 0 <= i < |s| - 1 :: !(s[i] == '_' && s[i + 1] == '_')
  }

  /** Collapses every run of underscores to one. */
  function Collapse(s: string): (r: string)
    ensures NoDouble(r)
    ensures (forall c | c in s :: LeafChar(c)) ==> forall c | c in r :: LeafChar(c)
    ensures NoDouble(s) ==> r == s
    ensures r != "" ==> s != "" && r[0] == s[0]
  {
    if |s| < 2 then s
    else if s[0] == '_' && s[1] == '_' then Collapse(s[1..])
    else
      assert NoDouble(s) ==> NoDouble(s[1..]) by {
        if NoDouble(s) {
          forall i | 0 <= i < |s[1..]| - 1 ensures !(s[1..][i] == '_' && s[1..][i + 1] == '_') {
            assert s[1..][i] == s[i + 1] && s[1..][i + 1] == s[i + 2];
          }
        }
      }
      [s[0]] + Collapse(s[1..])
  }

  function DashToUnderscore(c: char): char {
    if c == '-' then '_' else c
  }

  function RawLeaf(value: string): string {
    SplitCamel(DropBrackets(LastSegment(Strip(value), '.')))
  }

  function Squeeze(leaf: string): (r: string)
    ensures forall c | c in r :: LeafChar(c)
    ensures NoDouble(r)
  {
    Collapse(Filter(Lower(StripBy(MapChars(leaf, DashToUnderscore), Underscore)), LeafChar))
  }

  /** `normalized_leaf`: the readable leaf of a flattened JSON path. */
  function NormalizedLeaf(value: string): string {
    Squeeze(RawLeaf(value))
  }

  /** The shape of every normalized leaf. It may still begin or end with an underscore. */
  predicate Clean(s: string) {
    (forall c | c in s :: LeafChar(c)) && NoDouble(s)
  }

  lemma NormalizedLeafIsClean(value: string)
    ensures Clean(NormalizedLeaf(value))
  {
  }

  /** Normalizing a leaf again only removes its outer underscores. */
  lemma NormalizedLeafOfClean(s: string)
    requires Clean(s)
    ensures NormalizedLeaf(s) == StripBy(s, Underscore)
    ensures Clean(StripBy(s, Underscore))
    ensures NormalizedLeaf(StripBy(s, Underscore)) == StripBy(s, Underscore)
  {
    CleanIsPlain(s);
    RawLeafOfPlain(s);
    SqueezeOfClean(s);
    var t := StripBy(s, Underscore);
    StripOfClean(s);
    CleanIsPlain(t);
    RawLeafOfPlain(t);
    SqueezeOfClean(t);
    StripByTrims(s, Underscore);
    StripByFixed(t, Underscore);
  }

  lemma StripOfClean(s: string)
    requires Clean(s)
    ensures Clean(StripBy(s, Underscore))
  {
    var l := StripLeft(s, Underscore);
    var r := StripRight(l, Underscore);
    var k := |s| - |l|;
    assert forall i | 0 <= i < |r| :: r[i] == s[k + i];
    forall i | 0 <= i < |r| - 1 ensures !(r[i] == '_' && r[i + 1] == '_') {
      assert r[i] == s[k + i] && r[i + 1] == s[k + i + 1];
    }
    forall c | c in r ensures LeafChar(c) {
      var i :| 0 <= i < |r| && r[i] == c;
      assert s[k + i] in s;
    }
  }

  /** A character none of the rewriting steps of a raw leaf touches. */
  predicate Plain(c: char) {
    !IsSpace(c) && c != '.' && c != '[' && c != '-' && !Upper(c)
  }

  ghost predicate AllPlain(s: string) {
    forall i | 0 <= i < |s| :: Plain(s[i])
  }

  lemma CleanIsPlain(s: string)
    requires Clean(s)
    ensures AllPlain(s)
  {
    forall i | 0 <= i < |s| ensures Plain(s[i]) {
      assert s[i] in s;
    }
  }

  lemma PlainStrip(s: string)
    requires AllPlain(s)
    ensures Strip(s) == s
  {
    StripByFixed(s, IsSpace);
    PlainIsTrimmed(s);
    hide StripBy, Trimmed, AllPlain;
  }

  lemma PlainIsTrimmed(s: string)
    requires AllPlain(s)
    ensures Trimmed(s, IsSpace)
  {
    if s != "" {
      assert s[0] in s && s[|s| - 1] in s;
    }
  }

  lemma PlainLower(s: string)
    requires AllPlain(s)
    ensures Lower(s) == s
  {
  }

  lemma PlainDash(s: string)
    requires AllPlain(s)
    ensures MapChars(s, DashToUnderscore) == s
  {
  }

  lemma RawLeafOfPlain(s: string)
    requires AllPlain(s)
    ensures LastSegment(s, '.') == s
    ensures RawLeaf(s) == s
  {
    PlainStrip(s);
    assert '.' !in s && '[' !in s;
  }

  lemma SqueezeOfPlain(s: string, t: string)
    requires AllPlain(s) && t == StripBy(s, Underscore) && AllPlain(t)
    ensures Squeeze(s) == Collapse(Filter(t, LeafChar))
  {
    PlainDash(s);
    PlainLower(t);
  }

  lemma SqueezeOfClean(s: string)
    requires Clean(s)
    ensures Squeeze(s) == StripBy(s, Underscore)
  {
    var t := StripBy(s, Underscore);
    CleanIsPlain(s);
    StripOfClean(s);
    CleanIsPlain(t);
    SqueezeOfPlain(s, t);
  }

  type AliasTable = map<string, string>

  /** A canonical name is a stable leaf that the table maps to itself; so are the table's keys. */
  ghost predicate WellFormed(table: AliasTable) {
    forall k | k in table ::
      && k != "" && Clean(k) && Trimmed(k, Underscore)
      && Clean(table[k]) && table[k] != "" && Trimmed(table[k], Underscore)
      && table[k] in table && table[table[k]] == table[k]
  }

  /** `parameter_dependency.leaf` and `canonical_name`. */
  function DependencyLeaf(name: string): string {
    Filter(Lower(Strip(LastSegment(name, '.'))), LeafChar)
  }

  function Canonical(table: AliasTable, name: string): string {
    var low := DependencyLeaf(name);
    if low in table then table[low] else low
  }

  lemma DependencyLeafOfClean(s: string)
    requires Clean(s)
    ensures DependencyLeaf(s) == s
  {
    CleanIsPlain(s);
    RawLeafOfPlain(s);
    PlainStrip(s);
    PlainLower(s);
  }

  lemma CanonicalOfClean(table: AliasTable, s: string)
    requires WellFormed(table) && Clean(s)
    ensures Canonical(table, s) == if s in table then table[s] else s
    ensures Canonical(table, s) == "" <==> s == ""
  {
    DependencyLeafOfClean(s);
  }

  function Or(a: string, b: string): string {
    if a != "" then a else b
  }

  function IdentityOfLeaves(table: AliasTable, raw: string, hinted: string): string {
    FirstNonEmpty(Canonical(table, Or(raw, hinted)), Canonical(table, hinted), Or(raw, hinted), hinted)
  }

  function FirstNonEmpty(first: string, second: string, candidate: string, hinted: string): string {
    var identity := if first == "" && hinted != "" then second else first;
    Or(Or(identity, candidate), hinted)
  }

  /** `parameter_identity`. */
  function Identity(table: AliasTable, parameter: string, hint: string): string {
    IdentityOfLeaves(table, NormalizedLeaf(parameter), NormalizedLeaf(hint))
  }

  function IdentityOf(table: AliasTable, parameter: string): string {
    Identity(table, parameter, "")
  }

  /** `occurrence_alias`. */
  function OccurrenceAlias(parameter: string, hint: string): string {
    Or(NormalizedLeaf(parameter), NormalizedLeaf(hint))
  }

  lemma IdentityOfCleanLeaves(table: AliasTable, raw: string, hinted: string)
    requires WellFormed(table) && Clean(raw) && Clean(hinted)
    ensures IdentityOfLeaves(table, raw, hinted) == Canonical(table, Or(raw, hinted))
  {
    var candidate := Or(raw, hinted);
    CanonicalIsEmpty(table, candidate);
    CanonicalIsEmpty(table, hinted);
    OrderOfChoice(Canonical(table, candidate), Canonical(table, hinted), raw, hinted);
  }

  lemma CanonicalIsEmpty(table: AliasTable, s: string)
    requires WellFormed(table) && Clean(s)
    ensures Canonical(table, s) == "" <==> s == ""
  {
    CanonicalOfClean(table, s);
  }

  lemma OrderOfChoice(first: string, second: string, raw: string, hinted: string)
    requires first == "" <==> Or(raw, hinted) == ""
    requires second == "" <==> hinted == ""
    ensures FirstNonEmpty(first, second, Or(raw, hinted), hinted) == first
  {
  }

  /** The identity of an occurrence is the canonical name of the alias it contributes. */
  lemma IdentityFromAlias(table: AliasTable, parameter: string, hint: string)
    requires WellFormed(table)
    ensures var alias := OccurrenceAlias(parameter, hint);
            && Clean(alias)
            && Identity(table, parameter, hint) == Canonical(table, alias)
            && (alias == "" <==> Identity(table, parameter, hint) == "")
  {
    var raw, hinted := NormalizedLeaf(parameter), NormalizedLeaf(hint);
    IdentityOfCleanLeaves(table, raw, hinted);
    CanonicalOfClean(table, Or(raw, hinted));
  }

  lemma NormalizedLeafOfEmpty()
    ensures NormalizedLeaf("") == ""
  {
  }

  lemma IdentityOfClean(table: AliasTable, n: string)
    requires WellFormed(table) && Clean(n)
    ensures Clean(StripBy(n, Underscore))
    ensures IdentityOf(table, n) == Canonical(table, StripBy(n, Underscore))
  {
    hide RawLeaf, Squeeze, Canonical, IdentityOfLeaves;
    NormalizedLeafOfClean(n);
    NormalizedLeafOfEmpty();
    IdentityOfCleanLeaves(table, StripBy(n, Underscore), "");
  }

  lemma IdentityOfTrimmed(table: AliasTable, n: string)
    requires WellFormed(table) && Clean(n) && Trimmed(n, Underscore)
    ensures IdentityOf(table, n) == Canonical(table, n)
  {
    IdentityOfClean(table, n);
    StripByFixed(n, Underscore);
  }

  /** The identity of a stored leaf is stable: taking it a second time changes nothing. */
  lemma IdentityIdempotent(table: AliasTable, n: string)
    requires WellFormed(table) && Clean(n)
    ensures IdentityOf(table, IdentityOf(table, n)) == IdentityOf(table, n)
  {
    hide Canonical, IdentityOf, StripBy;
    var t := StripBy(n, Underscore);
    IdentityOfClean(table, n);
    StripByTrims(n, Underscore);
    CanonicalOfClean(table, t);
    var c := Canonical(table, t);
    IdentityOfTrimmed(table, c);
    CanonicalOfClean(table, c);
  }

  /** When a leaf carries its own identity: exactly when it has no outer underscore. */
  lemma NameAgreesIff(table: AliasTable, alias: string)
    requires WellFormed(table) && Clean(alias)
    ensures IdentityOf(table, alias) == Canonical(table, alias) <==> Trimmed(alias, Underscore)
    ensures Trimmed(alias, Underscore) <==> Trimmed(Canonical(table, alias), Underscore)
  {
    hide Canonical, IdentityOf, StripBy;
    CanonicalOfClean(table, alias);
    if Trimmed(alias, Underscore) {
      IdentityOfTrimmed(table, alias);
    } else {
      IdentityOfClean(table, alias);
      StripByTrims(alias, Underscore);
      CanonicalOfClean(table, StripBy(alias, Underscore));
    }
  }

  /** A name that does not carry its own identity belongs to an identity nobody carries. */
  lemma StrayName(table: AliasTable, alias: string)
    requires WellFormed(table) && Clean(alias)
    requires IdentityOf(table, alias) != Canonical(table, alias)
    ensures Canonical(table, alias) == alias
  {
    NameAgreesIff(table, alias);
    CanonicalOfClean(table, alias);
  }

  function StandardNaming(table: AliasTable): Naming {
    Naming((p, h) => Identity(table, p, h), OccurrenceAlias)
  }

  lemma NothingHasNoIdentity(table: AliasTable)
    requires WellFormed(table)
    ensures Identity(table, "", "") == ""
  {
    NormalizedLeafOfEmpty();
    hide NormalizedLeaf, Canonical, Clean, Identity, WellFormed;
    IdentityFromAlias(table, "", "");
  }

  /** The repository's naming scheme obeys the laws the archive is built on. */
  lemma StandardNamingLawful(table: AliasTable)
    requires WellFormed(table)
    ensures StandardNaming(table).Lawful()
  {
    hide NormalizedLeaf, Canonical, WellFormed, Clean, Identity, OccurrenceAlias;
    var n := StandardNaming(table);
    NothingHasNoIdentity(table);
    forall p, h
      ensures n.identity(p, h) == "" <==> n.alias(p, h) == ""
      ensures n.IdOf(n.IdOf(n.alias(p, h))) == n.IdOf(n.alias(p, h))
      ensures n.IdOf(n.alias(p, h)) != n.identity(p, h) ==> n.IdOf(n.identity(p, h)) != n.identity(p, h)
    {
      NamingLawAt(table, p, h);
    }
  }

  lemma NamingLawAt(table: AliasTable, p: string, h: string)
    requires WellFormed(table)
    ensures Identity(table, p, h) == "" <==> OccurrenceAlias(p, h) == ""
    ensures var id := IdentityOf(table, OccurrenceAlias(p, h)); IdentityOf(table, id) == id
    ensures IdentityOf(table, OccurrenceAlias(p, h)) != Identity(table, p, h)
            ==> IdentityOf(table, Identity(table, p, h)) != Identity(table, p, h)
  {
    IdentityFromAlias(table, p, h);
    var alias := OccurrenceAlias(p, h);
    IdentityIdempotent(table, alias);
    if IdentityOf(table, alias) != Canonical(table, alias) {
      StrayName(table, alias);
    }
  }

  /** The law is not the stronger one the planner takes for granted: a name may lose its identity.
      An occurrence's alias carries the occurrence's identity exactly when that identity neither
      begins nor ends with an underscore. */
  lemma AliasCarriesIdentityIff(table: AliasTable, p: string, h: string)
    requires WellFormed(table)
    ensures IdentityOf(table, OccurrenceAlias(p, h)) == Identity(table, p, h)
            <==> Trimmed(Identity(table, p, h), Underscore)
  {
    IdentityFromAlias(table, p, h);
    NameAgreesIff(table, OccurrenceAlias(p, h));
  }

  /** Every clean leaf that begins with an underscore and does not end with one is lost this way:
      the parameter `$leaf` has identity `leaf`, and its alias `leaf` has another identity. */
  lemma AliasLosesIdentity(table: AliasTable, leaf: string)
    requires WellFormed(table) && Clean(leaf)
    requires leaf != "" && leaf[0] == '_' && leaf[|leaf| - 1] != '_'
    ensures OccurrenceAlias(['$'] + leaf, "") == leaf
    ensures Identity(table, ['$'] + leaf, "") == leaf
    ensures IdentityOf(table, leaf) != leaf
  {
    DollarLeaf(leaf);
    IdentityFromAlias(table, ['$'] + leaf, "");
    CanonicalOfClean(table, leaf);
    NameAgreesIff(table, leaf);
  }

  lemma DollarLeaf(leaf: string)
    requires Clean(leaf) && leaf != "" && leaf[|leaf| - 1] != '_'
    ensures NormalizedLeaf(['$'] + leaf) == leaf
  {
    var s := ['$'] + leaf;
    CleanIsPlain(leaf);
    DollarPlain(s, leaf);
    RawLeafOfPlain(s);
    DollarSqueeze(s, leaf);
  }

  lemma DollarSqueeze(s: string, leaf: string)
    requires Clean(leaf) && leaf != "" && leaf[|leaf| - 1] != '_' && s == ['$'] + leaf && AllPlain(s)
    ensures Squeeze(s) == leaf
  {
    assert s[|s| - 1] == leaf[|leaf| - 1];
    StripByFixed(s, Underscore);
    SqueezeOfPlain(s, s);
    DollarFilter(s, leaf);
  }

  lemma DollarPlain(s: string, leaf: string)
    requires AllPlain(leaf) && leaf != "" && s == ['$'] + leaf
    ensures AllPlain(s) && s[|s| - 1] == leaf[|leaf| - 1]
  {
    assert forall i | 0 < i < |s| :: s[i] == leaf[i - 1];
  }

  lemma DollarFilter(s: string, leaf: string)
    requires Clean(leaf) && s == ['$'] + leaf
    ensures Filter(s, LeafChar) == leaf
  {
    assert s[1..] == leaf;
  }

  /** In the same way `leaf$` has the identity of a clean leaf that may end with an underscore. */
  lemma LeafDollar(leaf: string)
    requires Clean(leaf) && leaf != "" && leaf[0] != '_'
    ensures NormalizedLeaf(leaf + ['$']) == leaf
  {
    var s := leaf + ['$'];
    CleanIsPlain(leaf);
    PlainDollar(s, leaf);
    RawLeafOfPlain(s);
    StripByFixed(s, Underscore);
    SqueezeOfPlain(s, s);
    FilterDollar(leaf);
  }

  lemma PlainDollar(s: string, leaf: string)
    requires AllPlain(leaf) && leaf != "" && s == leaf + ['$']
    ensures AllPlain(s) && s[0] == leaf[0]
  {
    assert forall i | 0 <= i < |leaf| :: s[i] == leaf[i];
  }

  lemma {:induction false} FilterDollar(leaf: string)
    requires forall c | c in leaf :: LeafChar(c)
    ensures Filter(leaf + ['$'], LeafChar) == leaf
  {
    if leaf != "" {
      assert (leaf + ['$'])[1..] == leaf[1..] + ['$'];
      assert forall c | c in leaf[1..] :: c in leaf;
      FilterDollar(leaf[1..]);
      assert leaf[0] in leaf;
      assert leaf == [leaf[0]] + leaf[1..];
    } else {
      assert leaf + ['$'] == ['$'];
      assert Filter("", LeafChar) == "";
    }
  }
}
