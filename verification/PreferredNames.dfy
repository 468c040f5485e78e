/** `preferred_parameter_name` and the laws of a naming scheme, over any identity function. */
module PreferredNames {
  import opened Order

  /** How names are read: `identity(parameter, hint)` is `parameter_identity` and
      `alias(parameter, hint)` is `occurrence_alias`. */
  datatype Naming = Naming(identity: (string, string) -> string, alias: (string, string) -> string) {

    function IdOf(name: string): string {
      identity(name, "")
    }

    /** An occurrence with an identity has an alias; the identity of an alias is stable; and if an
        alias does not carry the identity of its occurrence, then that identity is not its own. */
    ghost predicate Lawful() {
      && IdOf("") == ""
      && (forall p, h :: identity(p, h) == "" <==> alias(p, h) == "")
      && (forall p, h :: IdOf(IdOf(alias(p, h))) == IdOf(alias(p, h)))
      && (forall p, h :: IdOf(alias(p, h)) != identity(p, h) ==> IdOf(identity(p, h)) != identity(p, h))
    }
  }

  /** The sort key of `preferred_parameter_name`, compared as Python compares tuples. */
  datatype Rank = Rank(count: nat, underscored: bool, exact: bool, length: nat, name: string)

  predicate RankLe(a: Rank, b: Rank) {
    if a.count != b.count then a.count < b.count
    else if a.underscored != b.underscored then b.underscored
    else if a.exact != b.exact then b.exact
    else if a.length != b.length then b.length < a.length
    else StrLe(a.name, b.name)
  }

  function RankOf(identity: string, aliases: multiset<string>, name: string): Rank {
    Rank(aliases[name], '_' in name, name == identity, |name|, name)
  }

  /** The best of a non-empty list; the first one wins a tie, as with Python's `max`. */
  function Best(identity: string, aliases: multiset<string>, names: seq<string>): (r: string)
    requires names != []
    ensures r in names
  {
    if |names| == 1 then names[0]
    else
      var best := Best(identity, aliases, names[..|names| - 1]);
      var last := names[|names| - 1];
      if RankLe(RankOf(identity, aliases, last), RankOf(identity, aliases, best)) then best else last
  }

  function Compatible(idOf: string -> string, identity: string, names: seq<string>): (r: seq<string>)
    ensures forall n :: n in r <==> n in names && idOf(n) == identity
  {
    if names == [] then []
    else
      var n := names[0];
      (if idOf(n) == identity then [n] else []) + Compatible(idOf, identity, names[1..])
  }

  /** `preferred_parameter_name`; `aliases` lists the alias of every occurrence. */
  function PreferredName(idOf: string -> string, identity: string, aliases: seq<string>): string {
    if aliases == [] then identity
    else
      var compatible := Compatible(idOf, identity, aliases);
      Best(identity, multiset(aliases), if compatible != [] then compatible else aliases)
  }

  lemma RankLeTransitive(a: Rank, b: Rank, c: Rank)
    requires RankLe(a, b) && RankLe(b, c)
    ensures RankLe(a, c)
  {
    StrLeOrder();
  }

  lemma RankLeTotal(a: Rank, b: Rank)
    ensures RankLe(a, b) || RankLe(b, a)
  {
    StrLeOrder();
  }

  lemma {:induction false} BestIsMaximal(identity: string, aliases: multiset<string>, names: seq<string>)
    requires names != []
    ensures forall n | n in names ::
              RankLe(RankOf(identity, aliases, n), RankOf(identity, aliases, Best(identity, aliases, names)))
  {
    var front, last := names[..|names| - 1], names[|names| - 1];
    var key := n => RankOf(identity, aliases, n);
    RankLeTotal(key(last), key(last));
    if |names| > 1 {
      BestIsMaximal(identity, aliases, front);
      var prior, best := Best(identity, aliases, front), Best(identity, aliases, names);
      RankLeTotal(key(prior), key(last));
      forall n | n in names ensures RankLe(key(n), key(best)) {
        if n in front {
          RankLeTransitive(key(n), key(prior), key(best));
        } else {
          assert n == last;
        }
      }
    }
  }

  /** The display name carries the identity whenever any alias does, and among those it is the
      most frequent, then the underscored, then the exact, then the shortest. */
  lemma PreferredNameMeaning(idOf: string -> string, identity: string, aliases: seq<string>)
    requires aliases != []
    ensures var p := PreferredName(idOf, identity, aliases);
            && p in aliases
            && ((exists a | a in aliases :: idOf(a) == identity) ==> idOf(p) == identity)
            && forall a | a in aliases && (idOf(p) == identity ==> idOf(a) == identity) ::
                 RankLe(RankOf(identity, multiset(aliases), a), RankOf(identity, multiset(aliases), p))
  {
    var compatible := Compatible(idOf, identity, aliases);
    var pool := if compatible != [] then compatible else aliases;
    BestIsMaximal(identity, multiset(aliases), pool);
    var p := PreferredName(idOf, identity, aliases);
    if compatible == [] {
      assert forall a | a in aliases :: a !in compatible;
    } else {
      assert compatible[0] in compatible;
      assert p in compatible;
    }
  }
}
