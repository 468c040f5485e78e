/** The graph builders of `apiAnalysis/rule/p1_rules.py`: parent-child chains of endpoints and relations
    between principals, both under a budget that raises instead of truncating. */
module PairFacts {
  import opened Order
  import opened Wrappers

  /** `BudgetExceeded` is the protocol error of the builders. */
  datatype Result<+T> = Facts(facts: T) | BudgetExceeded

  /** A result that outgrows its budget raises; an empty one never does. */
  function Budgeted<T>(facts: seq<T>, budget: int): Result<seq<T>> {
    if facts != [] && |facts| > budget then BudgetExceeded else Facts(facts)
  }

  // ------------------------------------------------------------------ resource chains

  /** An endpoint with the normalised segments of its path template. */
  datatype Endpoint = Endpoint(id: string, project: string, env: string, segments: seq<string>)

  datatype Chain = Chain(project: string, env: string, parent: string, child: string, parentFamily: string, childFamily: string, kind: string)

  const VERBS := {"create", "update", "delete", "detail", "list", "search"}

  function JoinSegments(segments: seq<string>): string {
    if segments == [] then "" else if |segments| == 1 then segments[0] else segments[0] + "/" + JoinSegments(segments[1..])
  }

  /** `_family`. */
  function Family(segments: seq<string>): string {
    var base := if segments != [] && segments[|segments| - 1] == "{}" then segments[..|segments| - 1] else segments;
    "/" + JoinSegments(if base != [] && base[|base| - 1] in VERBS then base[..|base| - 1] else base)
  }

  /** Shallow paths first, then by id. */
  predicate DepthLe(a: Endpoint, b: Endpoint) {
    |a.segments| < |b.segments| || (|a.segments| == |b.segments| && StrLe(a.id, b.id))
  }

  /** One or two segments more, below the same path. */
  predicate Below(child: Endpoint, parent: Endpoint) {
    parent.id != child.id && parent.segments <= child.segments && |parent.segments| < |child.segments| <= |parent.segments| + 2
  }

  function ChainOf(parent: Endpoint, child: Endpoint): Chain {
    Chain(parent.project, parent.env, parent.id, child.id, Family(parent.segments), Family(child.segments), "endpoint_parent_child")
  }

  function ChainsFrom(parent: Endpoint, children: seq<Endpoint>): seq<Chain> {
    if children == [] then []
    else
      var child := children[|children| - 1];
      ChainsFrom(parent, children[..|children| - 1]) + if Below(child, parent) then [ChainOf(parent, child)] else []
  }

  function AllChains(parents: seq<Endpoint>, children: seq<Endpoint>): seq<Chain> {
    if parents == [] then []
    else AllChains(parents[..|parents| - 1], children) + ChainsFrom(parents[|parents| - 1], children)
  }

  /** Some facts, and no more than the budget if there are any. */
  ghost predicate Within<T>(facts: seq<T>, budget: int) {
    facts == [] || |facts| <= budget
  }

  /** The inner loop of `build_resource_chain_facts`; `over` is the raise. */
  method AddChildren(parent: Endpoint, ordered: seq<Endpoint>, facts: seq<Chain>, budget: int) returns (all: seq<Chain>, over: bool)
    requires Within(facts, budget)
    ensures over <==> !Within(facts + ChainsFrom(parent, ordered), budget)
    ensures !over ==> all == facts + ChainsFrom(parent, ordered)
  {
    hide ChainOf;
    all, over := facts, false;
    for j := 0 to |ordered|
      invariant all == facts + ChainsFrom(parent, ordered[..j]) && Within(all, budget)
    {
      assert ordered[..j + 1][..j] == ordered[..j];
      var child := ordered[j];
      if parent.id == child.id || |child.segments| <= |parent.segments| {
        continue;
      }
      if child.segments[..|parent.segments|] != parent.segments {
        continue;
      }
      if |child.segments| - |parent.segments| > 2 {
        continue;
      }
      all := all + [ChainOf(parent, child)];
      if |all| > budget {
        ChainsGrow(parent, ordered, j + 1);
        over := true;
        return;
      }
    }
    assert ordered[..|ordered|] == ordered;
  }

  lemma NoChains(endpoints: seq<Endpoint>)
    ensures AllChains(endpoints[..0], endpoints) == []
  {
  }

  lemma AllChainsStep(endpoints: seq<Endpoint>, i: nat)
    requires i < |endpoints|
    ensures AllChains(endpoints[..i + 1], endpoints) == AllChains(endpoints[..i], endpoints) + ChainsFrom(endpoints[i], endpoints)
  {
    hide ChainsFrom;
    assert endpoints[..i + 1][..i] == endpoints[..i];
  }

  /** `build_resource_chain_facts`. */
  method BuildChains(endpoints: seq<Endpoint>, budget: int) returns (r: Result<seq<Chain>>)
    ensures var ordered := Sort(endpoints, DepthLe); r == Budgeted(AllChains(ordered, ordered), budget)
  {
    hide ChainsFrom, AllChains, Sort;
    var ordered := Sort(endpoints, DepthLe);
    var facts: seq<Chain> := [];
    NoChains(ordered);
    for i := 0 to |ordered|
      invariant facts == AllChains(ordered[..i], ordered) && Within(facts, budget)
    {
      AllChainsStep(ordered, i);
      var over;
      facts, over := AddChildren(ordered[i], ordered, facts, budget);
      AllChainsGrow(ordered, ordered, i + 1);
      if over {
        return BudgetExceeded;
      }
    }
    assert ordered[..|ordered|] == ordered;
    r := Facts(facts);
  }

  lemma {:induction false} ChainsGrow(parent: Endpoint, children: seq<Endpoint>, j: nat)
    requires j <= |children|
    ensures |ChainsFrom(parent, children[..j])| <= |ChainsFrom(parent, children)|
  {
    if j < |children| {
      ChainsGrow(parent, children[..|children| - 1], j);
      assert children[..|children| - 1][..j] == children[..j];
    } else {
      assert children[..j] == children;
    }
  }

  lemma {:induction false} AllChainsGrow(parents: seq<Endpoint>, children: seq<Endpoint>, i: nat)
    requires i <= |parents|
    ensures |AllChains(parents[..i], children)| <= |AllChains(parents, children)|
  {
    if i < |parents| {
      AllChainsGrow(parents[..|parents| - 1], children, i);
      assert parents[..|parents| - 1][..i] == parents[..i];
    } else {
      assert parents[..i] == parents;
    }
  }

  // ------------------------------------------------------------------ what the chains are

  ghost predicate IsChainFrom(p: Endpoint, children: seq<Endpoint>, f: Chain) {
    exists c :: c in children && Below(c, p) && f == ChainOf(p, c)
  }

  lemma {:induction false} ChainsFromMeaning(parent: Endpoint, children: seq<Endpoint>, f: Chain)
    ensures f in ChainsFrom(parent, children) <==> IsChainFrom(parent, children, f)
  {
    if children != [] {
      var front, last := children[..|children| - 1], children[|children| - 1];
      ChainsFromMeaning(parent, front, f);
      assert children == front + [last];
      assert last in children;
      hide Below, ChainOf;
    }
  }

  ghost predicate IsChain(endpoints: seq<Endpoint>, f: Chain) {
    exists p, c :: p in endpoints && c in endpoints && Below(c, p) && f == ChainOf(p, c)
  }

  lemma {:induction false} AllChainsMeaning(parents: seq<Endpoint>, children: seq<Endpoint>, f: Chain)
    ensures f in AllChains(parents, children) <==> exists p :: p in parents && IsChainFrom(p, children, f)
  {
    if parents != [] {
      var front, last := parents[..|parents| - 1], parents[|parents| - 1];
      hide IsChainFrom, ChainsFrom;
      AllChainsMeaning(front, children, f);
      ChainsFromMeaning(last, children, f);
      assert AllChains(parents, children) == AllChains(front, children) + ChainsFrom(last, children);
      hide AllChains;
      assert parents == front + [last];
      assert forall p :: p in parents <==> p in front || p == last;
    }
  }

  /** Exactly the qualifying pairs become facts. The project is not part of the test: a fact may link
      endpoints of two projects, and carries the parent's. */
  lemma ChainsAreTheQualifyingPairs(endpoints: seq<Endpoint>, f: Chain)
    ensures var ordered := Sort(endpoints, DepthLe); f in AllChains(ordered, ordered) <==> IsChain(endpoints, f)
  {
    var ordered := Sort(endpoints, DepthLe);
    SameElements(endpoints, ordered);
    AllChainsMeaning(ordered, ordered, f);
    hide Below, ChainOf;
  }

  lemma ChainAcrossProjects()
    ensures var p, c := Endpoint("e1", "shop", "", ["users"]), Endpoint("e2", "bank", "", ["users", "{}"]);
            IsChain([p, c], ChainOf(p, c)) && ChainOf(p, c).project != c.project
  {
    var p, c := Endpoint("e1", "shop", "", ["users"]), Endpoint("e2", "bank", "", ["users", "{}"]);
    assert Below(c, p);
    assert p in [p, c] && c in [p, c];
    assert "shop"[0] != "bank"[0];
  }

  ghost predicate DistinctIds(endpoints: seq<Endpoint>) {
    forall i, j | 0 <= i < j < |endpoints| :: endpoints[i].id != endpoints[j].id
  }

  /** The test `resource_chain.eligible.v1` of the rule engine holds of every built fact. */
  lemma ChainsAreEligible(endpoints: seq<Endpoint>, f: Chain)
    requires IsChain(endpoints, f)
    ensures f.parent != f.child && f.kind in {"endpoint_parent_child", "response_to_request"} && f.parentFamily != "" && f.childFamily != ""
  {
    var p, c :| p in endpoints && c in endpoints && Below(c, p) && f == ChainOf(p, c);
  }

  lemma IdDecides(endpoints: seq<Endpoint>, a: Endpoint, b: Endpoint)
    requires DistinctIds(endpoints) && a in endpoints && b in endpoints && a.id == b.id
    ensures a == b
  {
    var i :| 0 <= i < |endpoints| && endpoints[i] == a;
    var j :| 0 <= j < |endpoints| && endpoints[j] == b;
  }

  /** Endpoint `b` is linked below `a`. */
  ghost predicate Linked(endpoints: seq<Endpoint>, a: Endpoint, b: Endpoint) {
    exists f :: IsChain(endpoints, f) && f.parent == a.id && f.child == b.id
  }

  ghost predicate IsWalk(endpoints: seq<Endpoint>, walk: seq<Endpoint>) {
    walk != [] && (forall e | e in walk :: e in endpoints)
    && forall i | 0 <= i < |walk| - 1 :: Linked(endpoints, walk[i], walk[i + 1])
  }

  lemma LinkGoesDown(endpoints: seq<Endpoint>, a: Endpoint, b: Endpoint)
    requires DistinctIds(endpoints) && a in endpoints && b in endpoints && Linked(endpoints, a, b)
    ensures Below(b, a)
  {
    var f :| IsChain(endpoints, f) && f.parent == a.id && f.child == b.id;
    var p, c :| p in endpoints && c in endpoints && Below(c, p) && f == ChainOf(p, c);
    IdDecides(endpoints, p, a);
    IdDecides(endpoints, c, b);
  }

  /** The facts form a directed acyclic graph: along every walk the paths get longer, each below the one it
      started from. In particular no walk returns. */
  lemma {:induction false} ChainsAreAcyclic(endpoints: seq<Endpoint>, walk: seq<Endpoint>)
    requires DistinctIds(endpoints) && IsWalk(endpoints, walk)
    ensures walk[0].segments <= walk[|walk| - 1].segments
    ensures |walk[|walk| - 1].segments| >= |walk[0].segments| + |walk| - 1
    ensures |walk| > 1 ==> walk[0] != walk[|walk| - 1]
    decreases |walk|
  {
    if |walk| > 1 {
      var front := walk[..|walk| - 1];
      assert forall i | 0 <= i < |front| - 1 :: Linked(endpoints, front[i], front[i + 1]) by {
        forall i | 0 <= i < |front| - 1 ensures Linked(endpoints, front[i], front[i + 1]) {
          assert Linked(endpoints, walk[i], walk[i + 1]);
        }
      }
      ChainsAreAcyclic(endpoints, front);
      assert Linked(endpoints, walk[|walk| - 2], walk[|walk| - 2 + 1]);
      LinkGoesDown(endpoints, walk[|walk| - 2], walk[|walk| - 1]);
    }
  }

  /** No qualifying pair is emitted twice. */
  lemma EachPairOnce(endpoints: seq<Endpoint>)
    requires DistinctIds(endpoints)
    ensures var ordered := Sort(endpoints, DepthLe); NoRepeats(AllChains(ordered, ordered))
  {
    var ordered := Sort(endpoints, DepthLe);
    SameIds(endpoints, ordered);
    AllChainsOnce(ordered, ordered);
  }

  lemma SameIds(endpoints: seq<Endpoint>, other: seq<Endpoint>)
    requires DistinctIds(endpoints) && multiset(endpoints) == multiset(other)
    ensures DistinctIds(other)
  {
    SameElements(endpoints, other);
    forall i, j | 0 <= i < j < |other| ensures other[i].id != other[j].id {
      if other[i].id == other[j].id {
        IdDecides(endpoints, other[i], other[j]);
        Twice(other, i, j);
        CountDistinct(endpoints, other[i]);
      }
    }
  }

  lemma Twice<T>(s: seq<T>, i: nat, j: nat)
    requires i < j < |s| && s[i] == s[j]
    ensures multiset(s)[s[i]] >= 2
  {
    assert s == s[..j] + [s[j]] + s[j + 1..];
    assert s[..j][i] == s[i];
    assert s[i] in multiset(s[..j]);
  }

  lemma {:induction false} ChainsFromOnce(parent: Endpoint, children: seq<Endpoint>)
    requires DistinctIds(children)
    ensures NoRepeats(ChainsFrom(parent, children))
  {
    if children != [] {
      var front, last := children[..|children| - 1], children[|children| - 1];
      ChainsFromOnce(parent, front);
      ChainsFromMeaning(parent, front, ChainOf(parent, last));
      assert forall c | c in front :: c.id != last.id;
      assert forall f | f in ChainsFrom(parent, front) :: f != ChainOf(parent, last);
    }
  }

  lemma {:induction false} AllChainsOnce(parents: seq<Endpoint>, children: seq<Endpoint>)
    requires DistinctIds(parents) && DistinctIds(children)
    ensures NoRepeats(AllChains(parents, children))
  {
    if parents != [] {
      var front, last := parents[..|parents| - 1], parents[|parents| - 1];
      AllChainsOnce(front, children);
      ChainsFromOnce(last, children);
      forall f | f in ChainsFrom(last, children) ensures f !in AllChains(front, children) {
        ChainsFromMeaning(last, children, f);
        AllChainsMeaning(front, children, f);
        assert forall p | p in front :: p.id != last.id;
      }
      AppendOnce(AllChains(front, children), ChainsFrom(last, children));
    }
  }

  lemma AppendOnce<T>(a: seq<T>, b: seq<T>)
    requires NoRepeats(a) && NoRepeats(b) && forall x | x in b :: x !in a
    ensures NoRepeats(a + b)
  {
    forall i, j | 0 <= i < j < |a + b| ensures (a + b)[i] != (a + b)[j] {
      if i < |a| <= j {
        assert b[j - |a|] in b && a[i] in a;
      }
    }
  }

  /** With distinct ids the order in which endpoints are supplied does not matter. */
  lemma ChainsIgnoreInputOrder(endpoints: seq<Endpoint>, other: seq<Endpoint>)
    requires DistinctIds(endpoints) && multiset(endpoints) == multiset(other)
    ensures Sort(endpoints, DepthLe) == Sort(other, DepthLe)
  {
    StrLeOrder();
    assert Total(DepthLe);
    assert Transitive(DepthLe);
    assert Separates(DepthLe, endpoints) by {
      forall x, y | x in endpoints && y in endpoints && DepthLe(x, y) && DepthLe(y, x) ensures x == y {
        IdDecides(endpoints, x, y);
      }
    }
    SortOfPermutation(endpoints, other, DepthLe);
  }

  // ------------------------------------------------------------------ principals

  datatype Relation = SamePrincipal | SameProfile | SameScope | DifferentScope | HigherPrivilege | LowerPrivilege | Peer

  /** `rank` is the privilege rank, 0 if there is none. */
  datatype Principal = Principal(id: string, project: Option<string>, env: Option<string>, profile: Option<string>, scope: Option<string>, rank: int)

  datatype PairFact = PairFact(source: Principal, target: Principal, relation: Relation)

  predicate Truthy(s: Option<string>) { s.Some? && s.value != "" }

  /** `principal_pair_relations`. */
  function Relations(s: Principal, t: Principal): seq<Relation> {
    if s.id == t.id then [SamePrincipal]
    else
      (if Truthy(s.profile) && s.profile == t.profile then [SameProfile] else [])
      + (if Truthy(s.scope) && s.scope == t.scope then [SameScope] else if s.scope != t.scope then [DifferentScope] else [])
      + (if s.rank > t.rank then [HigherPrivilege] else if s.rank < t.rank then [LowerPrivilege] else [Peer])
  }

  function Converse(r: Relation): Relation {
    match r
    case HigherPrivilege => LowerPrivilege
    case LowerPrivilege => HigherPrivilege
    case _ => r
  }

  predicate PrincipalLe(a: Principal, b: Principal) { StrLe(a.id, b.id) }

  predicate SamePlace(s: Principal, t: Principal) { s.project == t.project && s.env == t.env }

  function FactsOf(s: Principal, t: Principal, relations: seq<Relation>): (r: seq<PairFact>)
    ensures |r| == |relations| && forall i | 0 <= i < |r| :: r[i] == PairFact(s, t, relations[i])
  {
    if relations == [] then [] else FactsOf(s, t, relations[..|relations| - 1]) + [PairFact(s, t, relations[|relations| - 1])]
  }

  function FactsFrom(s: Principal, targets: seq<Principal>): seq<PairFact> {
    if targets == [] then []
    else
      var t := targets[|targets| - 1];
      FactsFrom(s, targets[..|targets| - 1]) + if SamePlace(s, t) then FactsOf(s, t, Relations(s, t)) else []
  }

  function AllFacts(sources: seq<Principal>, targets: seq<Principal>): seq<PairFact> {
    if sources == [] then []
    else AllFacts(sources[..|sources| - 1], targets) + FactsFrom(sources[|sources| - 1], targets)
  }

  lemma {:induction false} FactsFromMeaning(s: Principal, targets: seq<Principal>, f: PairFact)
    ensures f in FactsFrom(s, targets) <==> f.source == s && f.target in targets && SamePlace(s, f.target) && f.relation in Relations(s, f.target)
  {
    if targets != [] {
      var front, last := targets[..|targets| - 1], targets[|targets| - 1];
      FactsFromMeaning(s, front, f);
      assert targets == front + [last];
      var own := FactsOf(s, last, Relations(s, last));
      assert f in own <==> f.source == s && f.target == last && f.relation in Relations(s, last) by {
        if f.source == s && f.target == last && f.relation in Relations(s, last) {
          var i :| 0 <= i < |Relations(s, last)| && Relations(s, last)[i] == f.relation;
          assert own[i] == f;
        }
      }
      hide Relations;
    }
  }

  /** Exactly the relations between two principals of one project and environment become facts. */
  lemma {:induction false} AllFactsMeaning(sources: seq<Principal>, targets: seq<Principal>, f: PairFact)
    ensures f in AllFacts(sources, targets)
            <==> f.source in sources && f.target in targets && SamePlace(f.source, f.target) && f.relation in Relations(f.source, f.target)
  {
    if sources != [] {
      var front, last := sources[..|sources| - 1], sources[|sources| - 1];
      AllFactsMeaning(front, targets, f);
      FactsFromMeaning(last, targets, f);
      assert sources == front + [last];
      hide Relations, SamePlace;
    }
  }

  /** Seen from the other side, each relation is its converse. */
  lemma RelationsConverse(s: Principal, t: Principal, r: Relation)
    ensures r in Relations(s, t) <==> Converse(r) in Relations(t, s)
  {
  }

  /** Between different principals there is exactly one privilege relation, and it is the comparison of the
      ranks; a scope relation is missing only when both scopes are missing or both empty. */
  lemma RelationsMeaning(s: Principal, t: Principal)
    requires s.id != t.id
    ensures var r := Relations(s, t);
            r != []
            && (HigherPrivilege in r <==> s.rank > t.rank) && (LowerPrivilege in r <==> s.rank < t.rank) && (Peer in r <==> s.rank == t.rank)
            && (SameScope in r <==> Truthy(s.scope) && s.scope == t.scope) && (DifferentScope in r <==> s.scope != t.scope)
            && (SameProfile in r <==> Truthy(s.profile) && s.profile == t.profile) && SamePrincipal !in r
  {
  }

  /** The facts are closed under converse: with a fact from source to target there is the converse fact
      from target to source. */
  lemma FactsClosedUnderConverse(principals: seq<Principal>, f: PairFact)
    ensures var ordered := Sort(principals, PrincipalLe);
            f in AllFacts(ordered, ordered) <==> PairFact(f.target, f.source, Converse(f.relation)) in AllFacts(ordered, ordered)
  {
    var ordered := Sort(principals, PrincipalLe);
    AllFactsMeaning(ordered, ordered, f);
    AllFactsMeaning(ordered, ordered, PairFact(f.target, f.source, Converse(f.relation)));
    RelationsConverse(f.source, f.target, f.relation);
    hide Relations;
  }

  /** The relations of one pair. */
  method AddRelations(s: Principal, t: Principal, relations: seq<Relation>, facts: seq<PairFact>, budget: int)
    returns (all: seq<PairFact>, over: bool)
    requires Within(facts, budget)
    ensures over <==> !Within(facts + FactsOf(s, t, relations), budget)
    ensures !over ==> all == facts + FactsOf(s, t, relations)
  {
    all, over := facts, false;
    for k := 0 to |relations|
      invariant all == facts + FactsOf(s, t, relations[..k]) && Within(all, budget)
    {
      assert relations[..k + 1][..k] == relations[..k];
      all := all + [PairFact(s, t, relations[k])];
      if |all| > budget {
        over := true;
        return;
      }
    }
    assert relations[..|relations|] == relations;
  }

  method AddTargets(s: Principal, ordered: seq<Principal>, facts: seq<PairFact>, budget: int) returns (all: seq<PairFact>, over: bool)
    requires Within(facts, budget)
    ensures over <==> !Within(facts + FactsFrom(s, ordered), budget)
    ensures !over ==> all == facts + FactsFrom(s, ordered)
  {
    hide Relations, FactsOf;
    all, over := facts, false;
    for j := 0 to |ordered|
      invariant all == facts + FactsFrom(s, ordered[..j]) && Within(all, budget)
    {
      assert ordered[..j + 1][..j] == ordered[..j];
      if s.project != ordered[j].project || s.env != ordered[j].env {
        continue;
      }
      FactsGrow(s, ordered, j + 1);
      all, over := AddRelations(s, ordered[j], Relations(s, ordered[j]), all, budget);
      if over {
        return;
      }
    }
    assert ordered[..|ordered|] == ordered;
  }

  lemma NoFacts(principals: seq<Principal>)
    ensures AllFacts(principals[..0], principals) == []
  {
  }

  lemma AllFactsStep(principals: seq<Principal>, i: nat)
    requires i < |principals|
    ensures AllFacts(principals[..i + 1], principals) == AllFacts(principals[..i], principals) + FactsFrom(principals[i], principals)
  {
    hide FactsFrom;
    assert principals[..i + 1][..i] == principals[..i];
  }

  /** `build_principal_pair_facts`. */
  method BuildPrincipalPairs(principals: seq<Principal>, budget: int) returns (r: Result<seq<PairFact>>)
    ensures var ordered := Sort(principals, PrincipalLe); r == Budgeted(AllFacts(ordered, ordered), budget)
  {
    hide FactsFrom, AllFacts, Sort;
    var ordered := Sort(principals, PrincipalLe);
    var facts: seq<PairFact> := [];
    NoFacts(ordered);
    for i := 0 to |ordered|
      invariant facts == AllFacts(ordered[..i], ordered) && Within(facts, budget)
    {
      AllFactsStep(ordered, i);
      var over;
      facts, over := AddTargets(ordered[i], ordered, facts, budget);
      AllFactsGrow(ordered, ordered, i + 1);
      if over {
        return BudgetExceeded;
      }
    }
    assert ordered[..|ordered|] == ordered;
    r := Facts(facts);
  }

  lemma {:induction false} FactsGrow(s: Principal, targets: seq<Principal>, j: nat)
    requires j <= |targets|
    ensures |FactsFrom(s, targets[..j])| <= |FactsFrom(s, targets)|
  {
    hide Relations;
    if j < |targets| {
      FactsGrow(s, targets[..|targets| - 1], j);
      assert targets[..|targets| - 1][..j] == targets[..j];
    } else {
      assert targets[..j] == targets;
    }
  }

  lemma {:induction false} AllFactsGrow(sources: seq<Principal>, targets: seq<Principal>, i: nat)
    requires i <= |sources|
    ensures |AllFacts(sources[..i], targets)| <= |AllFacts(sources, targets)|
  {
    if i < |sources| {
      AllFactsGrow(sources[..|sources| - 1], targets, i);
      assert sources[..|sources| - 1][..i] == sources[..i];
    } else {
      assert sources[..i] == sources;
    }
  }
}
