/** `analysis.infer_weak_relations` of `apiAnalysis/rule/analysis.py`: candidates from grouped
    parameter rows, upserted into the relation store one pair at a time. */
module WeakRelations {
  import opened Text
  import opened WeakScore
  import opened Wrappers

  // ------------------------------------------------------------------ grouping

  /** A `parameterData` row; its values are already normalized and freed of low-information ones. */
  datatype Parameter = Parameter(name: string, reqPids: seq<int>, resPids: seq<int>, reqValues: set<string>, resValues: set<string>)

  predicate AllDigits(s: string) {
    s != "" && forall c | c in s :: '0' <= c <= '9'
  }

  /** `_leaf_param_name`: the last dotted segment, with its parent when it is a list index. */
  function LeafName(name: string): string {
    var leaf := LastSegment(name, '.');
    if AllDigits(leaf) && |leaf| < |name| then LastSegment(name[..|name| - |leaf| - 1], '.') + "." + leaf else leaf
  }

  datatype Group = Group(reqPids: set<int>, resPids: set<int>, reqValues: set<string>, resValues: set<string>)

  const EMPTY := Group({}, {}, {}, {})

  function Join(g: Group, p: Parameter): Group {
    Group(g.reqPids + (set i | i in p.reqPids), g.resPids + (set i | i in p.resPids), g.reqValues + p.reqValues, g.resValues + p.resValues)
  }

  function GroupOf(groups: map<string, Group>, leaf: string): Group {
    if leaf in groups then groups[leaf] else EMPTY
  }

  ghost predicate Belongs(p: Parameter, leaf: string) {
    p.name != "" && LeafName(p.name) == leaf != ""
  }

  /** What the first `n` rows contribute to a leaf. */
  ghost function Collected(rows: seq<Parameter>, n: nat, leaf: string): Group
    requires n <= |rows|
  {
    if n == 0 then EMPTY
    else if Belongs(rows[n - 1], leaf) then Join(Collected(rows, n - 1, leaf), rows[n - 1])
    else Collected(rows, n - 1, leaf)
  }

  /** The grouping loop: each leaf collects the ids and values of all rows that share it. */
  method GroupParameters(rows: seq<Parameter>) returns (groups: map<string, Group>)
    ensures forall leaf :: leaf in groups <==> exists i :: 0 <= i < |rows| && Belongs(rows[i], leaf)
    ensures forall leaf | leaf in groups :: groups[leaf] == Collected(rows, |rows|, leaf)
  {
    hide LeafName, Join;
    groups := map[];
    for n := 0 to |rows|
      invariant forall leaf :: leaf in groups <==> exists i :: 0 <= i < n && Belongs(rows[i], leaf)
      invariant forall leaf :: GroupOf(groups, leaf) == Collected(rows, n, leaf)
    {
      if rows[n].name != "" {
        var leaf := LeafName(rows[n].name);
        if leaf != "" {
          groups := groups[leaf := Join(GroupOf(groups, leaf), rows[n])];
        }
      }
    }
  }

  /** Membership in a collected group, row by row. */
  lemma {:induction false} CollectedMeaning(rows: seq<Parameter>, n: nat, leaf: string, pid: int, v: string)
    requires n <= |rows|
    ensures var g := Collected(rows, n, leaf);
            && (pid in g.reqPids <==> exists i :: 0 <= i < n && Belongs(rows[i], leaf) && pid in rows[i].reqPids)
            && (pid in g.resPids <==> exists i :: 0 <= i < n && Belongs(rows[i], leaf) && pid in rows[i].resPids)
            && (v in g.reqValues <==> exists i :: 0 <= i < n && Belongs(rows[i], leaf) && v in rows[i].reqValues)
            && (v in g.resValues <==> exists i :: 0 <= i < n && Belongs(rows[i], leaf) && v in rows[i].resValues)
  {
    hide Belongs;
    if n > 0 {
      CollectedMeaning(rows, n - 1, leaf, pid, v);
      var p, before, now := rows[n - 1], Collected(rows, n - 1, leaf), Collected(rows, n, leaf);
      assert now == if Belongs(p, leaf) then Join(before, p) else before;
      assert pid in now.reqPids <==> pid in before.reqPids || (Belongs(p, leaf) && pid in p.reqPids);
      assert pid in now.resPids <==> pid in before.resPids || (Belongs(p, leaf) && pid in p.resPids);
    }
  }

  // ------------------------------------------------------------------ candidates

  datatype Config = Config(valueIntersection: bool, minOverlap: int, nameFallback: bool, fallbackNames: set<string>, minScore: real)

  /** The smallest overlap that counts; values below one are raised to one. */
  function MinOverlap(c: Config): nat {
    if c.minOverlap < 1 then 1 else c.minOverlap
  }

  datatype Key = Key(leaf: string, req: int, res: int)

  datatype Candidate = Candidate(rule: string, score: real, codes: seq<string>)

  /** The candidate of any pair of paths of a group, if one of the two rules applies. */
  function CandidateOf(c: Config, leaf: string, g: Group): Option<Candidate> {
    var overlap := |g.reqValues * g.resValues|;
    var fallback := c.nameFallback && (c.fallbackNames == {} || Lower(leaf) in c.fallbackNames);
    if c.valueIntersection && overlap >= MinOverlap(c) then
      Some(Candidate("value_intersection_leaf", Score(leaf, overlap, |g.reqValues|, |g.resValues|, false),
                     Codes(leaf, overlap, |g.reqValues|, |g.resValues|, false)))
    else if fallback then
      Some(Candidate("name_fallback_leaf", Score(leaf, overlap, |g.reqValues|, |g.resValues|, true),
                     Codes(leaf, overlap, |g.reqValues|, |g.resValues|, true)))
    else None
  }

  /** The scope restriction: one end of the pair must be selected. */
  predicate Selected(scope: Option<set<int>>, k: Key) {
    scope.None? || k.req in scope.value || k.res in scope.value
  }

  predicate IsPair(groups: map<string, Group>, k: Key) {
    k.leaf in groups && k.req in groups[k.leaf].reqPids && k.res in groups[k.leaf].resPids && k.req != k.res
  }

  predicate IsCandidate(c: Config, groups: map<string, Group>, k: Key) {
    IsPair(groups, k) && CandidateOf(c, k.leaf, groups[k.leaf]).Some?
  }

  predicate Accepted(c: Config, groups: map<string, Group>, k: Key) {
    IsCandidate(c, groups, k) && CandidateOf(c, k.leaf, groups[k.leaf]).value.score >= c.minScore
  }

  // ------------------------------------------------------------------ the store

  datatype Relation = Relation(score: Option<real>, codes: seq<string>, rule: string, relation: string)

  function ScoreOr0(r: Relation): real {
    if r.score.Some? then r.score.value else 0.0
  }

  /** Create the relation, or keep the higher score and refresh its reasons. */
  function Upsert(prior: Option<Relation>, c: Candidate): Relation {
    if prior.None? then Relation(Some(c.score), c.codes, c.rule, "weak")
    else
      var r := prior.value;
      r.(score := if ScoreOr0(r) < c.score then Some(c.score) else r.score, codes := if c.codes != [] then c.codes else r.codes)
  }

  type Relations = map<Key, Relation>

  function At(store: Relations, k: Key): Option<Relation> {
    if k in store then Some(store[k]) else None
  }

  /** The store after the accepted ones among a set of pairs have been upserted, in any order. */
  ghost function Merged(c: Config, groups: map<string, Group>, pairs: set<Key>, store: Relations): Relations {
    map k | k in store.Keys + (set p | p in pairs && Accepted(c, groups, p)) ::
      if k in pairs && Accepted(c, groups, k) then Upsert(At(store, k), CandidateOf(c, k.leaf, groups[k.leaf]).value) else store[k]
  }

  lemma UpsertIdempotent(prior: Option<Relation>, c: Candidate)
    ensures Upsert(Some(Upsert(prior, c)), c) == Upsert(prior, c)
  {
  }

  /** Upserting in two rounds, even with pairs in common, is upserting once. */
  lemma MergeTwice(c: Config, groups: map<string, Group>, a: set<Key>, b: set<Key>, store: Relations)
    ensures Merged(c, groups, b, Merged(c, groups, a, store)) == Merged(c, groups, a + b, store)
  {
    var once := Merged(c, groups, a, store);
    var twice, whole := Merged(c, groups, b, once), Merged(c, groups, a + b, store);
    hide CandidateOf, Upsert, Merged, Accepted;
    forall k ensures At(twice, k) == At(whole, k) {
      MergedAt(c, groups, a, store, k);
      MergedAt(c, groups, b, once, k);
      MergedAt(c, groups, a + b, store, k);
      if k in a && k in b && Accepted(c, groups, k) {
        UpsertIdempotent(At(store, k), Offered(c, groups, k));
      }
    }
    SameAt(twice, whole);
  }

  ghost function Offered(c: Config, groups: map<string, Group>, k: Key): Candidate
    requires Accepted(c, groups, k)
  {
    CandidateOf(c, k.leaf, groups[k.leaf]).value
  }

  lemma MergedAt(c: Config, groups: map<string, Group>, pairs: set<Key>, store: Relations, k: Key)
    ensures At(Merged(c, groups, pairs, store), k)
            == if k in pairs && Accepted(c, groups, k) then Some(Upsert(At(store, k), Offered(c, groups, k))) else At(store, k)
  {
    hide CandidateOf, Upsert;
  }

  lemma SameAt(r: Relations, s: Relations)
    requires forall k :: At(r, k) == At(s, k)
    ensures r == s
  {
    forall k ensures k in r <==> k in s {
      assert At(r, k) == At(s, k);
    }
    forall k | k in r ensures r[k] == s[k] {
      assert At(r, k) == At(s, k);
    }
  }

  /** The pairs a run looks at. */
  ghost function Pairs(groups: map<string, Group>, scope: Option<set<int>>): set<Key> {
    set leaf, q, s | leaf in groups && q in groups[leaf].reqPids && s in groups[leaf].resPids
                     && IsPair(groups, Key(leaf, q, s)) && Selected(scope, Key(leaf, q, s)) :: Key(leaf, q, s)
  }

  lemma PairsMember(groups: map<string, Group>, scope: Option<set<int>>, k: Key)
    ensures k in Pairs(groups, scope) <==> IsPair(groups, k) && Selected(scope, k)
  {
    assert k == Key(k.leaf, k.req, k.res);
  }

  ghost function Candidates(c: Config, groups: map<string, Group>, pairs: set<Key>): set<Key> {
    set k | k in pairs && IsCandidate(c, groups, k)
  }

  ghost function AcceptedOf(c: Config, groups: map<string, Group>, pairs: set<Key>): set<Key> {
    set k | k in pairs && Accepted(c, groups, k)
  }

  lemma CountOne(c: Config, groups: map<string, Group>, done: set<Key>, pairs: set<Key>, k: Key, seen: bool, ok: bool)
    requires k !in done
    requires seen <==> k in pairs && IsCandidate(c, groups, k)
    requires ok <==> k in pairs && Accepted(c, groups, k)
    ensures |Candidates(c, groups, done + pairs * {k})| == |Candidates(c, groups, done)| + if seen then 1 else 0
    ensures |AcceptedOf(c, groups, done + pairs * {k})| == |AcceptedOf(c, groups, done)| + if ok then 1 else 0
  {
    hide IsCandidate, Accepted, Candidates, AcceptedOf;
    if k in pairs {
      assert done + pairs * {k} == done + {k};
      OneMoreCandidate(c, groups, done, k);
      OneMoreAccepted(c, groups, done, k);
    } else {
      assert done + pairs * {k} == done;
    }
  }

  lemma OneMoreCandidate(c: Config, groups: map<string, Group>, done: set<Key>, k: Key)
    requires k !in done
    ensures k !in Candidates(c, groups, done)
    ensures Candidates(c, groups, done + {k}) == Candidates(c, groups, done) + if IsCandidate(c, groups, k) then {k} else {}
  {
    hide IsCandidate;
  }

  lemma OneMoreAccepted(c: Config, groups: map<string, Group>, done: set<Key>, k: Key)
    requires k !in done
    ensures k !in AcceptedOf(c, groups, done)
    ensures AcceptedOf(c, groups, done + {k}) == AcceptedOf(c, groups, done) + if Accepted(c, groups, k) then {k} else {}
  {
    hide Accepted;
  }

  lemma PairsMembers(groups: map<string, Group>, scope: Option<set<int>>)
    ensures forall k :: k in Pairs(groups, scope) <==> IsPair(groups, k) && Selected(scope, k)
  {
    forall k ensures k in Pairs(groups, scope) <==> IsPair(groups, k) && Selected(scope, k) {
      PairsMember(groups, scope, k);
    }
  }

  datatype Summary = Summary(total: nat, accepted: nat, skipped: nat)

  /** What holds between two pairs: the pairs done so far are merged and counted. */
  ghost predicate Progress(c: Config, groups: map<string, Group>, pairs: set<Key>, done: set<Key>, before: Relations,
                           now: Relations, summary: Summary)
  {
    && done <= pairs && now == Merged(c, groups, done, before)
    && summary.total == |Candidates(c, groups, done)| && summary.accepted == |AcceptedOf(c, groups, done)|
    && summary.total == summary.accepted + summary.skipped
  }

  lemma SomeMember<T>(s: set<T>) returns (x: T)
    requires s != {}
    ensures x in s
  {
    x :| x in s;
  }

  lemma Nothing(c: Config, groups: map<string, Group>, store: Relations)
    ensures Merged(c, groups, {}, store) == store && Candidates(c, groups, {}) == {} && AcceptedOf(c, groups, {}) == {}
  {
  }

  class RelationStore {
    var relations: Relations

    constructor (initial: Relations)
      ensures relations == initial
    {
      relations := initial;
    }

    /** The body of the innermost loop: one pair of paths of one group. */
    method InferPair(c: Config, groups: map<string, Group>, scope: Option<set<int>>, k: Key) returns (seen: bool, accepted: bool)
      requires k.leaf in groups && k.req in groups[k.leaf].reqPids && k.res in groups[k.leaf].resPids
      modifies this
      ensures relations == Merged(c, groups, Pairs(groups, scope) * {k}, old(relations))
      ensures accepted ==> seen
      ensures seen <==> k in Pairs(groups, scope) && IsCandidate(c, groups, k)
      ensures accepted <==> k in Pairs(groups, scope) && Accepted(c, groups, k)
    {
      hide CandidateOf, Upsert, Pairs;
      PairsMember(groups, scope, k);
      if k.req == k.res || !Selected(scope, k) {
        return false, false;
      }
      var candidate := CandidateOf(c, k.leaf, groups[k.leaf]);
      if candidate.None? {
        return false, false;
      }
      if candidate.value.score < c.minScore {
        return true, false;
      }
      relations := relations[k := Upsert(At(relations, k), candidate.value)];
      return true, true;
    }

    /** `infer_weak_relations`, over groups and an optional set of selected path ids. */
    method Infer(c: Config, groups: map<string, Group>, scope: Option<set<int>>) returns (summary: Summary)
      modifies this
      ensures relations == Merged(c, groups, Pairs(groups, scope), old(relations))
      ensures summary.total == summary.accepted + summary.skipped
      ensures summary.accepted == |AcceptedOf(c, groups, Pairs(groups, scope))|
      ensures summary.total == |Candidates(c, groups, Pairs(groups, scope))|
    {
      hide CandidateOf, Accepted, IsCandidate, Pairs, Merged, Candidates, AcceptedOf;
      summary := Summary(0, 0, 0);
      ghost var pairs := Pairs(groups, scope);
      PairsMembers(groups, scope);
      ghost var done: set<Key> := {};
      Nothing(c, groups, relations);
      var leaves := groups.Keys;
      while leaves != {}
        invariant leaves <= groups.Keys
        invariant Progress(c, groups, pairs, done, old(relations), relations, summary)
        invariant forall k | k in pairs :: k in done <==> k.leaf !in leaves
      {
        var leaf :| leaf in leaves;
        leaves := leaves - {leaf};
        ghost var atLeaf := done;
        var reqs := groups[leaf].reqPids;
        while reqs != {}
          invariant reqs <= groups[leaf].reqPids
          invariant Progress(c, groups, pairs, done, old(relations), relations, summary)
          invariant forall k | k in pairs :: k in done <==> k in atLeaf || (k.leaf == leaf && k.req !in reqs)
        {
          ghost var anyReq := SomeMember(reqs);
          var req :| req in reqs;
          reqs := reqs - {req};
          ghost var atReq := done;
          var ress := groups[leaf].resPids;
          while ress != {}
            invariant ress <= groups[leaf].resPids
            invariant Progress(c, groups, pairs, done, old(relations), relations, summary)
            invariant forall k | k in pairs :: k in done <==> k in atReq || (k.leaf == leaf && k.req == req && k.res !in ress)
          {
            ghost var anyRes := SomeMember(ress);
            var res :| res in ress;
            ress := ress - {res};
            var k := Key(leaf, req, res);
            var seen, ok := InferPair(c, groups, scope, k);
            MergeTwice(c, groups, done, pairs * {k}, old(relations));
            CountOne(c, groups, done, pairs, k, seen, ok);
            done := done + pairs * {k};
            summary := Summary(summary.total + (if seen then 1 else 0), summary.accepted + (if ok then 1 else 0),
                               summary.skipped + if seen && !ok then 1 else 0);
          }
        }
      }
      assert done == pairs;
    }
  }

  // ------------------------------------------------------------------ incremental and batch runs

  /** The store after one run for each of a family of scopes. */
  ghost function InferAll(c: Config, groups: map<string, Group>, scopes: seq<set<int>>, store: Relations): Relations {
    if scopes == [] then store
    else Merged(c, groups, Pairs(groups, Some(scopes[|scopes| - 1])), InferAll(c, groups, scopes[..|scopes| - 1], store))
  }

  ghost function Looked(groups: map<string, Group>, scopes: seq<set<int>>): set<Key> {
    if scopes == [] then {} else Looked(groups, scopes[..|scopes| - 1]) + Pairs(groups, Some(scopes[|scopes| - 1]))
  }

  ghost predicate Reaches(scopes: seq<set<int>>, k: Key) {
    exists i | 0 <= i < |scopes| :: k.req in scopes[i] || k.res in scopes[i]
  }

  lemma {:induction false} InferAllIsOneMerge(c: Config, groups: map<string, Group>, scopes: seq<set<int>>, store: Relations)
    ensures InferAll(c, groups, scopes, store) == Merged(c, groups, Looked(groups, scopes), store)
  {
    hide Merged, Pairs;
    if scopes == [] {
      Nothing(c, groups, store);
    } else {
      InferAllIsOneMerge(c, groups, scopes[..|scopes| - 1], store);
      MergeTwice(c, groups, Looked(groups, scopes[..|scopes| - 1]), Pairs(groups, Some(scopes[|scopes| - 1])), store);
    }
  }

  lemma {:induction false} LookedMember(groups: map<string, Group>, scopes: seq<set<int>>, k: Key)
    ensures k in Looked(groups, scopes) <==> IsPair(groups, k) && Reaches(scopes, k)
  {
    hide Pairs, IsPair;
    if scopes != [] {
      var front, last := scopes[..|scopes| - 1], scopes[|scopes| - 1];
      LookedMember(groups, front, k);
      PairsMember(groups, Some(last), k);
      if Reaches(front, k) {
        var i :| 0 <= i < |front| && (k.req in front[i] || k.res in front[i]);
        assert scopes[i] == front[i];
      }
      if Reaches(scopes, k) {
        var i :| 0 <= i < |scopes| && (k.req in scopes[i] || k.res in scopes[i]);
        assert i < |front| ==> front[i] == scopes[i];
      }
    }
  }

  /** Only the accepted pairs of a set matter to the merge. */
  lemma MergeDependsOnAccepted(c: Config, groups: map<string, Group>, a: set<Key>, b: set<Key>, store: Relations)
    requires forall k | Accepted(c, groups, k) :: k in a <==> k in b
    ensures Merged(c, groups, a, store) == Merged(c, groups, b, store)
  {
    hide CandidateOf, Upsert;
    assert (set p | p in a && Accepted(c, groups, p)) == (set p | p in b && Accepted(c, groups, p));
  }

  ghost predicate ReachesAllAccepted(c: Config, groups: map<string, Group>, scopes: seq<set<int>>) {
    forall k | Accepted(c, groups, k) :: Reaches(scopes, k)
  }

  /** Incremental equals batch. Runs over any family of scopes leave the relation store exactly as one
      unscoped run would, as soon as every accepted pair has an end in some scope. */
  lemma IncrementalEqualsBatch(c: Config, groups: map<string, Group>, scopes: seq<set<int>>, store: Relations)
    requires ReachesAllAccepted(c, groups, scopes)
    ensures InferAll(c, groups, scopes, store) == Merged(c, groups, Pairs(groups, None), store)
  {
    hide Merged, Pairs, Looked, InferAll, CandidateOf;
    InferAllIsOneMerge(c, groups, scopes, store);
    forall k | Accepted(c, groups, k) ensures k in Looked(groups, scopes) <==> k in Pairs(groups, None) {
      LookedMember(groups, scopes, k);
      PairsMember(groups, None, k);
    }
    MergeDependsOnAccepted(c, groups, Looked(groups, scopes), Pairs(groups, None), store);
  }

  /** The store already says of the pair what a run would write: its score is no lower and its codes are the
      candidate's, if the candidate has any. */
  ghost predicate Settled(c: Config, groups: map<string, Group>, store: Relations, k: Key)
    requires Accepted(c, groups, k)
  {
    k in store && ScoreOr0(store[k]) >= Offered(c, groups, k).score
    && (Offered(c, groups, k).codes == [] || store[k].codes == Offered(c, groups, k).codes)
  }

  lemma SettledIff(c: Config, groups: map<string, Group>, store: Relations, k: Key)
    requires Accepted(c, groups, k)
    ensures Settled(c, groups, store, k) <==> At(store, k) == Some(Upsert(At(store, k), Offered(c, groups, k)))
  {
    hide Offered, Accepted;
  }

  /** Two merges into one store agree exactly if the accepted pairs in which they differ are settled there. */
  lemma MergesAgreeIff(c: Config, groups: map<string, Group>, less: set<Key>, more: set<Key>, store: Relations)
    requires less <= more
    ensures Merged(c, groups, less, store) == Merged(c, groups, more, store)
            <==> forall k | k in more && k !in less && Accepted(c, groups, k) :: Settled(c, groups, store, k)
  {
    hide Merged, Accepted, Settled, Upsert, Offered, At;
    var (a, b) := (Merged(c, groups, less, store), Merged(c, groups, more, store));
    forall k ensures At(a, k) == At(b, k) <==> (k in more && k !in less && Accepted(c, groups, k) ==> Settled(c, groups, store, k)) {
      MergedAt(c, groups, less, store, k);
      MergedAt(c, groups, more, store, k);
      if Accepted(c, groups, k) {
        SettledIff(c, groups, store, k);
      }
    }
    if forall k :: At(a, k) == At(b, k) {
      SameAt(a, b);
    }
  }

  /** Incremental equals batch, exactly and from any store: if and only if every accepted pair that no scope
      reaches is settled in the store already. */
  lemma IncrementalEqualsBatchIff(c: Config, groups: map<string, Group>, scopes: seq<set<int>>, store: Relations)
    ensures InferAll(c, groups, scopes, store) == Merged(c, groups, Pairs(groups, None), store)
            <==> forall k | Accepted(c, groups, k) && !Reaches(scopes, k) :: Settled(c, groups, store, k)
  {
    hide Merged, Pairs, Looked, InferAll, CandidateOf, Upsert, Reaches, Settled;
    InferAllIsOneMerge(c, groups, scopes, store);
    forall k ensures k in Pairs(groups, None) <==> IsPair(groups, k)
             ensures k in Looked(groups, scopes) <==> IsPair(groups, k) && Reaches(scopes, k)
    {
      LookedMember(groups, scopes, k);
      PairsMember(groups, None, k);
    }
    MergesAgreeIff(c, groups, Looked(groups, scopes), Pairs(groups, None), store);
  }

  /** From an empty store a family of scopes that misses an accepted pair falls short. */
  lemma IncrementalEqualsBatchFromEmpty(c: Config, groups: map<string, Group>, scopes: seq<set<int>>)
    ensures InferAll(c, groups, scopes, map[]) == Merged(c, groups, Pairs(groups, None), map[])
            <==> ReachesAllAccepted(c, groups, scopes)
  {
    hide Merged, Pairs, InferAll, Accepted, Reaches, Offered;
    IncrementalEqualsBatchIff(c, groups, scopes, map[]);
  }

  /** Scopes that together cover all request paths, or all response paths, reach every pair. */
  lemma CoveringScopesReach(c: Config, groups: map<string, Group>, scopes: seq<set<int>>)
    requires (forall leaf, pid | leaf in groups && pid in groups[leaf].reqPids :: exists i | 0 <= i < |scopes| :: pid in scopes[i])
             || (forall leaf, pid | leaf in groups && pid in groups[leaf].resPids :: exists i | 0 <= i < |scopes| :: pid in scopes[i])
    ensures ReachesAllAccepted(c, groups, scopes)
  {
    hide CandidateOf;
    forall k | Accepted(c, groups, k) ensures Reaches(scopes, k) {
      assert k.leaf in groups && k.req in groups[k.leaf].reqPids && k.res in groups[k.leaf].resPids;
    }
  }

  /** What any run promises about single relations: no score decreases, nothing is removed, a created
      relation reaches the minimum, and a pair that was not accepted is left alone. */
  lemma RunsOnlyImprove(c: Config, groups: map<string, Group>, pairs: set<Key>, store: Relations, k: Key)
    ensures var after := Merged(c, groups, pairs, store);
            && (k in store ==> k in after && ScoreOr0(store[k]) <= ScoreOr0(after[k])
                               && after[k].rule == store[k].rule && after[k].relation == store[k].relation)
            && (k in after && k !in store ==> after[k].score.Some? && after[k].score.value >= c.minScore && Accepted(c, groups, k))
            && (k in after && !Accepted(c, groups, k) ==> k in store && after[k] == store[k])
            && (k in pairs && Accepted(c, groups, k) ==>
                  k in after && ScoreOr0(after[k]) >= CandidateOf(c, k.leaf, groups[k.leaf]).value.score)
  {
    hide CandidateOf;
  }
}
