/** What an evaluation of the offline rule engine means, independently of its loops. */
module RuleEngineTheorems {
  import opened Order
  import opened RuleSpecs
  import opened RuleEngine
  import opened Wrappers

  // ------------------------------------------------------------------ the product

  /** The combinations are exactly the choices of one fact per input. */
  lemma {:induction false} ProductMembers(values: seq<seq<Fact>>, c: seq<Fact>)
    ensures c in Product(values) <==> |c| == |values| && forall i | 0 <= i < |c| :: c[i] in values[i]
  {
    if values != [] {
      SpreadMembers(values[0], Product(values[1..]));
      if c != [] {
        ProductMembers(values[1..], c[1..]);
        if |c| == |values| && c[0] in values[0] && forall i | 0 <= i < |c[1..]| :: c[1..][i] in values[1..][i] {
          forall i | 0 <= i < |c| ensures c[i] in values[i] {
            if i > 0 {
              assert c[1..][i - 1] in values[1..][i - 1];
            }
          }
        }
      }
    }
  }

  function Sizes(values: seq<seq<Fact>>): nat {
    if values == [] then 1 else |values[0]| * Sizes(values[1..])
  }

  lemma {:induction false} SpreadSize(xs: seq<Fact>, rows: seq<seq<Fact>>)
    ensures |Spread(xs, rows)| == |xs| * |rows|
  {
    if xs != [] {
      SpreadSize(xs[1..], rows);
    }
  }

  lemma {:induction false} ProductSize(values: seq<seq<Fact>>)
    ensures |Product(values)| == Sizes(values)
  {
    if values != [] {
      ProductSize(values[1..]);
      SpreadSize(values[0], Product(values[1..]));
    }
  }

  /** Lexicographic order of combinations by fact id. */
  ghost predicate LexLess(c: seq<Fact>, d: seq<Fact>) {
    c != [] && d != []
    && if c[0].factId == d[0].factId then LexLess(c[1..], d[1..]) else StrLe(c[0].factId, d[0].factId)
  }

  ghost predicate Increasing(rows: seq<seq<Fact>>) {
    forall i, j | 0 <= i < j < |rows| :: LexLess(rows[i], rows[j])
  }

  ghost predicate DistinctIds(xs: seq<Fact>) {
    forall i, j | 0 <= i < j < |xs| :: xs[i].factId != xs[j].factId
  }

  lemma {:induction false} SpreadIncreasing(xs: seq<Fact>, rows: seq<seq<Fact>>)
    requires Sorted(xs, FactLe) && DistinctIds(xs) && Increasing(rows)
    ensures Increasing(Spread(xs, rows))
  {
    if xs != [] {
      SpreadIncreasing(xs[1..], rows);
      var first, rest := Prepend(xs[0], rows), Spread(xs[1..], rows);
      SpreadMembers(xs[1..], rows);
      forall i, j | 0 <= i < j < |first + rest| ensures LexLess((first + rest)[i], (first + rest)[j]) {
        if j < |first| {
          assert LexLess(rows[i], rows[j]);
          assert first[i][1..] == rows[i] && first[j][1..] == rows[j];
        } else if i < |first| {
          var d := rest[j - |first|];
          assert d in rest;
          var k :| 0 <= k < |xs[1..]| && xs[1..][k] == d[0];
          assert FactLe(xs[0], xs[k + 1]);
          assert xs[0].factId != xs[k + 1].factId;
        }
      }
    }
  }

  /** With distinct fact ids per input, the scan visits the combinations in strict lexicographic order. */
  lemma {:induction false} ProductIncreasing(values: seq<seq<Fact>>)
    requires forall i | 0 <= i < |values| :: Sorted(values[i], FactLe) && DistinctIds(values[i])
    ensures Increasing(Product(values))
  {
    if values != [] {
      ProductIncreasing(values[1..]);
      SpreadIncreasing(values[0], Product(values[1..]));
    }
  }

  // ------------------------------------------------------------------ one combination

  ghost predicate AllMatch(context: Context, predicates: seq<(PredicateCall, PredicateDef)>) {
    forall i | 0 <= i < |predicates| :: ResultOf(context, predicates[i]).matched
  }

  /** A combination qualifies exactly when it fits the types, passes the scope, satisfies every hard
      predicate and has all its feature values in range; its score is the clamped weighted sum. */
  lemma QualifiesIff(rule: RuleSpec, p: Prepared, combination: seq<Fact>)
    requires |combination| == |rule.inputs|
    ensures var context := ContextOf(rule.inputs, combination);
            var verdict := Judge(rule, p, combination);
            && (verdict.WrongType? <==> !ContextTypesFit(p, context))
            && (verdict.Qualifies? || verdict.BadValue? <==>
                  ContextTypesFit(p, context) && ScopeRejection(rule.scope, context).None? && AllMatch(context, p.predicates))
            && (verdict.BadValue? ==> !FeatureValuesFit(context, p.features))
            && (verdict.Qualifies? ==>
                  && FeatureValuesFit(context, p.features)
                  && verdict.found.score == Clamp(WeightedSum(rule.scoreBase, Contributions(context, p.features)))
                  && 0.0 <= verdict.found.score <= 1.0
                  && verdict.found.factRefs == FactRefs(rule.inputs, context))
  {
    hide ContextTypesFit, ScopeRejection, FeatureValuesFit, WeightedSum, Contributions, ContextOf, ResultOf, PredicateCodes, Distinct;
    var context := ContextOf(rule.inputs, combination);
    var miss := FirstMiss(context, p.predicates);
    assert AllMatch(context, p.predicates) <==> miss == |p.predicates|;
  }

  lemma SingletonSet<T>(s: set<T>)
    ensures |s| == 1 <==> s != {} && forall x, y | x in s && y in s :: x == y
  {
    if |s| == 1 {
      var x :| x in s;
      assert |s - {x}| == 0;
    } else if s != {} && forall x, y | x in s && y in s :: x == y {
      var x :| x in s;
      assert s == {x};
    }
  }

  /** All entries name one and the same value. */
  ghost predicate OneValue(attribute: map<string, string>) {
    attribute != map[]
    && (forall n | n in attribute :: attribute[n] != "")
    && forall m, n | m in attribute && n in attribute :: attribute[m] == attribute[n]
  }

  lemma OneValueAsSet(attribute: map<string, string>)
    ensures OneValue(attribute) <==> "" !in attribute.Values && |attribute.Values| == 1
    ensures "" in attribute.Values <==> exists n :: n in attribute && attribute[n] == ""
    ensures attribute.Values == {} <==> attribute == map[]
  {
    var values := attribute.Values;
    SingletonSet(values);
    assert forall n | n in attribute :: attribute[n] in values;
    if attribute != map[] {
      var n :| n in attribute;
      assert attribute[n] in values;
    }
  }

  /** The scope filter, in the words of its flags: one project, one environment, and every fact names
      its principal attribute, all the same or not all the same as the relation demands. */
  lemma ScopeMeaning(scope: RuleScope, context: Context)
    ensures ScopeRejection(scope, context).None? <==>
              && (scope.sameProject ==> OneValue(ProjectsOf(context)))
              && (scope.sameEnvironment ==> OneValue(EnvironmentsOf(context)))
              && (scope.principalRelation != "any" ==>
                    var principals := PrincipalsOf(context, scope.principalRelation);
                    && principals != map[] && (forall n | n in principals :: principals[n] != "")
                    && (IsSame(scope.principalRelation) <==> OneValue(principals)))
  {
    hide ProjectsOf, EnvironmentsOf, PrincipalsOf, IsSame, OneValue;
    OneValueAsSet(ProjectsOf(context));
    OneValueAsSet(EnvironmentsOf(context));
    OneValueAsSet(PrincipalsOf(context, scope.principalRelation));
  }

  // ------------------------------------------------------------------ the scan

  ghost predicate Bad(v: Verdict) { v.WrongType? || v.BadValue? }

  ghost predicate NoneBad(verdicts: seq<Verdict>) {
    forall i | 0 <= i < |verdicts| :: !Bad(verdicts[i])
  }

  /** The first `n` combinations hold no bad one and more qualifying ones than the budget allows. */
  ghost predicate OverBudgetAt(verdicts: seq<Verdict>, n: nat, maxMatches: int) {
    n <= |verdicts| && NoneBad(verdicts[..n]) && |Matches(verdicts[..n])| > maxMatches
  }

  /** Combination `n` is the first bad one, and those before it fit the budget. */
  ghost predicate FirstBadAt(verdicts: seq<Verdict>, n: nat, maxMatches: int) {
    n < |verdicts| && Bad(verdicts[n]) && NoneBad(verdicts[..n]) && |Matches(verdicts[..n])| <= maxMatches
  }

  /** How the scan ends, exactly: without an error if no combination is ill-typed or badly valued and the
      qualifying ones fit the budget; with the budget error if some stretch from the start without bad ones holds
      more qualifying ones than the budget; with the other error if a bad one comes before that. */
  lemma {:induction false} ScanErrorIff(verdicts: seq<Verdict>, maxMatches: int)
    requires 0 <= maxMatches
    ensures ScanError(verdicts, maxMatches) == None <==> NoneBad(verdicts) && |Matches(verdicts)| <= maxMatches
    ensures ScanError(verdicts, maxMatches) == Some(BudgetExceeded) <==> exists n :: OverBudgetAt(verdicts, n, maxMatches)
    ensures ScanError(verdicts, maxMatches) == Some(ProtocolError) <==> exists n :: FirstBadAt(verdicts, n, maxMatches)
  {
    if verdicts != [] {
      var k := |verdicts| - 1;
      ScanErrorIff(verdicts[..k], maxMatches);
      ScanOneMore(verdicts, maxMatches);
      NoneBadSnoc(verdicts);
      OverBudgetSnoc(verdicts, maxMatches);
      FirstBadSnoc(verdicts, maxMatches);
      hide ScanError, Matches, NoneBad, Bad, FirstBadAt;
      assert verdicts[..k][..k] == verdicts[..k];
      assert OverBudgetAt(verdicts[..k], k, maxMatches) <==> NoneBad(verdicts[..k]) && |Matches(verdicts[..k])| > maxMatches;
    } else {
      assert forall n: nat | n <= |verdicts| :: verdicts[..n] == [];
    }
  }

  lemma OverBudgetSnoc(verdicts: seq<Verdict>, maxMatches: int)
    requires verdicts != []
    ensures var front := verdicts[..|verdicts| - 1];
            (exists n :: OverBudgetAt(verdicts, n, maxMatches))
            <==> (exists n :: OverBudgetAt(front, n, maxMatches)) || (NoneBad(verdicts) && |Matches(verdicts)| > maxMatches)
  {
    hide NoneBad, Matches;
    PrefixOfFront(verdicts);
    var front := verdicts[..|verdicts| - 1];
    assert verdicts[..|verdicts|] == verdicts;
    if n: nat :| OverBudgetAt(verdicts, n, maxMatches) && n < |verdicts| {
      assert OverBudgetAt(front, n, maxMatches);
    }
    if n: nat :| OverBudgetAt(front, n, maxMatches) {
      assert OverBudgetAt(verdicts, n, maxMatches);
    }
    assert OverBudgetAt(verdicts, |verdicts|, maxMatches) <==> NoneBad(verdicts) && |Matches(verdicts)| > maxMatches;
  }

  lemma FirstBadSnoc(verdicts: seq<Verdict>, maxMatches: int)
    requires verdicts != []
    ensures var (front, last) := (verdicts[..|verdicts| - 1], verdicts[|verdicts| - 1]);
            (exists n :: FirstBadAt(verdicts, n, maxMatches))
            <==> (exists n :: FirstBadAt(front, n, maxMatches)) || (Bad(last) && NoneBad(front) && |Matches(front)| <= maxMatches)
  {
    hide NoneBad, Matches, Bad;
    PrefixOfFront(verdicts);
    var (front, k) := (verdicts[..|verdicts| - 1], |verdicts| - 1);
    if n: nat :| FirstBadAt(verdicts, n, maxMatches) && n < k {
      assert FirstBadAt(front, n, maxMatches);
    }
    if n: nat :| FirstBadAt(front, n, maxMatches) {
      assert FirstBadAt(verdicts, n, maxMatches);
    }
    assert FirstBadAt(verdicts, k, maxMatches) <==> Bad(verdicts[k]) && NoneBad(front) && |Matches(front)| <= maxMatches;
  }

  lemma PrefixOfFront(verdicts: seq<Verdict>)
    requires verdicts != []
    ensures forall n: nat | n < |verdicts| :: verdicts[..|verdicts| - 1][..n] == verdicts[..n]
  {
  }

  lemma NoneBadSnoc(verdicts: seq<Verdict>)
    requires verdicts != []
    ensures NoneBad(verdicts) <==> NoneBad(verdicts[..|verdicts| - 1]) && !Bad(verdicts[|verdicts| - 1])
  {
  }

  /** One more verdict, in terms of the scan so far. */
  lemma ScanOneMore(verdicts: seq<Verdict>, maxMatches: int)
    requires verdicts != []
    ensures var (front, last) := (verdicts[..|verdicts| - 1], verdicts[|verdicts| - 1]);
            var before := ScanError(front, maxMatches);
            ScanError(verdicts, maxMatches)
            == (if before.Some? then before else if Bad(last) then Some(ProtocolError)
                else if last.Qualifies? && |Matches(verdicts)| > maxMatches then Some(BudgetExceeded) else None)
            && |Matches(verdicts)| == |Matches(front)| + (if last.Qualifies? then 1 else 0)
  {
  }

  /** Nothing is lost: every combination is either a match or counted as a rejection. */
  lemma {:induction false} EveryCombinationCounts(verdicts: seq<Verdict>)
    requires NoneBad(verdicts)
    ensures |verdicts| == |Matches(verdicts)| + |Rejections(verdicts)|
  {
    if verdicts != [] {
      assert NoneBad(verdicts[..|verdicts| - 1]);
      assert !Bad(verdicts[|verdicts| - 1]);
      EveryCombinationCounts(verdicts[..|verdicts| - 1]);
    }
  }

  /** The positions of the qualifying combinations. */
  ghost function MatchPositions(verdicts: seq<Verdict>): seq<nat> {
    if verdicts == [] then []
    else
      MatchPositions(verdicts[..|verdicts| - 1]) + if verdicts[|verdicts| - 1].Qualifies? then [|verdicts| - 1] else []
  }

  ghost predicate InOrder(positions: seq<nat>, bound: nat) {
    (forall i | 0 <= i < |positions| :: positions[i] < bound)
    && forall i, j | 0 <= i < j < |positions| :: positions[i] < positions[j]
  }

  /** The reported matches are those of the qualifying combinations, all of them, in scan order. */
  lemma {:induction false} MatchesAreTheQualifying(verdicts: seq<Verdict>)
    ensures var at := MatchPositions(verdicts);
            && |at| == |Matches(verdicts)| && InOrder(at, |verdicts|)
            && (forall i | 0 <= i < |at| :: verdicts[at[i]].Qualifies? && Matches(verdicts)[i] == verdicts[at[i]].found)
            && (forall n | 0 <= n < |verdicts| && verdicts[n].Qualifies? :: n in at)
  {
    if verdicts != [] {
      var front := verdicts[..|verdicts| - 1];
      MatchesAreTheQualifying(front);
      var at := MatchPositions(verdicts);
      forall n | 0 <= n < |verdicts| && verdicts[n].Qualifies? ensures n in at {
        if n < |front| {
          assert front[n].Qualifies?;
        } else {
          assert at[|at| - 1] == n;
        }
      }
    }
  }

  // ------------------------------------------------------------------ the tally

  ghost function SumCounts(counts: seq<(string, nat)>): nat {
    if counts == [] then 0 else SumCounts(counts[..|counts| - 1]) + counts[|counts| - 1].1
  }

  lemma {:induction false} SumOfDistinctKeys(rejected: multiset<string>, codes: seq<string>, counts: seq<(string, nat)>)
    requires NoRepeats(codes) && forall c | c in rejected :: c in codes
    requires |counts| == |codes| && forall i | 0 <= i < |codes| :: counts[i] == (codes[i], rejected[codes[i]])
    ensures SumCounts(counts) == |rejected|
  {
    if codes == [] {
      assert rejected == multiset{};
    } else {
      var n := |codes| - 1;
      var rest := rejected[codes[n] := 0];
      SumOfDistinctKeys(rest, codes[..n], counts[..n]);
      assert rejected == rest + multiset{}[codes[n] := rejected[codes[n]]];
      assert |multiset{}[codes[n] := rejected[codes[n]]]| == rejected[codes[n]];
    }
  }

  lemma TallySums(rejected: multiset<string>)
    ensures SumCounts(Tally(rejected)) == |rejected|
  {
    StrLeOrder();
    var keys := set c | c in rejected;
    SortedSetSorted(keys, StrLe);
    SumOfDistinctKeys(rejected, SortedSet(keys, StrLe), Tally(rejected));
  }

  // ------------------------------------------------------------------ the whole evaluation

  ghost predicate Ready(rule: RuleSpec, registry: map<string, PredicateDef>, outputs: map<string, OutputDef>,
                        facts: map<string, seq<Fact>>)
  {
    rule.enabled && CheckRule(rule, registry, outputs, facts).None?
  }

  ghost function Inputs(rule: RuleSpec, registry: map<string, PredicateDef>, outputs: map<string, OutputDef>,
                        facts: map<string, seq<Fact>>): seq<seq<Fact>>
    requires Ready(rule, registry, outputs, facts)
  {
    CheckedFactsCover(rule, registry, outputs, facts);
    SortedInputs(rule, facts)
  }

  ghost function Judged(rule: RuleSpec, registry: map<string, PredicateDef>, outputs: map<string, OutputDef>,
                        facts: map<string, seq<Fact>>): seq<Verdict>
    requires Ready(rule, registry, outputs, facts)
  {
    CheckedNamesResolve(rule, registry, outputs, facts);
    Verdicts(rule, Resolve(rule, registry, outputs), Product(Inputs(rule, registry, outputs, facts)))
  }

  /** The engine against its specification, for every rule that passes its checks: the evaluation returns a
      report if and only if no combination is ill-typed or badly valued and the qualifying ones fit the budget,
      and each error exactly when the scan meets its cause first. The report counts the whole product,
      accounts for every combination, and lists exactly the qualifying ones in order. */
  lemma EvaluationMeetsSpecification(rule: RuleSpec, registry: map<string, PredicateDef>, outputs: map<string, OutputDef>,
                                     facts: map<string, seq<Fact>>)
    requires Ready(rule, registry, outputs, facts) && 0 <= rule.safety.maxMatches
    ensures var verdicts := Judged(rule, registry, outputs, facts);
            var result := Evaluation(rule, registry, outputs, facts);
            var budget := rule.safety.maxMatches;
            && (result.Ok? <==> NoneBad(verdicts) && |MatchPositions(verdicts)| <= budget)
            && (result == Err(BudgetExceeded) <==> exists n :: OverBudgetAt(verdicts, n, budget))
            && (result == Err(ProtocolError) <==> exists n :: FirstBadAt(verdicts, n, budget))
            && (result.Ok? ==>
                  && result.value.evaluated == Sizes(Inputs(rule, registry, outputs, facts))
                  && result.value.evaluated == |result.value.matches| + SumCounts(result.value.rejectionCounts)
                  && |result.value.matches| == |MatchPositions(verdicts)|
                  && InOrder(MatchPositions(verdicts), |verdicts|)
                  && forall i | 0 <= i < |result.value.matches| ::
                       verdicts[MatchPositions(verdicts)[i]] == Qualifies(result.value.matches[i]))
  {
    hide CheckRule, Judge, Tally, SumCounts, Product, ScanError, Matches, Rejections, MatchPositions, OverBudgetAt, FirstBadAt;
    CheckedFactsCover(rule, registry, outputs, facts);
    CheckedNamesResolve(rule, registry, outputs, facts);
    var verdicts := Judged(rule, registry, outputs, facts);
    ScanErrorIff(verdicts, rule.safety.maxMatches);
    if NoneBad(verdicts) {
      EveryCombinationCounts(verdicts);
    }
    MatchesAreTheQualifying(verdicts);
    TallySums(Rejections(verdicts));
    ProductSize(Inputs(rule, registry, outputs, facts));
  }

  // ------------------------------------------------------------------ the order of the report

  lemma FactLeOrder()
    ensures Preorder(FactLe)
  {
    StrLeOrder();
  }

  lemma DistinctIdsPermuted(xs: seq<Fact>, ys: seq<Fact>)
    requires multiset(xs) == multiset(ys) && DistinctIds(xs)
    ensures DistinctIds(ys)
  {
    forall i, j | 0 <= i < j < |ys| ensures ys[i].factId != ys[j].factId {
      assert ys == ys[..i] + [ys[i]] + ys[i + 1..j] + [ys[j]] + ys[j + 1..];
      assert multiset{ys[i], ys[j]} <= multiset(xs);
      CountOfDistinct(xs, ys[i], ys[j]);
    }
  }

  lemma CountOfDistinct(xs: seq<Fact>, x: Fact, y: Fact)
    requires DistinctIds(xs) && multiset{x, y} <= multiset(xs)
    ensures x.factId != y.factId
  {
    assert x in multiset(xs) && y in multiset(xs);
    assert multiset{x, y}[x] <= multiset(xs)[x];
    CountDistinct(xs, x);
  }

  /** The fact ids of a match, one per input in the order of the rule. */
  function IdsOf(found: RuleMatch): seq<string> {
    seq(|found.factRefs|, i requires 0 <= i < |found.factRefs| => found.factRefs[i].1)
  }

  /** Lexicographic order of lists of ids. */
  ghost predicate IdsLess(a: seq<string>, b: seq<string>) {
    a != [] && b != [] && if a[0] == b[0] then IdsLess(a[1..], b[1..]) else StrLe(a[0], b[0])
  }

  /** Within each input of the rule, no two facts share an id. */
  ghost predicate IdsDistinctPerInput(rule: RuleSpec, facts: map<string, seq<Fact>>) {
    forall name | name in rule.inputs && name in facts :: DistinctIds(facts[name])
  }

  /** With ids distinct within each input, the engine scans its combinations in strict lexicographic order of
      fact ids, whatever order the facts are supplied in. */
  lemma ScanIsLexicographic(rule: RuleSpec, registry: map<string, PredicateDef>, outputs: map<string, OutputDef>,
                            facts: map<string, seq<Fact>>)
    requires Ready(rule, registry, outputs, facts) && IdsDistinctPerInput(rule, facts)
    ensures Increasing(Product(Inputs(rule, registry, outputs, facts)))
  {
    CheckedFactsCover(rule, registry, outputs, facts);
    hide CheckRule, Product, Increasing, Sort;
    var values := Inputs(rule, registry, outputs, facts);
    FactLeOrder();
    forall i | 0 <= i < |values| ensures Sorted(values[i], FactLe) && DistinctIds(values[i]) {
      var xs := facts[rule.inputs[i]];
      SortSorted(xs, FactLe);
      DistinctIdsPermuted(xs, Sort(xs, FactLe));
    }
    ProductIncreasing(values);
  }

  /** Positions of one input name hold the same fact. */
  ghost predicate AgreesAtRepeats(inputs: seq<string>, combination: seq<Fact>)
    requires |inputs| == |combination|
  {
    forall a, b | 0 <= a < b < |inputs| && inputs[a] == inputs[b] :: combination[a] == combination[b]
  }

  lemma {:induction false} ContextAt(inputs: seq<string>, combination: seq<Fact>, i: nat)
    requires |inputs| == |combination| && i < |inputs| && AgreesAtRepeats(inputs, combination)
    ensures ContextOf(inputs, combination)[inputs[i]] == combination[i]
  {
    var n := |inputs| - 1;
    if i < n && inputs[i] != inputs[n] {
      ContextAt(inputs[..n], combination[..n], i);
    }
  }

  function IdsOfFacts(combination: seq<Fact>): seq<string> {
    seq(|combination|, i requires 0 <= i < |combination| => combination[i].factId)
  }

  lemma MatchCarriesTheIds(rule: RuleSpec, p: Prepared, combination: seq<Fact>)
    requires |combination| == |rule.inputs| && AgreesAtRepeats(rule.inputs, combination) && Judge(rule, p, combination).Qualifies?
    ensures IdsOf(Judge(rule, p, combination).found) == IdsOfFacts(combination)
  {
    hide ContextTypesFit, ScopeRejection, FeatureValuesFit, WeightedSum, Contributions, ContextOf, ResultOf, PredicateCodes, Distinct;
    var found := Judge(rule, p, combination).found;
    assert found.factRefs == FactRefs(rule.inputs, ContextOf(rule.inputs, combination));
    hide Judge;
    forall i | 0 <= i < |rule.inputs| ensures found.factRefs[i].1 == combination[i].factId {
      ContextAt(rule.inputs, combination, i);
    }
  }

  lemma {:induction false} LexLessById(c: seq<Fact>, d: seq<Fact>)
    requires LexLess(c, d)
    ensures IdsLess(IdsOfFacts(c), IdsOfFacts(d))
  {
    assert IdsOfFacts(c)[1..] == IdsOfFacts(c[1..]) && IdsOfFacts(d)[1..] == IdsOfFacts(d[1..]);
    if c[0].factId == d[0].factId {
      LexLessById(c[1..], d[1..]);
    }
  }

  /** An input name that occurs twice has at most one fact. */
  ghost predicate RepeatsHoldOneFact(rule: RuleSpec, facts: map<string, seq<Fact>>) {
    forall a, b | 0 <= a < b < |rule.inputs| && rule.inputs[a] == rule.inputs[b] && rule.inputs[a] in facts ::
      |facts[rule.inputs[a]]| <= 1
  }

  /** The matches come in strict lexicographic order of the fact ids they refer to. */
  ghost predicate InIdOrder(matches: seq<RuleMatch>) {
    forall i, j | 0 <= i < j < |matches| :: IdsLess(IdsOf(matches[i]), IdsOf(matches[j]))
  }

  ghost function Rows(rule: RuleSpec, registry: map<string, PredicateDef>, outputs: map<string, OutputDef>,
                      facts: map<string, seq<Fact>>): seq<seq<Fact>>
    requires Ready(rule, registry, outputs, facts)
  {
    Product(Inputs(rule, registry, outputs, facts))
  }

  ghost function JudgedRow(rule: RuleSpec, registry: map<string, PredicateDef>, outputs: map<string, OutputDef>,
                           facts: map<string, seq<Fact>>, row: seq<Fact>): Verdict
    requires Ready(rule, registry, outputs, facts) && |row| == |rule.inputs|
  {
    CheckedNamesResolve(rule, registry, outputs, facts);
    Judge(rule, Resolve(rule, registry, outputs), row)
  }

  /** Every row has as many facts as the rule has inputs, and stands at its place in the scan. */
  lemma RowsAreJudged(rule: RuleSpec, registry: map<string, PredicateDef>, outputs: map<string, OutputDef>,
                      facts: map<string, seq<Fact>>)
    requires Ready(rule, registry, outputs, facts)
    ensures var (rows, verdicts) := (Rows(rule, registry, outputs, facts), Judged(rule, registry, outputs, facts));
            |rows| == |verdicts| && forall m | 0 <= m < |rows| ::
              |rows[m]| == |rule.inputs| && verdicts[m] == JudgedRow(rule, registry, outputs, facts, rows[m])
  {
    hide CheckRule, Judge, Product, Resolve;
    var rows := Rows(rule, registry, outputs, facts);
    assert forall m | 0 <= m < |rows| :: rows[m] in rows;
  }

  /** Where the matches of a report stand in the scan. */
  lemma MatchesStandAt(rule: RuleSpec, registry: map<string, PredicateDef>, outputs: map<string, OutputDef>,
                       facts: map<string, seq<Fact>>)
    requires Ready(rule, registry, outputs, facts) && Evaluation(rule, registry, outputs, facts).Ok?
    ensures var verdicts := Judged(rule, registry, outputs, facts);
            var (at, matches) := (MatchPositions(verdicts), Evaluation(rule, registry, outputs, facts).value.matches);
            |at| == |matches| && InOrder(at, |verdicts|)
            && (forall i | 0 <= i < |at| :: verdicts[at[i]] == Qualifies(matches[i]))
            && (forall n | 0 <= n < |verdicts| && verdicts[n].Qualifies? :: n in at)
  {
    EvaluationFromVerdicts(rule, registry, outputs, facts);
    hide CheckRule, Judged, Evaluation, Tally, ScanError, Matches, MatchPositions, Rejections;
    MatchesAreTheQualifying(Judged(rule, registry, outputs, facts));
  }

  lemma RowsAgree(rule: RuleSpec, registry: map<string, PredicateDef>, outputs: map<string, OutputDef>,
                  facts: map<string, seq<Fact>>, row: seq<Fact>)
    requires Ready(rule, registry, outputs, facts) && RepeatsHoldOneFact(rule, facts)
    requires row in Rows(rule, registry, outputs, facts)
    ensures |row| == |rule.inputs| && AgreesAtRepeats(rule.inputs, row)
  {
    hide CheckRule, Product, Sort;
    CheckedFactsCover(rule, registry, outputs, facts);
    var values := Inputs(rule, registry, outputs, facts);
    ProductMembers(values, row);
    forall a, b | 0 <= a < b < |row| && rule.inputs[a] == rule.inputs[b] ensures row[a] == row[b] {
      assert row[a] in values[a] && row[b] in values[b];
      assert values[a] == values[b] && |values[a]| <= 1;
    }
  }

  lemma OneFactKeepsOrder(rule: RuleSpec, registry: map<string, PredicateDef>, outputs: map<string, OutputDef>,
                          facts: map<string, seq<Fact>>)
    requires Ready(rule, registry, outputs, facts) && IdsDistinctPerInput(rule, facts) && RepeatsHoldOneFact(rule, facts)
    requires Evaluation(rule, registry, outputs, facts).Ok?
    ensures InIdOrder(Evaluation(rule, registry, outputs, facts).value.matches)
  {
    ScanIsLexicographic(rule, registry, outputs, facts);
    hide Ready, Judge, Judged, Evaluation, Product, MatchPositions, IdsLess, IdsOf, IdsOfFacts, LexLess, AgreesAtRepeats;
    MatchesStandAt(rule, registry, outputs, facts);
    RowsAreJudged(rule, registry, outputs, facts);
    var (rows, at) := (Rows(rule, registry, outputs, facts), MatchPositions(Judged(rule, registry, outputs, facts)));
    var matches := Evaluation(rule, registry, outputs, facts).value.matches;
    forall i | 0 <= i < |matches| ensures IdsOf(matches[i]) == IdsOfFacts(rows[at[i]]) {
      RowsAgree(rule, registry, outputs, facts, rows[at[i]]);
      CheckedNamesResolve(rule, registry, outputs, facts);
      MatchCarriesTheIds(rule, Resolve(rule, registry, outputs), rows[at[i]]);
    }
    forall i, j | 0 <= i < j < |matches| ensures IdsLess(IdsOf(matches[i]), IdsOf(matches[j])) {
      LexLessById(rows[at[i]], rows[at[j]]);
    }
  }

  /** What an earlier position of a repeated name holds does not show in the context. */
  lemma {:induction false} ContextForgets(inputs: seq<string>, c: seq<Fact>, a: nat, b: nat, g: Fact)
    requires |inputs| == |c| && a < b < |inputs| && inputs[a] == inputs[b]
    ensures ContextOf(inputs, c[a := g]) == ContextOf(inputs, c)
  {
    var n := |inputs| - 1;
    var d := c[a := g];
    assert d[..n] == c[..n][a := g] && d[n] == c[n];
    if b < n {
      ContextForgets(inputs[..n], c[..n], a, b, g);
    } else {
      ContextDiffers(inputs[..n], c[..n], a, g);
    }
  }

  /** Another fact at a position changes the context at that name only. */
  lemma {:induction false} ContextDiffers(inputs: seq<string>, c: seq<Fact>, a: nat, g: Fact)
    requires |inputs| == |c| && a < |inputs|
    ensures forall name | name in inputs && name != inputs[a] :: ContextOf(inputs, c[a := g])[name] == ContextOf(inputs, c)[name]
  {
    var n := |inputs| - 1;
    var d := c[a := g];
    if a < n {
      assert d[..n] == c[..n][a := g];
      ContextDiffers(inputs[..n], c[..n], a, g);
    } else {
      assert d[..n] == c[..n];
    }
  }

  lemma {:induction false} NotLessThanItself(ids: seq<string>)
    ensures !IdsLess(ids, ids)
  {
    if ids != [] {
      NotLessThanItself(ids[1..]);
    }
  }

  /** A second fact of a repeated name gives every match a twin with the same ids. */
  lemma TwinRow(rule: RuleSpec, registry: map<string, PredicateDef>, outputs: map<string, OutputDef>,
                facts: map<string, seq<Fact>>, m: nat, a: nat, b: nat) returns (n: nat)
    requires Ready(rule, registry, outputs, facts) && IdsDistinctPerInput(rule, facts)
    requires m < |Rows(rule, registry, outputs, facts)| && a < b < |rule.inputs| && rule.inputs[a] == rule.inputs[b]
    requires rule.inputs[a] in facts && |facts[rule.inputs[a]]| > 1
    ensures n < |Rows(rule, registry, outputs, facts)| && n != m
    ensures var verdicts := Judged(rule, registry, outputs, facts);
            |verdicts| == |Rows(rule, registry, outputs, facts)| && verdicts[n] == verdicts[m]
  {
    RowsAreJudged(rule, registry, outputs, facts);
    var c := Rows(rule, registry, outputs, facts)[m];
    var g := OtherChoice(rule, registry, outputs, facts, c, a);
    hide Ready, Judged, Product, Judge;
    ContextForgets(rule.inputs, c, a, b, g);
    var d := c[a := g];
    assert d in Rows(rule, registry, outputs, facts);
    n :| 0 <= n < |Rows(rule, registry, outputs, facts)| && Rows(rule, registry, outputs, facts)[n] == d;
    assert d[a] != c[a];
    SameContextSameVerdict(rule, registry, outputs, facts, c, d);
  }

  lemma SameContextSameVerdict(rule: RuleSpec, registry: map<string, PredicateDef>, outputs: map<string, OutputDef>,
                               facts: map<string, seq<Fact>>, c: seq<Fact>, d: seq<Fact>)
    requires Ready(rule, registry, outputs, facts) && |c| == |d| == |rule.inputs|
    requires ContextOf(rule.inputs, c) == ContextOf(rule.inputs, d)
    ensures JudgedRow(rule, registry, outputs, facts, c) == JudgedRow(rule, registry, outputs, facts, d)
  {
    hide CheckRule, ContextOf, Resolve, ContextTypesFit, ScopeRejection, FeatureValuesFit, WeightedSum, Contributions, ResultOf,
      PredicateCodes, Distinct, FactRefs, Clamp, RejectionCode;
    CheckedNamesResolve(rule, registry, outputs, facts);
  }

  lemma OtherChoice(rule: RuleSpec, registry: map<string, PredicateDef>, outputs: map<string, OutputDef>,
                    facts: map<string, seq<Fact>>, c: seq<Fact>, a: nat) returns (g: Fact)
    requires Ready(rule, registry, outputs, facts) && IdsDistinctPerInput(rule, facts)
    requires c in Rows(rule, registry, outputs, facts) && a < |rule.inputs| == |c|
    requires rule.inputs[a] in facts && |facts[rule.inputs[a]]| > 1
    ensures g != c[a] && c[a := g] in Rows(rule, registry, outputs, facts)
  {
    hide CheckRule, Product, Sort;
    CheckedFactsCover(rule, registry, outputs, facts);
    var values := Inputs(rule, registry, outputs, facts);
    var xs := facts[rule.inputs[a]];
    g := if xs[0] == c[a] then xs[1] else xs[0];
    assert xs[0].factId != xs[1].factId && g in xs;
    SameElements(xs, values[a]);
    ProductMembers(values, c);
    ProductMembers(values, c[a := g]);
  }

  lemma TwinsBreakOrder(rule: RuleSpec, registry: map<string, PredicateDef>, outputs: map<string, OutputDef>,
                        facts: map<string, seq<Fact>>, a: nat, b: nat)
    requires Ready(rule, registry, outputs, facts) && IdsDistinctPerInput(rule, facts)
    requires a < b < |rule.inputs| && rule.inputs[a] == rule.inputs[b]
    requires rule.inputs[a] in facts && |facts[rule.inputs[a]]| > 1
    requires Evaluation(rule, registry, outputs, facts).Ok? && Evaluation(rule, registry, outputs, facts).value.matches != []
    ensures !InIdOrder(Evaluation(rule, registry, outputs, facts).value.matches)
  {
    MatchesStandAt(rule, registry, outputs, facts);
    RowsAreJudged(rule, registry, outputs, facts);
    hide *;
    var verdicts := Judged(rule, registry, outputs, facts);
    var at := MatchPositions(verdicts);
    var matches := Evaluation(rule, registry, outputs, facts).value.matches;
    var n := TwinRow(rule, registry, outputs, facts, at[0], a, b);
    var j :| 0 <= j < |at| && at[j] == n;
    assert matches[j] == matches[0];
    NotLessThanItself(IdsOf(matches[0]));
    EqualIdsBreakOrder(matches, 0, j);
  }

  lemma EqualIdsBreakOrder(matches: seq<RuleMatch>, i: nat, j: nat)
    requires i < j < |matches| && matches[i] == matches[j]
    ensures !InIdOrder(matches)
  {
    NotLessThanItself(IdsOf(matches[i]));
    hide IdsLess;
  }

  /** When the report is in order, exactly. With ids distinct within each input, the matches of a report that
      has any come in strict lexicographic order of their fact ids if and only if every input name that
      occurs twice has at most one fact. */
  lemma MatchesInOrderIff(rule: RuleSpec, registry: map<string, PredicateDef>, outputs: map<string, OutputDef>,
                          facts: map<string, seq<Fact>>)
    requires IdsDistinctPerInput(rule, facts) && Evaluation(rule, registry, outputs, facts).Ok?
    ensures var matches := Evaluation(rule, registry, outputs, facts).value.matches;
            InIdOrder(matches) <==> matches == [] || RepeatsHoldOneFact(rule, facts)
  {
    if Evaluation(rule, registry, outputs, facts).value.matches != [] {
      assert Ready(rule, registry, outputs, facts);
      hide Ready, Evaluation, InIdOrder, IdsDistinctPerInput;
      if RepeatsHoldOneFact(rule, facts) {
        OneFactKeepsOrder(rule, registry, outputs, facts);
      } else {
        var a, b :| 0 <= a < b < |rule.inputs| && rule.inputs[a] == rule.inputs[b] && rule.inputs[a] in facts
                    && |facts[rule.inputs[a]]| > 1;
        TwinsBreakOrder(rule, registry, outputs, facts, a, b);
      }
    }
  }

  /** In particular the order is kept if no input name occurs twice. */
  lemma MatchesAreLexicographic(rule: RuleSpec, registry: map<string, PredicateDef>, outputs: map<string, OutputDef>,
                                facts: map<string, seq<Fact>>, i: nat, j: nat)
    requires IdsDistinctPerInput(rule, facts) && NoRepeats(rule.inputs)
    requires Evaluation(rule, registry, outputs, facts).Ok?
    requires i < j < |Evaluation(rule, registry, outputs, facts).value.matches|
    ensures var matches := Evaluation(rule, registry, outputs, facts).value.matches;
            IdsLess(IdsOf(matches[i]), IdsOf(matches[j]))
  {
    hide Evaluation, IdsLess, IdsDistinctPerInput;
    MatchesInOrderIff(rule, registry, outputs, facts);
  }

  /** A rule that names one input twice, asks for nothing and emits through an adapter that asks for nothing. */
  ghost predicate NamesOneInputTwice(rule: RuleSpec, outputs: map<string, OutputDef>, name: string) {
    && rule.enabled && rule.safety.network == "forbidden" && rule.safety.mutation == "forbidden" && rule.safety.maxMatches >= 4
    && rule.inputs == [name, name] && rule.predicates == [] && rule.scoreFeatures == []
    && rule.scope == RuleScope(false, false, "any")
    && rule.emit.adapter in outputs && outputs[rule.emit.adapter].validArgs(rule.emit.args)
    && outputs[rule.emit.adapter].required == map[]
  }

  lemma SpreadPair(f: Fact, g: Fact, rows: seq<seq<Fact>>)
    ensures Spread([f, g], rows) == Prepend(f, rows) + Prepend(g, rows)
  {
    assert [f, g][1..] == [g] && [g][1..] == [];
    assert Spread([], rows) == [] && Spread([g], rows) == Prepend(g, rows);
  }

  lemma SpreadOverNothing(f: Fact, g: Fact)
    ensures Product([[f, g]]) == [[f], [g]]
  {
    assert [[f, g]][1..] == [] && Product([]) == [[]];
    SpreadPair(f, g, [[]]);
    hide Spread;
    assert [f] + [] == [f] && [g] + [] == [g];
    assert Prepend(f, [[]]) == [[f]];
    assert Prepend(g, [[]]) == [[g]];
  }

  lemma PrependTwo(x: Fact, f: Fact, g: Fact)
    ensures Prepend(x, [[f], [g]]) == [[x, f], [x, g]]
  {
    var rows := [[f], [g]];
    assert rows[0] == [f] && rows[1] == [g];
    assert [x] + [f] == [x, f] && [x] + [g] == [x, g];
  }

  lemma PairsOf(f: Fact, g: Fact)
    ensures Product([[f, g], [f, g]]) == [[f, f], [f, g], [g, f], [g, g]]
  {
    assert [[f, g], [f, g]][1..] == [[f, g]];
    SpreadOverNothing(f, g);
    SpreadPair(f, g, [[f], [g]]);
    hide Spread, Prepend;
    PrependTwo(f, f, g);
    PrependTwo(g, f, g);
  }

  /** With a repeated input name the combination no longer shows in the match, which refers to the last fact
      of that name only: the second match refers to `g`, the third to `f` again. */
  lemma RepeatedInputBreaksTheOrder(rule: RuleSpec, registry: map<string, PredicateDef>, outputs: map<string, OutputDef>,
                                    name: string, f: Fact, g: Fact)
    requires NamesOneInputTwice(rule, outputs, name)
    requires StrLe(f.factId, g.factId) && f.factId != g.factId
    ensures var facts := map[name := [f, g]];
            IdsDistinctPerInput(rule, facts)
            && var result := Evaluation(rule, registry, outputs, facts);
               result.Ok? && |result.value.matches| == 4
               && IdsOf(result.value.matches[1]) == [g.factId, g.factId]
               && IdsOf(result.value.matches[2]) == [f.factId, f.factId]
               && !IdsLess(IdsOf(result.value.matches[1]), IdsOf(result.value.matches[2]))
  {
    var facts := map[name := [f, g]];
    PairReady(rule, registry, outputs, name, facts);
    assert IdsDistinctPerInput(rule, facts);
    var budget := rule.safety.maxMatches;
    assert budget >= 4;
    hide *;
    EvaluationFromVerdicts(rule, registry, outputs, facts);
    PairVerdicts(rule, registry, outputs, name, f, g, facts);
    var verdicts := Judged(rule, registry, outputs, facts);
    AllQualify(verdicts, budget);
    AllReported(rule, verdicts);
    StrLeAntisymmetricAt(f.factId, g.factId);
  }

  lemma PairVerdicts(rule: RuleSpec, registry: map<string, PredicateDef>, outputs: map<string, OutputDef>,
                     name: string, f: Fact, g: Fact, facts: map<string, seq<Fact>>)
    requires NamesOneInputTwice(rule, outputs, name) && facts == map[name := [f, g]] && StrLe(f.factId, g.factId)
    requires Ready(rule, registry, outputs, facts)
    ensures var verdicts := Judged(rule, registry, outputs, facts);
            |verdicts| == 4 && (forall i | 0 <= i < 4 :: verdicts[i].Qualifies?)
            && IdsOf(verdicts[1].found) == [g.factId, g.factId] && IdsOf(verdicts[2].found) == [f.factId, f.factId]
  {
    hide CheckRule, Judge, IdsOf;
    CheckedNamesResolve(rule, registry, outputs, facts);
    var p := Resolve(rule, registry, outputs);
    SortedPairOfFacts(f, g);
    assert Inputs(rule, registry, outputs, facts) == [[f, g], [f, g]];
    PairsOf(f, g);
    hide Product, Inputs;
    var rows: seq<seq<Fact>> := [[f, f], [f, g], [g, f], [g, g]];
    assert Judged(rule, registry, outputs, facts) == Verdicts(rule, p, rows);
    forall i | 0 <= i < 4
      ensures Judge(rule, p, rows[i]).Qualifies?
              && IdsOf(Judge(rule, p, rows[i]).found) == [rows[i][1].factId, rows[i][1].factId]
    {
      PairJudged(rule, p, rows[i], name);
    }
  }

  lemma AllReported(rule: RuleSpec, verdicts: seq<Verdict>)
    requires ScanError(verdicts, rule.safety.maxMatches).None?
    ensures var result := FromVerdicts(rule, verdicts);
            result.Ok? && result.value.matches == Matches(verdicts)
  {
    hide ScanError, Matches, Rejections, Tally;
  }

  lemma StrLeAntisymmetricAt(a: string, b: string)
    requires StrLe(a, b) && a != b
    ensures !IdsLess([b, b], [a, a])
  {
    if StrLe(b, a) {
      StrLeAntisymmetric(a, b);
    }
  }

  lemma SortedPairOfFacts(f: Fact, g: Fact)
    requires StrLe(f.factId, g.factId)
    ensures Sort([f, g], FactLe) == [f, g]
  {
    assert [f, g][1..] == [g] && [g][1..] == [];
    assert Sort([g], FactLe) == [g];
  }

  lemma PairReady(rule: RuleSpec, registry: map<string, PredicateDef>, outputs: map<string, OutputDef>, name: string,
                  facts: map<string, seq<Fact>>)
    requires NamesOneInputTwice(rule, outputs, name) && facts.Keys == {name}
    ensures Ready(rule, registry, outputs, facts)
  {
    assert FeatureCalls(rule.scoreFeatures) == [];
  }

  lemma PairJudged(rule: RuleSpec, p: Prepared, row: seq<Fact>, name: string)
    requires rule.inputs == [name, name] && |row| == 2 && rule.scope == RuleScope(false, false, "any")
    requires p.predicates == [] && p.features == [] && p.output.required == map[]
    ensures var verdict := Judge(rule, p, row);
            verdict.Qualifies? && IdsOf(verdict.found) == [row[1].factId, row[1].factId]
  {
    hide WeightedSum, Contributions, PredicateCodes, ContributionCodes, Distinct;
    var context := ContextOf(rule.inputs, row);
    assert context[name] == row[1];
    assert ContextTypesFit(p, context);
    assert ScopeRejection(rule.scope, context) == None;
  }

  lemma AllQualify(verdicts: seq<Verdict>, maxMatches: int)
    requires |verdicts| == 4 && maxMatches >= 4 && forall i | 0 <= i < 4 :: verdicts[i].Qualifies?
    ensures ScanError(verdicts, maxMatches) == None
    ensures Matches(verdicts) == [verdicts[0].found, verdicts[1].found, verdicts[2].found, verdicts[3].found]
  {
    assert NoneBad(verdicts);
    assert verdicts[..3][..2] == verdicts[..2] && verdicts[..2][..1] == verdicts[..1] && verdicts[..1][..0] == [];
    assert Matches(verdicts[..1]) == [verdicts[0].found];
    assert Matches(verdicts[..2]) == [verdicts[0].found, verdicts[1].found];
    assert Matches(verdicts[..3]) == [verdicts[0].found, verdicts[1].found, verdicts[2].found];
    ScanErrorIff(verdicts, maxMatches);
  }

  /** Supplying the facts in another order changes nothing at all, as long as, within an input, a fact
      id stands for one fact; distinct ids are the common case. */
  lemma FactOrderIndependence(rule: RuleSpec, registry: map<string, PredicateDef>, outputs: map<string, OutputDef>,
                              facts: map<string, seq<Fact>>, shuffled: map<string, seq<Fact>>)
    requires facts.Keys == shuffled.Keys
    requires forall name | name in facts :: multiset(facts[name]) == multiset(shuffled[name])
    requires forall name | name in facts ::
               forall f, g | f in facts[name] && g in facts[name] && f.factId == g.factId :: f == g
    ensures Evaluation(rule, registry, outputs, facts) == Evaluation(rule, registry, outputs, shuffled)
  {
    hide CheckCalls, ScanError, Tally, Matches, Rejections, Verdicts, Product;
    FactLeOrder();
    if forall name | name in rule.inputs :: name in facts {
      forall i | 0 <= i < |rule.inputs| ensures SortedInputs(rule, facts)[i] == SortedInputs(rule, shuffled)[i] {
        var name := rule.inputs[i];
        IdsSeparate(facts[name]);
        SortOfPermutation(facts[name], shuffled[name], FactLe);
      }
      assert SortedInputs(rule, facts) == SortedInputs(rule, shuffled);
    }
  }

  lemma IdsSeparate(xs: seq<Fact>)
    requires forall f, g | f in xs && g in xs && f.factId == g.factId :: f == g
    ensures Separates(FactLe, xs)
  {
    forall x, y | x in xs && y in xs && FactLe(x, y) && FactLe(y, x) ensures x == y {
      StrLeAntisymmetric(x.factId, y.factId);
    }
  }

  // ------------------------------------------------------------------ order of predicates

  /** Two verdicts that differ at most in reason codes and in what was emitted. */
  ghost predicate Agree(v: Verdict, w: Verdict) {
    match v
    case WrongType => w.WrongType?
    case Rejected(_) => w.Rejected?
    case BadValue => w.BadValue?
    case Qualifies(m) =>
      w.Qualifies? && m.factRefs == w.found.factRefs && m.score == w.found.score && m.contributions == w.found.contributions
  }

  lemma ResolvedMembers(calls: seq<PredicateCall>, registry: map<string, PredicateDef>,
                                       pairs: seq<(PredicateCall, PredicateDef)>)
    requires forall c | c in calls :: c.name in registry
    requires |pairs| == |calls| && forall i | 0 <= i < |calls| :: pairs[i] == (calls[i], registry[calls[i].name])
    ensures forall x :: x in pairs <==> x.0 in calls && x.0.name in registry && x.1 == registry[x.0.name]
  {
    forall x: (PredicateCall, PredicateDef) | x.0 in calls && x.0.name in registry && x.1 == registry[x.0.name] ensures x in pairs {
      var i :| 0 <= i < |calls| && calls[i] == x.0;
      assert pairs[i] == x;
    }
  }

  lemma SameMembersSameTests(p: Prepared, q: Prepared, context: Context)
    requires forall x :: x in p.predicates <==> x in q.predicates
    requires p.features == q.features && p.output == q.output
    ensures ContextTypesFit(p, context) <==> ContextTypesFit(q, context)
    ensures AllMatch(context, p.predicates) <==> AllMatch(context, q.predicates)
  {
    hide TypesFit, ResultOf;
    forall i | 0 <= i < |p.predicates| ensures exists j :: 0 <= j < |q.predicates| && q.predicates[j] == p.predicates[i] {
      assert p.predicates[i] in q.predicates;
    }
    forall j | 0 <= j < |q.predicates| ensures exists i :: 0 <= i < |p.predicates| && p.predicates[i] == q.predicates[j] {
      assert q.predicates[j] in p.predicates;
    }
  }

  lemma PermutedVerdict(rule: RuleSpec, permuted: RuleSpec, p: Prepared, q: Prepared, combination: seq<Fact>)
    requires |combination| == |rule.inputs| && permuted == rule.(predicates := permuted.predicates)
    requires forall x :: x in p.predicates <==> x in q.predicates
    requires p.features == q.features && p.output == q.output
    ensures Agree(Judge(rule, p, combination), Judge(permuted, q, combination))
  {
    hide ContextTypesFit, ScopeRejection, FeatureValuesFit, WeightedSum, Contributions, ContextOf, ResultOf, PredicateCodes,
      Distinct, FactRefs, Clamp, RejectionCode;
    var context := ContextOf(rule.inputs, combination);
    SameMembersSameTests(p, q, context);
    assert AllMatch(context, p.predicates) <==> FirstMiss(context, p.predicates) == |p.predicates|;
    assert AllMatch(context, q.predicates) <==> FirstMiss(context, q.predicates) == |q.predicates|;
  }

  lemma {:induction false} AgreeingScans(v: seq<Verdict>, w: seq<Verdict>, maxMatches: int)
    requires |v| == |w| && forall i | 0 <= i < |v| :: Agree(v[i], w[i])
    ensures ScanError(v, maxMatches) == ScanError(w, maxMatches)
    ensures |Rejections(v)| == |Rejections(w)|
    ensures |Matches(v)| == |Matches(w)|
    ensures forall i | 0 <= i < |Matches(v)| :: Agree(Qualifies(Matches(v)[i]), Qualifies(Matches(w)[i]))
  {
    if v != [] {
      AgreeingScans(v[..|v| - 1], w[..|w| - 1], maxMatches);
      assert Agree(v[|v| - 1], w[|w| - 1]);
    }
  }

  lemma SameMembersSameCheck(rule: RuleSpec, permuted: RuleSpec, registry: map<string, PredicateDef>,
                             outputs: map<string, OutputDef>, facts: map<string, seq<Fact>>)
    requires permuted == rule.(predicates := permuted.predicates)
    requires forall c :: c in permuted.predicates <==> c in rule.predicates
    ensures CheckRule(rule, registry, outputs, facts).None? <==> CheckRule(permuted, registry, outputs, facts).None?
  {
    assert forall c :: CheckCall(rule, registry, c) == CheckCall(permuted, registry, c);
    SameInputsSameFeatureCheck(rule, permuted, registry, FeatureCalls(rule.scoreFeatures));
  }

  lemma {:induction false} SameInputsSameFeatureCheck(rule: RuleSpec, permuted: RuleSpec, registry: map<string, PredicateDef>,
                                                      calls: seq<PredicateCall>)
    requires rule.inputs == permuted.inputs
    ensures CheckCalls(rule, registry, calls) == CheckCalls(permuted, registry, calls)
  {
    if calls != [] {
      SameInputsSameFeatureCheck(rule, permuted, registry, calls[1..]);
    }
  }

  ghost function FromVerdicts(rule: RuleSpec, verdicts: seq<Verdict>): Result<Report, Error> {
    var error := ScanError(verdicts, rule.safety.maxMatches);
    if error.Some? then Err(error.value)
    else Ok(Report(rule.ruleId, rule.version, |verdicts|, Matches(verdicts), Tally(Rejections(verdicts))))
  }

  lemma EvaluationFromVerdicts(rule: RuleSpec, registry: map<string, PredicateDef>, outputs: map<string, OutputDef>,
                               facts: map<string, seq<Fact>>)
    requires Ready(rule, registry, outputs, facts)
    ensures Evaluation(rule, registry, outputs, facts) == FromVerdicts(rule, Judged(rule, registry, outputs, facts))
  {
    hide CheckRule, Judge, Tally, Product, ScanError, Matches, Rejections;
  }

  lemma PermutedVerdicts(rule: RuleSpec, permuted: RuleSpec, registry: map<string, PredicateDef>,
                         outputs: map<string, OutputDef>, facts: map<string, seq<Fact>>)
    requires permuted == rule.(predicates := permuted.predicates)
    requires multiset(permuted.predicates) == multiset(rule.predicates)
    requires Ready(rule, registry, outputs, facts) && Ready(permuted, registry, outputs, facts)
    ensures var v, w := Judged(rule, registry, outputs, facts), Judged(permuted, registry, outputs, facts);
            |v| == |w| && forall i | 0 <= i < |v| :: Agree(v[i], w[i])
  {
    hide CheckRule, Judge, Product, Agree;
    SameElements(permuted.predicates, rule.predicates);
    CheckedFactsCover(rule, registry, outputs, facts);
    CheckedNamesResolve(rule, registry, outputs, facts);
    CheckedNamesResolve(permuted, registry, outputs, facts);
    var p, q := Resolve(rule, registry, outputs), Resolve(permuted, registry, outputs);
    ResolvedMembers(rule.predicates, registry, p.predicates);
    ResolvedMembers(permuted.predicates, registry, q.predicates);
    assert SortedInputs(permuted, facts) == SortedInputs(rule, facts);
    var combinations := Product(SortedInputs(rule, facts));
    assert p.features == q.features && p.output == q.output;
    forall i | 0 <= i < |combinations| ensures Agree(Judge(rule, p, combinations[i]), Judge(permuted, q, combinations[i])) {
      PermutedVerdict(rule, permuted, p, q, combinations[i]);
    }
  }

  /** Listing a rule's predicates in another order keeps its acceptance, its errors in the scan, the
      matched combinations with their scores and contributions, and the total of rejections. */
  lemma PredicateOrderIndependence(rule: RuleSpec, permuted: RuleSpec, registry: map<string, PredicateDef>,
                                   outputs: map<string, OutputDef>, facts: map<string, seq<Fact>>)
    requires permuted == rule.(predicates := permuted.predicates)
    requires multiset(permuted.predicates) == multiset(rule.predicates)
    requires Ready(rule, registry, outputs, facts)
    ensures Ready(permuted, registry, outputs, facts)
    ensures var a, b := Evaluation(rule, registry, outputs, facts), Evaluation(permuted, registry, outputs, facts);
            && (a.Err? ==> a == b) && (b.Err? ==> a == b)
            && (a.Ok? ==>
                  && a.value.evaluated == b.value.evaluated
                  && SumCounts(a.value.rejectionCounts) == SumCounts(b.value.rejectionCounts)
                  && |a.value.matches| == |b.value.matches|
                  && forall i | 0 <= i < |a.value.matches| ::
                       Agree(Qualifies(a.value.matches[i]), Qualifies(b.value.matches[i])))
  {
    SameElements(permuted.predicates, rule.predicates);
    SameMembersSameCheck(rule, permuted, registry, outputs, facts);
    hide CheckRule, Judged, Evaluation, Tally, SumCounts, ScanError, Matches, Rejections, Agree;
    PermutedVerdicts(rule, permuted, registry, outputs, facts);
    EvaluationFromVerdicts(rule, registry, outputs, facts);
    EvaluationFromVerdicts(permuted, registry, outputs, facts);
    var v, w := Judged(rule, registry, outputs, facts), Judged(permuted, registry, outputs, facts);
    AgreeingScans(v, w, rule.safety.maxMatches);
    TallySums(Rejections(v));
    TallySums(Rejections(w));
  }
}
