/** `OfflineRuleEngine.evaluate` of `apiAnalysis/rule/framework.py`. Scores are reals; the final
    rounding to six digits is left out. */
module RuleEngine {
  import opened Order
  import opened RuleSpecs
  import opened Wrappers

  // ------------------------------------------------------------------ facts and definitions

  datatype FactKind = EndpointFact | ParameterOccurrenceFact | ObservationSummaryFact | PrincipalContextFact
                    | RelationFact | ExecutionCapabilityFact | OtherFact(name: string)

  /** A frozen fact. An attribute a fact class lacks reads as the empty string, as `getattr` does. */
  datatype Fact = Fact(factId: string, projectId: string, envId: string, kind: FactKind, principalId: string,
                       profileRevisionId: string, scopeKey: string, payload: string)

  datatype ExpectedType = AnyFact | Exactly(kind: FactKind)

  predicate IsInstance(f: Fact, t: ExpectedType) {
    t.AnyFact? || f.kind == t.kind
  }

  type Context = map<string, Fact>

  datatype PredicateResult = PredicateResult(matched: bool, value: real, reasonCodes: seq<string>)

  datatype PredicateDef = PredicateDef(name: string, required: map<string, ExpectedType>,
                                       validArgs: Args -> bool, evaluate: (Context, Args) -> PredicateResult)

  datatype Contribution = Contribution(predicateName: string, value: real, weight: real, contribution: real, reasonCodes: seq<string>)

  datatype OutputDef = OutputDef(name: string, required: map<string, ExpectedType>, validArgs: Args -> bool,
                                 emit: (Context, RuleSpec, real, seq<string>, seq<Contribution>) -> string)

  datatype Error = ProtocolError | UnknownPredicate(name: string) | UnknownOutputAdapter(adapter: string) | BudgetExceeded

  datatype RuleMatch = RuleMatch(ruleId: string, ruleVersion: int, factRefs: seq<(string, string)>, score: real,
                                 reasonCodes: seq<string>, contributions: seq<Contribution>, output: string)

  datatype Report = Report(ruleId: string, ruleVersion: int, evaluated: nat, matches: seq<RuleMatch>,
                           rejectionCounts: seq<(string, nat)>)

  /** The predicate registry: names are claimed once. */
  class PredicateRegistry {
    var items: map<string, PredicateDef>

    constructor ()
      ensures items == map[]
    {
      items := map[];
    }

    method Register(definition: PredicateDef, versioned: string -> bool) returns (ok: bool)
      modifies this
      ensures ok <==> versioned(definition.name) && definition.name !in old(items)
      ensures items == if ok then old(items)[definition.name := definition] else old(items)
    {
      ok := versioned(definition.name) && definition.name !in items;
      if ok {
        items := items[definition.name := definition];
      }
    }
  }

  // ------------------------------------------------------------------ preparation

  datatype Prepared = Prepared(predicates: seq<(PredicateCall, PredicateDef)>,
                               features: seq<(ScoreFeature, PredicateDef)>, output: OutputDef)

  predicate InputsCover(inputs: seq<string>, required: map<string, ExpectedType>) {
    forall name | name in required :: name in inputs
  }

  function CheckCall(rule: RuleSpec, registry: map<string, PredicateDef>, call: PredicateCall): Option<Error> {
    if call.name !in registry then Some(UnknownPredicate(call.name))
    else if !registry[call.name].validArgs(call.args) || !InputsCover(rule.inputs, registry[call.name].required)
    then Some(ProtocolError)
    else None
  }

  /** The first call that cannot be resolved decides the error. */
  function CheckCalls(rule: RuleSpec, registry: map<string, PredicateDef>, calls: seq<PredicateCall>): (r: Option<Error>)
    ensures r.None? <==> forall c | c in calls :: CheckCall(rule, registry, c).None?
  {
    if calls == [] then None
    else
      var first := CheckCall(rule, registry, calls[0]);
      if first.Some? then first else CheckCalls(rule, registry, calls[1..])
  }

  function FeatureCalls(features: seq<ScoreFeature>): seq<PredicateCall> {
    seq(|features|, i requires 0 <= i < |features| => features[i].call)
  }

  /** Everything `evaluate` checks before it looks at the facts. */
  function CheckRule(rule: RuleSpec, registry: map<string, PredicateDef>, outputs: map<string, OutputDef>,
                     facts: map<string, seq<Fact>>): (r: Option<Error>)
    ensures r.None? ==> rule.emit.adapter in outputs
    ensures r.None? ==> forall c | c in rule.predicates :: c.name in registry
    ensures r.None? ==> forall c | c in FeatureCalls(rule.scoreFeatures) :: c.name in registry
  {
    if rule.safety.network != "forbidden" || rule.safety.mutation != "forbidden" then Some(ProtocolError)
    else if facts.Keys != set name | name in rule.inputs then Some(ProtocolError)
    else
      var predicates := CheckCalls(rule, registry, rule.predicates);
      if predicates.Some? then predicates
      else
        var features := CheckCalls(rule, registry, FeatureCalls(rule.scoreFeatures));
        if features.Some? then features
        else if rule.emit.adapter !in outputs then Some(UnknownOutputAdapter(rule.emit.adapter))
        else if !outputs[rule.emit.adapter].validArgs(rule.emit.args)
                || !InputsCover(rule.inputs, outputs[rule.emit.adapter].required) then Some(ProtocolError)
        else None
  }

  function Resolve(rule: RuleSpec, registry: map<string, PredicateDef>, outputs: map<string, OutputDef>): Prepared
    requires rule.emit.adapter in outputs
    requires forall c | c in rule.predicates :: c.name in registry
    requires forall c | c in FeatureCalls(rule.scoreFeatures) :: c.name in registry
  {
    Prepared(
      seq(|rule.predicates|, i requires 0 <= i < |rule.predicates| => (rule.predicates[i], registry[rule.predicates[i].name])),
      seq(|rule.scoreFeatures|, i requires 0 <= i < |rule.scoreFeatures| =>
        assert FeatureCalls(rule.scoreFeatures)[i] in FeatureCalls(rule.scoreFeatures);
        (rule.scoreFeatures[i], registry[rule.scoreFeatures[i].call.name])),
      outputs[rule.emit.adapter])
  }

  // ------------------------------------------------------------------ one combination

  /** `dict(zip(inputs, combination))`. */
  function ContextOf(inputs: seq<string>, combination: seq<Fact>): (c: Context)
    requires |inputs| == |combination|
    ensures c.Keys == set name | name in inputs
  {
    if inputs == [] then map[]
    else
      ContextOf(inputs[..|inputs| - 1], combination[..|inputs| - 1])[inputs[|inputs| - 1] := combination[|inputs| - 1]]
  }

  predicate TypesFit(context: Context, required: map<string, ExpectedType>) {
    forall name | name in required :: name in context && IsInstance(context[name], required[name])
  }

  predicate ContextTypesFit(p: Prepared, context: Context) {
    && (forall i | 0 <= i < |p.predicates| :: TypesFit(context, p.predicates[i].1.required))
    && (forall i | 0 <= i < |p.features| :: TypesFit(context, p.features[i].1.required))
    && TypesFit(context, p.output.required)
  }

  /** The principal attribute a relation compares; only the five names the parser admits occur. */
  function PrincipalField(relation: string, f: Fact): string {
    if relation == "same_principal" || relation == "different_principal" then f.principalId
    else if relation == "same_profile_revision" then f.profileRevisionId
    else f.scopeKey
  }

  predicate IsSame(relation: string) {
    relation == "same_principal" || relation == "same_profile_revision" || relation == "same_scope"
  }

  function ProjectsOf(context: Context): map<string, string> {
    map n | n in context :: context[n].projectId
  }

  function EnvironmentsOf(context: Context): map<string, string> {
    map n | n in context :: context[n].envId
  }

  function PrincipalsOf(context: Context, relation: string): map<string, string> {
    map n | n in context :: PrincipalField(relation, context[n])
  }

  /** `_scope_rejection`; `None` is the empty reason. */
  function ScopeRejection(scope: RuleScope, context: Context): Option<string> {
    var projects := ProjectsOf(context).Values;
    var environments := EnvironmentsOf(context).Values;
    var selected := PrincipalsOf(context, scope.principalRelation).Values;
    if scope.sameProject && ("" in projects || |projects| != 1) then Some("SCOPE_PROJECT_MISMATCH")
    else if scope.sameEnvironment && ("" in environments || |environments| != 1) then Some("SCOPE_ENVIRONMENT_MISMATCH")
    else if scope.principalRelation == "any" then None
    else if selected == {} || "" in selected then Some("SCOPE_PRINCIPAL_CONTEXT_MISSING")
    else if IsSame(scope.principalRelation) != (|selected| == 1) then Some("SCOPE_PRINCIPAL_RELATION_MISMATCH")
    else None
  }

  function ResultOf(context: Context, d: (PredicateCall, PredicateDef)): PredicateResult {
    d.1.evaluate(context, d.0.args)
  }

  function RejectionCode(r: PredicateResult): string {
    if r.reasonCodes != [] then r.reasonCodes[0] else "PREDICATE_REJECTED"
  }

  /** The index of the first hard predicate that does not match, or the number of predicates. */
  function FirstMiss(context: Context, predicates: seq<(PredicateCall, PredicateDef)>): (i: nat)
    ensures i <= |predicates|
    ensures forall j | 0 <= j < i :: ResultOf(context, predicates[j]).matched
    ensures i < |predicates| ==> !ResultOf(context, predicates[i]).matched
  {
    if predicates == [] || !ResultOf(context, predicates[0]).matched then 0
    else 1 + FirstMiss(context, predicates[1..])
  }

  function FeatureValue(context: Context, f: (ScoreFeature, PredicateDef)): PredicateResult {
    f.1.evaluate(context, f.0.call.args)
  }

  predicate FeatureValuesFit(context: Context, features: seq<(ScoreFeature, PredicateDef)>) {
    forall i | 0 <= i < |features| :: 0.0 <= FeatureValue(context, features[i]).value <= 1.0
  }

  function ContributionOf(context: Context, f: (ScoreFeature, PredicateDef)): Contribution {
    var r := FeatureValue(context, f);
    Contribution(f.0.call.name, r.value, f.0.weight, r.value * f.0.weight, r.reasonCodes)
  }

  function Contributions(context: Context, features: seq<(ScoreFeature, PredicateDef)>): seq<Contribution> {
    seq(|features|, i requires 0 <= i < |features| => ContributionOf(context, features[i]))
  }

  function WeightedSum(base: real, contributions: seq<Contribution>): real {
    if contributions == [] then base
    else WeightedSum(base, contributions[..|contributions| - 1]) + contributions[|contributions| - 1].contribution
  }

  function Clamp(x: real): real {
    if x < 0.0 then 0.0 else if x > 1.0 then 1.0 else x
  }

  function PredicateCodes(context: Context, predicates: seq<(PredicateCall, PredicateDef)>): seq<string> {
    if predicates == [] then []
    else PredicateCodes(context, predicates[..|predicates| - 1]) + ResultOf(context, predicates[|predicates| - 1]).reasonCodes
  }

  function ContributionCodes(contributions: seq<Contribution>): seq<string> {
    if contributions == [] then []
    else ContributionCodes(contributions[..|contributions| - 1]) + contributions[|contributions| - 1].reasonCodes
  }

  /** `tuple(dict.fromkeys(codes))`. */
  function Distinct(codes: seq<string>): (r: seq<string>)
    ensures forall c :: c in r <==> c in codes
  {
    if codes == [] then []
    else
      var front := Distinct(codes[..|codes| - 1]);
      if codes[|codes| - 1] in front then front else front + [codes[|codes| - 1]]
  }

  function FactRefs(inputs: seq<string>, context: Context): seq<(string, string)>
    requires forall name | name in inputs :: name in context
  {
    seq(|inputs|, i requires 0 <= i < |inputs| => (inputs[i], context[inputs[i]].factId))
  }

  /** What becomes of one combination of facts. */
  datatype Verdict = WrongType | Rejected(code: string) | BadValue | Qualifies(found: RuleMatch)

  function Judge(rule: RuleSpec, p: Prepared, combination: seq<Fact>): Verdict
    requires |combination| == |rule.inputs|
  {
    var context := ContextOf(rule.inputs, combination);
    if !ContextTypesFit(p, context) then WrongType
    else
      var scope := ScopeRejection(rule.scope, context);
      if scope.Some? then Rejected(scope.value)
      else
        var miss := FirstMiss(context, p.predicates);
        if miss < |p.predicates| then Rejected(RejectionCode(ResultOf(context, p.predicates[miss])))
        else if !FeatureValuesFit(context, p.features) then BadValue
        else
          var contributions := Contributions(context, p.features);
          var score := Clamp(WeightedSum(rule.scoreBase, contributions));
          var codes := Distinct(PredicateCodes(context, p.predicates) + ContributionCodes(contributions));
          Qualifies(RuleMatch(rule.ruleId, rule.version, FactRefs(rule.inputs, context), score, codes, contributions,
                              p.output.emit(context, rule, score, codes, contributions)))
  }

  // ------------------------------------------------------------------ all combinations

  function Prepend(x: Fact, rows: seq<seq<Fact>>): (r: seq<seq<Fact>>)
    ensures |r| == |rows| && forall i | 0 <= i < |rows| :: r[i] == [x] + rows[i]
  {
    seq(|rows|, i requires 0 <= i < |rows| => [x] + rows[i])
  }

  function Spread(xs: seq<Fact>, rows: seq<seq<Fact>>): seq<seq<Fact>> {
    if xs == [] then [] else Prepend(xs[0], rows) + Spread(xs[1..], rows)
  }

  /** `itertools.product`: the last input varies fastest. */
  function Product(values: seq<seq<Fact>>): (r: seq<seq<Fact>>)
    ensures forall c | c in r :: |c| == |values|
  {
    if values == [] then [[]]
    else
      var r := Spread(values[0], Product(values[1..]));
      SpreadMembers(values[0], Product(values[1..]));
      r
  }

  lemma SpreadMembers(xs: seq<Fact>, rows: seq<seq<Fact>>)
    ensures forall c :: c in Spread(xs, rows) <==> c != [] && c[0] in xs && c[1..] in rows
  {
    if xs != [] {
      SpreadMembers(xs[1..], rows);
      forall c ensures c in Prepend(xs[0], rows) <==> c != [] && c[0] == xs[0] && c[1..] in rows {
        if c != [] && c[0] == xs[0] && c[1..] in rows {
          var i :| 0 <= i < |rows| && rows[i] == c[1..];
          assert Prepend(xs[0], rows)[i] == c;
        }
      }
    }
  }

  predicate FactLe(a: Fact, b: Fact) {
    StrLe(a.factId, b.factId)
  }

  function SortedInputs(rule: RuleSpec, facts: map<string, seq<Fact>>): seq<seq<Fact>>
    requires forall name | name in rule.inputs :: name in facts
  {
    seq(|rule.inputs|, i requires 0 <= i < |rule.inputs| => Sort(facts[rule.inputs[i]], FactLe))
  }

  function Verdicts(rule: RuleSpec, p: Prepared, combinations: seq<seq<Fact>>): seq<Verdict>
    requires forall c | c in combinations :: |c| == |rule.inputs|
  {
    seq(|combinations|, i requires 0 <= i < |combinations| => Judge(rule, p, combinations[i]))
  }

  function Matches(verdicts: seq<Verdict>): seq<RuleMatch> {
    if verdicts == [] then []
    else
      var last := verdicts[|verdicts| - 1];
      Matches(verdicts[..|verdicts| - 1]) + if last.Qualifies? then [last.found] else []
  }

  function Rejections(verdicts: seq<Verdict>): multiset<string> {
    if verdicts == [] then multiset{}
    else
      var last := verdicts[|verdicts| - 1];
      Rejections(verdicts[..|verdicts| - 1]) + if last.Rejected? then multiset{last.code} else multiset{}
  }

  /** The error the scan over the combinations stops with, if any. */
  function ScanError(verdicts: seq<Verdict>, maxMatches: int): Option<Error> {
    if verdicts == [] then None
    else
      var front := verdicts[..|verdicts| - 1];
      var last := verdicts[|verdicts| - 1];
      var before := ScanError(front, maxMatches);
      if before.Some? then before
      else if last.WrongType? || last.BadValue? then Some(ProtocolError)
      else if last.Qualifies? && |Matches(front)| + 1 > maxMatches then Some(BudgetExceeded)
      else None
  }

  function Tally(rejected: multiset<string>): seq<(string, nat)> {
    StrLeOrder();
    var codes := SortedSet((set c | c in rejected), StrLe);
    seq(|codes|, i requires 0 <= i < |codes| => (codes[i], rejected[codes[i]]))
  }

  /** The declarative result of an evaluation. */
  function Evaluation(rule: RuleSpec, registry: map<string, PredicateDef>, outputs: map<string, OutputDef>,
                      facts: map<string, seq<Fact>>): Result<Report, Error>
  {
    if !rule.enabled then Ok(Report(rule.ruleId, rule.version, 0, [], []))
    else if CheckRule(rule, registry, outputs, facts).Some? then Err(CheckRule(rule, registry, outputs, facts).value)
    else
      CheckedFactsCover(rule, registry, outputs, facts);
      var p := Resolve(rule, registry, outputs);
      var verdicts := Verdicts(rule, p, Product(SortedInputs(rule, facts)));
      var error := ScanError(verdicts, rule.safety.maxMatches);
      if error.Some? then Err(error.value)
      else Ok(Report(rule.ruleId, rule.version, |verdicts|, Matches(verdicts), Tally(Rejections(verdicts))))
  }

  lemma CheckedFactsCover(rule: RuleSpec, registry: map<string, PredicateDef>, outputs: map<string, OutputDef>,
                          facts: map<string, seq<Fact>>)
    requires CheckRule(rule, registry, outputs, facts).None?
    ensures forall name | name in rule.inputs :: name in facts
  {
    assert facts.Keys == set name | name in rule.inputs;
  }

  // ------------------------------------------------------------------ the engine's loops

  lemma FirstMissIs(context: Context, predicates: seq<(PredicateCall, PredicateDef)>, i: nat)
    requires i <= |predicates|
    requires forall j | 0 <= j < i :: ResultOf(context, predicates[j]).matched
    requires i < |predicates| ==> !ResultOf(context, predicates[i]).matched
    ensures FirstMiss(context, predicates) == i
  {
    hide ResultOf;
  }

  method JudgeCombination(rule: RuleSpec, p: Prepared, combination: seq<Fact>) returns (verdict: Verdict)
    requires |combination| == |rule.inputs|
    ensures verdict == Judge(rule, p, combination)
  {
    hide ContextTypesFit, ScopeRejection, Distinct, ContextOf, FeatureValuesFit, Contributions, PredicateCodes, ContributionCodes;
    var context := ContextOf(rule.inputs, combination);
    if !ContextTypesFit(p, context) {
      return WrongType;
    }
    var scope := ScopeRejection(rule.scope, context);
    if scope.Some? {
      return Rejected(scope.value);
    }
    var rejection, hardCodes := HardPredicates(context, p.predicates);
    if rejection.Some? {
      return Rejected(rejection.value);
    }
    var contributions, fits := ScoreFeatures(context, p.features);
    if !fits {
      return BadValue;
    }
    var score, featureCodes := SumScore(rule.scoreBase, contributions);
    var codes := Distinct(hardCodes + featureCodes);
    return Qualifies(RuleMatch(rule.ruleId, rule.version, FactRefs(rule.inputs, context), score, codes, contributions,
                               p.output.emit(context, rule, score, codes, contributions)));
  }

  /** The short-circuiting loop over the hard predicates. */
  method HardPredicates(context: Context, predicates: seq<(PredicateCall, PredicateDef)>)
    returns (rejection: Option<string>, reasonCodes: seq<string>)
    ensures var miss := FirstMiss(context, predicates);
            && (rejection.None? <==> miss == |predicates|)
            && (miss < |predicates| ==> rejection == Some(RejectionCode(ResultOf(context, predicates[miss]))))
            && (rejection.None? ==> reasonCodes == PredicateCodes(context, predicates))
  {
    hide ResultOf;
    reasonCodes := [];
    for i := 0 to |predicates|
      invariant forall j | 0 <= j < i :: ResultOf(context, predicates[j]).matched
      invariant reasonCodes == PredicateCodes(context, predicates[..i])
    {
      var result := ResultOf(context, predicates[i]);
      assert predicates[..i + 1][..i] == predicates[..i];
      reasonCodes := reasonCodes + result.reasonCodes;
      if !result.matched {
        FirstMissIs(context, predicates, i);
        return Some(RejectionCode(result)), reasonCodes;
      }
    }
    FirstMissIs(context, predicates, |predicates|);
    assert predicates[..|predicates|] == predicates;
    return None, reasonCodes;
  }

  /** The accumulation of the score and of the features' reason codes. */
  method SumScore(base: real, contributions: seq<Contribution>) returns (score: real, reasonCodes: seq<string>)
    ensures score == Clamp(WeightedSum(base, contributions))
    ensures reasonCodes == ContributionCodes(contributions)
  {
    score := base;
    reasonCodes := [];
    for i := 0 to |contributions|
      invariant score == WeightedSum(base, contributions[..i])
      invariant reasonCodes == ContributionCodes(contributions[..i])
    {
      assert contributions[..i + 1][..i] == contributions[..i];
      score := score + contributions[i].contribution;
      reasonCodes := reasonCodes + contributions[i].reasonCodes;
    }
    assert contributions[..|contributions|] == contributions;
    score := Clamp(score);
  }

  method ScoreFeatures(context: Context, features: seq<(ScoreFeature, PredicateDef)>)
    returns (contributions: seq<Contribution>, fits: bool)
    ensures fits <==> FeatureValuesFit(context, features)
    ensures fits ==> contributions == Contributions(context, features)
  {
    contributions := [];
    for i := 0 to |features|
      invariant |contributions| == i
      invariant forall j | 0 <= j < i ::
                  contributions[j] == ContributionOf(context, features[j]) && 0.0 <= FeatureValue(context, features[j]).value <= 1.0
    {
      var result := FeatureValue(context, features[i]);
      if !(0.0 <= result.value <= 1.0) {
        return contributions, false;
      }
      contributions := contributions + [ContributionOf(context, features[i])];
    }
    return contributions, true;
  }

  lemma {:induction false} ScanErrorSticks(verdicts: seq<Verdict>, i: nat, maxMatches: int)
    requires i <= |verdicts| && ScanError(verdicts[..i], maxMatches).Some?
    ensures ScanError(verdicts, maxMatches) == ScanError(verdicts[..i], maxMatches)
  {
    if i < |verdicts| {
      var front := verdicts[..|verdicts| - 1];
      assert front[..i] == verdicts[..i];
      ScanErrorSticks(front, i, maxMatches);
    } else {
      assert verdicts[..i] == verdicts;
    }
  }

  lemma ScanStep(verdicts: seq<Verdict>, k: nat, maxMatches: int)
    requires k < |verdicts|
    ensures var (before, v) := (verdicts[..k], verdicts[k]);
            Matches(verdicts[..k + 1]) == Matches(before) + (if v.Qualifies? then [v.found] else [])
            && Rejections(verdicts[..k + 1]) == Rejections(before) + (if v.Rejected? then multiset{v.code} else multiset{})
            && (ScanError(before, maxMatches).None? ==>
                  ScanError(verdicts[..k + 1], maxMatches)
                  == if v.WrongType? || v.BadValue? then Some(ProtocolError)
                     else if v.Qualifies? && |Matches(before)| + 1 > maxMatches then Some(BudgetExceeded) else None)
  {
    assert verdicts[..k + 1][..k] == verdicts[..k];
  }

  lemma NothingScanned(verdicts: seq<Verdict>, maxMatches: int)
    ensures Matches(verdicts[..0]) == [] && Rejections(verdicts[..0]) == multiset{} && ScanError(verdicts[..0], maxMatches) == None
  {
  }

  /** The scan over the product: it counts, rejects, collects, and raises instead of truncating. */
  method Scan(rule: RuleSpec, p: Prepared, combinations: seq<seq<Fact>>) returns (r: Result<Report, Error>)
    requires forall c | c in combinations :: |c| == |rule.inputs|
    ensures var verdicts := Verdicts(rule, p, combinations);
            var error := ScanError(verdicts, rule.safety.maxMatches);
            r == if error.Some? then Err(error.value)
                 else Ok(Report(rule.ruleId, rule.version, |verdicts|, Matches(verdicts), Tally(Rejections(verdicts))))
  {
    hide Judge, Tally, Matches, Rejections, ScanError;
    ghost var verdicts := Verdicts(rule, p, combinations);
    NothingScanned(verdicts, rule.safety.maxMatches);
    var matches: seq<RuleMatch> := [];
    var rejected: multiset<string> := multiset{};
    var evaluated := 0;
    while evaluated < |combinations|
      invariant 0 <= evaluated <= |combinations|
      invariant matches == Matches(verdicts[..evaluated])
      invariant rejected == Rejections(verdicts[..evaluated])
      invariant ScanError(verdicts[..evaluated], rule.safety.maxMatches).None?
    {
      var verdict := JudgeCombination(rule, p, combinations[evaluated]);
      assert verdict == verdicts[evaluated];
      ScanStep(verdicts, evaluated, rule.safety.maxMatches);
      evaluated := evaluated + 1;
      match verdict {
        case WrongType =>
          ScanErrorSticks(verdicts, evaluated, rule.safety.maxMatches);
          return Err(ProtocolError);
        case Rejected(code) =>
          rejected := rejected + multiset{code};
        case BadValue =>
          ScanErrorSticks(verdicts, evaluated, rule.safety.maxMatches);
          return Err(ProtocolError);
        case Qualifies(found) =>
          matches := matches + [found];
          if |matches| > rule.safety.maxMatches {
            ScanErrorSticks(verdicts, evaluated, rule.safety.maxMatches);
            return Err(BudgetExceeded);
          }
      }
    }
    assert verdicts[..evaluated] == verdicts;
    return Ok(Report(rule.ruleId, rule.version, evaluated, matches, Tally(rejected)));
  }

  lemma {:induction false} EmptyInputEmptyProduct(values: seq<seq<Fact>>, i: nat)
    requires i < |values| && values[i] == []
    ensures Product(values) == []
  {
    if i > 0 {
      EmptyInputEmptyProduct(values[1..], i - 1);
      SpreadNothing(values[0]);
    }
  }

  lemma SpreadNothing(xs: seq<Fact>)
    ensures Spread(xs, []) == []
  {
  }

  /** `OfflineRuleEngine.evaluate`. */
  method Evaluate(rule: RuleSpec, registry: map<string, PredicateDef>, outputs: map<string, OutputDef>,
                  facts: map<string, seq<Fact>>) returns (r: Result<Report, Error>)
    ensures r == Evaluation(rule, registry, outputs, facts)
  {
    hide CheckRule, ScanError, Judge, Tally, Matches, Rejections, Product, Sort;
    if !rule.enabled {
      return Ok(Report(rule.ruleId, rule.version, 0, [], []));
    }
    var failure := CheckRule(rule, registry, outputs, facts);
    if failure.Some? {
      return Err(failure.value);
    }
    CheckedFactsCover(rule, registry, outputs, facts);
    CheckedNamesResolve(rule, registry, outputs, facts);
    var p := Resolve(rule, registry, outputs);
    var ordered: seq<seq<Fact>> := [];
    for i := 0 to |rule.inputs|
      invariant |ordered| == i && ordered == SortedInputs(rule, facts)[..i]
    {
      var values := Sort(facts[rule.inputs[i]], FactLe);
      if values == [] {
        EmptyInputEmptyProduct(SortedInputs(rule, facts), i);
        EmptyScan(rule, p);
        return Ok(Report(rule.ruleId, rule.version, 0, [], []));
      }
      ordered := ordered + [values];
    }
    assert ordered == SortedInputs(rule, facts);
    r := Scan(rule, p, Product(ordered));
  }

  lemma CheckedNamesResolve(rule: RuleSpec, registry: map<string, PredicateDef>, outputs: map<string, OutputDef>,
                            facts: map<string, seq<Fact>>)
    requires CheckRule(rule, registry, outputs, facts).None?
    ensures rule.emit.adapter in outputs
    ensures forall c | c in rule.predicates :: c.name in registry
    ensures forall c | c in FeatureCalls(rule.scoreFeatures) :: c.name in registry
  {
  }

  lemma EmptyScan(rule: RuleSpec, p: Prepared)
    ensures var verdicts := Verdicts(rule, p, []);
            && ScanError(verdicts, rule.safety.maxMatches).None?
            && |verdicts| == 0 && Matches(verdicts) == [] && Tally(Rejections(verdicts)) == []
  {
    StrLeOrder();
  }
}
