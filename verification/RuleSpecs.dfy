/** The value types of `apiAnalysis/rule/framework.py`. */
module RuleSpecs {

  /** A Python float; finite values are idealised as reals. A NaN equals nothing but is found in a set by
      its object, so it carries one. */
  datatype Float = Finite(x: real) | PosInf | NegInf | NaN(object: nat)

  /** A decoded JSON value. */
  datatype Json = JNull | JBool(b: bool) | JInt(n: int) | JFloat(f: Float) | JStr(s: string)
                | JList(items: seq<Json>) | JObj(fields: map<string, Json>)

  type Args = map<string, Json>

  datatype PredicateCall = PredicateCall(name: string, args: Args)
  datatype ScoreFeature = ScoreFeature(call: PredicateCall, weight: real)
  datatype RuleScope = RuleScope(sameProject: bool, sameEnvironment: bool, principalRelation: string)
  datatype RuleSafety = RuleSafety(network: string, mutation: string, maxMatches: int)
  datatype EmitSpec = EmitSpec(adapter: string, args: Args)

  datatype RuleSpec = RuleSpec(schemaVersion: string, ruleId: string, version: int, kind: string, enabled: bool,
                               scope: RuleScope, inputs: seq<string>, predicates: seq<PredicateCall>,
                               scoreBase: real, scoreFeatures: seq<ScoreFeature>, emit: EmitSpec, safety: RuleSafety)
}
