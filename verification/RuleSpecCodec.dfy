/** `RuleSpec.from_mapping` and `RuleSpec.to_mapping` of `apiAnalysis/rule/framework.py`. */
module RuleSpecCodec {
  import opened Order
  import opened RuleSpecs
  import opened Wrappers

  /** `Protocol` is `RuleProtocolError`; `Raised` is an exception of a Python built-in. */
  datatype ParseError = Protocol | Raised

  // ------------------------------------------------------------------ names

  predicate LowerLetter(c: char) { 'a' <= c <= 'z' }
  predicate Digit(c: char) { '0' <= c <= '9' }
  predicate NameChar(c: char) { LowerLetter(c) || Digit(c) || c == '_' || c == '.' || c == '-' }

  predicate RuleIdName(s: string) {
    s != "" && LowerLetter(s[0]) && forall i | 0 < i < |s| :: NameChar(s[i])
  }

  predicate InputName(s: string) {
    s != "" && LowerLetter(s[0]) && forall i | 0 < i < |s| :: LowerLetter(s[i]) || Digit(s[i]) || s[i] == '_'
  }

  /** A name up to `i`, followed by `.v` and a number without leading zero. */
  predicate VersionAt(s: string, i: nat)
    requires i < |s| - 2
  {
    && (forall j | 0 < j < i :: NameChar(s[j])) && s[i] == '.' && s[i + 1] == 'v' && '1' <= s[i + 2] <= '9'
    && forall j | i + 2 < j < |s| :: Digit(s[j])
  }

  predicate VersionedName(s: string) {
    s != "" && LowerLetter(s[0]) && exists i | 1 <= i < |s| - 2 :: VersionAt(s, i)
  }

  const RELATIONS := {"any", "same_principal", "different_principal", "same_profile_revision", "same_scope", "different_scope"}

  // ------------------------------------------------------------------ Python conversions

  predicate Falsy(j: Json) {
    match j
    case JNull => true
    case JBool(b) => !b
    case JInt(n) => n == 0
    case JFloat(f) => f == Finite(0.0)
    case JStr(s) => s == ""
    case JList(items) => items == []
    case JObj(fields) => fields == map[]
  }

  /** `str(j)` where it can be a lower-case name; `None` stands for every text that begins with
      something else: a digit, a sign, a capital or a bracket. */
  function Text(j: Json): Option<string> {
    match j
    case JStr(s) => Some(s)
    case JFloat(NaN(_)) => Some("nan")
    case JFloat(PosInf) => Some("inf")
    case _ => None
  }

  /** `str(j or default)`. */
  function TextOr(j: Json, default: string): Option<string> {
    if Falsy(j) then Some(default) else Text(j)
  }

  function Number(j: Json): Option<Float> {
    match j
    case JInt(n) => Some(Finite(n as real))
    case JBool(b) => Some(Finite(if b then 1.0 else 0.0))
    case JFloat(f) => Some(f)
    case _ => None
  }

  /** Whether a set takes two hashable JSON values for one: they are one object or equal by `==`. */
  predicate PyEqual(a: Json, b: Json) {
    a == b || (Number(a).Some? && Number(a) == Number(b))
  }

  predicate Hashable(j: Json) { !j.JList? && !j.JObj? }

  /** `dict(j or {})`; `pairs` says how `dict` reads a list. */
  function DictOf(pairs: seq<Json> -> Option<Args>, j: Json): Option<Args> {
    if Falsy(j) then Some(map[])
    else match j
      case JObj(fields) => Some(fields)
      case JList(items) => pairs(items)
      case _ => None
  }

  predicate ExactKeys(j: Json, allowed: set<string>, required: set<string>) {
    j.JObj? && j.fields.Keys <= allowed && required <= j.fields.Keys
  }

  function Get(fields: map<string, Json>, key: string, default: Json): Json {
    if key in fields then fields[key] else default
  }

  /** A number in a closed range; `bool` is not a number here. */
  function Ranged(j: Json, low: real, high: real): Option<real> {
    match j
    case JInt(n) => if low <= n as real <= high then Some(n as real) else None
    case JFloat(Finite(x)) => if low <= x <= high then Some(x) else None
    case _ => None
  }

  // ------------------------------------------------------------------ parsing

  function ParsePredicate(j: Json): Result<PredicateCall, ParseError> {
    if !ExactKeys(j, {"name", "args"}, {"name"}) then Err(Protocol)
    else
      var name := TextOr(j.fields["name"], "");
      if name.None? || !VersionedName(name.value) then Err(Protocol)
      else
        var args := Get(j.fields, "args", JNull);
        if Falsy(args) then Ok(PredicateCall(name.value, map[]))
        else if !args.JObj? then Err(Protocol)
        else Ok(PredicateCall(name.value, args.fields))
  }

  function ParseFeature(pairs: seq<Json> -> Option<Args>, j: Json): Result<ScoreFeature, ParseError> {
    if !ExactKeys(j, {"predicate", "args", "weight"}, {"predicate", "weight"}) then Err(Protocol)
    else
      var weight := Ranged(j.fields["weight"], -1.0, 1.0);
      var name := TextOr(j.fields["predicate"], "");
      if weight.None? || name.None? || !VersionedName(name.value) then Err(Protocol)
      else
        var args := DictOf(pairs, Get(j.fields, "args", JNull));
        if args.None? then Err(Raised) else Ok(ScoreFeature(PredicateCall(name.value, args.value), weight.value))
  }

  function ParsePredicates(items: seq<Json>): (r: Result<seq<PredicateCall>, ParseError>)
    ensures r.Ok? <==> forall i | 0 <= i < |items| :: ParsePredicate(items[i]).Ok?
    ensures r.Ok? ==> |r.value| == |items| && forall i | 0 <= i < |items| :: ParsePredicate(items[i]) == Ok(r.value[i])
  {
    if items == [] then Ok([])
    else
      var first := ParsePredicate(items[0]);
      if first.Err? then Err(first.error)
      else
        var rest := ParsePredicates(items[1..]);
        if rest.Err? then rest else Ok([first.value] + rest.value)
  }

  function ParseFeatures(pairs: seq<Json> -> Option<Args>, items: seq<Json>): (r: Result<seq<ScoreFeature>, ParseError>)
    ensures r.Ok? <==> forall i | 0 <= i < |items| :: ParseFeature(pairs, items[i]).Ok?
    ensures r.Ok? ==> |r.value| == |items| && forall i | 0 <= i < |items| :: ParseFeature(pairs, items[i]) == Ok(r.value[i])
  {
    if items == [] then Ok([])
    else
      var first := ParseFeature(pairs, items[0]);
      if first.Err? then Err(first.error)
      else
        var rest := ParseFeatures(pairs, items[1..]);
        if rest.Err? then rest else Ok([first.value] + rest.value)
  }

  function ParseScope(j: Json): Result<RuleScope, ParseError> {
    if !ExactKeys(j, {"same_project", "same_environment", "principal_relation"}, {}) then Err(Protocol)
    else
      var project := Get(j.fields, "same_project", JBool(false));
      var environment := Get(j.fields, "same_environment", JBool(false));
      var relation := TextOr(Get(j.fields, "principal_relation", JNull), "any");
      if !project.JBool? || !environment.JBool? || relation.None? || relation.value !in RELATIONS then Err(Protocol)
      else Ok(RuleScope(project.b, environment.b, relation.value))
  }

  function ParseInputs(j: Json): Result<seq<string>, ParseError> {
    if !j.JList? || j.items == [] then Err(Protocol)
    else if exists i | 0 <= i < |j.items| :: !Hashable(j.items[i]) then Err(Raised)
    else if exists i, k | 0 <= i < k < |j.items| :: PyEqual(j.items[i], j.items[k]) then Err(Protocol)
    else if exists i | 0 <= i < |j.items| ::
              TextOr(j.items[i], "").None? || !InputName(TextOr(j.items[i], "").value) then Err(Protocol)
    else Ok(seq(|j.items|, i requires 0 <= i < |j.items| => TextOr(j.items[i], "").value))
  }

  function ParseScore(pairs: seq<Json> -> Option<Args>, j: Json): Result<(real, seq<ScoreFeature>), ParseError> {
    if !ExactKeys(j, {"base", "features"}, {"base", "features"}) then Err(Protocol)
    else
      var base := Ranged(j.fields["base"], 0.0, 1.0);
      if base.None? || !j.fields["features"].JList? then Err(Protocol)
      else
        var features := ParseFeatures(pairs, j.fields["features"].items);
        if features.Err? then Err(features.error) else Ok((base.value, features.value))
  }

  function ParseEmit(pairs: seq<Json> -> Option<Args>, j: Json): Result<EmitSpec, ParseError> {
    if !ExactKeys(j, {"adapter", "args"}, {"adapter"}) then Err(Protocol)
    else
      var adapter := TextOr(j.fields["adapter"], "");
      if adapter.None? || !VersionedName(adapter.value) then Err(Protocol)
      else
        var args := DictOf(pairs, Get(j.fields, "args", JNull));
        if args.None? then Err(Raised) else Ok(EmitSpec(adapter.value, args.value))
  }

  function ParseSafety(j: Json): Result<RuleSafety, ParseError> {
    if !ExactKeys(j, {"network", "mutation", "max_matches"}, {"network", "mutation", "max_matches"}) then Err(Protocol)
    else if j.fields["network"] != JStr("forbidden") || j.fields["mutation"] != JStr("forbidden") then Err(Protocol)
    else match j.fields["max_matches"]
      case JInt(n) => if 1 <= n <= 100000 then Ok(RuleSafety("forbidden", "forbidden", n)) else Err(Protocol)
      case _ => Err(Protocol)
  }

  const KEYS := {"schema_version", "rule_id", "version", "kind", "enabled", "scope", "inputs", "predicates", "score",
                 "emit", "safety"}

  /** The checks on the scalar fields. */
  predicate HeaderFits(fields: map<string, Json>)
    requires KEYS <= fields.Keys
  {
    && fields["schema_version"] == JStr("rule.v1")
    && TextOr(fields["rule_id"], "").Some? && RuleIdName(TextOr(fields["rule_id"], "").value)
    && fields["version"].JInt? && fields["version"].n >= 1
    && fields["kind"] == JStr("offline_inference")
    && fields["enabled"].JBool?
  }

  function ParsePredicateList(j: Json): Result<seq<PredicateCall>, ParseError> {
    if j.JList? then ParsePredicates(j.items) else Err(Protocol)
  }

  /** The first part that does not parse decides the error. The arguments of `emit` are copied last, after
      the safety checks: `Raised` is the failure of that copy. */
  function Combine(ruleId: string, version: int, enabled: bool, scope: Result<RuleScope, ParseError>,
                   inputs: Result<seq<string>, ParseError>, predicates: Result<seq<PredicateCall>, ParseError>,
                   score: Result<(real, seq<ScoreFeature>), ParseError>, emit: Result<EmitSpec, ParseError>,
                   safety: Result<RuleSafety, ParseError>): Result<RuleSpec, ParseError>
  {
    if scope.Err? then Err(scope.error)
    else if inputs.Err? then Err(inputs.error)
    else if predicates.Err? then Err(predicates.error)
    else if score.Err? then Err(score.error)
    else if emit == Err(Protocol) then Err(Protocol)
    else if safety.Err? then Err(safety.error)
    else if emit.Err? then Err(emit.error)
    else Ok(RuleSpec("rule.v1", ruleId, version, "offline_inference", enabled, scope.value, inputs.value, predicates.value,
                     score.value.0, score.value.1, emit.value, safety.value))
  }

  /** `RuleSpec.from_mapping`. */
  function FromMapping(pairs: seq<Json> -> Option<Args>, j: Json): Result<RuleSpec, ParseError> {
    if !ExactKeys(j, KEYS, KEYS) || !HeaderFits(j.fields) then Err(Protocol)
    else Combine(TextOr(j.fields["rule_id"], "").value, j.fields["version"].n, j.fields["enabled"].b,
                 ParseScope(j.fields["scope"]), ParseInputs(j.fields["inputs"]), ParsePredicateList(j.fields["predicates"]),
                 ParseScore(pairs, j.fields["score"]), ParseEmit(pairs, j.fields["emit"]), ParseSafety(j.fields["safety"]))
  }

  // ------------------------------------------------------------------ printing

  /** Arguments are printed only when there are any. */
  function WithArgs(fields: map<string, Json>, args: Args): Json {
    JObj(if args == map[] then fields else fields["args" := JObj(args)])
  }

  function PrintPredicate(c: PredicateCall): Json {
    WithArgs(map["name" := JStr(c.name)], c.args)
  }

  function PrintFeature(f: ScoreFeature): Json {
    WithArgs(map["predicate" := JStr(f.call.name), "weight" := JFloat(Finite(f.weight))], f.call.args)
  }

  function PrintScope(s: RuleScope): Json {
    JObj(map["same_project" := JBool(s.sameProject), "same_environment" := JBool(s.sameEnvironment),
             "principal_relation" := JStr(s.principalRelation)])
  }

  function PrintEmit(e: EmitSpec): Json {
    WithArgs(map["adapter" := JStr(e.adapter)], e.args)
  }

  function PrintSafety(s: RuleSafety): Json {
    JObj(map["network" := JStr(s.network), "mutation" := JStr(s.mutation), "max_matches" := JInt(s.maxMatches)])
  }

  function PrintScore(base: real, features: seq<ScoreFeature>): Json {
    JObj(map["base" := JFloat(Finite(base)),
             "features" := JList(seq(|features|, i requires 0 <= i < |features| => PrintFeature(features[i])))])
  }

  function PrintPredicates(calls: seq<PredicateCall>): seq<Json> {
    seq(|calls|, i requires 0 <= i < |calls| => PrintPredicate(calls[i]))
  }

  function PrintInputs(inputs: seq<string>): seq<Json> {
    seq(|inputs|, i requires 0 <= i < |inputs| => JStr(inputs[i]))
  }

  /** `RuleSpec.to_mapping`. */
  function ToMapping(s: RuleSpec): Json {
    JObj(map["schema_version" := JStr(s.schemaVersion), "rule_id" := JStr(s.ruleId), "version" := JInt(s.version),
             "kind" := JStr(s.kind), "enabled" := JBool(s.enabled), "scope" := PrintScope(s.scope),
             "inputs" := JList(PrintInputs(s.inputs)), "predicates" := JList(PrintPredicates(s.predicates)),
             "score" := PrintScore(s.scoreBase, s.scoreFeatures), "emit" := PrintEmit(s.emit), "safety" := PrintSafety(s.safety)])
  }

  // ------------------------------------------------------------------ what a parsed spec satisfies

  ghost predicate Parsed(s: RuleSpec) {
    && s.schemaVersion == "rule.v1" && RuleIdName(s.ruleId) && s.version >= 1 && s.kind == "offline_inference"
    && s.scope.principalRelation in RELATIONS
    && s.inputs != [] && (forall n | n in s.inputs :: InputName(n))
    && (forall i | 0 <= i < |s.predicates| :: VersionedName(s.predicates[i].name))
    && 0.0 <= s.scoreBase <= 1.0
    && (forall i | 0 <= i < |s.scoreFeatures| ::
          VersionedName(s.scoreFeatures[i].call.name) && -1.0 <= s.scoreFeatures[i].weight <= 1.0)
    && VersionedName(s.emit.adapter)
    && s.safety.network == "forbidden" && s.safety.mutation == "forbidden" && 1 <= s.safety.maxMatches <= 100000
  }

  lemma ParsedSpecsAreWellFormed(pairs: seq<Json> -> Option<Args>, j: Json)
    requires FromMapping(pairs, j).Ok?
    ensures Parsed(FromMapping(pairs, j).value)
  {
    hide VersionedName, InputName, RuleIdName, TextOr, Falsy;
    var s := FromMapping(pairs, j).value;
    forall i | 0 <= i < |s.predicates| ensures VersionedName(s.predicates[i].name) {
      assert ParsePredicate(j.fields["predicates"].items[i]) == Ok(s.predicates[i]);
    }
    forall i | 0 <= i < |s.scoreFeatures|
      ensures VersionedName(s.scoreFeatures[i].call.name) && -1.0 <= s.scoreFeatures[i].weight <= 1.0
    {
      assert ParseFeature(pairs, j.fields["score"].fields["features"].items[i]) == Ok(s.scoreFeatures[i]);
    }
  }

  // ------------------------------------------------------------------ reading back what was printed

  lemma ReadName(name: string, default: string)
    requires name != ""
    ensures TextOr(JStr(name), default) == Some(name)
  {
  }

  lemma ReadPredicate(c: PredicateCall)
    requires VersionedName(c.name)
    ensures ParsePredicate(PrintPredicate(c)) == Ok(c)
  {
    hide VersionedName;
    VersionedIsNonEmpty(c.name);
    ReadName(c.name, "");
  }

  lemma VersionedIsNonEmpty(name: string)
    requires VersionedName(name)
    ensures name != ""
  {
  }

  lemma ReadFeature(pairs: seq<Json> -> Option<Args>, f: ScoreFeature)
    requires VersionedName(f.call.name) && -1.0 <= f.weight <= 1.0
    ensures ParseFeature(pairs, PrintFeature(f)) == Ok(f)
  {
    hide VersionedName;
    VersionedIsNonEmpty(f.call.name);
    ReadName(f.call.name, "");
  }

  lemma ReadEmit(pairs: seq<Json> -> Option<Args>, e: EmitSpec)
    requires VersionedName(e.adapter)
    ensures ParseEmit(pairs, PrintEmit(e)) == Ok(e)
  {
    hide VersionedName;
    VersionedIsNonEmpty(e.adapter);
    ReadName(e.adapter, "");
  }

  lemma ReadScope(s: RuleScope)
    requires s.principalRelation in RELATIONS
    ensures ParseScope(PrintScope(s)) == Ok(s)
  {
    ReadName(s.principalRelation, "any");
  }

  lemma ReadSafety(s: RuleSafety)
    requires s.network == "forbidden" && s.mutation == "forbidden" && 1 <= s.maxMatches <= 100000
    ensures ParseSafety(PrintSafety(s)) == Ok(s)
  {
  }

  lemma ReadScore(pairs: seq<Json> -> Option<Args>, base: real, features: seq<ScoreFeature>)
    requires 0.0 <= base <= 1.0
    requires forall i | 0 <= i < |features| :: VersionedName(features[i].call.name) && -1.0 <= features[i].weight <= 1.0
    ensures ParseScore(pairs, PrintScore(base, features)) == Ok((base, features))
  {
    hide VersionedName, ParseFeature, PrintFeature;
    var items := seq(|features|, i requires 0 <= i < |features| => PrintFeature(features[i]));
    forall i | 0 <= i < |items| ensures ParseFeature(pairs, items[i]) == Ok(features[i]) {
      ReadFeature(pairs, features[i]);
    }
    assert ParseFeatures(pairs, items).value == features;
  }

  lemma ReadPredicates(calls: seq<PredicateCall>)
    requires forall i | 0 <= i < |calls| :: VersionedName(calls[i].name)
    ensures ParsePredicates(PrintPredicates(calls)) == Ok(calls)
  {
    hide VersionedName, ParsePredicate, PrintPredicate;
    var items := PrintPredicates(calls);
    forall i | 0 <= i < |items| ensures ParsePredicate(items[i]) == Ok(calls[i]) {
      ReadPredicate(calls[i]);
    }
    assert ParsePredicates(items).value == calls;
  }

  /** A printed list of inputs is accepted exactly when no name occurs twice. */
  lemma ReadInputs(inputs: seq<string>)
    requires inputs != [] && forall n | n in inputs :: InputName(n)
    ensures ParseInputs(JList(PrintInputs(inputs))) == if NoRepeats(inputs) then Ok(inputs) else Err(Protocol)
  {
    hide InputName;
    var items := PrintInputs(inputs);
    forall i | 0 <= i < |inputs| ensures InputName(inputs[i]) && inputs[i] != "" && TextOr(items[i], "") == Some(inputs[i]) {
      assert inputs[i] in inputs;
      InputNameNonEmpty(inputs[i]);
      ReadName(inputs[i], "");
    }
    if NoRepeats(inputs) {
      assert seq(|items|, i requires 0 <= i < |items| => TextOr(items[i], "").value) == inputs;
    } else {
      var i, k :| 0 <= i < k < |inputs| && inputs[i] == inputs[k];
      assert PyEqual(items[i], items[k]);
    }
  }

  lemma InputNameNonEmpty(name: string)
    requires InputName(name)
    ensures name != ""
  {
  }

  lemma PrintedFields(s: RuleSpec)
    ensures ToMapping(s).JObj?
    ensures var fields := ToMapping(s).fields;
            && fields.Keys == KEYS
            && fields["schema_version"] == JStr(s.schemaVersion) && fields["rule_id"] == JStr(s.ruleId)
            && fields["version"] == JInt(s.version) && fields["kind"] == JStr(s.kind) && fields["enabled"] == JBool(s.enabled)
            && fields["scope"] == PrintScope(s.scope)
            && fields["inputs"] == JList(PrintInputs(s.inputs)) && fields["predicates"] == JList(PrintPredicates(s.predicates))
            && fields["score"] == PrintScore(s.scoreBase, s.scoreFeatures)
            && fields["emit"] == PrintEmit(s.emit) && fields["safety"] == PrintSafety(s.safety)
  {
    hide PrintScope, PrintScore, PrintEmit, PrintSafety, PrintPredicates, PrintInputs;
  }

  /** The round trip, exactly: a parsed rule is printed to a mapping that parses back to it if and
      only if its input names are distinct; otherwise the mapping is rejected. */
  lemma RoundTripIff(pairs: seq<Json> -> Option<Args>, j: Json)
    requires FromMapping(pairs, j).Ok?
    ensures var s := FromMapping(pairs, j).value;
            FromMapping(pairs, ToMapping(s)) == if NoRepeats(s.inputs) then Ok(s) else Err(Protocol)
  {
    ParsedSpecsAreWellFormed(pairs, j);
    PrintedParsesIff(pairs, FromMapping(pairs, j).value);
  }

  lemma PrintedParsesIff(pairs: seq<Json> -> Option<Args>, s: RuleSpec)
    requires Parsed(s)
    ensures FromMapping(pairs, ToMapping(s)) == if NoRepeats(s.inputs) then Ok(s) else Err(Protocol)
  {
    hide VersionedName, InputName, RuleIdName, NoRepeats, ParseScope, ParseInputs, ParsePredicates, ParseScore,
      ParseEmit, ParseSafety, PrintScope, PrintScore, PrintEmit, PrintSafety, PrintPredicates, PrintInputs, ToMapping;
    PrintedFields(s);
    RuleIdNonEmpty(s.ruleId);
    ReadName(s.ruleId, "");
    ReadScope(s.scope);
    ReadInputs(s.inputs);
    ReadPredicates(s.predicates);
    ReadScore(pairs, s.scoreBase, s.scoreFeatures);
    ReadEmit(pairs, s.emit);
    ReadSafety(s.safety);
  }

  lemma RuleIdNonEmpty(name: string)
    requires RuleIdName(name)
    ensures name != ""
  {
  }

  /** If every raw input is a string, which the parser does not insist on, the names are distinct. */
  lemma StringInputsAreDistinct(pairs: seq<Json> -> Option<Args>, j: Json)
    requires FromMapping(pairs, j).Ok?
    requires forall i | 0 <= i < |j.fields["inputs"].items| :: j.fields["inputs"].items[i].JStr?
    ensures NoRepeats(FromMapping(pairs, j).value.inputs)
  {
    hide HeaderFits, ParseScope, ParsePredicates, ParseScore, ParseEmit, ParseSafety, InputName;
    var items := j.fields["inputs"].items;
    var inputs := FromMapping(pairs, j).value.inputs;
    assert ParseInputs(j.fields["inputs"]) == Ok(inputs);
    forall i, k | 0 <= i < k < |inputs| ensures inputs[i] != inputs[k] {
      assert !PyEqual(items[i], items[k]);
    }
  }

  /** Two raw inputs that are different values with one text are accepted, in any accepted rule, and the
      mapping of the result is then rejected. */
  lemma SameTextBreaksTheRoundTrip(pairs: seq<Json> -> Option<Args>, j: Json, a: Json, b: Json, name: string)
    requires FromMapping(pairs, j).Ok?
    requires InputName(name) && TextOr(a, "") == TextOr(b, "") == Some(name)
    requires Hashable(a) && Hashable(b) && !PyEqual(a, b)
    ensures var bad := JObj(j.fields["inputs" := JList([a, b])]);
            && FromMapping(pairs, bad) == Ok(FromMapping(pairs, j).value.(inputs := [name, name]))
            && FromMapping(pairs, ToMapping(FromMapping(pairs, bad).value)) == Err(Protocol)
  {
    var inputs := JList([a, b]);
    TwoInputs(a, b, name);
    var bad := JObj(j.fields["inputs" := inputs]);
    assert bad.fields.Keys == j.fields.Keys;
    InputsAreIndependent(pairs, j, inputs);
    hide FromMapping, ToMapping, ParseInputs;
    RoundTripIff(pairs, bad);
    assert [name, name][0] == [name, name][1];
  }

  lemma TwoInputs(a: Json, b: Json, name: string)
    requires InputName(name) && TextOr(a, "") == TextOr(b, "") == Some(name)
    requires Hashable(a) && Hashable(b) && !PyEqual(a, b)
    ensures ParseInputs(JList([a, b])) == Ok([name, name])
  {
    hide InputName, PyEqual, Hashable, TextOr;
    var items := [a, b];
    assert items[0] == a && items[1] == b;
    assert seq(|items|, i requires 0 <= i < |items| => TextOr(items[i], "").value) == [name, name];
  }

  /** The failing cases are `Infinity` with `"inf"`, and two NaN objects. */
  lemma InfinityBreaksTheRoundTrip(pairs: seq<Json> -> Option<Args>, j: Json)
    requires FromMapping(pairs, j).Ok?
    ensures var bad := JObj(j.fields["inputs" := JList([JFloat(PosInf), JStr("inf")])]);
            && FromMapping(pairs, bad) == Ok(FromMapping(pairs, j).value.(inputs := ["inf", "inf"]))
            && FromMapping(pairs, ToMapping(FromMapping(pairs, bad).value)) == Err(Protocol)
  {
    hide FromMapping, ToMapping;
    ReadName("inf", "");
    SameTextBreaksTheRoundTrip(pairs, j, JFloat(PosInf), JStr("inf"), "inf");
  }

  lemma TwoNaNsBreakTheRoundTrip(pairs: seq<Json> -> Option<Args>, j: Json, x: nat, y: nat)
    requires FromMapping(pairs, j).Ok? && x != y
    ensures var bad := JObj(j.fields["inputs" := JList([JFloat(NaN(x)), JFloat(NaN(y))])]);
            && FromMapping(pairs, bad) == Ok(FromMapping(pairs, j).value.(inputs := ["nan", "nan"]))
            && FromMapping(pairs, ToMapping(FromMapping(pairs, bad).value)) == Err(Protocol)
  {
    hide FromMapping, ToMapping;
    SameTextBreaksTheRoundTrip(pairs, j, JFloat(NaN(x)), JFloat(NaN(y)), "nan");
  }

  /** A smallest rule. */
  const PLAIN := RuleSpec("rule.v1", "r", 1, "offline_inference", true, RuleScope(false, false, "any"), ["a"], [], 0.0, [],
                          EmitSpec("a.v1", map[]), RuleSafety("forbidden", "forbidden", 1))

  /** It is accepted, so the failing cases have instances. */
  lemma PlainRuleFails(pairs: seq<Json> -> Option<Args>)
    ensures FromMapping(pairs, ToMapping(PLAIN)) == Ok(PLAIN)
    ensures var bad := JObj(ToMapping(PLAIN).fields["inputs" := JList([JFloat(PosInf), JStr("inf")])]);
            && FromMapping(pairs, bad) == Ok(PLAIN.(inputs := ["inf", "inf"]))
            && FromMapping(pairs, ToMapping(PLAIN.(inputs := ["inf", "inf"]))) == Err(Protocol)
  {
    assert VersionAt("a.v1", 1);
    assert VersionedName("a.v1") && RuleIdName("r") && InputName("a");
    assert Parsed(PLAIN) && NoRepeats(PLAIN.inputs);
    hide FromMapping, ToMapping, Parsed;
    PrintedParsesIff(pairs, PLAIN);
    InfinityBreaksTheRoundTrip(pairs, ToMapping(PLAIN));
  }

  lemma InputsAreIndependent(pairs: seq<Json> -> Option<Args>, j: Json, inputs: Json)
    requires FromMapping(pairs, j).Ok? && ParseInputs(inputs).Ok?
    ensures FromMapping(pairs, JObj(j.fields["inputs" := inputs]))
            == Ok(FromMapping(pairs, j).value.(inputs := ParseInputs(inputs).value))
  {
    hide ParseScope, ParsePredicates, ParseScore, ParseEmit, ParseSafety, ParseInputs, RuleIdName, TextOr;
    assert j.fields["inputs" := inputs].Keys == j.fields.Keys;
  }

  // ------------------------------------------------------------------ omitted defaults

  /** Two part mappings that differ only in leaving out what the parser supplies. */
  ghost predicate SameScope(a: Json, b: Json) {
    a.JObj? && b.JObj?
    && var defaults := map["same_project" := JBool(false), "same_environment" := JBool(false), "principal_relation" := JStr("any")];
       defaults + a.fields == defaults + b.fields
  }

  ghost predicate SameButArgs(a: Json, b: Json) {
    a.JObj? && b.JObj? && map["args" := JObj(map[])] + a.fields == map["args" := JObj(map[])] + b.fields
  }

  ghost predicate SameList(a: Json, b: Json) {
    a == b || (a.JList? && b.JList? && |a.items| == |b.items| && forall i | 0 <= i < |a.items| :: SameButArgs(a.items[i], b.items[i]))
  }

  ghost predicate SameScore(a: Json, b: Json) {
    a == b || (a.JObj? && b.JObj? && "features" in a.fields && "features" in b.fields
               && SameList(a.fields["features"], b.fields["features"])
               && a.fields.Keys == b.fields.Keys
               && forall k | k in a.fields && k != "features" :: a.fields[k] == b.fields[k])
  }

  /** The mappings agree up to omitted defaults in scope, predicates, features and emit. */
  ghost predicate SameUpToDefaults(a: Json, b: Json) {
    && a.JObj? && b.JObj? && a.fields.Keys == b.fields.Keys == KEYS
    && (forall k | k in KEYS - {"scope", "predicates", "score", "emit"} :: a.fields[k] == b.fields[k])
    && SameScope(a.fields["scope"], b.fields["scope"])
    && SameList(a.fields["predicates"], b.fields["predicates"])
    && SameScore(a.fields["score"], b.fields["score"])
    && SameButArgs(a.fields["emit"], b.fields["emit"])
  }

  lemma DefaultKeys(defaults: map<string, Json>, a: map<string, Json>, b: map<string, Json>, allowed: set<string>)
    requires defaults + a == defaults + b && defaults.Keys <= allowed
    ensures a.Keys <= allowed <==> b.Keys <= allowed
    ensures forall k | k !in defaults :: (k in a <==> k in b) && (k in a ==> a[k] == b[k])
    ensures forall k | k in defaults :: Get(a, k, defaults[k]) == Get(b, k, defaults[k])
  {
    assert (defaults + a).Keys == defaults.Keys + a.Keys;
    assert (defaults + b).Keys == defaults.Keys + b.Keys;
    forall k | k !in defaults ensures (k in a <==> k in b) && (k in a ==> a[k] == b[k]) {
      assert k in defaults + a <==> k in a;
      assert k in defaults + b <==> k in b;
      if k in a {
        assert (defaults + a)[k] == a[k];
      }
    }
    forall k | k in defaults ensures Get(a, k, defaults[k]) == Get(b, k, defaults[k]) {
      assert (defaults + a)[k] == Get(a, k, defaults[k]);
      assert (defaults + b)[k] == Get(b, k, defaults[k]);
    }
  }

  lemma ScopeDefaults(a: Json, b: Json)
    requires SameScope(a, b)
    ensures ParseScope(a) == ParseScope(b)
  {
    var defaults := map["same_project" := JBool(false), "same_environment" := JBool(false), "principal_relation" := JStr("any")];
    DefaultKeys(defaults, a.fields, b.fields, {"same_project", "same_environment", "principal_relation"});
    RelationDefault(a.fields);
    RelationDefault(b.fields);
    assert defaults["principal_relation"] == JStr("any") && defaults["same_project"] == JBool(false)
           && defaults["same_environment"] == JBool(false);
  }

  lemma RelationDefault(fields: map<string, Json>)
    ensures TextOr(Get(fields, "principal_relation", JNull), "any") == TextOr(Get(fields, "principal_relation", JStr("any")), "any")
  {
    ReadName("any", "any");
  }

  lemma ArgsDefault(pairs: seq<Json> -> Option<Args>, a: Json, b: Json)
    requires SameButArgs(a, b)
    ensures ParsePredicate(a) == ParsePredicate(b)
    ensures ParseFeature(pairs, a) == ParseFeature(pairs, b)
    ensures ParseEmit(pairs, a) == ParseEmit(pairs, b)
  {
    hide VersionedName, TextOr, Ranged;
    var defaults := map["args" := JObj(map[])];
    DefaultKeys(defaults, a.fields, b.fields, {"name", "args"});
    DefaultKeys(defaults, a.fields, b.fields, {"predicate", "args", "weight"});
    DefaultKeys(defaults, a.fields, b.fields, {"adapter", "args"});
    assert defaults["args"] == JObj(map[]);
    assert "name" !in defaults && "predicate" !in defaults && "weight" !in defaults && "adapter" !in defaults;
  }

  lemma {:induction false} ListDefaults(pairs: seq<Json> -> Option<Args>, a: seq<Json>, b: seq<Json>)
    requires |a| == |b| && forall i | 0 <= i < |a| :: SameButArgs(a[i], b[i])
    ensures ParsePredicates(a) == ParsePredicates(b)
    ensures ParseFeatures(pairs, a) == ParseFeatures(pairs, b)
  {
    hide ParsePredicate, ParseFeature, SameButArgs;
    if a != [] {
      ArgsDefault(pairs, a[0], b[0]);
      ListDefaults(pairs, a[1..], b[1..]);
    }
  }

  lemma ScoreDefaults(pairs: seq<Json> -> Option<Args>, a: Json, b: Json)
    requires SameScore(a, b)
    ensures ParseScore(pairs, a) == ParseScore(pairs, b)
  {
    hide ParseFeatures, SameButArgs, Ranged;
    if a != b {
      var x, y := a.fields, b.fields;
      assert "base" in x ==> x["base"] == y["base"];
      if x["features"] != y["features"] {
        ListDefaults(pairs, x["features"].items, y["features"].items);
      }
    }
  }

  /** Leaving out a default, or writing it out, makes no difference to the parsed rule, and so none to
      its canonical form. */
  lemma DefaultsDoNotMatter(pairs: seq<Json> -> Option<Args>, a: Json, b: Json)
    requires SameUpToDefaults(a, b)
    ensures FromMapping(pairs, a) == FromMapping(pairs, b)
  {
    hide ParseScope, ParsePredicates, ParseScore, ParseEmit, ParseSafety, ParseInputs, RuleIdName, TextOr, SameScope, SameScore,
      SameButArgs, Combine;
    ScopeDefaults(a.fields["scope"], b.fields["scope"]);
    ScoreDefaults(pairs, a.fields["score"], b.fields["score"]);
    ArgsDefault(pairs, a.fields["emit"], b.fields["emit"]);
    if a.fields["predicates"] != b.fields["predicates"] {
      ListDefaults(pairs, a.fields["predicates"].items, b.fields["predicates"].items);
    }
    UnchangedFields(a.fields, b.fields);
  }

  lemma UnchangedFields(a: map<string, Json>, b: map<string, Json>)
    requires a.Keys == b.Keys == KEYS
    requires forall k | k in KEYS - {"scope", "predicates", "score", "emit"} :: a[k] == b[k]
    ensures a["schema_version"] == b["schema_version"] && a["rule_id"] == b["rule_id"] && a["version"] == b["version"]
    ensures a["kind"] == b["kind"] && a["enabled"] == b["enabled"] && a["inputs"] == b["inputs"] && a["safety"] == b["safety"]
    ensures HeaderFits(a) == HeaderFits(b)
  {
    hide RuleIdName, TextOr;
  }
}
