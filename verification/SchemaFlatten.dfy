/** `resolve_ref` and `flatten_schema` of `tools/import_openapi_request_schemas.py`: one row per leaf
    of a request schema whose `$ref`s may form cycles. */
module SchemaFlatten {
  import opened Wrappers

  /** An exception of a Python built-in on a malformed document. */
  datatype Exception = Raised

  /** A decoded JSON value; objects keep the order of the document. */
  datatype Json = JNull | JBool(b: bool) | JNum(x: real) | JStr(s: string) | JArr(items: seq<Json>) | JObj(fields: seq<(string, Json)>)

  predicate Falsy(j: Json) {
    match j
    case JNull => true
    case JBool(b) => !b
    case JNum(x) => x == 0.0
    case JStr(s) => s == ""
    case JArr(items) => items == []
    case JObj(fields) => fields == []
  }

  function Lookup(fields: seq<(string, Json)>, key: string): (r: Option<Json>)
    ensures r.Some? ==> exists i | 0 <= i < |fields| :: fields[i] == (key, r.value)
  {
    if fields == [] then None
    else if fields[0].0 == key then
      assert fields[0] == (key, fields[0].1);
      Some(fields[0].1)
    else
      var r := Lookup(fields[1..], key);
      assert r.Some? ==> exists i | 0 <= i < |fields| :: fields[i] == (key, r.value) by {
        if r.Some? {
          var i :| 0 <= i < |fields[1..]| && fields[1..][i] == (key, r.value);
          assert fields[i + 1] == (key, r.value);
        }
      }
      r
  }

  /** `j.get(key)`, with JSON `null` and a missing key both as `JNull`. */
  function Get(j: Json, key: string): (r: Json)
    requires j.JObj?
    ensures r != JNull ==> exists i | 0 <= i < |j.fields| :: j.fields[i] == (key, r)
  {
    var r := Lookup(j.fields, key);
    if r.Some? then r.value else JNull
  }

  predicate Has(j: Json, key: string)
    requires j.JObj?
  {
    Lookup(j.fields, key).Some?
  }

  // ------------------------------------------------------------------ references

  /** All strings that occur under a `$ref` key. */
  function Refs(j: Json): set<string> {
    match j
    case JArr(items) => set i, r | 0 <= i < |items| && r in Refs(items[i]) :: r
    case JObj(fields) =>
      (set i, r | 0 <= i < |fields| && r in Refs(fields[i].1) :: r)
      + (set i | 0 <= i < |fields| && fields[i].0 == "$ref" && fields[i].1.JStr? :: fields[i].1.s)
    case _ => {}
  }

  lemma GetRefs(j: Json, key: string)
    requires j.JObj?
    ensures Refs(Get(j, key)) <= Refs(j)
    ensures key == "$ref" && Get(j, key).JStr? ==> Get(j, key).s in Refs(j)
  {
    var r := Get(j, key);
    if r != JNull {
      var i :| 0 <= i < |j.fields| && j.fields[i] == (key, r);
      assert Refs(j.fields[i].1) <= Refs(j);
    }
  }

  /** `s.split(sep)`. */
  function Split(s: string, sep: char): (parts: seq<string>)
    ensures parts != []
  {
    if s == "" then [""]
    else
      var rest := Split(s[1..], sep);
      if s[0] == sep then [""] + rest else [[s[0]] + rest[0]] + rest[1..]
  }

  /** The walk of `resolve_ref` down the document; anything but an object on the way gives `{}`. */
  function Walk(current: Json, parts: seq<string>): (r: Json)
    ensures r.JObj?
  {
    if parts == [] then (if current.JObj? then current else JObj([]))
    else if !current.JObj? then JObj([])
    else if Get(current, parts[0]) == JNull then JObj([])
    else Walk(Get(current, parts[0]), parts[1..])
  }

  lemma {:induction false} WalkRefs(current: Json, parts: seq<string>)
    ensures Refs(Walk(current, parts)) <= Refs(current)
    decreases |parts|
  {
    if parts != [] && current.JObj? {
      GetRefs(current, parts[0]);
      WalkRefs(Get(current, parts[0]), parts[1..]);
    }
  }

  function ResolveRef(doc: Json, ref: string): (r: Json)
    ensures r.JObj?
  {
    if |ref| < 2 || ref[..2] != "#/" then JObj([]) else Walk(doc, Split(ref[2..], '/'))
  }

  lemma ResolveRefs(doc: Json, ref: string)
    ensures Refs(ResolveRef(doc, ref)) <= Refs(doc)
  {
    if |ref| >= 2 {
      WalkRefs(doc, Split(ref[2..], '/'));
    }
  }

  method ResolveRefLoop(doc: Json, ref: string) returns (r: Json)
    ensures r == ResolveRef(doc, ref)
  {
    if ref == "" || |ref| < 2 || ref[..2] != "#/" {
      return JObj([]);
    }
    var current := doc;
    var parts := Split(ref[2..], '/');
    for i := 0 to |parts|
      invariant Walk(doc, parts) == Walk(current, parts[i..])
    {
      if !current.JObj? {
        return JObj([]);
      }
      current := Get(current, parts[i]);
      if current == JNull {
        return JObj([]);
      }
    }
    assert parts[|parts|..] == [];
    return if current.JObj? then current else JObj([]);
  }

  // ------------------------------------------------------------------ rows

  datatype Row = Row(name: string, typ: Json, required: bool, description: Json, example: Json)

  /** `f"{parent}.{name}" if parent else name`. */
  function Full(parent: string, name: string): string {
    if parent != "" then parent + "." + name else name
  }

  function Indexed(parent: string): string {
    if parent != "" then parent + "[]" else "[]"
  }

  function Or(j: Json, default: Json): Json {
    if Falsy(j) then default else j
  }

  /** `set(schema.get("required") or [])`, restricted to the strings in it. */
  function RequiredNames(j: Json): Result<set<string>, Exception> {
    if Falsy(j) then Ok({})
    else match j
      case JStr(s) => Ok(set i | 0 <= i < |s| :: [s[i]])
      case JArr(items) =>
        if exists i | 0 <= i < |items| :: items[i].JArr? || items[i].JObj? then Err(Raised)
        else Ok(set i | 0 <= i < |items| && items[i].JStr? :: items[i].s)
      case JObj(fields) => Ok(set i | 0 <= i < |fields| :: fields[i].0)
      case _ => Err(Raised)
  }

  /** The reference an object carries: a string, or an exception for a value that is not one. */
  function RefOf(j: Json): Result<string, Exception> {
    if Falsy(j) then Ok("") else if j.JStr? then Ok(j.s) else Err(Raised)
  }

  /** The first of the three combinators that holds a list. */
  function Choices(schema: Json): Option<seq<Json>>
    requires schema.JObj?
  {
    if Get(schema, "allOf").JArr? then Some(Get(schema, "allOf").items)
    else if Get(schema, "oneOf").JArr? then Some(Get(schema, "oneOf").items)
    else if Get(schema, "anyOf").JArr? then Some(Get(schema, "anyOf").items)
    else None
  }

  function PropertyRow(full: string, child: Json, required: bool): Row {
    if child.JObj? then Row(full, Get(child, "type"), required, Get(child, "description"), Get(child, "example"))
    else Row(full, JStr(""), required, JStr(""), JNull)
  }

  function ArrayRow(parent: string): Row {
    Row(Indexed(parent), JStr("array"), false, JStr(""), JNull)
  }

  function LeafRow(parent: string, schema: Json): Row
    requires schema.JObj?
  {
    Row(parent, Or(Get(schema, "type"), JStr("")), false, Or(Get(schema, "description"), JStr("")), Get(schema, "example"))
  }

  function Require(rows: seq<Row>, required: bool): (r: seq<Row>)
    ensures |r| == |rows| && forall i | 0 <= i < |rows| :: r[i] == rows[i].(required := rows[i].required || required)
  {
    seq(|rows|, i requires 0 <= i < |rows| => rows[i].(required := rows[i].required || required))
  }

  // ------------------------------------------------------------------ the recursion

  /** The references that can still be followed. It bounds the depth of the recursion. */
  ghost predicate Bounds(u: set<string>, doc: Json, schema: Json) {
    "" in u && Refs(doc) <= u && Refs(schema) <= u
  }

  /** `flatten_schema`. It terminates on every document: a followed reference leaves the unseen ones
      fewer, and every other recursive call is on a part of the schema. */
  function Flatten(doc: Json, schema: Json, parent: string, seen: set<string>, ghost u: set<string>): Result<seq<Row>, Exception>
    requires Bounds(u, doc, schema)
    decreases |u - seen|, schema, 1
  {
    if !schema.JObj? then Ok([])
    else if Has(schema, "$ref") then
      GetRefs(schema, "$ref");
      var ref :- RefOf(Get(schema, "$ref"));
      if ref in seen then Ok([])
      else
        ResolveRefs(doc, ref);
        SeenGrows(u, seen, ref);
        Flatten(doc, ResolveRef(doc, ref), parent, seen + {ref}, u)
    else
      ChoiceRefs(schema);
      if Choices(schema).Some? then FlattenAll(doc, Choices(schema).value, parent, seen, u)
      else
        GetRefs(schema, "properties");
        GetRefs(schema, "items");
        var required :- RequiredNames(Get(schema, "required"));
        var props := Get(schema, "properties");
        if !Falsy(props) then
          if !props.JObj? then Err(Raised) else
          FlattenProperties(doc, props.fields, required, parent, seen, u)
        else if Get(schema, "type") == JStr("array") then
          var items := Get(schema, "items");
          if Falsy(items) then Ok([LeafRow(Indexed(parent), JObj([]))])  // the empty schema, see EmptySchema
          else
            var nested :- Flatten(doc, items, Indexed(parent), seen, u);
            Ok(if nested != [] then nested else [ArrayRow(parent)])
        else Ok(if parent != "" then [LeafRow(parent, schema)] else [])
  }

  /** The rows of all alternatives of a combinator, in order. */
  function FlattenAll(doc: Json, items: seq<Json>, parent: string, seen: set<string>, ghost u: set<string>): Result<seq<Row>, Exception>
    requires forall i | 0 <= i < |items| :: Bounds(u, doc, items[i])
    decreases |u - seen|, items, 0
  {
    if items == [] then Ok([])
    else
      var first :- Flatten(doc, items[0], parent, seen, u);
      var rest :- FlattenAll(doc, items[1..], parent, seen, u);
      Ok(first + rest)
  }

  /** The rows of one property: those of its schema, or one row of its own if that has none. */
  function FlattenProperty(doc: Json, prop: (string, Json), required: set<string>, parent: string, seen: set<string>,
                           ghost u: set<string>): Result<seq<Row>, Exception>
    requires Bounds(u, doc, prop.1)
    decreases |u - seen|, prop, 2
  {
    var full := Full(parent, prop.0);
    var nested :- Flatten(doc, prop.1, full, seen, u);
    Ok(if nested != [] then Require(nested, prop.0 in required) else [PropertyRow(full, prop.1, prop.0 in required)])
  }

  function FlattenProperties(doc: Json, props: seq<(string, Json)>, required: set<string>, parent: string, seen: set<string>,
                             ghost u: set<string>): Result<seq<Row>, Exception>
    requires forall i | 0 <= i < |props| :: Bounds(u, doc, props[i].1)
    decreases |u - seen|, props, 0
  {
    if props == [] then Ok([])
    else
      var first :- FlattenProperty(doc, props[0], required, parent, seen, u);
      var rest :- FlattenProperties(doc, props[1..], required, parent, seen, u);
      Ok(first + rest)
  }

  /** What the recursive call on missing `items` returns. */
  lemma EmptySchema(doc: Json, parent: string, seen: set<string>, u: set<string>)
    requires Bounds(u, doc, JObj([])) && parent != ""
    ensures Flatten(doc, JObj([]), parent, seen, u) == Ok([LeafRow(parent, JObj([]))])
  {
  }

  lemma SeenGrows(u: set<string>, seen: set<string>, ref: string)
    requires ref in u && ref !in seen
    ensures |u - (seen + {ref})| < |u - seen|
  {
    assert u - seen == (u - (seen + {ref})) + {ref};
  }

  lemma ChoiceRefs(schema: Json)
    requires schema.JObj?
    ensures Choices(schema).Some? ==> forall i | 0 <= i < |Choices(schema).value| :: Refs(Choices(schema).value[i]) <= Refs(schema)
  {
    GetRefs(schema, "allOf");
    GetRefs(schema, "oneOf");
    GetRefs(schema, "anyOf");
  }

  // ------------------------------------------------------------------ walks: an independent reading

  /** One move on the way from a schema to a row. The two `Stop` moves end at a property or an array
      whose own schema has no rows, for instance because a cycle was cut. */
  datatype Move = IntoRef | IntoChoice(i: nat) | IntoProperty(i: nat) | IntoItems | StopAtProperty(i: nat) | StopAtArray

  ghost predicate NoRows(doc: Json, schema: Json, parent: string, seen: set<string>, u: set<string>)
    requires Bounds(u, doc, schema)
  {
    Flatten(doc, schema, parent, seen, u) == Ok([])
  }

  /** An object with properties, neither a reference nor a combinator. */
  ghost predicate HasProperties(schema: Json) {
    schema.JObj? && !Has(schema, "$ref") && Choices(schema).None? && Get(schema, "properties").JObj?
    && Get(schema, "properties").fields != [] && RequiredNames(Get(schema, "required")).Ok?
  }

  ghost predicate IsArray(schema: Json) {
    schema.JObj? && !Has(schema, "$ref") && Choices(schema).None? && Falsy(Get(schema, "properties"))
    && RequiredNames(Get(schema, "required")).Ok? && Get(schema, "type") == JStr("array")
  }

  ghost predicate IsLeaf(schema: Json) {
    schema.JObj? && !Has(schema, "$ref") && Choices(schema).None? && Falsy(Get(schema, "properties"))
    && RequiredNames(Get(schema, "required")).Ok? && Get(schema, "type") != JStr("array")
  }

  ghost function Properties(schema: Json): seq<(string, Json)>
    requires HasProperties(schema)
  {
    Get(schema, "properties").fields
  }

  ghost predicate IsRequired(schema: Json, i: nat)
    requires HasProperties(schema) && i < |Properties(schema)|
  {
    Properties(schema)[i].0 in RequiredNames(Get(schema, "required")).value
  }

  lemma PartsBounded(doc: Json, schema: Json, u: set<string>)
    requires Bounds(u, doc, schema)
    ensures HasProperties(schema) ==> forall i | 0 <= i < |Properties(schema)| :: Bounds(u, doc, Properties(schema)[i].1)
    ensures IsArray(schema) ==> Bounds(u, doc, Get(schema, "items"))
    ensures schema.JObj? && Choices(schema).Some? ==> forall i | 0 <= i < |Choices(schema).value| :: Bounds(u, doc, Choices(schema).value[i])
    ensures schema.JObj? && Get(schema, "$ref").JStr? ==> Get(schema, "$ref").s in u
  {
    if schema.JObj? {
      GetRefs(schema, "properties");
      GetRefs(schema, "items");
      GetRefs(schema, "$ref");
      ChoiceRefs(schema);
    }
  }

  /** The row a walk leads to. Read top-down: `required` records whether a property passed so far is in
      its object's `required` list. */
  ghost function Follow(doc: Json, schema: Json, parent: string, seen: set<string>, u: set<string>, required: bool,
                        walk: seq<Move>): Option<Row>
    requires Bounds(u, doc, schema)
    decreases |walk|
  {
    PartsBounded(doc, schema, u);
    if !schema.JObj? then None
    else if Has(schema, "$ref") then
      var ref := RefOf(Get(schema, "$ref"));
      if walk != [] && walk[0] == IntoRef && ref.Ok? && ref.value !in seen then
        ResolveRefs(doc, ref.value);
        Follow(doc, ResolveRef(doc, ref.value), parent, seen + {ref.value}, u, required, walk[1..])
      else None
    else if Choices(schema).Some? then
      if walk != [] && walk[0].IntoChoice? && walk[0].i < |Choices(schema).value| then
        Follow(doc, Choices(schema).value[walk[0].i], parent, seen, u, required, walk[1..])
      else None
    else if HasProperties(schema) then
      if walk != [] && walk[0].IntoProperty? && walk[0].i < |Properties(schema)| then
        var (name, child) := Properties(schema)[walk[0].i];
        Follow(doc, child, Full(parent, name), seen, u, required || IsRequired(schema, walk[0].i), walk[1..])
      else if |walk| == 1 && walk[0].StopAtProperty? && walk[0].i < |Properties(schema)| then
        var (name, child) := Properties(schema)[walk[0].i];
        if NoRows(doc, child, Full(parent, name), seen, u)
        then Some(PropertyRow(Full(parent, name), child, required || IsRequired(schema, walk[0].i)))
        else None
      else None
    else if IsArray(schema) then
      var items := Get(schema, "items");
      if Falsy(items) then
        if walk == [IntoItems] then Some(LeafRow(Indexed(parent), JObj([])).(required := required)) else None
      else if walk != [] && walk[0] == IntoItems then
        Follow(doc, items, Indexed(parent), seen, u, required, walk[1..])
      else if walk == [StopAtArray] && NoRows(doc, items, Indexed(parent), seen, u)
      then Some(ArrayRow(parent).(required := required))
      else None
    else if IsLeaf(schema) && walk == [] && parent != "" then Some(LeafRow(parent, schema).(required := required))
    else None
  }

  /** Some walk leads to the row. */
  ghost predicate Reached(doc: Json, schema: Json, parent: string, seen: set<string>, u: set<string>, required: bool, x: Row)
    requires Bounds(u, doc, schema)
  {
    exists walk :: Follow(doc, schema, parent, seen, u, required, walk) == Some(x)
  }

  /** The rows of a schema are exactly the rows its walks lead to. */
  ghost predicate Corresponds(doc: Json, schema: Json, parent: string, seen: set<string>, u: set<string>, required: bool)
    requires Bounds(u, doc, schema) && Flatten(doc, schema, parent, seen, u).Ok?
  {
    forall x :: x in Require(Flatten(doc, schema, parent, seen, u).value, required)
                <==> Reached(doc, schema, parent, seen, u, required, x)
  }

  lemma RequireTwice(rows: seq<Row>, a: bool, b: bool)
    ensures Require(Require(rows, a), b) == Require(rows, a || b)
    ensures Require([], a) == []
  {
  }

  lemma RequireAppend(xs: seq<Row>, ys: seq<Row>, a: bool)
    ensures Require(xs + ys, a) == Require(xs, a) + Require(ys, a)
  {
  }

  // -------------------------------------------------- first moves

  lemma ReachedThroughRef(doc: Json, schema: Json, parent: string, seen: set<string>, u: set<string>, required: bool, x: Row)
    requires Bounds(u, doc, schema) && schema.JObj? && Has(schema, "$ref") && RefOf(Get(schema, "$ref")).Ok?
    requires RefOf(Get(schema, "$ref")).value !in seen
    requires Bounds(u, doc, ResolveRef(doc, RefOf(Get(schema, "$ref")).value))
    ensures var ref := RefOf(Get(schema, "$ref")).value;
            Reached(doc, schema, parent, seen, u, required, x)
            <==> Reached(doc, ResolveRef(doc, ref), parent, seen + {ref}, u, required, x)
  {
    var ref := RefOf(Get(schema, "$ref")).value;
    if Reached(doc, schema, parent, seen, u, required, x) {
      var walk: seq<Move> :| Follow(doc, schema, parent, seen, u, required, walk) == Some(x);
      assert Follow(doc, ResolveRef(doc, ref), parent, seen + {ref}, u, required, walk[1..]) == Some(x);
    }
    if Reached(doc, ResolveRef(doc, ref), parent, seen + {ref}, u, required, x) {
      var walk: seq<Move> :| Follow(doc, ResolveRef(doc, ref), parent, seen + {ref}, u, required, walk) == Some(x);
      assert ([IntoRef] + walk)[1..] == walk;
      assert Follow(doc, schema, parent, seen, u, required, [IntoRef] + walk) == Some(x);
    }
  }

  /** The first move of a walk in a choice. */
  lemma FollowChoice(doc: Json, schema: Json, parent: string, seen: set<string>, u: set<string>, required: bool, walk: seq<Move>)
    requires Bounds(u, doc, schema) && schema.JObj? && !Has(schema, "$ref") && Choices(schema).Some?
    requires forall i | 0 <= i < |Choices(schema).value| :: Bounds(u, doc, Choices(schema).value[i])
    ensures var items := Choices(schema).value;
            Follow(doc, schema, parent, seen, u, required, walk)
            == if walk != [] && walk[0].IntoChoice? && walk[0].i < |items|
               then Follow(doc, items[walk[0].i], parent, seen, u, required, walk[1..]) else None
  {
    hide Bounds;
  }

  lemma ReachedThroughChoice(doc: Json, schema: Json, parent: string, seen: set<string>, u: set<string>, required: bool, x: Row)
    requires Bounds(u, doc, schema) && schema.JObj? && !Has(schema, "$ref") && Choices(schema).Some?
    requires forall i | 0 <= i < |Choices(schema).value| :: Bounds(u, doc, Choices(schema).value[i])
    ensures Reached(doc, schema, parent, seen, u, required, x)
            <==> exists i | 0 <= i < |Choices(schema).value| :: Reached(doc, Choices(schema).value[i], parent, seen, u, required, x)
  {
    hide Follow, Bounds, Choices, Has;
    var items := Choices(schema).value;
    if Reached(doc, schema, parent, seen, u, required, x) {
      var walk: seq<Move> :| Follow(doc, schema, parent, seen, u, required, walk) == Some(x);
      FollowChoice(doc, schema, parent, seen, u, required, walk);
      assert Reached(doc, items[walk[0].i], parent, seen, u, required, x);
    }
    if i: nat :| i < |items| && Reached(doc, items[i], parent, seen, u, required, x) {
      var walk: seq<Move> :| Follow(doc, items[i], parent, seen, u, required, walk) == Some(x);
      assert ([IntoChoice(i)] + walk)[1..] == walk;
      FollowChoice(doc, schema, parent, seen, u, required, [IntoChoice(i)] + walk);
    }
  }

  /** The rows of one property, by walks. */
  ghost predicate ReachedAtProperty(doc: Json, schema: Json, i: nat, parent: string, seen: set<string>, u: set<string>,
                                    required: bool, x: Row)
    requires HasProperties(schema) && i < |Properties(schema)| && Bounds(u, doc, Properties(schema)[i].1)
  {
    var (name, child) := Properties(schema)[i];
    var now := required || IsRequired(schema, i);
    Reached(doc, child, Full(parent, name), seen, u, now, x)
    || (NoRows(doc, child, Full(parent, name), seen, u) && x == PropertyRow(Full(parent, name), child, now))
  }

  /** The first move of a walk in an object with properties. */
  lemma FollowProperty(doc: Json, schema: Json, parent: string, seen: set<string>, u: set<string>, required: bool, walk: seq<Move>)
    requires Bounds(u, doc, schema) && HasProperties(schema)
    requires forall i | 0 <= i < |Properties(schema)| :: Bounds(u, doc, Properties(schema)[i].1)
    ensures var props := Properties(schema);
            Follow(doc, schema, parent, seen, u, required, walk)
            == if walk == [] || !(walk[0].IntoProperty? || walk[0].StopAtProperty?) || walk[0].i >= |props| then None
               else
                 var (name, child) := props[walk[0].i];
                 var now := required || IsRequired(schema, walk[0].i);
                 if walk[0].IntoProperty? then Follow(doc, child, Full(parent, name), seen, u, now, walk[1..])
                 else if |walk| == 1 && NoRows(doc, child, Full(parent, name), seen, u)
                 then Some(PropertyRow(Full(parent, name), child, now)) else None
  {
    hide Bounds, NoRows, PropertyRow, Full, IsRequired;
  }

  lemma PropertyReaches(doc: Json, schema: Json, i: nat, parent: string, seen: set<string>, u: set<string>, required: bool, x: Row)
    requires Bounds(u, doc, schema) && HasProperties(schema) && i < |Properties(schema)|
    requires forall k | 0 <= k < |Properties(schema)| :: Bounds(u, doc, Properties(schema)[k].1)
    requires ReachedAtProperty(doc, schema, i, parent, seen, u, required, x)
    ensures Reached(doc, schema, parent, seen, u, required, x)
  {
    hide Follow, Bounds, NoRows, PropertyRow, Full, IsRequired, HasProperties, Properties;
    var (name, child) := Properties(schema)[i];
    var now := required || IsRequired(schema, i);
    if Reached(doc, child, Full(parent, name), seen, u, now, x) {
      var walk: seq<Move> :| Follow(doc, child, Full(parent, name), seen, u, now, walk) == Some(x);
      assert ([IntoProperty(i)] + walk)[1..] == walk;
      FollowProperty(doc, schema, parent, seen, u, required, [IntoProperty(i)] + walk);
    } else {
      FollowProperty(doc, schema, parent, seen, u, required, [StopAtProperty(i)]);
    }
  }

  lemma ReachedThroughProperty(doc: Json, schema: Json, parent: string, seen: set<string>, u: set<string>, required: bool, x: Row)
    requires Bounds(u, doc, schema) && HasProperties(schema)
    requires forall i | 0 <= i < |Properties(schema)| :: Bounds(u, doc, Properties(schema)[i].1)
    ensures Reached(doc, schema, parent, seen, u, required, x)
            <==> exists i | 0 <= i < |Properties(schema)| :: ReachedAtProperty(doc, schema, i, parent, seen, u, required, x)
  {
    hide Follow, Bounds, NoRows, PropertyRow, Full, IsRequired, HasProperties, Properties;
    if Reached(doc, schema, parent, seen, u, required, x) {
      var walk: seq<Move> :| Follow(doc, schema, parent, seen, u, required, walk) == Some(x);
      FollowProperty(doc, schema, parent, seen, u, required, walk);
      assert ReachedAtProperty(doc, schema, walk[0].i, parent, seen, u, required, x);
    }
    if i: nat :| i < |Properties(schema)| && ReachedAtProperty(doc, schema, i, parent, seen, u, required, x) {
      PropertyReaches(doc, schema, i, parent, seen, u, required, x);
    }
  }

  /** The first move of a walk in an array. */
  lemma FollowItems(doc: Json, schema: Json, parent: string, seen: set<string>, u: set<string>, required: bool, walk: seq<Move>)
    requires Bounds(u, doc, schema) && IsArray(schema) && Bounds(u, doc, Get(schema, "items"))
    ensures var items := Get(schema, "items");
            Follow(doc, schema, parent, seen, u, required, walk)
            == if Falsy(items) then if walk == [IntoItems] then Some(LeafRow(Indexed(parent), JObj([])).(required := required)) else None
               else if walk != [] && walk[0] == IntoItems then Follow(doc, items, Indexed(parent), seen, u, required, walk[1..])
               else if walk == [StopAtArray] && NoRows(doc, items, Indexed(parent), seen, u)
               then Some(ArrayRow(parent).(required := required)) else None
  {
    hide Bounds, NoRows, LeafRow, ArrayRow, Indexed;
  }

  lemma ReachedThroughNoItems(doc: Json, schema: Json, parent: string, seen: set<string>, u: set<string>, required: bool, x: Row)
    requires Bounds(u, doc, schema) && IsArray(schema) && Bounds(u, doc, Get(schema, "items"))
    requires Falsy(Get(schema, "items"))
    ensures Reached(doc, schema, parent, seen, u, required, x) <==> x == LeafRow(Indexed(parent), JObj([])).(required := required)
  {
    hide Follow, Bounds, LeafRow, Indexed, IsArray, Falsy;
    FollowItems(doc, schema, parent, seen, u, required, [IntoItems]);
    if Reached(doc, schema, parent, seen, u, required, x) {
      var walk: seq<Move> :| Follow(doc, schema, parent, seen, u, required, walk) == Some(x);
      FollowItems(doc, schema, parent, seen, u, required, walk);
    }
  }

  lemma ItemsReach(doc: Json, schema: Json, parent: string, seen: set<string>, u: set<string>, required: bool, x: Row)
    requires Bounds(u, doc, schema) && IsArray(schema) && Bounds(u, doc, Get(schema, "items"))
    requires !Falsy(Get(schema, "items")) && Reached(doc, Get(schema, "items"), Indexed(parent), seen, u, required, x)
    ensures Reached(doc, schema, parent, seen, u, required, x)
  {
    var items := Get(schema, "items");
    hide Follow, Bounds, NoRows, ArrayRow, Indexed, IsArray, Falsy, Get;
    var walk: seq<Move> :| Follow(doc, items, Indexed(parent), seen, u, required, walk) == Some(x);
    assert ([IntoItems] + walk)[1..] == walk;
    FollowItems(doc, schema, parent, seen, u, required, [IntoItems] + walk);
  }

  lemma ReachedThroughItems(doc: Json, schema: Json, parent: string, seen: set<string>, u: set<string>, required: bool, x: Row)
    requires Bounds(u, doc, schema) && IsArray(schema) && Bounds(u, doc, Get(schema, "items"))
    requires !Falsy(Get(schema, "items"))
    ensures var items := Get(schema, "items");
            Reached(doc, schema, parent, seen, u, required, x) <==>
              Reached(doc, items, Indexed(parent), seen, u, required, x)
              || (NoRows(doc, items, Indexed(parent), seen, u) && x == ArrayRow(parent).(required := required))
  {
    var items := Get(schema, "items");
    hide Follow, Bounds, NoRows, ArrayRow, Indexed, IsArray, Falsy, Get;
    if Reached(doc, schema, parent, seen, u, required, x) {
      var walk: seq<Move> :| Follow(doc, schema, parent, seen, u, required, walk) == Some(x);
      FollowItems(doc, schema, parent, seen, u, required, walk);
    } else {
      FollowItems(doc, schema, parent, seen, u, required, [StopAtArray]);
    }
    if Reached(doc, items, Indexed(parent), seen, u, required, x) {
      ItemsReach(doc, schema, parent, seen, u, required, x);
    }
  }

  // -------------------------------------------------- members of the concatenations

  lemma {:induction false} AllMembers(doc: Json, items: seq<Json>, parent: string, seen: set<string>, u: set<string>, a: bool, x: Row)
    requires forall i | 0 <= i < |items| :: Bounds(u, doc, items[i])
    requires FlattenAll(doc, items, parent, seen, u).Ok?
    ensures forall i | 0 <= i < |items| :: Flatten(doc, items[i], parent, seen, u).Ok?
    ensures x in Require(FlattenAll(doc, items, parent, seen, u).value, a)
            <==> exists i | 0 <= i < |items| :: x in Require(Flatten(doc, items[i], parent, seen, u).value, a)
  {
    hide Flatten, Bounds, Require;
    if items == [] {
      RequireTwice([], a, a);
    } else {
      AllMembers(doc, items[1..], parent, seen, u, a, x);
      var first, rest := Flatten(doc, items[0], parent, seen, u).value, FlattenAll(doc, items[1..], parent, seen, u).value;
      RequireAppend(first, rest, a);
      forall i | 0 <= i < |items| ensures Flatten(doc, items[i], parent, seen, u).Ok? {
        assert i > 0 ==> items[i] == items[1..][i - 1];
      }
      if i :| 0 <= i < |items[1..]| && x in Require(Flatten(doc, items[1..][i], parent, seen, u).value, a) {
        assert items[i + 1] == items[1..][i];
      }
      if i :| 0 <= i < |items| && x in Require(Flatten(doc, items[i], parent, seen, u).value, a) {
        assert i > 0 ==> items[i] == items[1..][i - 1];
      }
    }
  }

  lemma {:induction false} PropertiesMembers(doc: Json, props: seq<(string, Json)>, required: set<string>, parent: string,
                                             seen: set<string>, u: set<string>, a: bool, x: Row)
    requires forall i | 0 <= i < |props| :: Bounds(u, doc, props[i].1)
    requires FlattenProperties(doc, props, required, parent, seen, u).Ok?
    ensures forall i | 0 <= i < |props| :: FlattenProperty(doc, props[i], required, parent, seen, u).Ok?
    ensures x in Require(FlattenProperties(doc, props, required, parent, seen, u).value, a)
            <==> exists i | 0 <= i < |props| :: x in Require(FlattenProperty(doc, props[i], required, parent, seen, u).value, a)
  {
    hide FlattenProperty, Bounds, Require;
    if props == [] {
      RequireTwice([], a, a);
    } else {
      PropertiesMembers(doc, props[1..], required, parent, seen, u, a, x);
      var first := FlattenProperty(doc, props[0], required, parent, seen, u).value;
      RequireAppend(first, FlattenProperties(doc, props[1..], required, parent, seen, u).value, a);
      forall i | 0 <= i < |props| ensures FlattenProperty(doc, props[i], required, parent, seen, u).Ok? {
        assert i > 0 ==> props[i] == props[1..][i - 1];
      }
      if i :| 0 <= i < |props[1..]| && x in Require(FlattenProperty(doc, props[1..][i], required, parent, seen, u).value, a) {
        assert props[i + 1] == props[1..][i];
      }
      if i :| 0 <= i < |props| && x in Require(FlattenProperty(doc, props[i], required, parent, seen, u).value, a) {
        assert i > 0 ==> props[i] == props[1..][i - 1];
      }
    }
  }

  // -------------------------------------------------- rows and walks

  /** The main correspondence, for every document, cyclic or not: the rows of a schema are exactly what
      its walks lead to. In particular a row is marked required if and only if some property on its
      walk is in its object's `required` list. */
  lemma {:induction false} RowsAreWalks(doc: Json, schema: Json, parent: string, seen: set<string>, u: set<string>, required: bool)
    requires Bounds(u, doc, schema) && Flatten(doc, schema, parent, seen, u).Ok?
    ensures Corresponds(doc, schema, parent, seen, u, required)
    decreases |u - seen|, schema, 1
  {
    hide Reached, Corresponds;
    PartsBounded(doc, schema, u);
    if !schema.JObj? {
      NoWalks(doc, schema, parent, seen, u, required);
    } else if Has(schema, "$ref") {
      var ref := RefOf(Get(schema, "$ref")).value;
      if ref in seen {
        NoWalks(doc, schema, parent, seen, u, required);
      } else {
        ResolveRefs(doc, ref);
        SeenGrows(u, seen, ref);
        RowsAreWalks(doc, ResolveRef(doc, ref), parent, seen + {ref}, u, required);
        RefRows(doc, schema, ref, parent, seen, u, required);
      }
    } else if Choices(schema).Some? {
      var items := Choices(schema).value;
      AllAreWalks(doc, items, parent, seen, u, required);
      ChoiceRows(doc, schema, parent, seen, u, required);
    } else if HasProperties(schema) {
      PropertiesAreWalks(doc, Properties(schema), RequiredNames(Get(schema, "required")).value, parent, seen, u, required);
      PropertyRows(doc, schema, parent, seen, u, required);
    } else if IsArray(schema) {
      var items := Get(schema, "items");
      if !Falsy(items) {
        RowsAreWalks(doc, items, Indexed(parent), seen, u, required);
      }
      ArrayRows(doc, schema, parent, seen, u, required);
    } else {
      LeafRows(doc, schema, parent, seen, u, required);
    }
  }

  lemma NoWalks(doc: Json, schema: Json, parent: string, seen: set<string>, u: set<string>, required: bool)
    requires Bounds(u, doc, schema) && Flatten(doc, schema, parent, seen, u).Ok?
    requires !schema.JObj? || (Has(schema, "$ref") && RefOf(Get(schema, "$ref")).Ok? && RefOf(Get(schema, "$ref")).value in seen)
    ensures Corresponds(doc, schema, parent, seen, u, required)
  {
    hide Require;
    RequireTwice([], required, required);
    forall walk ensures Follow(doc, schema, parent, seen, u, required, walk).None? {
    }
  }

  lemma ChoiceRows(doc: Json, schema: Json, parent: string, seen: set<string>, u: set<string>, required: bool)
    requires Bounds(u, doc, schema) && schema.JObj? && !Has(schema, "$ref") && Choices(schema).Some?
    requires forall i | 0 <= i < |Choices(schema).value| :: Bounds(u, doc, Choices(schema).value[i])
    requires Flatten(doc, schema, parent, seen, u).Ok?
    requires forall i | 0 <= i < |Choices(schema).value| ::
               Flatten(doc, Choices(schema).value[i], parent, seen, u).Ok?
               && Corresponds(doc, Choices(schema).value[i], parent, seen, u, required)
    ensures Corresponds(doc, schema, parent, seen, u, required)
  {
    var items := Choices(schema).value;
    assert Flatten(doc, schema, parent, seen, u) == FlattenAll(doc, items, parent, seen, u);
    hide Flatten, FlattenAll, Reached, Require, Bounds;
    forall x
      ensures x in Require(Flatten(doc, schema, parent, seen, u).value, required) <==> Reached(doc, schema, parent, seen, u, required, x)
    {
      AllMembers(doc, items, parent, seen, u, required, x);
      ReachedThroughChoice(doc, schema, parent, seen, u, required, x);
    }
  }

  /** What a property's rows are, once its schema corresponds. */
  lemma OneProperty(doc: Json, schema: Json, i: nat, parent: string, seen: set<string>, u: set<string>, required: bool, x: Row)
    requires HasProperties(schema) && i < |Properties(schema)| && Bounds(u, doc, Properties(schema)[i].1)
    requires var (name, child) := Properties(schema)[i];
             Flatten(doc, child, Full(parent, name), seen, u).Ok?
             && Corresponds(doc, child, Full(parent, name), seen, u, required || IsRequired(schema, i))
    ensures var names := RequiredNames(Get(schema, "required")).value;
            FlattenProperty(doc, Properties(schema)[i], names, parent, seen, u).Ok?
            && (x in Require(FlattenProperty(doc, Properties(schema)[i], names, parent, seen, u).value, required)
                <==> ReachedAtProperty(doc, schema, i, parent, seen, u, required, x))
  {
    hide Flatten, Reached, Full, Bounds, Get, PropertyRow;
    var (name, child) := Properties(schema)[i];
    var nested := Flatten(doc, child, Full(parent, name), seen, u).value;
    RequireTwice(nested, IsRequired(schema, i), required);
    RequireTwice([], required || IsRequired(schema, i), required);
    PropertyRowRequired(Full(parent, name), child, IsRequired(schema, i), required);
  }

  lemma PropertyRowRequired(full: string, child: Json, a: bool, b: bool)
    ensures Require([PropertyRow(full, child, a)], b) == [PropertyRow(full, child, b || a)]
  {
  }

  lemma PropertyRows(doc: Json, schema: Json, parent: string, seen: set<string>, u: set<string>, required: bool)
    requires Bounds(u, doc, schema) && HasProperties(schema)
    requires forall i | 0 <= i < |Properties(schema)| :: Bounds(u, doc, Properties(schema)[i].1)
    requires Flatten(doc, schema, parent, seen, u).Ok?
    requires forall i | 0 <= i < |Properties(schema)| ::
               Flatten(doc, Properties(schema)[i].1, Full(parent, Properties(schema)[i].0), seen, u).Ok?
               && Corresponds(doc, Properties(schema)[i].1, Full(parent, Properties(schema)[i].0), seen, u, required || IsRequired(schema, i))
    ensures Corresponds(doc, schema, parent, seen, u, required)
  {
    var names := RequiredNames(Get(schema, "required")).value;
    PropertyCase(doc, schema, parent, seen, u);
    hide Flatten, FlattenProperties, Reached, Require, Bounds, HasProperties, Get, Full, ReachedAtProperty;
    forall x
      ensures x in Require(Flatten(doc, schema, parent, seen, u).value, required) <==> Reached(doc, schema, parent, seen, u, required, x)
    {
      PropertiesMembers(doc, Properties(schema), names, parent, seen, u, required, x);
      ReachedThroughProperty(doc, schema, parent, seen, u, required, x);
      forall i | 0 <= i < |Properties(schema)|
        ensures x in Require(FlattenProperty(doc, Properties(schema)[i], names, parent, seen, u).value, required)
                <==> ReachedAtProperty(doc, schema, i, parent, seen, u, required, x)
      {
        OneProperty(doc, schema, i, parent, seen, u, required, x);
      }
    }
  }

  lemma PropertyCase(doc: Json, schema: Json, parent: string, seen: set<string>, u: set<string>)
    requires Bounds(u, doc, schema) && HasProperties(schema)
    requires forall i | 0 <= i < |Properties(schema)| :: Bounds(u, doc, Properties(schema)[i].1)
    ensures Flatten(doc, schema, parent, seen, u)
            == FlattenProperties(doc, Properties(schema), RequiredNames(Get(schema, "required")).value, parent, seen, u)
  {
  }

  lemma ArrayRows(doc: Json, schema: Json, parent: string, seen: set<string>, u: set<string>, required: bool)
    requires Bounds(u, doc, schema) && IsArray(schema) && Bounds(u, doc, Get(schema, "items"))
    requires Flatten(doc, schema, parent, seen, u).Ok?
    requires !Falsy(Get(schema, "items")) ==>
               Flatten(doc, Get(schema, "items"), Indexed(parent), seen, u).Ok?
               && Corresponds(doc, Get(schema, "items"), Indexed(parent), seen, u, required)
    ensures Corresponds(doc, schema, parent, seen, u, required)
  {
    var items := Get(schema, "items");
    ArrayCase(doc, schema, parent, seen, u);
    FreshRow(ArrayRow(parent), required);
    FreshRow(LeafRow(Indexed(parent), JObj([])), required);
    hide Flatten, Reached, Bounds, Get, Indexed, LeafRow, ArrayRow, IsArray;
    forall x
      ensures x in Require(Flatten(doc, schema, parent, seen, u).value, required) <==> Reached(doc, schema, parent, seen, u, required, x)
    {
      if Falsy(items) {
        ReachedThroughNoItems(doc, schema, parent, seen, u, required, x);
      } else {
        ReachedThroughItems(doc, schema, parent, seen, u, required, x);
      }
      RequireTwice([], required, required);
    }
  }

  lemma FreshRow(row: Row, required: bool)
    requires !row.required
    ensures Require([row], required) == [row.(required := required)]
  {
  }

  lemma ArrayCase(doc: Json, schema: Json, parent: string, seen: set<string>, u: set<string>)
    requires Bounds(u, doc, schema) && IsArray(schema) && Bounds(u, doc, Get(schema, "items"))
    ensures var items := Get(schema, "items");
            Flatten(doc, schema, parent, seen, u) ==
              if Falsy(items) then Ok([LeafRow(Indexed(parent), JObj([]))])
              else if Flatten(doc, items, Indexed(parent), seen, u).Err? then Flatten(doc, items, Indexed(parent), seen, u)
              else if Flatten(doc, items, Indexed(parent), seen, u).value != [] then Flatten(doc, items, Indexed(parent), seen, u)
              else Ok([ArrayRow(parent)])
  {
  }

  /** The rows of an array in the words of the program: those of `items or {}`, or a row of its own. */
  lemma ArrayIsItsItems(doc: Json, schema: Json, parent: string, seen: set<string>, u: set<string>)
    requires Bounds(u, doc, schema) && IsArray(schema) && Bounds(u, doc, Or(Get(schema, "items"), JObj([])))
    ensures var nested := Flatten(doc, Or(Get(schema, "items"), JObj([])), Indexed(parent), seen, u);
            Flatten(doc, schema, parent, seen, u) == if nested == Ok([]) then Ok([ArrayRow(parent)]) else nested
  {
    PartsBounded(doc, schema, u);
    ArrayCase(doc, schema, parent, seen, u);
    if Falsy(Get(schema, "items")) {
      EmptySchema(doc, Indexed(parent), seen, u);
    }
    hide Flatten, Bounds, IsArray;
  }

  lemma RefRows(doc: Json, schema: Json, ref: string, parent: string, seen: set<string>, u: set<string>, required: bool)
    requires Bounds(u, doc, schema) && schema.JObj? && Has(schema, "$ref") && RefOf(Get(schema, "$ref")) == Ok(ref) && ref !in seen
    requires Bounds(u, doc, ResolveRef(doc, ref))
    requires Flatten(doc, schema, parent, seen, u).Ok? && Flatten(doc, ResolveRef(doc, ref), parent, seen + {ref}, u).Ok?
    requires Corresponds(doc, ResolveRef(doc, ref), parent, seen + {ref}, u, required)
    ensures Corresponds(doc, schema, parent, seen, u, required)
  {
    RefCase(doc, schema, parent, seen, u);
    hide Flatten, Reached, Bounds, ResolveRef;
    forall x { ReachedThroughRef(doc, schema, parent, seen, u, required, x); }
  }

  lemma LeafRows(doc: Json, schema: Json, parent: string, seen: set<string>, u: set<string>, required: bool)
    requires Bounds(u, doc, schema) && schema.JObj? && !Has(schema, "$ref") && Choices(schema).None?
    requires !HasProperties(schema) && !IsArray(schema)
    requires Flatten(doc, schema, parent, seen, u).Ok?
    ensures Corresponds(doc, schema, parent, seen, u, required)
  {
    assert IsLeaf(schema);
    FreshRow(LeafRow(parent, schema), required);
    RequireTwice([], required, required);
    hide LeafRow, Require;
    forall x
      ensures x in Require(Flatten(doc, schema, parent, seen, u).value, required) <==> Reached(doc, schema, parent, seen, u, required, x)
    {
      if parent != "" {
        assert Follow(doc, schema, parent, seen, u, required, []) == Some(LeafRow(parent, schema).(required := required));
      }
    }
  }

  lemma {:induction false} AllAreWalks(doc: Json, items: seq<Json>, parent: string, seen: set<string>, u: set<string>, required: bool)
    requires forall i | 0 <= i < |items| :: Bounds(u, doc, items[i])
    requires FlattenAll(doc, items, parent, seen, u).Ok?
    ensures forall i | 0 <= i < |items| ::
              Flatten(doc, items[i], parent, seen, u).Ok? && Corresponds(doc, items[i], parent, seen, u, required)
    decreases |u - seen|, items, 0
  {
    hide Flatten, Corresponds, Bounds;
    if items != [] {
      RowsAreWalks(doc, items[0], parent, seen, u, required);
      AllAreWalks(doc, items[1..], parent, seen, u, required);
      forall i | 0 <= i < |items|
        ensures Flatten(doc, items[i], parent, seen, u).Ok? && Corresponds(doc, items[i], parent, seen, u, required)
      {
        assert i > 0 ==> items[i] == items[1..][i - 1];
      }
    }
  }

  lemma {:induction false} PropertiesAreWalks(doc: Json, props: seq<(string, Json)>, names: set<string>, parent: string,
                                              seen: set<string>, u: set<string>, required: bool)
    requires forall i | 0 <= i < |props| :: Bounds(u, doc, props[i].1)
    requires FlattenProperties(doc, props, names, parent, seen, u).Ok?
    ensures forall i | 0 <= i < |props| ::
              Flatten(doc, props[i].1, Full(parent, props[i].0), seen, u).Ok?
              && Corresponds(doc, props[i].1, Full(parent, props[i].0), seen, u, required || props[i].0 in names)
    decreases |u - seen|, props, 0
  {
    hide Flatten, Corresponds, Bounds, Full;
    if props != [] {
      OnePropertyIsWalks(doc, props[0], names, parent, seen, u, required);
      PropertiesAreWalks(doc, props[1..], names, parent, seen, u, required);
      forall i | 0 <= i < |props|
        ensures Flatten(doc, props[i].1, Full(parent, props[i].0), seen, u).Ok?
                && Corresponds(doc, props[i].1, Full(parent, props[i].0), seen, u, required || props[i].0 in names)
      {
        assert i > 0 ==> props[i] == props[1..][i - 1];
      }
    }
  }

  lemma {:induction false} OnePropertyIsWalks(doc: Json, prop: (string, Json), names: set<string>, parent: string,
                                              seen: set<string>, u: set<string>, required: bool)
    requires Bounds(u, doc, prop.1) && FlattenProperty(doc, prop, names, parent, seen, u).Ok?
    ensures Flatten(doc, prop.1, Full(parent, prop.0), seen, u).Ok?
            && Corresponds(doc, prop.1, Full(parent, prop.0), seen, u, required || prop.0 in names)
    decreases |u - seen|, prop, 2
  {
    hide Corresponds, Bounds, Full;
    RowsAreWalks(doc, prop.1, Full(parent, prop.0), seen, u, required || prop.0 in names);
  }

  // -------------------------------------------------- consequences

  lemma RequireFalse(rows: seq<Row>)
    ensures Require(rows, false) == rows
  {
  }

  /** The properties a walk passes, each with the required names of its object. */
  ghost function Passed(doc: Json, schema: Json, walk: seq<Move>): seq<(string, set<string>)>
    decreases |walk|
  {
    if walk == [] || !schema.JObj? then []
    else match walk[0]
      case IntoRef =>
        var ref := RefOf(Get(schema, "$ref"));
        if ref.Ok? then Passed(doc, ResolveRef(doc, ref.value), walk[1..]) else []
      case IntoChoice(i) =>
        if Choices(schema).Some? && i < |Choices(schema).value| then Passed(doc, Choices(schema).value[i], walk[1..]) else []
      case IntoProperty(i) =>
        if HasProperties(schema) && i < |Properties(schema)| then
          [(Properties(schema)[i].0, RequiredNames(Get(schema, "required")).value)] + Passed(doc, Properties(schema)[i].1, walk[1..])
        else []
      case IntoItems => if Falsy(Get(schema, "items")) then [] else Passed(doc, Get(schema, "items"), walk[1..])
      case StopAtProperty(i) =>
        if HasProperties(schema) && i < |Properties(schema)| then
          [(Properties(schema)[i].0, RequiredNames(Get(schema, "required")).value)]
        else []
      case StopAtArray => []
  }

  ghost predicate SomeRequired(passed: seq<(string, set<string>)>) {
    exists i | 0 <= i < |passed| :: passed[i].0 in passed[i].1
  }

  lemma SomeRequiredCons(first: (string, set<string>), rest: seq<(string, set<string>)>)
    ensures SomeRequired([first] + rest) <==> first.0 in first.1 || SomeRequired(rest)
  {
    var all := [first] + rest;
    if SomeRequired(rest) {
      var i :| 0 <= i < |rest| && rest[i].0 in rest[i].1;
      assert all[i + 1] == rest[i];
    }
    if first.0 in first.1 {
      assert all[0].0 in all[0].1;
    }
    if SomeRequired(all) {
      var i :| 0 <= i < |all| && all[i].0 in all[i].1;
      assert i > 0 ==> all[i] == rest[i - 1];
    }
  }

  /** The name is the path, or continues it with `.` or `[`; every name continues the empty path. */
  ghost predicate Extends(path: string, name: string) {
    path == "" || name == path || (|path| < |name| && name[..|path|] == path && (name[|path|] == '.' || name[|path|] == '['))
  }

  lemma ExtendsFurther(path: string, middle: string, name: string)
    requires Extends(path, middle) && Extends(middle, name) && (middle == "" ==> path == "")
    ensures Extends(path, name)
  {
    if path != "" && middle != path && name != middle {
      assert name[..|path|] == name[..|middle|][..|path|];
      assert name[|path|] == name[..|middle|][|path|];
    }
  }

  lemma PathsExtend(parent: string, name: string)
    ensures Extends(parent, Full(parent, name)) && (Full(parent, name) == "" ==> parent == "")
    ensures Extends(parent, Indexed(parent)) && Indexed(parent) != ""
  {
  }

  /** The row of a walk: its name extends the parent path, and it is required exactly when asked for or
      when a property it passed is listed as required by its own object. */
  lemma {:induction false} WalkRow(doc: Json, schema: Json, parent: string, seen: set<string>, u: set<string>, required: bool,
                                   walk: seq<Move>, x: Row)
    requires Bounds(u, doc, schema) && Follow(doc, schema, parent, seen, u, required, walk) == Some(x)
    ensures Extends(parent, x.name)
    ensures x.required <==> required || SomeRequired(Passed(doc, schema, walk))
    decreases |walk|
  {
    hide NoRows, Bounds, Extends, Full, Indexed;
    PartsBounded(doc, schema, u);
    PathsExtend(parent, "");
    if Has(schema, "$ref") {
      var ref := RefOf(Get(schema, "$ref")).value;
      assert Bounds(u, doc, ResolveRef(doc, ref)) by { BoundsOfRef(doc, schema, u, ref); }
      WalkRow(doc, ResolveRef(doc, ref), parent, seen + {ref}, u, required, walk[1..], x);
    } else if Choices(schema).Some? {
      WalkRow(doc, Choices(schema).value[walk[0].i], parent, seen, u, required, walk[1..], x);
    } else if HasProperties(schema) {
      WalkRowAtProperty(doc, schema, parent, seen, u, required, walk, x);
    } else if IsArray(schema) {
      if !Falsy(Get(schema, "items")) && walk[0] == IntoItems {
        WalkRow(doc, Get(schema, "items"), Indexed(parent), seen, u, required, walk[1..], x);
        ExtendsFurther(parent, Indexed(parent), x.name);
      }
    } else {
      assert x.name == parent;
      ItselfExtends(parent);
    }
  }

  lemma ItselfExtends(path: string)
    ensures Extends(path, path)
  {
  }

  lemma BoundsOfRef(doc: Json, schema: Json, u: set<string>, ref: string)
    requires Bounds(u, doc, schema)
    ensures Bounds(u, doc, ResolveRef(doc, ref))
  {
    ResolveRefs(doc, ref);
  }

  lemma {:induction false} WalkRowAtProperty(doc: Json, schema: Json, parent: string, seen: set<string>, u: set<string>, required: bool,
                                   walk: seq<Move>, x: Row)
    requires Bounds(u, doc, schema) && Follow(doc, schema, parent, seen, u, required, walk) == Some(x)
    requires HasProperties(schema)
    ensures Extends(parent, x.name)
    ensures x.required <==> required || SomeRequired(Passed(doc, schema, walk))
    decreases |walk|, 0
  {
    hide NoRows, Bounds, SomeRequired, Extends, Full;
    PartsBounded(doc, schema, u);
    var i := walk[0].i;
    var (name, child) := Properties(schema)[i];
    PathsExtend(parent, name);
    var entry := (name, RequiredNames(Get(schema, "required")).value);
    if walk[0].IntoProperty? {
      WalkRow(doc, child, Full(parent, name), seen, u, required || IsRequired(schema, i), walk[1..], x);
      ExtendsFurther(parent, Full(parent, name), x.name);
      SomeRequiredCons(entry, Passed(doc, child, walk[1..]));
    } else {
      SomeRequiredCons(entry, []);
      NothingRequired();
      assert [entry] + [] == [entry];
    }
  }

  lemma NothingRequired()
    ensures !SomeRequired([])
  {
  }

  /** The whole statement for an import: the rows of a schema, its names and its required flags. */
  lemma FlattenedRows(doc: Json, schema: Json, parent: string, u: set<string>, x: Row)
    requires Bounds(u, doc, schema) && Flatten(doc, schema, parent, {}, u).Ok?
    ensures x in Flatten(doc, schema, parent, {}, u).value
            <==> exists walk :: Follow(doc, schema, parent, {}, u, false, walk) == Some(x)
    ensures x in Flatten(doc, schema, parent, {}, u).value ==>
              Extends(parent, x.name)
              && exists walk :: Follow(doc, schema, parent, {}, u, false, walk) == Some(x)
                                && (x.required <==> SomeRequired(Passed(doc, schema, walk)))
  {
    hide Flatten, Follow, Bounds, Require, Passed, SomeRequired;
    RowsAreWalks(doc, schema, parent, {}, u, false);
    RequireFalse(Flatten(doc, schema, parent, {}, u).value);
    if Reached(doc, schema, parent, {}, u, false, x) {
      var walk: seq<Move> :| Follow(doc, schema, parent, {}, u, false, walk) == Some(x);
      WalkRow(doc, schema, parent, {}, u, false, walk, x);
    }
  }

  /** The move goes into the property, or makes its row. */
  predicate AtProperty(move: Move, i: nat) {
    move == IntoProperty(i) || move == StopAtProperty(i)
  }

  /** Some walk through the property leads to a row of the path or below it, required if the property is. */
  lemma WalkOfProperty(doc: Json, schema: Json, parent: string, seen: set<string>, u: set<string>, required: bool, i: nat)
    returns (walk: seq<Move>, x: Row)
    requires Bounds(u, doc, schema) && HasProperties(schema) && i < |Properties(schema)|
    requires Flatten(doc, schema, parent, seen, u).Ok?
    ensures walk != [] && AtProperty(walk[0], i) && Follow(doc, schema, parent, seen, u, required, walk) == Some(x)
    ensures Extends(Full(parent, Properties(schema)[i].0), x.name)
    ensures required || IsRequired(schema, i) ==> x.required
  {
    var names := RequiredNames(Get(schema, "required")).value;
    var (name, child) := Properties(schema)[i];
    var now := required || IsRequired(schema, i);
    PartsBounded(doc, schema, u);
    PropertyCase(doc, schema, parent, seen, u);
    PropertiesMembers(doc, Properties(schema), names, parent, seen, u, false, ArrayRow(""));
    assert FlattenProperty(doc, Properties(schema)[i], names, parent, seen, u).Ok?;
    assert Flatten(doc, child, Full(parent, name), seen, u).Ok?;
    hide Flatten, FlattenProperties, FlattenProperty, Follow, Bounds, HasProperties, Properties, Get, Full, Extends, IsRequired, Passed, SomeRequired;
    ItselfExtends(Full(parent, name));
    var nested := Flatten(doc, child, Full(parent, name), seen, u).value;
    if nested != [] {
      var rest;
      rest, x := FirstRowOf(doc, child, Full(parent, name), seen, u, now);
      walk := [IntoProperty(i)] + rest;
      assert walk[1..] == rest;
    } else {
      walk, x := [StopAtProperty(i)], PropertyRow(Full(parent, name), child, now);
    }
    FollowProperty(doc, schema, parent, seen, u, required, walk);
  }

  lemma FirstRowOf(doc: Json, schema: Json, parent: string, seen: set<string>, u: set<string>, required: bool)
    returns (walk: seq<Move>, x: Row)
    requires Bounds(u, doc, schema) && Flatten(doc, schema, parent, seen, u).Ok? && Flatten(doc, schema, parent, seen, u).value != []
    ensures Follow(doc, schema, parent, seen, u, required, walk) == Some(x)
    ensures Extends(parent, x.name) && (required ==> x.required)
  {
    hide Flatten, Follow, Bounds, Extends, Require, Passed, SomeRequired;
    var rows := Flatten(doc, schema, parent, seen, u).value;
    RowsAreWalks(doc, schema, parent, seen, u, required);
    MemberOfRequire(rows, required, rows[0]);
    x := rows[0].(required := rows[0].required || required);
    walk :| Follow(doc, schema, parent, seen, u, required, walk) == Some(x);
    WalkRow(doc, schema, parent, seen, u, required, walk, x);
  }

  /** A row that a walk through property `i` leads to, at the property's path or below. */
  ghost predicate RowOfProperty(doc: Json, schema: Json, parent: string, seen: set<string>, u: set<string>, required: bool, i: nat, x: Row)
    requires Bounds(u, doc, schema) && HasProperties(schema) && i < |Properties(schema)|
  {
    && Extends(Full(parent, Properties(schema)[i].0), x.name)
    && (required || IsRequired(schema, i) ==> x.required)
    && exists walk :: walk != [] && AtProperty(walk[0], i) && Follow(doc, schema, parent, seen, u, required, walk) == Some(x)
  }

  /** Every property of an object has a row of its own or of its schema, even where a cycle was cut. */
  lemma EveryPropertyHasARow(doc: Json, schema: Json, parent: string, seen: set<string>, u: set<string>, i: nat)
    requires Bounds(u, doc, schema) && Flatten(doc, schema, parent, seen, u).Ok?
    requires HasProperties(schema) && i < |Properties(schema)|
    ensures exists x :: x in Flatten(doc, schema, parent, seen, u).value && RowOfProperty(doc, schema, parent, seen, u, false, i, x)
  {
    hide Flatten, Follow, Bounds, HasProperties, Properties, Full, Extends, IsRequired, Require;
    var walk, x := WalkOfProperty(doc, schema, parent, seen, u, false, i);
    RowsAreWalks(doc, schema, parent, seen, u, false);
    RequireFalse(Flatten(doc, schema, parent, seen, u).value);
    assert RowOfProperty(doc, schema, parent, seen, u, false, i, x);
  }

  // -------------------------------------------------- schemas reached below the root

  datatype Node = Node(schema: Json, parent: string, seen: set<string>, required: bool)

  /** One `Into` move: the schema below, its path, and what has been gathered. */
  ghost function Next(doc: Json, n: Node, move: Move): Option<Node> {
    if !n.schema.JObj? then None
    else if Has(n.schema, "$ref") then
      var ref := RefOf(Get(n.schema, "$ref"));
      if move == IntoRef && ref.Ok? && ref.value !in n.seen
      then Some(Node(ResolveRef(doc, ref.value), n.parent, n.seen + {ref.value}, n.required)) else None
    else if Choices(n.schema).Some? then
      if move.IntoChoice? && move.i < |Choices(n.schema).value| then Some(n.(schema := Choices(n.schema).value[move.i])) else None
    else if HasProperties(n.schema) then
      if move.IntoProperty? && move.i < |Properties(n.schema)| then
        var (name, child) := Properties(n.schema)[move.i];
        Some(Node(child, Full(n.parent, name), n.seen, n.required || IsRequired(n.schema, move.i)))
      else None
    else if IsArray(n.schema) && move == IntoItems && !Falsy(Get(n.schema, "items"))
    then Some(n.(schema := Get(n.schema, "items"), parent := Indexed(n.parent)))
    else None
  }

  /** Where a walk of `Into` moves arrives. */
  ghost function Arrive(doc: Json, n: Node, walk: seq<Move>): Option<Node>
    decreases |walk|
  {
    if walk == [] then Some(n)
    else if Next(doc, n, walk[0]).None? then None
    else Arrive(doc, Next(doc, n, walk[0]).value, walk[1..])
  }

  ghost predicate Flattens(doc: Json, n: Node, u: set<string>) {
    Bounds(u, doc, n.schema) && Flatten(doc, n.schema, n.parent, n.seen, u).Ok?
  }

  ghost predicate ReachedFrom(doc: Json, n: Node, u: set<string>, x: Row)
    requires Bounds(u, doc, n.schema)
  {
    Reached(doc, n.schema, n.parent, n.seen, u, n.required, x)
  }

  /** One move down keeps the document acceptable, and every row below is a row above. */
  lemma OneMove(doc: Json, n: Node, u: set<string>, move: Move, m: Node)
    requires Flattens(doc, n, u) && Next(doc, n, move) == Some(m)
    ensures Flattens(doc, m, u)
    ensures forall x :: ReachedFrom(doc, m, u, x) ==> ReachedFrom(doc, n, u, x)
  {
    hide Reached;
    PartsBounded(doc, n.schema, u);
    if Has(n.schema, "$ref") {
      BoundsOfRef(doc, n.schema, u, RefOf(Get(n.schema, "$ref")).value);
      forall x { ReachedThroughRef(doc, n.schema, n.parent, n.seen, u, n.required, x); }
    } else if Choices(n.schema).Some? {
      AllMembers(doc, Choices(n.schema).value, n.parent, n.seen, u, false, ArrayRow(""));
      forall x { ReachedThroughChoice(doc, n.schema, n.parent, n.seen, u, n.required, x); }
    } else if HasProperties(n.schema) {
      PropertyMove(doc, n, u, move, m);
    } else {
      ArrayCase(doc, n.schema, n.parent, n.seen, u);
      forall x { ReachedThroughItems(doc, n.schema, n.parent, n.seen, u, n.required, x); }
    }
  }

  lemma PropertyMove(doc: Json, n: Node, u: set<string>, move: Move, m: Node)
    requires Flattens(doc, n, u) && Next(doc, n, move) == Some(m) && HasProperties(n.schema)
    ensures Flattens(doc, m, u)
    ensures forall x :: ReachedFrom(doc, m, u, x) ==> ReachedFrom(doc, n, u, x)
  {
    hide Reached;
    PartsBounded(doc, n.schema, u);
    PropertyCase(doc, n.schema, n.parent, n.seen, u);
    var names := RequiredNames(Get(n.schema, "required")).value;
    PropertiesMembers(doc, Properties(n.schema), names, n.parent, n.seen, u, false, ArrayRow(""));
    assert FlattenProperty(doc, Properties(n.schema)[move.i], names, n.parent, n.seen, u).Ok?;
    forall x | ReachedFrom(doc, m, u, x) ensures ReachedFrom(doc, n, u, x) {
      ReachedThroughProperty(doc, n.schema, n.parent, n.seen, u, n.required, x);
      assert ReachedAtProperty(doc, n.schema, move.i, n.parent, n.seen, u, n.required, x);
    }
  }

  lemma {:induction false} ArriveSurfaces(doc: Json, n: Node, u: set<string>, walk: seq<Move>, m: Node)
    requires Flattens(doc, n, u) && Arrive(doc, n, walk) == Some(m)
    ensures Flattens(doc, m, u)
    ensures forall x :: ReachedFrom(doc, m, u, x) ==> ReachedFrom(doc, n, u, x)
    decreases |walk|
  {
    if walk != [] {
      var next := Next(doc, n, walk[0]).value;
      hide Flattens, ReachedFrom, Next;
      OneMove(doc, n, u, walk[0], next);
      ArriveSurfaces(doc, next, u, walk[1..], m);
    }
  }

  /** Walking on from where one has arrived. */
  ghost function FollowFrom(doc: Json, n: Node, u: set<string>, walk: seq<Move>): Option<Row>
    requires Bounds(u, doc, n.schema)
  {
    Follow(doc, n.schema, n.parent, n.seen, u, n.required, walk)
  }

  lemma MoveFollows(doc: Json, n: Node, u: set<string>, move: Move, m: Node, rest: seq<Move>)
    requires Bounds(u, doc, n.schema) && Next(doc, n, move) == Some(m)
    ensures Bounds(u, doc, m.schema) && FollowFrom(doc, n, u, [move] + rest) == FollowFrom(doc, m, u, rest)
  {
    hide NoRows, Full, Indexed;
    assert ([move] + rest)[1..] == rest;
    PartsBounded(doc, n.schema, u);
    if Has(n.schema, "$ref") {
      BoundsOfRef(doc, n.schema, u, RefOf(Get(n.schema, "$ref")).value);
    }
    hide Bounds;
  }

  lemma {:induction false} ArriveFollows(doc: Json, n: Node, u: set<string>, walk: seq<Move>, m: Node, rest: seq<Move>)
    requires Bounds(u, doc, n.schema) && Arrive(doc, n, walk) == Some(m)
    ensures Bounds(u, doc, m.schema) && FollowFrom(doc, n, u, walk + rest) == FollowFrom(doc, m, u, rest)
    decreases |walk|
  {
    hide Bounds, FollowFrom, Next;
    if walk != [] {
      var next := Next(doc, n, walk[0]).value;
      MoveFollows(doc, n, u, walk[0], next, walk[1..] + rest);
      ArriveFollows(doc, next, u, walk[1..], m, rest);
      assert walk + rest == [walk[0]] + (walk[1..] + rest);
    } else {
      assert walk + rest == rest;
    }
  }

  /** A row of the import that the walk, continued through property `i` of the object it arrives at, leads to:
      at the property's path or below, and required if the property or one passed before is. */
  ghost predicate RowBehind(doc: Json, n: Node, u: set<string>, walk: seq<Move>, m: Node, i: nat, x: Row)
    requires Bounds(u, doc, n.schema) && HasProperties(m.schema) && i < |Properties(m.schema)|
  {
    && Extends(Full(m.parent, Properties(m.schema)[i].0), x.name)
    && (m.required || IsRequired(m.schema, i) ==> x.required)
    && exists rest :: rest != [] && AtProperty(rest[0], i) && FollowFrom(doc, n, u, walk + rest) == Some(x)
  }

  /** Every property of every object the import reaches, however deep and through whatever references,
      has at least one row of its own in the result; if its object lists it as required, a required one. */
  lemma EveryReachedPropertyHasARow(doc: Json, schema: Json, parent: string, u: set<string>, walk: seq<Move>, i: nat)
    requires Bounds(u, doc, schema) && Flatten(doc, schema, parent, {}, u).Ok?
    requires var m := Arrive(doc, Node(schema, parent, {}, false), walk);
             m.Some? && HasProperties(m.value.schema) && i < |Properties(m.value.schema)|
    ensures var n := Node(schema, parent, {}, false);
            exists x :: x in Flatten(doc, schema, parent, {}, u).value && RowBehind(doc, n, u, walk, Arrive(doc, n, walk).value, i, x)
  {
    var n := Node(schema, parent, {}, false);
    var m := Arrive(doc, n, walk).value;
    ArriveSurfaces(doc, n, u, walk, m);
    hide Flatten, Follow, Arrive, Bounds, HasProperties, Properties, Full, Extends, IsRequired, Require;
    var rest, x := WalkOfProperty(doc, m.schema, m.parent, m.seen, u, m.required, i);
    ArriveFollows(doc, n, u, walk, m, rest);
    RowsAreWalks(doc, schema, parent, {}, u, false);
    RequireFalse(Flatten(doc, schema, parent, {}, u).value);
    assert RowBehind(doc, n, u, walk, m, i, x);
  }

  lemma MemberOfRequire(rows: seq<Row>, required: bool, x: Row)
    requires x in rows
    ensures x.(required := x.required || required) in Require(rows, required)
  {
    var i :| 0 <= i < |rows| && rows[i] == x;
    assert Require(rows, required)[i] == x.(required := x.required || required);
  }

  // ------------------------------------------------------------------ the program

  lemma RefCase(doc: Json, schema: Json, parent: string, seen: set<string>, u: set<string>)
    requires Bounds(u, doc, schema) && schema.JObj? && Has(schema, "$ref")
    ensures var ref := RefOf(Get(schema, "$ref"));
            if ref.Err? then Flatten(doc, schema, parent, seen, u) == Err(Raised)
            else if ref.value in seen then Flatten(doc, schema, parent, seen, u) == Ok([])
            else ref.value in u && Bounds(u, doc, ResolveRef(doc, ref.value))
                 && Flatten(doc, schema, parent, seen, u) == Flatten(doc, ResolveRef(doc, ref.value), parent, seen + {ref.value}, u)
  {
    PartsBounded(doc, schema, u);
    var ref := RefOf(Get(schema, "$ref"));
    if ref.Ok? {
      BoundsOfRef(doc, schema, u, ref.value);
    }
  }

  lemma ChoiceCase(doc: Json, schema: Json, parent: string, seen: set<string>, u: set<string>)
    requires Bounds(u, doc, schema) && schema.JObj? && !Has(schema, "$ref") && Choices(schema).Some?
    requires forall i | 0 <= i < |Choices(schema).value| :: Bounds(u, doc, Choices(schema).value[i])
    ensures Flatten(doc, schema, parent, seen, u) == FlattenAll(doc, Choices(schema).value, parent, seen, u)
  {
  }

  /** A malformed `required` or `properties`, and the schema that is a leaf. */
  lemma OtherCases(doc: Json, schema: Json, parent: string, seen: set<string>, u: set<string>)
    requires Bounds(u, doc, schema) && schema.JObj? && !Has(schema, "$ref") && Choices(schema).None?
    requires !HasProperties(schema) && !IsArray(schema)
    ensures Flatten(doc, schema, parent, seen, u) ==
              if !IsLeaf(schema) then Err(Raised) else if parent != "" then Ok([LeafRow(parent, schema)]) else Ok([])
  {
  }

  lemma PartsAreSmaller(schema: Json)
    requires schema.JObj?
    ensures Get(schema, "items") != JNull ==> Get(schema, "items") < schema
    ensures Get(schema, "properties").JObj? ==> Get(schema, "properties") < schema
    ensures Choices(schema).Some? ==> forall i | 0 <= i < |Choices(schema).value| :: Choices(schema).value[i] < schema
  {
  }

  /** `flatten_schema`: the references. */
  method FlattenSchema(doc: Json, schema: Json, parent: string, seen: set<string>, ghost u: set<string>) returns (r: Result<seq<Row>, Exception>)
    requires Bounds(u, doc, schema)
    ensures r == Flatten(doc, schema, parent, seen, u)
    decreases |u - seen|, schema, 1
  {
    if !schema.JObj? {
      return Ok([]);
    }
    if Has(schema, "$ref") {
      RefCase(doc, schema, parent, seen, u);
      hide Flatten, Bounds, Has, Get, ResolveRef;
      var ref := RefOf(Get(schema, "$ref"));
      if ref.Err? {
        return Err(Raised);
      }
      if ref.value in seen {
        return Ok([]);
      }
      var target := ResolveRefLoop(doc, ref.value);
      SeenGrows(u, seen, ref.value);
      r := FlattenSchema(doc, target, parent, seen + {ref.value}, u);
      return;
    }
    r := FlattenInline(doc, schema, parent, seen, u);
  }

  /** `flatten_schema`: the combinators, the properties, the arrays and the leaves. */
  method FlattenInline(doc: Json, schema: Json, parent: string, seen: set<string>, ghost u: set<string>) returns (r: Result<seq<Row>, Exception>)
    requires Bounds(u, doc, schema) && schema.JObj? && !Has(schema, "$ref")
    ensures r == Flatten(doc, schema, parent, seen, u)
    decreases |u - seen|, schema, 0
  {
    hide Flatten, FlattenAll, FlattenProperties, FlattenProperty, Bounds, Has, Get, LeafRow, Refs;
    PartsBounded(doc, schema, u);
    if Choices(schema).Some? {
      ChoiceCase(doc, schema, parent, seen, u);
      r := FlattenAlternatives(doc, schema, Choices(schema).value, parent, seen, u);
      return;
    }
    var props := Get(schema, "properties");
    var required := RequiredNames(Get(schema, "required"));
    if required.Err? || (!Falsy(props) && !props.JObj?) {
      OtherCases(doc, schema, parent, seen, u);
      return Err(Raised);
    }
    if !Falsy(props) {
      PropertyCase(doc, schema, parent, seen, u);
      r := FlattenObject(doc, schema, props.fields, required.value, parent, seen, u);
      return;
    }
    if Get(schema, "type") == JStr("array") {
      ArrayCase(doc, schema, parent, seen, u);
      var items := Get(schema, "items");
      if Falsy(items) {
        return Ok([LeafRow(Indexed(parent), JObj([]))]);
      }
      PartsAreSmaller(schema);
      r := FlattenSchema(doc, items, Indexed(parent), seen, u);
      if r == Ok([]) {
        r := Ok([ArrayRow(parent)]);
      }
      return;
    }
    OtherCases(doc, schema, parent, seen, u);
    return Ok(if parent != "" then [LeafRow(parent, schema)] else []);
  }

  /** All the references a schema of a document can meet. */
  ghost function Reachable(doc: Json, schema: Json): set<string> {
    {""} + Refs(doc) + Refs(schema)
  }

  /** The call of the import: any document, any schema, no reference seen yet. */
  method FlattenDocument(doc: Json, schema: Json, parent: string) returns (r: Result<seq<Row>, Exception>)
    ensures r == Flatten(doc, schema, parent, {}, Reachable(doc, schema))
  {
    r := FlattenSchema(doc, schema, parent, {}, Reachable(doc, schema));
  }

  /** The rows gathered so far, followed by those still to come. */
  ghost function Resume(rows: seq<Row>, rest: Result<seq<Row>, Exception>): Result<seq<Row>, Exception> {
    if rest.Ok? then Ok(rows + rest.value) else rest
  }

  lemma ResumeStep(rows: seq<Row>, first: seq<Row>, rest: Result<seq<Row>, Exception>)
    ensures Resume([], rest) == rest
    ensures Resume(rows, Ok([])) == Ok(rows)
    ensures Resume(rows, Resume(first, rest)) == Resume(rows + first, rest)
  {
    if rest.Ok? {
      assert [] + rest.value == rest.value;
      assert rows + (first + rest.value) == (rows + first) + rest.value;
    }
    assert rows + [] == rows;
  }

  method FlattenAlternatives(doc: Json, ghost whole: Json, items: seq<Json>, parent: string, seen: set<string>, ghost u: set<string>)
    returns (r: Result<seq<Row>, Exception>)
    requires forall i | 0 <= i < |items| :: Bounds(u, doc, items[i])
    requires whole.JObj? && Choices(whole) == Some(items)
    ensures r == FlattenAll(doc, items, parent, seen, u)
    decreases |u - seen|, whole, 0, 0
  {
    PartsAreSmaller(whole);
    hide Flatten, Bounds, Resume, Choices;
    var rows: seq<Row> := [];
    assert items[0..] == items;
    ResumeStep([], [], FlattenAll(doc, items, parent, seen, u));
    for i := 0 to |items|
      invariant FlattenAll(doc, items, parent, seen, u) == Resume(rows, FlattenAll(doc, items[i..], parent, seen, u))
    {
      AlternativesStep(doc, items, i, parent, seen, u);
      var nested := FlattenSchema(doc, items[i], parent, seen, u);
      if nested.Err? {
        ResumeRaised(rows, nested);
        return nested;
      }
      ResumeStep(rows, nested.value, FlattenAll(doc, items[i + 1..], parent, seen, u));
      rows := rows + nested.value;
    }
    assert items[|items|..] == [];
    ResumeStep(rows, [], Ok([]));
    return Ok(rows);
  }

  lemma ResumeRaised(rows: seq<Row>, failed: Result<seq<Row>, Exception>)
    requires failed.Err?
    ensures Resume(rows, failed) == failed
  {
  }

  lemma AlternativesStep(doc: Json, items: seq<Json>, i: nat, parent: string, seen: set<string>, u: set<string>)
    requires forall i | 0 <= i < |items| :: Bounds(u, doc, items[i])
    requires i < |items|
    ensures var first := Flatten(doc, items[i], parent, seen, u);
            FlattenAll(doc, items[i..], parent, seen, u)
            == if first.Ok? then Resume(first.value, FlattenAll(doc, items[i + 1..], parent, seen, u)) else first
  {
    hide Flatten, Bounds;
    assert items[i..][1..] == items[i + 1..];
    assert items[i..][0] == items[i];
  }

  method FlattenObject(doc: Json, ghost whole: Json, props: seq<(string, Json)>, required: set<string>, parent: string, seen: set<string>,
                       ghost u: set<string>) returns (r: Result<seq<Row>, Exception>)
    requires forall i | 0 <= i < |props| :: Bounds(u, doc, props[i].1)
    requires whole.JObj? && Get(whole, "properties") == JObj(props)
    ensures r == FlattenProperties(doc, props, required, parent, seen, u)
    decreases |u - seen|, whole, 0, 0
  {
    hide FlattenProperty, FlattenProperties, Bounds, Resume, Get;
    var rows: seq<Row> := [];
    assert props[0..] == props;
    ResumeStep([], [], FlattenProperties(doc, props, required, parent, seen, u));
    for i := 0 to |props|
      invariant FlattenProperties(doc, props, required, parent, seen, u)
                == Resume(rows, FlattenProperties(doc, props[i..], required, parent, seen, u))
    {
      PropertiesStep(doc, props, i, required, parent, seen, u);
      ChildIsSmaller(whole, props, i);
      var own := FlattenOne(doc, props[i], required, parent, seen, u);
      if own.Err? {
        ResumeRaised(rows, own);
        return own;
      }
      ResumeStep(rows, own.value, FlattenProperties(doc, props[i + 1..], required, parent, seen, u));
      rows := rows + own.value;
    }
    assert props[|props|..] == [];
    NoProperties(doc, required, parent, seen, u);
    ResumeStep(rows, [], Ok([]));
    return Ok(rows);
  }

  lemma ChildIsSmaller(whole: Json, props: seq<(string, Json)>, i: nat)
    requires whole.JObj? && Get(whole, "properties") == JObj(props) && i < |props|
    ensures props[i].1 < whole
  {
    PartsAreSmaller(whole);
    assert props[i].1 < JObj(props);
  }

  lemma NoProperties(doc: Json, required: set<string>, parent: string, seen: set<string>, u: set<string>)
    ensures FlattenProperties(doc, [], required, parent, seen, u) == Ok([])
  {
  }

  lemma PropertiesStep(doc: Json, props: seq<(string, Json)>, i: nat, required: set<string>, parent: string, seen: set<string>,
                       u: set<string>)
    requires forall i | 0 <= i < |props| :: Bounds(u, doc, props[i].1)
    requires i < |props|
    ensures var first := FlattenProperty(doc, props[i], required, parent, seen, u);
            FlattenProperties(doc, props[i..], required, parent, seen, u)
            == if first.Ok? then Resume(first.value, FlattenProperties(doc, props[i + 1..], required, parent, seen, u)) else first
  {
    hide FlattenProperty, Bounds;
    assert props[i..][1..] == props[i + 1..];
    assert props[i..][0] == props[i];
  }

  /** The body of the property loop, which rewrites the `required` flags of the nested rows in place. */
  method FlattenOne(doc: Json, prop: (string, Json), required: set<string>, parent: string, seen: set<string>,
                    ghost u: set<string>) returns (r: Result<seq<Row>, Exception>)
    requires Bounds(u, doc, prop.1)
    ensures r == FlattenProperty(doc, prop, required, parent, seen, u)
    decreases |u - seen|, prop.1, 2
  {
    hide Bounds, Full, PropertyRow;
    var full := Full(parent, prop.0);
    var nested := FlattenSchema(doc, prop.1, full, seen, u);
    if nested.Err? {
      return nested;
    }
    if nested.value == [] {
      return Ok([PropertyRow(full, prop.1, prop.0 in required)]);
    }
    var rows := nested.value;
    for k := 0 to |rows|
      invariant |rows| == |nested.value|
      invariant forall j | 0 <= j < k :: rows[j] == nested.value[j].(required := nested.value[j].required || prop.0 in required)
      invariant forall j | k <= j < |rows| :: rows[j] == nested.value[j]
    {
      rows := rows[k := rows[k].(required := rows[k].required || prop.0 in required)];
    }
    assert rows == Require(nested.value, prop.0 in required);
    return Ok(rows);
  }
}
