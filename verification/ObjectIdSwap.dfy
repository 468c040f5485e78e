/** `apiAnalysis/rule/object_id.py`: the attacker's request with its object identifiers replaced by the
    victim's, and the log of the replacements. */
module ObjectIdSwap {
  import opened Text

  /** A JSON value; dictionaries keep their insertion order. */
  datatype Json = Null | Bool(b: bool) | Num(x: real) | Str(s: string) | Arr(items: seq<Json>) | Obj(fields: seq<Field>)

  type Field = (string, Json)

  /** `isId` is `is_object_id_param`, `text` is Python's `str`. */
  datatype Rules = Rules(isId: string -> bool, text: Json -> string)

  datatype Location = Query | Path | Body

  datatype Swap = Swap(location: Location, param: string, attacker: Json, victim: Json)

  datatype Found = Found(location: Location, param: string, value: Json)

  /** The parts of a composed request that carry parameters. */
  datatype Payload = Payload(query: seq<Field>, path: seq<Field>, body: Json)

  predicate IsContainer(j: Json) { j.Arr? || j.Obj? }

  /** `d.get(key)`: a missing key gives null. */
  function Lookup(fields: seq<Field>, key: string): Json {
    if fields == [] then Null else if fields[0].0 == key then fields[0].1 else Lookup(fields[1..], key)
  }

  function IndexGet(index: map<string, Json>, key: string): Json {
    if key in index then index[key] else Null
  }

  predicate Usable(rules: Rules, v: Json) {
    v != Null && Strip(rules.text(v)) != ""
  }

  /** The guard of a replacement. */
  predicate Replaces(rules: Rules, key: string, own: Json, victim: Json) {
    rules.isId(key) && Usable(rules, victim) && rules.text(victim) != rules.text(own)
  }

  function NewValue(rules: Rules, key: string, own: Json, victim: Json): Json {
    if Replaces(rules, key, own, victim) then victim else own
  }

  // ------------------------------------------------------------------ query and path parameters

  function FlatOne(rules: Rules, field: Field, victim: seq<Field>): Field {
    (field.0, NewValue(rules, field.0, field.1, Lookup(victim, field.0)))
  }

  function FlatAfter(rules: Rules, target: seq<Field>, victim: seq<Field>): (r: seq<Field>)
    ensures |r| == |target| && forall i | 0 <= i < |r| :: r[i] == FlatOne(rules, target[i], victim)
  {
    if target == [] then [] else [FlatOne(rules, target[0], victim)] + FlatAfter(rules, target[1..], victim)
  }

  function FlatEntry(rules: Rules, field: Field, victim: seq<Field>, location: Location): seq<Swap> {
    var (key, own) := field;
    if Replaces(rules, key, own, Lookup(victim, key)) then [Swap(location, key, own, Lookup(victim, key))] else []
  }

  function FlatLog(rules: Rules, target: seq<Field>, victim: seq<Field>, location: Location): seq<Swap> {
    if target == [] then []
    else FlatLog(rules, target[..|target| - 1], victim, location) + FlatEntry(rules, target[|target| - 1], victim, location)
  }

  function FlatFound(rules: Rules, target: seq<Field>, location: Location): seq<Found> {
    if target == [] then []
    else
      var front, (key, value) := target[..|target| - 1], target[|target| - 1];
      FlatFound(rules, front, location) + if rules.isId(key) then [Found(location, key, value)] else []
  }

  // ------------------------------------------------------------------ bodies

  /** Every scalar under a key, in document order. */
  function Leaves(j: Json): seq<Field> {
    match j
    case Arr(items) => ItemLeaves(items)
    case Obj(fields) => FieldLeaves(fields)
    case _ => []
  }

  function ItemLeaves(items: seq<Json>): seq<Field> {
    if items == [] then [] else ItemLeaves(items[..|items| - 1]) + Leaves(items[|items| - 1])
  }

  function OneLeaves(field: Field): seq<Field> {
    if IsContainer(field.1) then Leaves(field.1) else [field]
  }

  function FieldLeaves(fields: seq<Field>): seq<Field> {
    if fields == [] then [] else FieldLeaves(fields[..|fields| - 1]) + OneLeaves(fields[|fields| - 1])
  }

  /** `setdefault` for each leaf in turn. */
  function WithFirst(index: map<string, Json>, leaves: seq<Field>): map<string, Json> {
    if leaves == [] then index
    else
      var before, (key, value) := WithFirst(index, leaves[..|leaves| - 1]), leaves[|leaves| - 1];
      if key in before then before else before[key := value]
  }

  function IndexOfBody(body: Json): map<string, Json> {
    WithFirst(map[], Leaves(body))
  }

  function After(rules: Rules, j: Json, index: map<string, Json>): Json {
    match j
    case Arr(items) => Arr(ItemsAfter(rules, items, index))
    case Obj(fields) => Obj(FieldsAfter(rules, fields, index))
    case _ => j
  }

  function ItemsAfter(rules: Rules, items: seq<Json>, index: map<string, Json>): (r: seq<Json>)
    ensures |r| == |items| && forall i | 0 <= i < |r| :: r[i] == After(rules, items[i], index)
  {
    if items == [] then [] else [After(rules, items[0], index)] + ItemsAfter(rules, items[1..], index)
  }

  function FieldAfter(rules: Rules, field: Field, index: map<string, Json>): Json {
    if IsContainer(field.1) then After(rules, field.1, index)
    else NewValue(rules, field.0, field.1, IndexGet(index, field.0))
  }

  function FieldsAfter(rules: Rules, fields: seq<Field>, index: map<string, Json>): (r: seq<Field>)
    ensures |r| == |fields| && forall i | 0 <= i < |r| :: r[i] == (fields[i].0, FieldAfter(rules, fields[i], index))
  {
    if fields == [] then []
    else [(fields[0].0, FieldAfter(rules, fields[0], index))] + FieldsAfter(rules, fields[1..], index)
  }

  function Join(prefix: string, key: string): string {
    if prefix != "" then prefix + "." + key else key
  }

  function Decimal(n: nat): string {
    (if n >= 10 then Decimal(n / 10) else "") + [('0' as int + n % 10) as char]
  }

  /** An object-identifier leaf of a body with the two names it goes by: `_swap_body` leaves list
      positions out of its paths, `_collect_from_body` writes them. */
  datatype IdLeaf = IdLeaf(key: string, value: Json, param: string, path: string)

  function IdLeaves(rules: Rules, j: Json, prefix: string, path: string): seq<IdLeaf> {
    match j
    case Arr(items) => ItemIdLeaves(rules, items, prefix, path)
    case Obj(fields) => FieldIdLeaves(rules, fields, prefix, path)
    case _ => []
  }

  function ItemIdLeaves(rules: Rules, items: seq<Json>, prefix: string, path: string): seq<IdLeaf> {
    if items == [] then []
    else
      var n := |items| - 1;
      ItemIdLeaves(rules, items[..n], prefix, path) + IdLeaves(rules, items[n], prefix, path + "[" + Decimal(n) + "]")
  }

  function OneIdLeaves(rules: Rules, field: Field, prefix: string, path: string): seq<IdLeaf> {
    var (key, value) := field;
    if IsContainer(value) then IdLeaves(rules, value, Join(prefix, key), Join(path, key))
    else if rules.isId(key) then [IdLeaf(key, value, Join(prefix, key), Join(path, key))]
    else []
  }

  function FieldIdLeaves(rules: Rules, fields: seq<Field>, prefix: string, path: string): seq<IdLeaf> {
    if fields == [] then []
    else FieldIdLeaves(rules, fields[..|fields| - 1], prefix, path) + OneIdLeaves(rules, fields[|fields| - 1], prefix, path)
  }

  function LoggedOne(rules: Rules, leaf: IdLeaf, index: map<string, Json>): seq<Swap> {
    var victim := IndexGet(index, leaf.key);
    if Replaces(rules, leaf.key, leaf.value, victim) then [Swap(Body, leaf.param, leaf.value, victim)] else []
  }

  function Logged(rules: Rules, leaves: seq<IdLeaf>, index: map<string, Json>): seq<Swap> {
    if leaves == [] then []
    else Logged(rules, leaves[..|leaves| - 1], index) + LoggedOne(rules, leaves[|leaves| - 1], index)
  }

  function Listed(leaves: seq<IdLeaf>): (r: seq<Found>)
    ensures |r| == |leaves| && forall i | 0 <= i < |r| :: r[i] == Found(Body, leaves[i].path, leaves[i].value)
  {
    if leaves == [] then []
    else Listed(leaves[..|leaves| - 1]) + [Found(Body, leaves[|leaves| - 1].path, leaves[|leaves| - 1].value)]
  }

  lemma LoggedNothing(rules: Rules, index: map<string, Json>)
    ensures Logged(rules, [], index) == []
  {
  }

  lemma {:induction false} LoggedAppend(rules: Rules, a: seq<IdLeaf>, b: seq<IdLeaf>, index: map<string, Json>)
    ensures Logged(rules, a + b, index) == Logged(rules, a, index) + Logged(rules, b, index)
  {
    hide LoggedOne;
    if b == [] {
      assert a + b == a;
    } else {
      LoggedAppend(rules, a, b[..|b| - 1], index);
      assert (a + b)[..|a + b| - 1] == a + b[..|b| - 1];
    }
  }

  lemma {:induction false} WithFirstAppend(index: map<string, Json>, a: seq<Field>, b: seq<Field>)
    ensures WithFirst(index, a + b) == WithFirst(WithFirst(index, a), b)
  {
    if b == [] {
      assert a + b == a;
    } else {
      WithFirstAppend(index, a, b[..|b| - 1]);
      assert (a + b)[..|a + b| - 1] == a + b[..|b| - 1];
    }
  }

  // ------------------------------------------------------------------ whole requests

  function Substitute(rules: Rules, attacker: Payload, victim: Payload): Payload {
    Payload(FlatAfter(rules, attacker.query, victim.query), FlatAfter(rules, attacker.path, victim.path),
            After(rules, attacker.body, IndexOfBody(victim.body)))
  }

  function Log(rules: Rules, attacker: Payload, victim: Payload): seq<Swap> {
    FlatLog(rules, attacker.query, victim.query, Query) + FlatLog(rules, attacker.path, victim.path, Path)
    + Logged(rules, IdLeaves(rules, attacker.body, "", ""), IndexOfBody(victim.body))
  }

  function Collected(rules: Rules, payload: Payload): seq<Found> {
    FlatFound(rules, payload.query, Query) + FlatFound(rules, payload.path, Path)
    + Listed(IdLeaves(rules, payload.body, "", ""))
  }

  // ------------------------------------------------------------------ the program

  lemma NoLeaves(index: map<string, Json>)
    ensures WithFirst(index, []) == index
  {
  }

  lemma ItemLeavesStep(index: map<string, Json>, items: seq<Json>, i: nat)
    requires i < |items|
    ensures WithFirst(index, ItemLeaves(items[..i + 1])) == WithFirst(WithFirst(index, ItemLeaves(items[..i])), Leaves(items[i]))
  {
    hide WithFirst, Leaves;
    assert items[..i + 1][..i] == items[..i];
    WithFirstAppend(index, ItemLeaves(items[..i]), Leaves(items[i]));
  }

  lemma FieldLeavesStep(index: map<string, Json>, fields: seq<Field>, i: nat)
    requires i < |fields|
    ensures var before := WithFirst(index, FieldLeaves(fields[..i]));
            var (key, value) := fields[i];
            WithFirst(index, FieldLeaves(fields[..i + 1]))
            == if IsContainer(value) then WithFirst(before, Leaves(value)) else if key in before then before else before[key := value]
  {
    var before := WithFirst(index, FieldLeaves(fields[..i]));
    assert fields[..i + 1][..i] == fields[..i];
    WithFirstAppend(index, FieldLeaves(fields[..i]), OneLeaves(fields[i]));
    hide Leaves, FieldLeaves;
    if !IsContainer(fields[i].1) {
      assert WithFirst(before, [fields[i]]) == (var (key, value) := fields[i]; if key in before then before else before[key := value]) by {
        assert [fields[i]][..0] == [];
      }
    }
  }

  /** `_index_leaf_values`. */
  method IndexLeafValues(j: Json, index: map<string, Json>) returns (r: map<string, Json>)
    ensures r == WithFirst(index, Leaves(j))
    decreases j
  {
    r := index;
    NoLeaves(index);
    hide WithFirst;
    match j
    case Arr(items) =>
      for i := 0 to |items|
        invariant r == WithFirst(index, ItemLeaves(items[..i]))
      {
        ItemLeavesStep(index, items, i);
        r := IndexLeafValues(items[i], r);
      }
      assert items[..|items|] == items;
    case Obj(fields) =>
      for i := 0 to |fields|
        invariant r == WithFirst(index, FieldLeaves(fields[..i]))
      {
        FieldLeavesStep(index, fields, i);
        var (key, value) := fields[i];
        if IsContainer(value) {
          r := IndexLeafValues(value, r);
        } else if key !in r {
          r := r[key := value];
        }
      }
      assert fields[..|fields|] == fields;
    case _ =>
  }

  /** `_swap_body`: the rewritten value and the log so far. */
  method SwapBody(rules: Rules, j: Json, index: map<string, Json>, swaps: seq<Swap>, prefix: string, ghost path: string)
    returns (r: Json, log: seq<Swap>)
    ensures r == After(rules, j, index)
    ensures log == swaps + Logged(rules, IdLeaves(rules, j, prefix, path), index)
    decreases j, 2
  {
    r, log := j, swaps;
    match j
    case Arr(items) =>
      r, log := SwapItems(rules, j, items, index, swaps, prefix, path);
    case Obj(fields) =>
      r, log := SwapFields(rules, j, fields, index, swaps, prefix, path);
    case _ =>
  }

  lemma ItemsCase(rules: Rules, items: seq<Json>, index: map<string, Json>, prefix: string, path: string)
    ensures After(rules, Arr(items), index) == Arr(ItemsAfter(rules, items, index))
    ensures IdLeaves(rules, Arr(items), prefix, path) == ItemIdLeaves(rules, items, prefix, path)
  {
  }

  lemma NoItems(rules: Rules, items: seq<Json>, index: map<string, Json>, prefix: string, path: string)
    ensures Logged(rules, ItemIdLeaves(rules, items[..0], prefix, path), index) == []
  {
  }

  lemma ItemsStep(rules: Rules, items: seq<Json>, i: nat, index: map<string, Json>, prefix: string, path: string)
    requires i < |items|
    ensures Logged(rules, ItemIdLeaves(rules, items[..i + 1], prefix, path), index)
            == Logged(rules, ItemIdLeaves(rules, items[..i], prefix, path), index)
               + Logged(rules, IdLeaves(rules, items[i], prefix, path + "[" + Decimal(i) + "]"), index)
  {
    hide Decimal, IdLeaves, Logged;
    assert items[..i + 1][..i] == items[..i];
    LoggedAppend(rules, ItemIdLeaves(rules, items[..i], prefix, path), IdLeaves(rules, items[i], prefix, path + "[" + Decimal(i) + "]"), index);
  }

  method SwapItems(rules: Rules, ghost whole: Json, items: seq<Json>, index: map<string, Json>, swaps: seq<Swap>, prefix: string,
                   ghost path: string) returns (r: Json, log: seq<Swap>)
    requires whole == Arr(items)
    ensures r == After(rules, whole, index)
    ensures log == swaps + Logged(rules, IdLeaves(rules, whole, prefix, path), index)
    decreases whole, 1
  {
    ItemsCase(rules, items, index, prefix, path);
    hide Decimal, IdLeaves, After, Logged, LoggedOne, ItemsAfter, ItemIdLeaves;
    log := swaps;
    NoItems(rules, items, index, prefix, path);
    var news := items;
    for i := 0 to |items|
      invariant |news| == |items|
      invariant forall k | 0 <= k < i :: news[k] == After(rules, items[k], index)
      invariant forall k | i <= k < |items| :: news[k] == items[k]
      invariant log == swaps + Logged(rules, ItemIdLeaves(rules, items[..i], prefix, path), index)
    {
      ItemsStep(rules, items, i, index, prefix, path);
      var one;
      one, log := SwapBody(rules, news[i], index, log, prefix, path + "[" + Decimal(i) + "]");
      news := news[i := one];
    }
    assert items[..|items|] == items;
    assert news == ItemsAfter(rules, items, index);
    r := Arr(news);
  }

  method SwapFields(rules: Rules, ghost whole: Json, fields: seq<Field>, index: map<string, Json>, swaps: seq<Swap>, prefix: string,
                    ghost path: string) returns (r: Json, log: seq<Swap>)
    requires whole == Obj(fields)
    ensures r == After(rules, whole, index)
    ensures log == swaps + Logged(rules, IdLeaves(rules, whole, prefix, path), index)
    decreases whole, 1
  {
    hide LoggedOne, FieldAfter, OneIdLeaves, Logged;
    log := swaps;
    assert Logged(rules, [], index) == [] by { LoggedNothing(rules, index); }
    var news := fields;
    for i := 0 to |fields|
      invariant |news| == |fields|
      invariant forall k | 0 <= k < i :: news[k] == (fields[k].0, FieldAfter(rules, fields[k], index))
      invariant forall k | i <= k < |fields| :: news[k] == fields[k]
      invariant log == swaps + Logged(rules, FieldIdLeaves(rules, fields[..i], prefix, path), index)
    {
      assert fields[..i + 1][..i] == fields[..i];
      LoggedAppend(rules, FieldIdLeaves(rules, fields[..i], prefix, path), OneIdLeaves(rules, fields[i], prefix, path), index);
      var one;
      one, log := SwapField(rules, whole, fields[i], index, log, prefix, path);
      news := news[i := (fields[i].0, one)];
    }
    assert fields[..|fields|] == fields;
    assert news == FieldsAfter(rules, fields, index);
    r := Obj(news);
  }

  method SwapField(rules: Rules, ghost whole: Json, field: Field, index: map<string, Json>, swaps: seq<Swap>, prefix: string,
                   ghost path: string) returns (r: Json, log: seq<Swap>)
    requires field.1 < whole
    ensures r == FieldAfter(rules, field, index)
    ensures log == swaps + Logged(rules, OneIdLeaves(rules, field, prefix, path), index)
    decreases field.1, 3
  {
    var (key, value) := field;
    if IsContainer(value) {
      r, log := SwapBody(rules, value, index, swaps, Join(prefix, key), Join(path, key));
      return;
    }
    r, log := value, swaps;
    if rules.isId(key) {
      var leaf := IdLeaf(key, value, Join(prefix, key), Join(path, key));
      assert [leaf][..0] == [];
      assert Logged(rules, [], index) == [];
      var victim := IndexGet(index, key);
      if Usable(rules, victim) && rules.text(victim) != rules.text(value) {
        log := log + [Swap(Body, Join(prefix, key), value, victim)];
        r := victim;
      }
    }
  }

  lemma ListedItemsStep(rules: Rules, items: seq<Json>, i: nat, prefix: string, path: string)
    requires i < |items|
    ensures Listed(ItemIdLeaves(rules, items[..i + 1], prefix, path))
            == Listed(ItemIdLeaves(rules, items[..i], prefix, path))
               + Listed(IdLeaves(rules, items[i], prefix, path + "[" + Decimal(i) + "]"))
  {
    hide Decimal, IdLeaves, Listed;
    assert items[..i + 1][..i] == items[..i];
    ListedAppend(ItemIdLeaves(rules, items[..i], prefix, path), IdLeaves(rules, items[i], prefix, path + "[" + Decimal(i) + "]"));
  }

  lemma ListedFieldsStep(rules: Rules, fields: seq<Field>, i: nat, prefix: string, path: string)
    requires i < |fields|
    ensures Listed(FieldIdLeaves(rules, fields[..i + 1], prefix, path))
            == Listed(FieldIdLeaves(rules, fields[..i], prefix, path)) + Listed(OneIdLeaves(rules, fields[i], prefix, path))
  {
    hide OneIdLeaves, Listed;
    assert fields[..i + 1][..i] == fields[..i];
    ListedAppend(FieldIdLeaves(rules, fields[..i], prefix, path), OneIdLeaves(rules, fields[i], prefix, path));
  }

  /** `_collect_from_body`. */
  method CollectBody(rules: Rules, j: Json, found: seq<Found>, path: string, ghost prefix: string) returns (r: seq<Found>)
    ensures r == found + Listed(IdLeaves(rules, j, prefix, path))
    decreases j, 1
  {
    hide Decimal, Join, OneIdLeaves, Listed;
    r := found;
    match j
    case Arr(items) =>
      ListedNothing();
      for i := 0 to |items|
        invariant r == found + Listed(ItemIdLeaves(rules, items[..i], prefix, path))
      {
        ListedItemsStep(rules, items, i, prefix, path);
        r := CollectBody(rules, items[i], r, path + "[" + Decimal(i) + "]", prefix);
      }
      assert items[..|items|] == items;
    case Obj(fields) =>
      ListedNothing();
      for i := 0 to |fields|
        invariant r == found + Listed(FieldIdLeaves(rules, fields[..i], prefix, path))
      {
        ListedFieldsStep(rules, fields, i, prefix, path);
        r := CollectField(rules, fields[i], r, path, prefix);
      }
      assert fields[..|fields|] == fields;
    case _ =>
      ListedNothing();
  }

  method CollectField(rules: Rules, field: Field, found: seq<Found>, path: string, ghost prefix: string) returns (r: seq<Found>)
    ensures r == found + Listed(OneIdLeaves(rules, field, prefix, path))
    decreases field.1, 2
  {
    hide Join;
    var (key, value) := field;
    if IsContainer(value) {
      r := CollectBody(rules, value, found, Join(path, key), Join(prefix, key));
    } else if rules.isId(key) {
      assert Listed([IdLeaf(key, value, Join(prefix, key), Join(path, key))]) == [Found(Body, Join(path, key), value)];
      r := found + [Found(Body, Join(path, key), value)];
    } else {
      r := found;
    }
  }

  lemma ListedNothing()
    ensures Listed([]) == []
  {
  }

  lemma ListedAppend(a: seq<IdLeaf>, b: seq<IdLeaf>)
    ensures Listed(a + b) == Listed(a) + Listed(b)
  {
  }

  lemma NothingLogged(rules: Rules, victim: seq<Field>, location: Location)
    ensures FlatLog(rules, [], victim, location) == []
  {
  }

  lemma FlatLogStep(rules: Rules, target: seq<Field>, i: nat, victim: seq<Field>, location: Location)
    requires i < |target|
    ensures FlatLog(rules, target[..i + 1], victim, location)
            == FlatLog(rules, target[..i], victim, location) + FlatEntry(rules, target[i], victim, location)
  {
    hide FlatEntry;
    assert target[..i + 1][..i] == target[..i];
  }

  /** A dictionary of query or path parameters. */
  class Parameters {
    var fields: seq<Field>

    constructor Copy(fields: seq<Field>)
      ensures this.fields == fields
    {
      this.fields := fields;
    }

    /** `_swap_flat`, which rewrites the dictionary key by key. */
    method SwapAll(rules: Rules, victim: seq<Field>, location: Location, swaps: seq<Swap>) returns (log: seq<Swap>)
      modifies this
      ensures fields == FlatAfter(rules, old(fields), victim)
      ensures log == swaps + FlatLog(rules, old(fields), victim, location)
    {
      hide Usable, Lookup, FlatAfter, FlatLog;
      log := swaps;
      NothingLogged(rules, victim, location);
      for i := 0 to |fields|
        invariant |fields| == |old(fields)|
        invariant forall k | 0 <= k < i :: fields[k] == FlatOne(rules, old(fields)[k], victim)
        invariant forall k | i <= k < |fields| :: fields[k] == old(fields)[k]
        invariant log == swaps + FlatLog(rules, old(fields)[..i], victim, location)
      {
        FlatLogStep(rules, old(fields), i, victim, location);
        var (key, value) := fields[i];
        var replacement := Lookup(victim, key);
        if rules.isId(key) && Usable(rules, replacement) && rules.text(replacement) != rules.text(value) {
          log := log + [Swap(location, key, value, replacement)];
          fields := fields[i := (key, replacement)];
        }
      }
      assert old(fields)[..|fields|] == old(fields);
      assert fields == FlatAfter(rules, old(fields), victim);
    }
  }

  /** A composed request. */
  class Request {
    const query: Parameters
    const path: Parameters
    var body: Json

    ghost function Value(): Payload
      reads this, query, path
    {
      Payload(query.fields, path.fields, body)
    }

    /** A deep copy. */
    constructor Copy(of: Payload)
      ensures Value() == of && query != path && fresh(query) && fresh(path)
    {
      query := new Parameters.Copy(of.query);
      path := new Parameters.Copy(of.path);
      body := of.body;
    }
  }

  /** `build_idor_payload`. The two given requests stay as they are: nothing old is modified. */
  method BuildIdorPayload(rules: Rules, attacker: Request, victim: Request?) returns (request: Request, swaps: seq<Swap>)
    ensures fresh(request) && fresh(request.query) && fresh(request.path)
    ensures victim == null ==> request.Value() == attacker.Value() && swaps == []
    ensures victim != null ==> request.Value() == Substitute(rules, attacker.Value(), victim.Value())
                               && swaps == Log(rules, attacker.Value(), victim.Value())
  {
    hide FlatAfter, FlatLog, Logged, IdLeaves, After, WithFirst, Leaves;
    request := new Request.Copy(Payload(attacker.query.fields, attacker.path.fields, attacker.body));
    swaps := [];
    if victim != null {
      swaps := request.query.SwapAll(rules, victim.query.fields, Query, swaps);
      swaps := request.path.SwapAll(rules, victim.path.fields, Path, swaps);
      var index := IndexLeafValues(victim.body, map[]);
      var body;
      body, swaps := SwapBody(rules, request.body, index, swaps, "", "");
      request.body := body;
    }
  }

  // ------------------------------------------------------------------ the victim's index

  /** The index maps a key to its first scalar in document order. */
  lemma {:induction false} FirstLeafWins(leaves: seq<Field>, key: string)
    ensures var index := WithFirst(map[], leaves);
            (key in index <==> exists i | 0 <= i < |leaves| :: leaves[i].0 == key)
            && (key in index ==> exists i | 0 <= i < |leaves| :: leaves[i] == (key, index[key]) && forall k | 0 <= k < i :: leaves[k].0 != key)
  {
    if leaves != [] {
      var front, last := leaves[..|leaves| - 1], leaves[|leaves| - 1];
      FirstLeafWins(front, key);
      var before, index := WithFirst(map[], front), WithFirst(map[], leaves);
      if key in before {
        var i :| 0 <= i < |front| && front[i] == (key, before[key]) && forall k | 0 <= k < i :: front[k].0 != key;
        assert leaves[i] == (key, index[key]) && forall k | 0 <= k < i :: leaves[k] == front[k];
      } else {
        assert forall k | 0 <= k < |front| :: leaves[k] == front[k];
        assert leaves[|front|] == last;
      }
    }
  }

  lemma {:induction false} LeavesAreScalars(j: Json)
    ensures forall leaf | leaf in Leaves(j) :: !IsContainer(leaf.1)
    decreases j, 1
  {
    match j
    case Arr(items) => ItemLeavesAreScalars(j, items);
    case Obj(fields) => FieldLeavesAreScalars(j, fields);
    case _ =>
  }

  lemma {:induction false} ItemLeavesAreScalars(whole: Json, items: seq<Json>)
    requires forall i | 0 <= i < |items| :: items[i] < whole
    ensures forall leaf | leaf in ItemLeaves(items) :: !IsContainer(leaf.1)
    decreases whole, 0, |items|
  {
    if items != [] {
      ItemLeavesAreScalars(whole, items[..|items| - 1]);
      LeavesAreScalars(items[|items| - 1]);
    }
  }

  lemma {:induction false} FieldLeavesAreScalars(whole: Json, fields: seq<Field>)
    requires forall i | 0 <= i < |fields| :: fields[i].1 < whole
    ensures forall leaf | leaf in FieldLeaves(fields) :: !IsContainer(leaf.1)
    decreases whole, 0, |fields|
  {
    if fields != [] {
      FieldLeavesAreScalars(whole, fields[..|fields| - 1]);
      if IsContainer(fields[|fields| - 1].1) {
        LeavesAreScalars(fields[|fields| - 1].1);
      }
    }
  }

  ghost predicate HoldsScalars(index: map<string, Json>) {
    forall key | key in index :: !IsContainer(index[key])
  }

  lemma IndexHoldsScalars(body: Json)
    ensures HoldsScalars(IndexOfBody(body))
  {
    LeavesAreScalars(body);
    forall key | key in IndexOfBody(body) ensures !IsContainer(IndexOfBody(body)[key]) {
      FirstLeafWins(Leaves(body), key);
      var i :| 0 <= i < |Leaves(body)| && Leaves(body)[i] == (key, IndexOfBody(body)[key]);
      assert Leaves(body)[i] in Leaves(body);
    }
  }

  // ------------------------------------------------------------------ positions: an independent reading

  /** The value at a position of the document, given as the child taken at each level. */
  function At(j: Json, pos: seq<nat>): (r: Json)
    requires Present(j, pos)
    decreases |pos|
  {
    if pos == [] then j else At(Child(j, pos[0]), pos[1..])
  }

  function Children(j: Json): nat {
    match j
    case Arr(items) => |items|
    case Obj(fields) => |fields|
    case _ => 0
  }

  function Child(j: Json, i: nat): Json
    requires i < Children(j)
  {
    if j.Arr? then j.items[i] else j.fields[i].1
  }

  predicate Present(j: Json, pos: seq<nat>)
    decreases |pos|
  {
    pos == [] || (pos[0] < Children(j) && Present(Child(j, pos[0]), pos[1..]))
  }

  /** The values at `pos` agree in kind: containers of the same sort, size and keys, or both scalar. */
  ghost predicate SameKind(a: Json, b: Json) {
    if a.Arr? then b.Arr? && |b.items| == |a.items|
    else if a.Obj? then b.Obj? && |b.fields| == |a.fields| && forall i | 0 <= i < |a.fields| :: b.fields[i].0 == a.fields[i].0
    else !IsContainer(b)
  }

  /** The key a position ends in, or nothing at the root and in lists. */
  function KeyAt(j: Json, pos: seq<nat>): seq<string>
    requires Present(j, pos)
    decreases |pos|
  {
    if pos == [] then []
    else if |pos| == 1 then (if j.Obj? then [j.fields[pos[0]].0] else [])
    else KeyAt(Child(j, pos[0]), pos[1..])
  }

  /** Everywhere in the body: containers keep their kind, size and keys, and a scalar changes only where
      its key is an identifier whose indexed victim value is usable and reads differently, to that value. */
  lemma {:induction false} OnlyIdLeavesChange(rules: Rules, j: Json, index: map<string, Json>, pos: seq<nat>)
    requires HoldsScalars(index)
    ensures Present(After(rules, j, index), pos) <==> Present(j, pos)
    ensures Present(j, pos) ==>
              var (before, after) := (At(j, pos), At(After(rules, j, index), pos));
              SameKind(before, after)
              && (!IsContainer(before) ==>
                    after == if KeyAt(j, pos) == [] then before
                             else NewValue(rules, KeyAt(j, pos)[0], before, IndexGet(index, KeyAt(j, pos)[0])))
    decreases |pos|
  {
    AfterRoot(rules, j, index);
    if pos != [] && pos[0] < Children(j) {
      var child := Child(j, pos[0]);
      AfterChild(rules, j, index, pos[0]);
      hide After, NewValue, IndexGet, SameKind, HoldsScalars;
      if j.Obj? && !IsContainer(child) {
        assert Children(child) == 0 && Children(Child(After(rules, j, index), pos[0])) == 0;
        assert |pos| == 1 ==> pos[1..] == [];
      } else {
        OnlyIdLeavesChange(rules, child, index, pos[1..]);
        assert |pos| == 1 ==> pos[1..] == [];
      }
    }
  }

  lemma AfterRoot(rules: Rules, j: Json, index: map<string, Json>)
    ensures SameKind(j, After(rules, j, index)) && Children(After(rules, j, index)) == Children(j)
    ensures !IsContainer(j) ==> After(rules, j, index) == j
  {
    hide FieldAfter;
  }

  /** One level of the rewriting: a scalar field is settled, everything else rewritten in turn. */
  lemma AfterChild(rules: Rules, j: Json, index: map<string, Json>, i: nat)
    requires HoldsScalars(index) && i < Children(j)
    ensures var child := Child(j, i);
            Children(After(rules, j, index)) == Children(j)
            && Child(After(rules, j, index), i)
               == (if j.Obj? && !IsContainer(child) then NewValue(rules, j.fields[i].0, child, IndexGet(index, j.fields[i].0))
                   else After(rules, child, index))
    ensures var child := Child(j, i);
            j.Obj? && !IsContainer(child) ==>
              !IsContainer(Child(After(rules, j, index), i)) && SameKind(child, Child(After(rules, j, index), i))
  {
    hide Usable;
  }

  // ------------------------------------------------------------------ the log

  /** A leaf that a replacement would change. */
  predicate Pending(rules: Rules, leaf: IdLeaf, index: map<string, Json>) {
    Replaces(rules, leaf.key, leaf.value, IndexGet(index, leaf.key))
  }

  /** The leaf as it is after the replacement. */
  function Settled(rules: Rules, leaf: IdLeaf, index: map<string, Json>): IdLeaf {
    leaf.(value := NewValue(rules, leaf.key, leaf.value, IndexGet(index, leaf.key)))
  }

  function AllSettled(rules: Rules, leaves: seq<IdLeaf>, index: map<string, Json>): (r: seq<IdLeaf>)
    ensures |r| == |leaves| && forall i | 0 <= i < |r| :: r[i] == Settled(rules, leaves[i], index)
  {
    if leaves == [] then []
    else AllSettled(rules, leaves[..|leaves| - 1], index) + [Settled(rules, leaves[|leaves| - 1], index)]
  }

  lemma AllSettledAppend(rules: Rules, a: seq<IdLeaf>, b: seq<IdLeaf>, index: map<string, Json>)
    ensures AllSettled(rules, a + b, index) == AllSettled(rules, a, index) + AllSettled(rules, b, index)
  {
  }

  /** The rewritten body has the same identifier leaves under the same names, each settled. */
  lemma {:induction false} LeavesAfter(rules: Rules, j: Json, index: map<string, Json>, prefix: string, path: string)
    requires HoldsScalars(index)
    ensures IdLeaves(rules, After(rules, j, index), prefix, path) == AllSettled(rules, IdLeaves(rules, j, prefix, path), index)
    decreases j, 1
  {
    match j
    case Arr(items) => ItemLeavesAfter(rules, j, items, index, prefix, path);
    case Obj(fields) => FieldLeavesAfter(rules, j, fields, index, prefix, path);
    case _ =>
  }

  lemma {:induction false} ItemLeavesAfter(rules: Rules, whole: Json, items: seq<Json>, index: map<string, Json>, prefix: string, path: string)
    requires HoldsScalars(index)
    requires forall i | 0 <= i < |items| :: items[i] < whole
    ensures ItemIdLeaves(rules, ItemsAfter(rules, items, index), prefix, path)
            == AllSettled(rules, ItemIdLeaves(rules, items, prefix, path), index)
    decreases whole, 0, |items|
  {
    hide Decimal, Settled, AllSettled, IdLeaves, After, ItemsAfter;
    if items != [] {
      var n := |items| - 1;
      var p := path + "[" + Decimal(n) + "]";
      ItemLeavesAfter(rules, whole, items[..n], index, prefix, path);
      LeavesAfter(rules, items[n], index, prefix, p);
      ItemsAfterSnoc(rules, items, index);
      AllSettledAppend(rules, ItemIdLeaves(rules, items[..n], prefix, path), IdLeaves(rules, items[n], prefix, p), index);
    }
  }

  lemma {:induction false} FieldLeavesAfter(rules: Rules, whole: Json, fields: seq<Field>, index: map<string, Json>, prefix: string, path: string)
    requires HoldsScalars(index)
    requires forall i | 0 <= i < |fields| :: fields[i].1 < whole
    ensures FieldIdLeaves(rules, FieldsAfter(rules, fields, index), prefix, path)
            == AllSettled(rules, FieldIdLeaves(rules, fields, prefix, path), index)
    decreases whole, 0, |fields|
  {
    hide Settled, OneIdLeaves, FieldAfter, Join, AllSettled, IdLeaves, After, FieldsAfter;
    if fields != [] {
      var n := |fields| - 1;
      FieldLeavesAfter(rules, whole, fields[..n], index, prefix, path);
      if IsContainer(fields[n].1) {
        LeavesAfter(rules, fields[n].1, index, Join(prefix, fields[n].0), Join(path, fields[n].0));
      }
      OneLeavesAfter(rules, fields[n], index, prefix, path);
      FieldsAfterSnoc(rules, fields, index);
      AllSettledAppend(rules, FieldIdLeaves(rules, fields[..n], prefix, path), OneIdLeaves(rules, fields[n], prefix, path), index);
    }
  }

  lemma ItemsAfterSnoc(rules: Rules, items: seq<Json>, index: map<string, Json>)
    requires items != []
    ensures var n := |items| - 1; var r := ItemsAfter(rules, items, index);
            r[..n] == ItemsAfter(rules, items[..n], index) && r[n] == After(rules, items[n], index)
  {
  }

  lemma FieldsAfterSnoc(rules: Rules, fields: seq<Field>, index: map<string, Json>)
    requires fields != []
    ensures var n := |fields| - 1; var r := FieldsAfter(rules, fields, index);
            r[..n] == FieldsAfter(rules, fields[..n], index) && r[n] == (fields[n].0, FieldAfter(rules, fields[n], index))
  {
  }

  lemma OneLeavesAfter(rules: Rules, field: Field, index: map<string, Json>, prefix: string, path: string)
    requires HoldsScalars(index)
    requires IsContainer(field.1) ==>
               IdLeaves(rules, After(rules, field.1, index), Join(prefix, field.0), Join(path, field.0))
               == AllSettled(rules, IdLeaves(rules, field.1, Join(prefix, field.0), Join(path, field.0)), index)
    ensures OneIdLeaves(rules, (field.0, FieldAfter(rules, field, index)), prefix, path)
            == AllSettled(rules, OneIdLeaves(rules, field, prefix, path), index)
  {
    hide Join, AllSettled, IdLeaves;
  }

  lemma {:induction false} LoggedEmptyIff(rules: Rules, leaves: seq<IdLeaf>, index: map<string, Json>)
    ensures Logged(rules, leaves, index) == [] <==> forall leaf | leaf in leaves :: !Pending(rules, leaf, index)
  {
    if leaves != [] {
      var front, last := leaves[..|leaves| - 1], leaves[|leaves| - 1];
      LoggedEmptyIff(rules, front, index);
      assert leaves == front + [last];
      assert forall leaf :: leaf in leaves <==> leaf in front || leaf == last;
      assert Logged(rules, leaves, index) == Logged(rules, front, index) + LoggedOne(rules, last, index);
      assert LoggedOne(rules, last, index) == [] <==> !Pending(rules, last, index);
    }
  }

  lemma {:induction false} LoggedIff(rules: Rules, leaves: seq<IdLeaf>, index: map<string, Json>, s: Swap)
    ensures s in Logged(rules, leaves, index)
            <==> exists leaf :: leaf in leaves && Pending(rules, leaf, index) && s == Swap(Body, leaf.param, leaf.value, IndexGet(index, leaf.key))
  {
    if leaves != [] {
      var front, last := leaves[..|leaves| - 1], leaves[|leaves| - 1];
      LoggedIff(rules, front, index, s);
      assert Logged(rules, leaves, index) == Logged(rules, front, index) + LoggedOne(rules, last, index);
      EntryIff(rules, last, index, s);
      hide Logged, LoggedOne, Pending, IndexGet;
      assert leaves == front + [last];
      assert forall leaf :: leaf in leaves <==> leaf in front || leaf == last;
    }
  }

  lemma EntryIff(rules: Rules, leaf: IdLeaf, index: map<string, Json>, s: Swap)
    ensures s in LoggedOne(rules, leaf, index)
            <==> Pending(rules, leaf, index) && s == Swap(Body, leaf.param, leaf.value, IndexGet(index, leaf.key))
  {
    hide Replaces;
  }

  /** A body is left alone exactly when none of its identifier leaves is pending. */
  lemma {:induction false} UnchangedIff(rules: Rules, j: Json, index: map<string, Json>, prefix: string, path: string)
    requires HoldsScalars(index)
    ensures After(rules, j, index) == j <==> Logged(rules, IdLeaves(rules, j, prefix, path), index) == []
  {
    var leaves := IdLeaves(rules, j, prefix, path);
    LoggedEmptyIff(rules, leaves, index);
    LeavesAfter(rules, j, index, prefix, path);
    if After(rules, j, index) == j {
      forall leaf | leaf in leaves ensures !Pending(rules, leaf, index) {
        var i :| 0 <= i < |leaves| && leaves[i] == leaf;
        assert Settled(rules, leaf, index) == AllSettled(rules, leaves, index)[i] == leaf;
      }
    }
    if forall leaf | leaf in leaves :: !Pending(rules, leaf, index) {
      NothingPending(rules, j, index, prefix, path);
    }
  }

  lemma {:induction false} NothingPending(rules: Rules, j: Json, index: map<string, Json>, prefix: string, path: string)
    requires forall leaf | leaf in IdLeaves(rules, j, prefix, path) :: !Pending(rules, leaf, index)
    ensures After(rules, j, index) == j
    decreases j
  {
    match j
    case Arr(items) =>
      forall i | 0 <= i < |items| ensures After(rules, items[i], index) == items[i] {
        var p := path + "[" + Decimal(i) + "]";
        ItemLeavesInclude(rules, items, i, prefix, path);
        NothingPending(rules, items[i], index, prefix, p);
      }
      assert ItemsAfter(rules, items, index) == items;
    case Obj(fields) =>
      forall i | 0 <= i < |fields| ensures FieldAfter(rules, fields[i], index) == fields[i].1 {
        FieldLeavesInclude(rules, fields, i, prefix, path);
        var (key, value) := fields[i];
        if IsContainer(value) {
          NothingPending(rules, value, index, Join(prefix, key), Join(path, key));
        } else if rules.isId(key) {
          var leaf := IdLeaf(key, value, Join(prefix, key), Join(path, key));
          assert leaf in OneIdLeaves(rules, fields[i], prefix, path);
          assert !Pending(rules, leaf, index);
        }
      }
      assert FieldsAfter(rules, fields, index) == fields;
    case _ =>
  }

  lemma {:induction false} ItemLeavesInclude(rules: Rules, items: seq<Json>, i: nat, prefix: string, path: string)
    requires i < |items|
    ensures forall leaf | leaf in IdLeaves(rules, items[i], prefix, path + "[" + Decimal(i) + "]") :: leaf in ItemIdLeaves(rules, items, prefix, path)
    decreases |items|
  {
    hide IdLeaves;
    if i < |items| - 1 {
      ItemLeavesInclude(rules, items[..|items| - 1], i, prefix, path);
    }
  }

  lemma {:induction false} FieldLeavesInclude(rules: Rules, fields: seq<Field>, i: nat, prefix: string, path: string)
    requires i < |fields|
    ensures forall leaf | leaf in OneIdLeaves(rules, fields[i], prefix, path) :: leaf in FieldIdLeaves(rules, fields, prefix, path)
    decreases |fields|
  {
    hide OneIdLeaves;
    if i < |fields| - 1 {
      FieldLeavesInclude(rules, fields[..|fields| - 1], i, prefix, path);
    }
  }

  predicate FlatPending(rules: Rules, field: Field, victim: seq<Field>) {
    Replaces(rules, field.0, field.1, Lookup(victim, field.0))
  }

  lemma {:induction false} FlatLogEmptyIff(rules: Rules, target: seq<Field>, victim: seq<Field>, location: Location)
    ensures FlatLog(rules, target, victim, location) == [] <==> forall field | field in target :: !FlatPending(rules, field, victim)
  {
    if target != [] {
      hide FlatEntry, FlatPending;
      var n := |target| - 1;
      FlatLogEmptyIff(rules, target[..n], victim, location);
      FlatEntryEmptyIff(rules, target[n], victim, location);
      assert target == target[..n] + [target[n]];
      assert forall field :: field in target <==> field in target[..n] || field == target[n];
    }
  }

  lemma FlatUnchangedIff(rules: Rules, target: seq<Field>, victim: seq<Field>, location: Location)
    ensures FlatLog(rules, target, victim, location) == [] <==> FlatAfter(rules, target, victim) == target
  {
    hide FlatPending, FlatOne;
    FlatLogEmptyIff(rules, target, victim, location);
    forall field | field in target ensures FlatOne(rules, field, victim) == field <==> !FlatPending(rules, field, victim) {
      FlatEntryEmptyIff(rules, field, victim, location);
    }
    if FlatAfter(rules, target, victim) == target {
      forall field | field in target ensures FlatOne(rules, field, victim) == field {
        var i :| 0 <= i < |target| && target[i] == field;
      }
    } else {
      assert exists i | 0 <= i < |target| :: FlatAfter(rules, target, victim)[i] != target[i];
    }
  }

  lemma FlatEntryEmptyIff(rules: Rules, field: Field, victim: seq<Field>, location: Location)
    ensures FlatEntry(rules, field, victim, location) == [] <==> FlatOne(rules, field, victim) == field
    ensures FlatEntry(rules, field, victim, location) == [] <==> !FlatPending(rules, field, victim)
  {
  }

  // ------------------------------------------------------------------ main results

  /** An identifier never stays pending: its new value reads like the victim's or there was no usable one. */
  lemma SettledStays(rules: Rules, key: string, own: Json, victim: Json)
    ensures !Replaces(rules, key, NewValue(rules, key, own, victim), victim)
  {
  }

  /** After the substitution, every identifier for which the victim has a usable value reads like it: by
      the same key in the query and the path, by the first leaf of that key in the body. */
  lemma IdentifiersReadLikeTheVictim(rules: Rules, attacker: Payload, victim: Payload, leaf: IdLeaf, i: nat)
    ensures var after := Substitute(rules, attacker, victim);
            i < |after.query| && rules.isId(after.query[i].0) && Usable(rules, Lookup(victim.query, after.query[i].0)) ==>
              rules.text(after.query[i].1) == rules.text(Lookup(victim.query, after.query[i].0))
    ensures var after := Substitute(rules, attacker, victim);
            i < |after.path| && rules.isId(after.path[i].0) && Usable(rules, Lookup(victim.path, after.path[i].0)) ==>
              rules.text(after.path[i].1) == rules.text(Lookup(victim.path, after.path[i].0))
    ensures var after := Substitute(rules, attacker, victim);
            var index := IndexOfBody(victim.body);
            leaf in IdLeaves(rules, after.body, "", "") && rules.isId(leaf.key) && Usable(rules, IndexGet(index, leaf.key)) ==>
              rules.text(leaf.value) == rules.text(IndexGet(index, leaf.key))
  {
    hide IdLeaves, After, AllSettled, WithFirst, Leaves, Lookup, FlatAfter;
    var index := IndexOfBody(victim.body);
    IndexHoldsScalars(victim.body);
    LeavesAfter(rules, attacker.body, index, "", "");
    var leaves := IdLeaves(rules, attacker.body, "", "");
    if leaf in AllSettled(rules, leaves, index) {
      var k :| 0 <= k < |leaves| && AllSettled(rules, leaves, index)[k] == leaf;
      SettledStays(rules, leaf.key, leaves[k].value, IndexGet(index, leaf.key));
    }
  }

  /** The log is empty exactly when the request is unchanged. */
  lemma EmptyLogIff(rules: Rules, attacker: Payload, victim: Payload)
    ensures Log(rules, attacker, victim) == [] <==> Substitute(rules, attacker, victim) == attacker
  {
    hide IdLeaves, After, WithFirst, Leaves, FlatAfter, FlatLog, Logged;
    IndexHoldsScalars(victim.body);
    UnchangedIff(rules, attacker.body, IndexOfBody(victim.body), "", "");
    FlatUnchangedIff(rules, attacker.query, victim.query, Query);
    FlatUnchangedIff(rules, attacker.path, victim.path, Path);
  }

  /** Substituting once more against the same victim does nothing. */
  lemma SecondSubstitutionIsEmpty(rules: Rules, attacker: Payload, victim: Payload)
    ensures var once := Substitute(rules, attacker, victim);
            Log(rules, once, victim) == [] && Substitute(rules, once, victim) == once
  {
    hide IdLeaves, After, WithFirst, Leaves, FlatAfter, FlatLog, Logged, Lookup, Replaces, NewValue;
    var once := Substitute(rules, attacker, victim);
    var index := IndexOfBody(victim.body);
    IndexHoldsScalars(victim.body);
    LeavesAfter(rules, attacker.body, index, "", "");
    var leaves := IdLeaves(rules, attacker.body, "", "");
    forall leaf | leaf in AllSettled(rules, leaves, index) ensures !Pending(rules, leaf, index) {
      var k :| 0 <= k < |leaves| && AllSettled(rules, leaves, index)[k] == leaf;
      SettledStays(rules, leaf.key, leaves[k].value, IndexGet(index, leaf.key));
    }
    LoggedEmptyIff(rules, IdLeaves(rules, once.body, "", ""), index);
    FlatSecond(rules, attacker.query, victim.query, Query);
    FlatSecond(rules, attacker.path, victim.path, Path);
    EmptyLogIff(rules, once, victim);
  }

  lemma FlatSecond(rules: Rules, target: seq<Field>, victim: seq<Field>, location: Location)
    ensures FlatLog(rules, FlatAfter(rules, target, victim), victim, location) == []
  {
    var once := FlatAfter(rules, target, victim);
    forall field | field in once ensures !FlatPending(rules, field, victim) {
      var i :| 0 <= i < |once| && once[i] == field;
      assert field == FlatOne(rules, target[i], victim);
      SettledStays(rules, target[i].0, target[i].1, Lookup(victim, target[i].0));
    }
    FlatLogEmptyIff(rules, once, victim, location);
  }

  /** The log and the collection agree: an entry of the body log is a collected identifier with the same
      value, and the log has an entry for each collected identifier that is pending. */
  lemma LogIsOfCollected(rules: Rules, attacker: Payload, victim: Payload, s: Swap)
    ensures var index := IndexOfBody(victim.body);
            s in Logged(rules, IdLeaves(rules, attacker.body, "", ""), index)
            <==> exists leaf :: leaf in IdLeaves(rules, attacker.body, "", "")
                                && Found(Body, leaf.path, leaf.value) in Collected(rules, attacker)
                                && Pending(rules, leaf, index) && s == Swap(Body, leaf.param, leaf.value, IndexGet(index, leaf.key))
  {
    hide IdLeaves, Logged, WithFirst, Leaves, Pending, FlatFound;
    var index := IndexOfBody(victim.body);
    var leaves := IdLeaves(rules, attacker.body, "", "");
    LoggedIff(rules, leaves, index, s);
    forall leaf | leaf in leaves ensures Found(Body, leaf.path, leaf.value) in Collected(rules, attacker) {
      var k :| 0 <= k < |leaves| && leaves[k] == leaf;
      assert Listed(leaves)[k] in Listed(leaves);
    }
  }

  // ------------------------------------------------------------------ the log is the difference

  /** The dotted name `_swap_body` gives a position; list positions do not show in it. */
  function ParamAt(j: Json, pos: seq<nat>, prefix: string): string
    requires Present(j, pos)
    decreases |pos|
  {
    if pos == [] then prefix
    else ParamAt(Child(j, pos[0]), pos[1..], if j.Obj? then Join(prefix, j.fields[pos[0]].0) else prefix)
  }

  /** The scalar at a position has this key. */
  ghost predicate ScalarAt(j: Json, pos: seq<nat>, key: string, value: Json, prefix: string, param: string) {
    Present(j, pos) && KeyAt(j, pos) == [key] && At(j, pos) == value && !IsContainer(value) && ParamAt(j, pos, prefix) == param
  }

  /** One level down. */
  lemma ScalarBelow(j: Json, i: nat, pos: seq<nat>, key: string, value: Json, prefix: string, param: string)
    requires i < Children(j) && pos != []
    ensures ScalarAt(j, [i] + pos, key, value, prefix, param)
            <==> ScalarAt(Child(j, i), pos, key, value, if j.Obj? then Join(prefix, j.fields[i].0) else prefix, param)
  {
    hide Join;
    assert ([i] + pos)[1..] == pos;
  }

  lemma ScalarHere(j: Json, i: nat, key: string, value: Json, prefix: string, param: string)
    requires i < Children(j)
    ensures ScalarAt(j, [i], key, value, prefix, param)
            <==> j.Obj? && j.fields[i] == (key, value) && !IsContainer(value) && param == Join(prefix, key)
  {
    hide Join;
    var pos := [i];
    assert pos[1..] == [];
    assert Present(j, pos) && At(j, pos) == Child(j, i);
    if j.Obj? {
      assert KeyAt(j, pos) == [j.fields[i].0];
      assert ParamAt(j, pos, prefix) == Join(prefix, j.fields[i].0);
    } else {
      assert KeyAt(j, pos) == [];
    }
  }

  /** Every scalar under an identifier key is an identifier leaf, under the name of its position. */
  lemma {:induction false} LeafOfPosition(rules: Rules, j: Json, pos: seq<nat>, key: string, value: Json, prefix: string, path: string, param: string)
    requires ScalarAt(j, pos, key, value, prefix, param) && rules.isId(key)
    ensures exists leaf :: leaf in IdLeaves(rules, j, prefix, path) && leaf.key == key && leaf.value == value && leaf.param == param
    decreases |pos|
  {
    hide Join, Decimal, ScalarAt;
    SomeStep(j, pos, key, value, prefix, param);
    var (i, rest) := (pos[0], pos[1..]);
    assert pos == [i] + rest;
    if rest == [] {
      assert pos == [i];
      ScalarHere(j, i, key, value, prefix, param);
      FieldLeavesInclude(rules, j.fields, i, prefix, path);
      assert IdLeaf(key, value, Join(prefix, key), Join(path, key)) in OneIdLeaves(rules, j.fields[i], prefix, path);
    } else {
      ScalarBelow(j, i, rest, key, value, prefix, param);
      HasChildren(Child(j, i), rest, key, value, if j.Obj? then Join(prefix, j.fields[i].0) else prefix, param);
      if j.Arr? {
        LeafOfPosition(rules, j.items[i], rest, key, value, prefix, path + "[" + Decimal(i) + "]", param);
        ItemLeavesInclude(rules, j.items, i, prefix, path);
      } else {
        var name := j.fields[i].0;
        LeafOfPosition(rules, j.fields[i].1, rest, key, value, Join(prefix, name), Join(path, name), param);
        FieldLeavesInclude(rules, j.fields, i, prefix, path);
        assert OneIdLeaves(rules, j.fields[i], prefix, path) == IdLeaves(rules, j.fields[i].1, Join(prefix, name), Join(path, name));
      }
    }
  }

  lemma SomeStep(j: Json, pos: seq<nat>, key: string, value: Json, prefix: string, param: string)
    requires ScalarAt(j, pos, key, value, prefix, param)
    ensures pos != [] && pos[0] < Children(j) && (j.Arr? || j.Obj?)
  {
    hide Join;
  }

  lemma HasChildren(j: Json, pos: seq<nat>, key: string, value: Json, prefix: string, param: string)
    requires ScalarAt(j, pos, key, value, prefix, param) && pos != []
    ensures IsContainer(j)
  {
    SomeStep(j, pos, key, value, prefix, param);
  }

  lemma {:induction false} LeafOfSomeItem(rules: Rules, items: seq<Json>, leaf: IdLeaf, prefix: string, path: string) returns (i: nat)
    requires leaf in ItemIdLeaves(rules, items, prefix, path)
    ensures i < |items| && leaf in IdLeaves(rules, items[i], prefix, path + "[" + Decimal(i) + "]")
  {
    hide IdLeaves, Decimal;
    i := |items| - 1;
    if leaf !in IdLeaves(rules, items[i], prefix, path + "[" + Decimal(i) + "]") {
      i := LeafOfSomeItem(rules, items[..|items| - 1], leaf, prefix, path);
    }
  }

  lemma {:induction false} LeafOfSomeField(rules: Rules, fields: seq<Field>, leaf: IdLeaf, prefix: string, path: string) returns (i: nat)
    requires leaf in FieldIdLeaves(rules, fields, prefix, path)
    ensures i < |fields| && leaf in OneIdLeaves(rules, fields[i], prefix, path)
  {
    hide OneIdLeaves;
    i := |fields| - 1;
    if leaf !in OneIdLeaves(rules, fields[i], prefix, path) {
      i := LeafOfSomeField(rules, fields[..|fields| - 1], leaf, prefix, path);
    }
  }

  /** Every identifier leaf has a position. */
  lemma {:induction false} PositionOfLeaf(rules: Rules, j: Json, leaf: IdLeaf, prefix: string, path: string) returns (pos: seq<nat>)
    requires leaf in IdLeaves(rules, j, prefix, path)
    ensures ScalarAt(j, pos, leaf.key, leaf.value, prefix, leaf.param) && rules.isId(leaf.key) && pos != []
    decreases j
  {
    hide Join, Decimal, ScalarAt, IsContainer;
    if j.Arr? {
      var i := LeafOfSomeItem(rules, j.items, leaf, prefix, path);
      var rest := PositionOfLeaf(rules, j.items[i], leaf, prefix, path + "[" + Decimal(i) + "]");
      ScalarBelow(j, i, rest, leaf.key, leaf.value, prefix, leaf.param);
      pos := [i] + rest;
    } else {
      var i := LeafOfSomeField(rules, j.fields, leaf, prefix, path);
      var (name, value) := j.fields[i];
      if IsContainer(value) {
        var rest := PositionOfLeaf(rules, value, leaf, Join(prefix, name), Join(path, name));
        ScalarBelow(j, i, rest, leaf.key, leaf.value, prefix, leaf.param);
        pos := [i] + rest;
      } else {
        ScalarHere(j, i, leaf.key, leaf.value, prefix, leaf.param);
        pos := [i];
      }
    }
  }

  /** What an entry of the body log says of a position. */
  ghost predicate Records(s: Swap, before: Json, after: Json, pos: seq<nat>) {
    Present(before, pos) && Present(after, pos) && !IsContainer(At(before, pos))
    && At(before, pos) != At(after, pos)
    && s == Swap(Body, ParamAt(before, pos, ""), At(before, pos), At(after, pos))
  }

  /** The body log is exactly the difference of the two bodies: a swap is logged if and only if some scalar
      changed, under that name, from that value of the attacker to that value of the victim. */
  lemma BodyLogIsTheDifference(rules: Rules, j: Json, index: map<string, Json>, path: string, s: Swap)
    requires HoldsScalars(index)
    ensures s in Logged(rules, IdLeaves(rules, j, "", path), index) <==> exists pos :: Records(s, j, After(rules, j, index), pos)
  {
    hide IdLeaves, After, Logged, Present, At, KeyAt, ParamAt, Usable;
    var after := After(rules, j, index);
    LoggedIff(rules, IdLeaves(rules, j, "", path), index, s);
    if s in Logged(rules, IdLeaves(rules, j, "", path), index) {
      var leaf :| leaf in IdLeaves(rules, j, "", path) && Pending(rules, leaf, index)
                  && s == Swap(Body, leaf.param, leaf.value, IndexGet(index, leaf.key));
      var pos := PositionOfLeaf(rules, j, leaf, "", path);
      OnlyIdLeavesChange(rules, j, index, pos);
      assert Records(s, j, after, pos);
    }
    if exists pos :: Records(s, j, after, pos) {
      var pos: seq<nat> :| Records(s, j, after, pos);
      OnlyIdLeavesChange(rules, j, index, pos);
      KeyIsOne(j, pos);
      var key := KeyAt(j, pos)[0];
      assert ScalarAt(j, pos, key, At(j, pos), "", s.param);
      LeafOfPosition(rules, j, pos, key, At(j, pos), "", path, s.param);
    }
  }

  lemma {:induction false} KeyIsOne(j: Json, pos: seq<nat>)
    requires Present(j, pos)
    ensures |KeyAt(j, pos)| <= 1
    decreases |pos|
  {
    if |pos| > 1 {
      KeyIsOne(Child(j, pos[0]), pos[1..]);
    }
  }

  ghost predicate IsSwapOf(rules: Rules, field: Field, victim: seq<Field>, location: Location, s: Swap) {
    FlatPending(rules, field, victim) && s == Swap(location, field.0, field.1, Lookup(victim, field.0))
  }

  /** The same of query and path parameters: an entry for each pending field, and no other. */
  lemma {:induction false} FlatLogIff(rules: Rules, target: seq<Field>, victim: seq<Field>, location: Location, s: Swap)
    ensures s in FlatLog(rules, target, victim, location)
            <==> exists field :: field in target && IsSwapOf(rules, field, victim, location, s)
  {
    if target != [] {
      hide FlatEntry, IsSwapOf;
      var n := |target| - 1;
      FlatLogIff(rules, target[..n], victim, location, s);
      FlatEntryIff(rules, target[n], victim, location, s);
      assert target == target[..n] + [target[n]];
      assert forall field :: field in target <==> field in target[..n] || field == target[n];
    }
  }

  lemma FlatEntryIff(rules: Rules, field: Field, victim: seq<Field>, location: Location, s: Swap)
    ensures s in FlatEntry(rules, field, victim, location) <==> IsSwapOf(rules, field, victim, location, s)
  {
    hide Lookup, Usable;
  }

  /** What an entry of the log says of the parameters of the query or the path. */
  ghost predicate FlatRecords(s: Swap, location: Location, before: seq<Field>, after: seq<Field>) {
    |after| == |before|
    && exists i | 0 <= i < |before| ::
         after[i] != before[i] && after[i].0 == before[i].0 && s == Swap(location, before[i].0, before[i].1, after[i].1)
  }

  /** The log of query or path is the difference before and after. */
  lemma FlatLogIsTheDifference(rules: Rules, target: seq<Field>, victim: seq<Field>, location: Location, s: Swap)
    ensures s in FlatLog(rules, target, victim, location) <==> FlatRecords(s, location, target, FlatAfter(rules, target, victim))
  {
    hide FlatLog, FlatPending, Lookup, FlatOne, IsSwapOf, FlatAfter;
    var after := FlatAfter(rules, target, victim);
    FlatLogIff(rules, target, victim, location, s);
    forall i | 0 <= i < |target|
      ensures IsSwapOf(rules, target[i], victim, location, s)
              <==> after[i] != target[i] && after[i].0 == target[i].0 && s == Swap(location, target[i].0, target[i].1, after[i].1)
    {
      SwapIsTheChange(rules, target[i], victim, location, s);
      assert after[i] == FlatOne(rules, target[i], victim);
    }
    if exists field :: field in target && IsSwapOf(rules, field, victim, location, s) {
      var field :| field in target && IsSwapOf(rules, field, victim, location, s);
      var i :| 0 <= i < |target| && target[i] == field;
      assert FlatRecords(s, location, target, after);
    }
  }

  lemma SwapIsTheChange(rules: Rules, field: Field, victim: seq<Field>, location: Location, s: Swap)
    ensures var after := FlatOne(rules, field, victim);
            IsSwapOf(rules, field, victim, location, s)
            <==> after != field && after.0 == field.0 && s == Swap(location, field.0, field.1, after.1)
  {
    hide Lookup, Usable;
  }

  lemma LogMembers(rules: Rules, attacker: Payload, victim: Payload, s: Swap)
    ensures s in Log(rules, attacker, victim)
            <==> s in FlatLog(rules, attacker.query, victim.query, Query)
                 || s in FlatLog(rules, attacker.path, victim.path, Path)
                 || s in Logged(rules, IdLeaves(rules, attacker.body, "", ""), IndexOfBody(victim.body))
  {
    hide FlatLog, Logged, IdLeaves, IndexOfBody;
  }

  /** The whole log is the whole difference between the attacker's request and the substituted one. */
  lemma LogIsTheDifference(rules: Rules, attacker: Payload, victim: Payload, s: Swap)
    ensures var after := Substitute(rules, attacker, victim);
            s in Log(rules, attacker, victim)
            <==> FlatRecords(s, Query, attacker.query, after.query) || FlatRecords(s, Path, attacker.path, after.path)
                 || exists pos :: Records(s, attacker.body, after.body, pos)
  {
    LogMembers(rules, attacker, victim, s);
    hide Log, FlatLog, FlatAfter, FlatOne, Logged, IdLeaves, After, FlatRecords, Records, IndexOfBody;
    IndexHoldsScalars(victim.body);
    FlatLogIsTheDifference(rules, attacker.query, victim.query, Query, s);
    FlatLogIsTheDifference(rules, attacker.path, victim.path, Path, s);
    BodyLogIsTheDifference(rules, attacker.body, IndexOfBody(victim.body), "", s);
    var after := Substitute(rules, attacker, victim);
    assert after.body == After(rules, attacker.body, IndexOfBody(victim.body));
    assert s in Logged(rules, IdLeaves(rules, attacker.body, "", ""), IndexOfBody(victim.body)) <==> exists pos :: Records(s, attacker.body, after.body, pos);
  }

  // ------------------------------------------------------------------ shape

  /** A value with its scalars forgotten. */
  function Shape(j: Json): Json {
    match j
    case Arr(items) => Arr(ItemShapes(items))
    case Obj(fields) => Obj(FieldShapes(fields))
    case _ => Null
  }

  function ItemShapes(items: seq<Json>): (r: seq<Json>)
    ensures |r| == |items| && forall i | 0 <= i < |r| :: r[i] == Shape(items[i])
  {
    if items == [] then [] else [Shape(items[0])] + ItemShapes(items[1..])
  }

  function FieldShapes(fields: seq<Field>): (r: seq<Field>)
    ensures |r| == |fields| && forall i | 0 <= i < |r| :: r[i] == FieldShape(fields[i])
  {
    if fields == [] then [] else [FieldShape(fields[0])] + FieldShapes(fields[1..])
  }

  function FieldShape(field: Field): Field {
    (field.0, Shape(field.1))
  }

  /** Bodies keep their shape: the victim's index only holds scalars. */
  lemma {:induction false} BodyShapeKept(rules: Rules, j: Json, index: map<string, Json>)
    requires HoldsScalars(index)
    ensures Shape(After(rules, j, index)) == Shape(j)
    decreases j
  {
    match j
    case Arr(items) =>
      forall i | 0 <= i < |items| ensures Shape(After(rules, items[i], index)) == Shape(items[i]) {
        BodyShapeKept(rules, items[i], index);
      }
      assert ItemShapes(ItemsAfter(rules, items, index)) == ItemShapes(items);
    case Obj(fields) =>
      forall i | 0 <= i < |fields| ensures Shape(FieldAfter(rules, fields[i], index)) == Shape(fields[i].1) {
        if IsContainer(fields[i].1) {
          BodyShapeKept(rules, fields[i].1, index);
        }
      }
      assert FieldShapes(FieldsAfter(rules, fields, index)) == FieldShapes(fields);
    case _ =>
  }

  /** Query and path parameters keep their keys, and their shape exactly when each replacement value has
      the shape of the value it replaces: nothing stops a victim's list or dictionary. */
  lemma FlatShapeKeptIff(rules: Rules, target: seq<Field>, victim: seq<Field>)
    ensures Shape(Obj(FlatAfter(rules, target, victim))) == Shape(Obj(target))
            <==> forall i | 0 <= i < |target| ::
                   Replaces(rules, target[i].0, target[i].1, Lookup(victim, target[i].0)) ==>
                     Shape(Lookup(victim, target[i].0)) == Shape(target[i].1)
  {
    hide Lookup, Replaces, FlatAfter, FieldShapes;
    var after := FlatAfter(rules, target, victim);
    if Shape(Obj(after)) == Shape(Obj(target)) {
      forall i | 0 <= i < |target| && Replaces(rules, target[i].0, target[i].1, Lookup(victim, target[i].0))
        ensures Shape(Lookup(victim, target[i].0)) == Shape(target[i].1)
      {
        assert FieldShapes(after)[i] == FieldShapes(target)[i];
        assert after[i] == FlatOne(rules, target[i], victim);
      }
    } else {
      assert FieldShapes(after) != FieldShapes(target);
      var i :| 0 <= i < |target| && FieldShapes(after)[i] != FieldShapes(target)[i];
      assert after[i] == FlatOne(rules, target[i], victim);
    }
  }

  lemma ListIsUsable(rules: Rules)
    requires rules.text(Arr([Num(1.0)])) == "[1]"
    ensures Usable(rules, Arr([Num(1.0)]))
  {
    hide StripBy;
    StripByFixed("[1]", IsSpace);
    assert Trimmed("[1]", IsSpace);
  }

  /** `?id=7` against a victim whose `id` is a list: a scalar becomes a list. */
  lemma FlatShapeCanChange(text: Json -> string)
    requires text(Arr([Num(1.0)])) == "[1]" && text(Str("7")) == "7"
    ensures var rules := Rules(key => key == "id", text);
            Shape(Obj(FlatAfter(rules, [("id", Str("7"))], [("id", Arr([Num(1.0)]))]))) != Shape(Obj([("id", Str("7"))]))
  {
    var rules := Rules(key => key == "id", text);
    var target, victim := [("id", Str("7"))], [("id", Arr([Num(1.0)]))];
    assert Lookup(victim, "id") == Arr([Num(1.0)]);
    assert Shape(Arr([Num(1.0)])).Arr? && Shape(Str("7")) == Null;
    ListIsUsable(rules);
    hide Usable, FlatAfter, FlatOne, Lookup, Shape, ItemShapes, FieldShapes;
    FlatShapeKeptIff(rules, target, victim);
    assert Replaces(rules, target[0].0, target[0].1, Lookup(victim, target[0].0));
  }
}
