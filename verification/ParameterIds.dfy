/** Parameter ids under concurrent imports (`allocate_sequence_range` and the write half of
    `parameter_date_mongodb` in `apiAnalysis/db/save.py`): an atomic counter and one atomic upsert per name,
    in any order and interleaved with those of other imports. */
module ParameterIds {
  import opened Order
  import opened Wrappers

  /** An element of one of the four sets of a parameter row. */
  datatype Item = ReqValue(v: string) | ResValue(v: string) | ReqPath(pathid: int) | ResPath(pathid: int)

  datatype Row = Row(id: Option<nat>, items: set<Item>)

  /** An import first looks up which names exist, then allocates ids for the others, then upserts. */
  datatype Phase = Reading | Allocating(missing: seq<string>) | Upserting(ids: map<string, nat>, todo: set<string>)

  /** `names` are the keys of the aggregation, `items` what it holds for each. */
  datatype Import = Import(names: seq<string>, items: map<string, set<Item>>, phase: Phase) {
    ghost predicate WellFormed() {
      (forall n :: n in items <==> n in names) && NoRepeats(names)
    }
  }

  datatype State = State(counter: nat, rows: map<string, Row>, imports: seq<Import>)

  /** `found` is what the look-up reports. Different names may have been read at different moments, so it
      is any set of names that have a row by the time the look-up ends. */
  datatype Action = Read(i: nat, found: set<string>) | Allocate(i: nat) | Upsert(i: nat, name: string)

  function Without(names: seq<string>, found: set<string>): (r: seq<string>)
    ensures forall n :: n in r <==> n in names && n !in found
  {
    if names == [] then []
    else Without(names[..|names| - 1], found) + if names[|names| - 1] in found then [] else [names[|names| - 1]]
  }

  lemma {:induction false} WithoutIsDistinct(names: seq<string>, found: set<string>)
    requires NoRepeats(names)
    ensures NoRepeats(Without(names, found))
  {
    if names != [] {
      WithoutIsDistinct(names[..|names| - 1], found);
      assert names[|names| - 1] !in names[..|names| - 1];
    }
  }

  /** The ids of a freshly allocated range, in order. */
  function Numbered(names: seq<string>, first: nat): (r: map<string, nat>)
    ensures forall n :: n in r <==> n in names
    ensures forall n | n in r :: first <= r[n] < first + |names|
  {
    if names == [] then map[]
    else
      var front, last := names[..|names| - 1], names[|names| - 1];
      Numbered(front, first)[last := first + |front|]
  }

  lemma {:induction false} NumberedOnce(names: seq<string>, first: nat, n: string, m: string)
    requires NoRepeats(names) && n in names && m in names && n != m
    ensures Numbered(names, first)[n] != Numbered(names, first)[m]
  {
    var front, last := names[..|names| - 1], names[|names| - 1];
    assert names == front + [last];
    if n != last && m != last {
      NumberedOnce(front, first, n, m);
    }
  }

  function IdFor(ids: map<string, nat>, name: string): Option<nat> {
    if name in ids then Some(ids[name]) else None
  }

  /** `update_one(..., upsert=True)` with `$addToSet` and `$setOnInsert`. */
  function Upserted(rows: map<string, Row>, name: string, id: Option<nat>, items: set<Item>): map<string, Row> {
    if name in rows then rows[name := rows[name].(items := rows[name].items + items)] else rows[name := Row(id, items)]
  }

  predicate Enabled(s: State, a: Action) {
    a.i < |s.imports|
    && var m := s.imports[a.i];
       match a
       case Read(_, found) => m.phase.Reading? && found <= s.rows.Keys
       case Allocate(_) => m.phase.Allocating?
       case Upsert(_, name) => m.phase.Upserting? && name in m.phase.todo
  }

  function NextImport(s: State, a: Action): Import
    requires Enabled(s, a)
  {
    var m := s.imports[a.i];
    match a
    case Read(_, found) => m.(phase := Allocating(Without(m.names, found)))
    case Allocate(_) => m.(phase := Upserting(Numbered(m.phase.missing, s.counter + 1), set n | n in m.names))
    case Upsert(_, name) => m.(phase := Upserting(m.phase.ids, m.phase.todo - {name}))
  }

  function Apply(s: State, a: Action): State {
    if !Enabled(s, a) then s
    else
      var m := s.imports[a.i];
      var imports := s.imports[a.i := NextImport(s, a)];
      match a
      case Read(_, _) => State(s.counter, s.rows, imports)
      case Allocate(_) => State(s.counter + |m.phase.missing|, s.rows, imports)
      case Upsert(_, name) =>
        State(s.counter, Upserted(s.rows, name, IdFor(m.phase.ids, name), if name in m.items then m.items[name] else {}), imports)
  }

  function Exec(s: State, actions: seq<Action>): State {
    if actions == [] then s else Apply(Exec(s, actions[..|actions| - 1]), actions[|actions| - 1])
  }

  // ------------------------------------------------------------------ the program

  /** The counter document and the parameter rows. */
  class Store {
    var counter: nat
    var rows: map<string, Row>

    /** `allocate_sequence_range`. */
    method AllocateRange(count: int) returns (ids: seq<nat>)
      modifies this`counter
      ensures if count <= 0 then ids == [] && counter == old(counter)
              else counter == old(counter) + count && |ids| == count && forall k | 0 <= k < count :: ids[k] == old(counter) + 1 + k
    {
      if count <= 0 {
        return [];
      }
      counter := counter + count;
      var start := counter - count + 1;
      ids := seq(count, k => start + k);
    }

    /** The write half of `parameter_date_mongodb` without interference. */
    method ImportAlone(names: seq<string>, items: map<string, set<Item>>)
      requires (forall n :: n in items <==> n in names) && NoRepeats(names)
      modifies this
      ensures var missing := Without(names, old(rows).Keys);
              counter == old(counter) + |missing|
              && rows == Written(old(rows), names, items, Numbered(missing, old(counter) + 1))
    {
      hide Numbered, Without, NoRepeats;
      if names == [] {
        NoneMissing(rows.Keys, counter + 1);
        return;
      }
      var missing := Missing(names, rows.Keys);
      var range := AllocateRange(|missing|);
      var ids := Zip(missing, range, old(counter) + 1);
      for k := 0 to |names|
        invariant rows == Written(old(rows), names[..k], items, ids)
        invariant counter == old(counter) + |missing|
      {
        assert names[..k + 1][..k] == names[..k];
        rows := Upserted(rows, names[k], IdFor(ids, names[k]), items[names[k]]);
      }
      assert names[..|names|] == names;
    }
  }

  lemma NoneMissing(found: set<string>, first: nat)
    ensures Without([], found) == [] && Numbered([], first) == map[]
  {
  }

  /** `[name for name in names if name not in existing_names]`. */
  method Missing(names: seq<string>, found: set<string>) returns (missing: seq<string>)
    ensures missing == Without(names, found)
  {
    missing := [];
    for k := 0 to |names|
      invariant missing == Without(names[..k], found)
    {
      assert names[..k + 1][..k] == names[..k];
      if names[k] !in found {
        missing := missing + [names[k]];
      }
    }
    assert names[..|names|] == names;
  }

  /** `dict(zip(missing_names, allocated))`. */
  method Zip(missing: seq<string>, range: seq<nat>, ghost first: nat) returns (ids: map<string, nat>)
    requires |range| == |missing| && forall k | 0 <= k < |range| :: range[k] == first + k
    ensures ids == Numbered(missing, first)
  {
    ids := map[];
    for k := 0 to |missing|
      invariant ids == Numbered(missing[..k], first)
    {
      assert missing[..k + 1][..k] == missing[..k];
      ids := ids[missing[k] := range[k]];
    }
    assert missing[..|missing|] == missing;
  }

  /** One upsert per name, in order. */
  function Written(rows: map<string, Row>, names: seq<string>, items: map<string, set<Item>>, ids: map<string, nat>): map<string, Row> {
    if names == [] then rows
    else
      var name := names[|names| - 1];
      Upserted(Written(rows, names[..|names| - 1], items, ids), name, IdFor(ids, name), if name in items then items[name] else {})
  }

  /** What an uninterrupted import does to each row. */
  lemma {:induction false} WrittenMeaning(rows: map<string, Row>, names: seq<string>, items: map<string, set<Item>>, ids: map<string, nat>,
                                          n: string)
    requires NoRepeats(names)
    ensures var after := Written(rows, names, items, ids);
            (n in after <==> n in rows || n in names)
            && (n in after ==>
                  var gained := if n in names && n in items then items[n] else {};
                  after[n] == if n in rows then Row(rows[n].id, rows[n].items + gained) else Row(IdFor(ids, n), gained))
  {
    if names != [] {
      var front, last := names[..|names| - 1], names[|names| - 1];
      assert names == front + [last];
      WrittenMeaning(rows, front, items, ids, n);
      WrittenMeaning(rows, front, items, ids, last);
      assert last !in front;
    }
  }

  // ------------------------------------------------------------------ the invariant

  ghost predicate IdsInRows(s: State) {
    (forall n | n in s.rows :: s.rows[n].id.Some? && s.rows[n].id.value <= s.counter)
    && forall n, m | n in s.rows && m in s.rows && n != m :: s.rows[n].id != s.rows[m].id
  }

  /** Import `i` holds id `x` for `n`. */
  predicate Holds(s: State, i: nat, n: string, x: nat) {
    i < |s.imports| && s.imports[i].phase.Upserting? && n in s.imports[i].phase.ids && s.imports[i].phase.ids[n] == x
  }

  /** An id is held at most once, and if it is in a row, only for that row's name. */
  ghost predicate IdsHeld(s: State) {
    (forall i, n, x: nat | Holds(s, i, n, x) :: x <= s.counter)
    && (forall i, n, j, m, x: nat | Holds(s, i, n, x) && Holds(s, j, m, x) :: i == j && n == m)
    && (forall i, n, x: nat, m | Holds(s, i, n, x) && m in s.rows && s.rows[m].id == Some(x) :: n == m)
  }

  /** A name an import has no id for has a row. */
  ghost predicate Provided(s: State, m: Import) {
    match m.phase
    case Reading => true
    case Allocating(missing) =>
      NoRepeats(missing) && forall n | n in m.names && n !in missing :: n in s.rows
    case Upserting(ids, todo) => (forall n | n in todo :: n in m.names) && forall n | n in m.names && n !in ids :: n in s.rows
  }

  ghost predicate Inv(s: State) {
    IdsInRows(s) && IdsHeld(s) && forall m | m in s.imports :: m.WellFormed() && Provided(s, m)
  }

  ghost predicate Starting(s: State) {
    IdsInRows(s) && forall m | m in s.imports :: m.WellFormed() && m.phase == Reading
  }

  lemma ApplyKeepsProvided(s: State, a: Action, k: nat)
    requires Inv(s) && k < |s.imports|
    ensures k < |Apply(s, a).imports| && Apply(s, a).imports[k].WellFormed() && Provided(Apply(s, a), Apply(s, a).imports[k])
  {
    assert s.imports[k] in s.imports;
    if Enabled(s, a) {
      assert s.imports[a.i] in s.imports;
      WithoutIsDistinct(s.imports[a.i].names, if a.Read? then a.found else {});
      hide NoRepeats, Without, Numbered, IdsInRows, IdsHeld;
    }
  }

  /** After an allocation, the ids held are those held before and, by import `i`, new ones. */
  lemma HeldAfterAllocate(s: State, i: nat, j: nat, n: string, x: nat)
    requires Inv(s) && Enabled(s, Allocate(i)) && Holds(Apply(s, Allocate(i)), j, n, x)
    ensures x <= Apply(s, Allocate(i)).counter
    ensures if j == i then s.counter < x else Holds(s, j, n, x) && x <= s.counter
  {
    hide IdsInRows, Provided;
    var t := Apply(s, Allocate(i));
    assert t.counter == s.counter + |s.imports[i].phase.missing|;
    if j == i {
      assert t.imports[i].phase.ids == Numbered(s.imports[i].phase.missing, s.counter + 1);
    } else {
      assert Holds(s, j, n, x);
    }
  }

  lemma AllocatedIds(s: State, i: nat)
    requires Inv(s) && Enabled(s, Allocate(i))
    ensures NoRepeats(s.imports[i].phase.missing) && i < |Apply(s, Allocate(i)).imports|
    ensures var phase := Apply(s, Allocate(i)).imports[i].phase;
            phase.Upserting? && phase.ids == Numbered(s.imports[i].phase.missing, s.counter + 1)
  {
    hide IdsInRows, IdsHeld, Numbered, NoRepeats;
    assert s.imports[i] in s.imports;
    assert Provided(s, s.imports[i]);
  }

  lemma NewIdsOnce(s: State, i: nat, n: string, m: string, x: nat)
    requires Inv(s) && Enabled(s, Allocate(i)) && Holds(Apply(s, Allocate(i)), i, n, x) && Holds(Apply(s, Allocate(i)), i, m, x)
    ensures n == m
  {
    AllocatedIds(s, i);
    hide Inv, Apply, Enabled, Numbered, NoRepeats;
    if n != m {
      NumberedOnce(s.imports[i].phase.missing, s.counter + 1, n, m);
    }
  }

  lemma AllocateKeepsIds(s: State, i: nat)
    requires Inv(s) && Enabled(s, Allocate(i))
    ensures IdsInRows(Apply(s, Allocate(i))) && IdsHeld(Apply(s, Allocate(i)))
  {
    var t := Apply(s, Allocate(i));
    assert t.rows == s.rows && t.counter >= s.counter;
    RowIds(s);
    RowIdsAgain(s, t);
    hide Apply, Enabled, Holds, IdsInRows, Provided;
    forall j, n, x: nat | Holds(t, j, n, x) ensures x <= t.counter && if j == i then s.counter < x else Holds(s, j, n, x) && x <= s.counter {
      HeldAfterAllocate(s, i, j, n, x);
    }
    forall j, n, k, m, x: nat | Holds(t, j, n, x) && Holds(t, k, m, x) ensures j == k && n == m {
      if j == i && k == i {
        NewIdsOnce(s, i, n, m, x);
      }
    }
  }

  lemma RowIds(s: State)
    requires IdsInRows(s)
    ensures forall n | n in s.rows :: s.rows[n].id.Some? && s.rows[n].id.value <= s.counter
  {
  }

  lemma RowIdsAgain(s: State, t: State)
    requires IdsInRows(s) && t.rows == s.rows && t.counter >= s.counter
    ensures IdsInRows(t)
  {
  }

  lemma UpsertKeepsIds(s: State, i: nat, name: string)
    requires Inv(s) && Enabled(s, Upsert(i, name))
    ensures IdsInRows(Apply(s, Upsert(i, name))) && IdsHeld(Apply(s, Upsert(i, name)))
  {
    var t := Apply(s, Upsert(i, name));
    var m := s.imports[i];
    assert m in s.imports;
    assert Provided(s, m);
    forall j, n, x: nat ensures Holds(t, j, n, x) <==> Holds(s, j, n, x) {
    }
    if name !in s.rows {
      assert Holds(s, i, name, m.phase.ids[name]);
      assert t.rows[name].id == Some(m.phase.ids[name]);
      forall n | n in s.rows ensures s.rows[n].id != t.rows[name].id {
      }
    }
  }

  lemma ApplyKeepsInv(s: State, a: Action)
    requires Inv(s)
    ensures Inv(Apply(s, a))
  {
    if Enabled(s, a) {
      var t := Apply(s, a);
      match a {
        case Read(i, found) =>
          forall j, n, x: nat ensures Holds(t, j, n, x) <==> Holds(s, j, n, x) {
          }
        case Allocate(i) => AllocateKeepsIds(s, i);
        case Upsert(i, name) => UpsertKeepsIds(s, i, name);
      }
      forall m | m in t.imports ensures m.WellFormed() && Provided(t, m) {
        var k :| 0 <= k < |t.imports| && t.imports[k] == m;
        ApplyKeepsProvided(s, a, k);
      }
    }
  }

  lemma {:induction false} Reachable(start: State, actions: seq<Action>)
    requires Starting(start)
    ensures Inv(Exec(start, actions))
    decreases |actions|
  {
    if actions == [] {
      hide IdsInRows;
      assert forall i, n, x: nat :: !Holds(start, i, n, x);
    } else {
      Reachable(start, actions[..|actions| - 1]);
      ApplyKeepsInv(Exec(start, actions[..|actions| - 1]), actions[|actions| - 1]);
    }
  }

  // ------------------------------------------------------------------ main results

  /** In every run, every row has an id and no two rows share one, however many imports allocated ids for
      the same name. */
  lemma IdsAreUnique(start: State, actions: seq<Action>, n: string, m: string)
    requires Starting(start)
    ensures var s := Exec(start, actions);
            n in s.rows ==> s.rows[n].id.Some? && s.rows[n].id.value <= s.counter && (m in s.rows && m != n ==> s.rows[m].id != s.rows[n].id)
  {
    Reachable(start, actions);
  }

  /** A name that has a row keeps its id for the rest of every run, and none of its items is lost. */
  lemma {:induction false} IdsAreForever(s: State, actions: seq<Action>, n: string)
    requires n in s.rows
    ensures var t := Exec(s, actions);
            n in t.rows && t.rows[n].id == s.rows[n].id && s.rows[n].items <= t.rows[n].items && t.counter >= s.counter
    decreases |actions|
  {
    if actions != [] {
      IdsAreForever(s, actions[..|actions| - 1], n);
    }
  }

  /** An import that has upserted a name. */
  ghost predicate HasUpserted(m: Import, n: string) {
    m.phase.Upserting? && n in m.names && n !in m.phase.todo
  }

  ghost predicate ItemFrom(start: State, s: State, n: string, item: Item) {
    (n in start.rows && item in start.rows[n].items)
    || exists m :: m in s.imports && HasUpserted(m, n) && n in m.items && item in m.items[n]
  }

  /** Conservation: a row holds exactly what it held at first and what the imports that have upserted it
      brought, in whatever order they did. */
  lemma {:induction false} RowsHoldWhatWasBrought(start: State, actions: seq<Action>, n: string, item: Item)
    requires Starting(start)
    ensures var s := Exec(start, actions);
            (n in s.rows && item in s.rows[n].items <==> ItemFrom(start, s, n, item))
            && (n in s.rows <==> n in start.rows || exists m :: m in s.imports && HasUpserted(m, n))
    decreases |actions|
  {
    if actions == [] {
      forall m | m in start.imports ensures !HasUpserted(m, n) {
      }
    } else {
      var s, a := Exec(start, actions[..|actions| - 1]), actions[|actions| - 1];
      RowsHoldWhatWasBrought(start, actions[..|actions| - 1], n, item);
      Reachable(start, actions[..|actions| - 1]);
      OneMoreAction(start, s, a, n, item);
    }
  }

  lemma OneMoreAction(start: State, s: State, a: Action, n: string, item: Item)
    requires Inv(s)
    requires n in s.rows && item in s.rows[n].items <==> ItemFrom(start, s, n, item)
    requires n in s.rows <==> n in start.rows || exists m :: m in s.imports && HasUpserted(m, n)
    ensures var t := Apply(s, a);
            (n in t.rows && item in t.rows[n].items <==> ItemFrom(start, t, n, item))
            && (n in t.rows <==> n in start.rows || exists m :: m in t.imports && HasUpserted(m, n))
  {
    if Enabled(s, a) {
      var t := Apply(s, a);
      var before, after := s.imports[a.i], t.imports[a.i];
      assert before in s.imports && after in t.imports;
      assert Provided(s, before) && before.WellFormed();
      hide IdsInRows, IdsHeld, Inv;
      forall m | m in s.imports ensures m == before || m in t.imports {
        var k :| 0 <= k < |s.imports| && s.imports[k] == m;
        assert k != a.i ==> t.imports[k] == m;
      }
      forall m | m in t.imports ensures m == after || m in s.imports {
        var k :| 0 <= k < |t.imports| && t.imports[k] == m;
        assert k != a.i ==> s.imports[k] == m;
      }
      if a.Upsert? && a.name == n {
        assert HasUpserted(after, n);
      } else {
        assert HasUpserted(after, n) <==> HasUpserted(before, n);
        assert n in t.rows <==> n in s.rows;
      }
    }
  }

  /** The ids a run hands out are new: none of them was in a row or at most the counter before. */
  lemma {:induction false} NewRowsGetNewIds(start: State, actions: seq<Action>, n: string)
    requires Starting(start)
    ensures var s := Exec(start, actions);
            n in s.rows && n !in start.rows ==> s.rows[n].id.Some? && start.counter < s.rows[n].id.value <= s.counter
    ensures forall i, m, x: nat | Holds(Exec(start, actions), i, m, x) :: start.counter < x
    decreases |actions|
  {
    Reachable(start, actions);
    if actions == [] {
      hide IdsInRows, IdsHeld;
    } else {
      var s, a := Exec(start, actions[..|actions| - 1]), actions[|actions| - 1];
      NewRowsGetNewIds(start, actions[..|actions| - 1], n);
      Reachable(start, actions[..|actions| - 1]);
      CounterGrows(start, actions[..|actions| - 1]);
      NewIdsStep(start, s, a, n);
    }
  }

  lemma {:induction false} CounterGrows(start: State, actions: seq<Action>)
    ensures Exec(start, actions).counter >= start.counter
    decreases |actions|
  {
    if actions != [] {
      CounterGrows(start, actions[..|actions| - 1]);
    }
  }

  lemma NewIdsStep(start: State, s: State, a: Action, n: string)
    requires Inv(s) && s.counter >= start.counter
    requires n in s.rows && n !in start.rows ==> s.rows[n].id.Some? && start.counter < s.rows[n].id.value <= s.counter
    requires forall i, m, x: nat | Holds(s, i, m, x) :: start.counter < x
    requires Inv(Apply(s, a))
    ensures var t := Apply(s, a);
            n in t.rows && n !in start.rows ==> t.rows[n].id.Some? && start.counter < t.rows[n].id.value <= t.counter
    ensures forall i, m, x: nat | Holds(Apply(s, a), i, m, x) :: start.counter < x
  {
    var t := Apply(s, a);
    if Enabled(s, a) {
      forall i, m, x: nat | Holds(t, i, m, x) ensures start.counter < x {
        if a.Allocate? && i == a.i {
          HeldAfterAllocate(s, a.i, i, m, x);
        } else {
          assert Holds(s, i, m, x);
        }
      }
      if a.Upsert? && a.name == n && n !in s.rows {
        assert s.imports[a.i] in s.imports && Provided(s, s.imports[a.i]);
        assert Holds(s, a.i, n, s.imports[a.i].phase.ids[n]);
      }
    }
  }
}
