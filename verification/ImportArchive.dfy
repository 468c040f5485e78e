/** `parameter_archive` of `apiAnalysis/rule/analysis.py`: the archive of an import, bounded to the path ids
    of that import. Each run replaces the rows of the names it reaches. */
module ImportArchive {
  import opened Distinct
  import opened Order
  import ProfileArchive
  import WeakRelations

  type Entries = seq<ProfileArchive.PathEntry>

  /** A `parameter_data` row; values are given by their JSON texts. */
  datatype Parameter = Parameter(name: string, id: int, reqPids: Entries, resPids: Entries, reqValues: seq<string>, resValues: seq<string>)

  /** What an archive row holds for its name. */
  datatype Row = Row(ids: set<int>, reqPids: set<int>, resPids: set<int>, reqValues: seq<string>, resValues: seq<string>)

  const EMPTY := Row({}, {}, {}, [], [])

  function Name(p: Parameter): string { WeakRelations.LeafName(p.name) }

  function Paths(p: Parameter): set<int> {
    ProfileArchive.PathIds(p.reqPids) + ProfileArchive.PathIds(p.resPids)
  }

  /** The rows a selection reaches under a name, in order. */
  function Reached(rows: seq<Parameter>, selected: set<int>, name: string): seq<Parameter> {
    if rows == [] then []
    else
      var front, last := rows[..|rows| - 1], rows[|rows| - 1];
      Reached(front, selected, name) + if Paths(last) * selected != {} && Name(last) == name then [last] else []
  }

  function AddTo(row: Row, p: Parameter, selected: set<int>): Row {
    Row(row.ids + {p.id}, row.reqPids + ProfileArchive.PathIds(p.reqPids) * selected, row.resPids + ProfileArchive.PathIds(p.resPids) * selected,
        row.reqValues + p.reqValues, row.resValues + p.resValues)
  }

  /** What a list of rows contributes, values still with repetitions. */
  function Gathered(rows: seq<Parameter>, selected: set<int>): Row {
    if rows == [] then EMPTY else AddTo(Gathered(rows[..|rows| - 1], selected), rows[|rows| - 1], selected)
  }

  function Same(text: string): string { text }

  ghost function Stored(row: Row): Row {
    row.(reqValues := Dedup(row.reqValues, Same), resValues := Dedup(row.resValues, Same))
  }

  ghost function Names(rows: seq<Parameter>, selected: set<int>): set<string> {
    set p | p in rows && Paths(p) * selected != {} :: Name(p)
  }

  /** The rows one run writes. */
  ghost function Archived(rows: seq<Parameter>, selected: set<int>): map<string, Row> {
    map name | name in Names(rows, selected) :: Stored(Gathered(Reached(rows, selected, name), selected))
  }

  datatype Result = Written(count: nat) | NoPaths

  // ------------------------------------------------------------------ the program

  lemma NothingUnique()
    ensures Dedup([], Same) == [] && Keys([], Same) == {}
  {
  }

  lemma KeyOfOne(v: string)
    ensures Keys([v], Same) == {v} && Same(v) == v
  {
    assert forall x :: x in [v] <==> x == v;
    assert v in [v];
    assert Same(v) in Keys([v], Same);
  }

  /** The nested `unique_values`. */
  method UniqueValues(values: seq<string>) returns (result: seq<string>)
    ensures result == Dedup(values, Same)
  {
    hide Dedup, Keys;
    result := [];
    var seen: set<string> := {};
    NothingUnique();
    for i := 0 to |values|
      invariant result == Dedup(values[..i], Same)
      invariant seen == Keys(values[..i], Same)
    {
      assert values[..i + 1] == values[..i] + [values[i]] && values[..0] == [];
      DedupSnoc(values[..i], values[i], Same);
      KeysAppend(values[..i], [values[i]], Same);
      KeyOfOne(values[i]);
      if values[i] !in seen {
        seen := seen + {values[i]};
        result := result + [values[i]];
      }
    }
    assert values[..|values|] == values;
  }

  ghost predicate Grouped(order: seq<string>, grouped: map<string, Row>, rows: seq<Parameter>, selected: set<int>) {
    (forall n :: n in order <==> n in grouped)
    && NoRepeats(order)
    && grouped.Keys == Names(rows, selected)
    && forall n | n in grouped :: grouped[n] == Gathered(Reached(rows, selected, n), selected)
  }

  /** The grouping loop. */
  method Group(rows: seq<Parameter>, selected: set<int>) returns (order: seq<string>, grouped: map<string, Row>)
    ensures Grouped(order, grouped, rows, selected)
  {
    order, grouped := [], map[];
    NothingGrouped(selected);
    hide Name, Paths, Grouped, AddTo;
    for i := 0 to |rows|
      invariant Grouped(order, grouped, rows[..i], selected)
    {
      var p := rows[i];
      assert rows[..i + 1] == rows[..i] + [p];
      NextGroup(order, grouped, rows[..i], p, selected);
      var req := ProfileArchive.NormalizedPathids(p.reqPids);
      var res := ProfileArchive.NormalizedPathids(p.resPids);
      SamePaths(p, req, res);
      if (req + res) * selected == {} {
        continue;
      }
      var name := WeakRelations.LeafName(p.name);
      NameIs(p);
      if name !in grouped {
        order := order + [name];
        grouped := grouped[name := EMPTY];
      }
      var g := grouped[name];
      AddedParts(g, p, selected);
      grouped := grouped[name := Row(g.ids + {p.id}, g.reqPids + req * selected, g.resPids + res * selected,
                                     g.reqValues + p.reqValues, g.resValues + p.resValues)];
    }
    assert rows[..|rows|] == rows;
  }

  lemma NothingGrouped(selected: set<int>)
    ensures Grouped([], map[], [], selected)
  {
  }

  lemma AddedParts(g: Row, p: Parameter, selected: set<int>)
    ensures AddTo(g, p, selected)
            == Row(g.ids + {p.id}, g.reqPids + ProfileArchive.PathIds(p.reqPids) * selected,
                   g.resPids + ProfileArchive.PathIds(p.resPids) * selected, g.reqValues + p.reqValues, g.resValues + p.resValues)
  {
  }

  /** What one more row does to the groups. */
  lemma NextGroup(order: seq<string>, grouped: map<string, Row>, rows: seq<Parameter>, p: Parameter, selected: set<int>)
    requires Grouped(order, grouped, rows, selected)
    ensures Paths(p) * selected == {} ==> Grouped(order, grouped, rows + [p], selected)
    ensures Paths(p) * selected != {} ==>
              var name := Name(p);
              if name in grouped then Grouped(order, grouped[name := AddTo(grouped[name], p, selected)], rows + [p], selected)
              else Grouped(order + [name], grouped[name := EMPTY][name := AddTo(EMPTY, p, selected)], rows + [p], selected)
  {
    hide Name, Paths, AddTo, Gathered, Reached, Names;
    NextRow(rows, p, selected);
    var name := Name(p);
    if Paths(p) * selected != {} {
      if name !in grouped {
        FirstOfName(rows, selected, name);
        assert name !in order;
      }
      forall n | n in Names(rows, selected) && n != name
        ensures Gathered(Reached(rows + [p], selected, n), selected) == grouped[n]
      {
      }
    }
  }

  lemma FirstOfName(rows: seq<Parameter>, selected: set<int>, name: string)
    requires name !in Names(rows, selected)
    ensures Gathered(Reached(rows, selected, name), selected) == EMPTY
  {
    UnnamedIsEmpty(rows, selected, name);
  }

  lemma NameIs(p: Parameter)
    ensures Name(p) == WeakRelations.LeafName(p.name)
  {
  }

  lemma SamePaths(p: Parameter, req: set<int>, res: set<int>)
    requires req == ProfileArchive.PathIds(p.reqPids) && res == ProfileArchive.PathIds(p.resPids)
    ensures Paths(p) == req + res
  {
  }

  lemma NextRow(rows: seq<Parameter>, p: Parameter, selected: set<int>)
    ensures Names(rows + [p], selected) == Names(rows, selected) + if Paths(p) * selected != {} then {Name(p)} else {}
    ensures forall n :: Reached(rows + [p], selected, n)
                        == if Paths(p) * selected != {} && Name(p) == n then Reached(rows, selected, n) + [p] else Reached(rows, selected, n)
    ensures forall n :: Gathered(Reached(rows, selected, n) + [p], selected) == AddTo(Gathered(Reached(rows, selected, n), selected), p, selected)
  {
    hide Name, Paths, AddTo;
    assert (rows + [p])[..|rows|] == rows;
    assert forall q :: q in rows + [p] <==> q in rows || q == p;
    forall n ensures Gathered(Reached(rows, selected, n) + [p], selected) == AddTo(Gathered(Reached(rows, selected, n), selected), p, selected) {
      OneMore(Reached(rows, selected, n), p, selected);
    }
  }

  lemma {:induction false} UnnamedIsEmpty(rows: seq<Parameter>, selected: set<int>, name: string)
    requires name !in Names(rows, selected)
    ensures Reached(rows, selected, name) == []
  {
    hide Name, Paths;
    if rows != [] {
      var front, last := rows[..|rows| - 1], rows[|rows| - 1];
      assert last in rows;
      assert forall p | p in front :: p in rows;
      UnnamedIsEmpty(front, selected, name);
    }
  }

  /** The rows of one account, project and environment, by name. */
  class Archive {
    var rows: map<string, Row>

    method Run(parameters: seq<Parameter>, selected: set<int>) returns (r: Result)
      modifies this
      ensures selected == {} ==> r == NoPaths && rows == old(rows)
      ensures selected != {} ==> rows == old(rows) + Archived(parameters, selected) && r == Written(|Names(parameters, selected)|)
    {
      hide Names, Dedup, Grouped, Archived, Stored;
      if selected == {} {
        return NoPaths;
      }
      var order, grouped := Group(parameters, selected);
      GroupsAreArchived(order, grouped, parameters, selected);
      var archived := 0;
      for i := 0 to |order|
        invariant archived == i
        invariant forall n :: n in rows <==> n in old(rows) || n in order[..i]
        invariant forall n | n in rows :: rows[n] == if n in order[..i] then Stored(grouped[n]) else old(rows)[n]
      {
        var name := order[i];
        assert order[..i + 1] == order[..i] + [name];
        var values := grouped[name];
        StoredParts(values);
        var req := UniqueValues(values.reqValues);
        var res := UniqueValues(values.resValues);
        rows := rows[name := Row(values.ids, values.reqPids, values.resPids, req, res)];
        archived := archived + 1;
      }
      assert order[..|order|] == order;
      return Written(archived);
    }
  }

  lemma StoredParts(row: Row)
    ensures Stored(row) == Row(row.ids, row.reqPids, row.resPids, Dedup(row.reqValues, Same), Dedup(row.resValues, Same))
  {
  }

  lemma GroupsAreArchived(order: seq<string>, grouped: map<string, Row>, rows: seq<Parameter>, selected: set<int>)
    requires Grouped(order, grouped, rows, selected)
    ensures |order| == |Names(rows, selected)|
    ensures (forall n :: n in order <==> n in grouped) && NoRepeats(order)
    ensures Archived(rows, selected) == map n | n in grouped :: Stored(grouped[n])
  {
    hide Names, Stored, Gathered, Reached;
    Cardinality(order, Names(rows, selected));
  }

  lemma {:induction false} Cardinality(order: seq<string>, names: set<string>)
    requires NoRepeats(order)
    requires forall n :: n in order <==> n in names
    ensures |order| == |names|
  {
    if order == [] {
      assert names == {};
    } else {
      var front, last := order[..|order| - 1], order[|order| - 1];
      assert order == front + [last];
      Cardinality(front, names - {last});
    }
  }

  // ------------------------------------------------------------------ main results

  lemma {:induction false} GatheredMeaning(rows: seq<Parameter>, selected: set<int>, x: int, v: string)
    ensures var g := Gathered(rows, selected);
            (x in g.ids <==> exists p :: p in rows && p.id == x)
            && (x in g.reqPids <==> x in selected && exists p :: p in rows && x in ProfileArchive.PathIds(p.reqPids))
            && (x in g.resPids <==> x in selected && exists p :: p in rows && x in ProfileArchive.PathIds(p.resPids))
            && (v in g.reqValues <==> exists p :: p in rows && v in p.reqValues)
            && (v in g.resValues <==> exists p :: p in rows && v in p.resValues)
  {
    if rows != [] {
      var front, last := rows[..|rows| - 1], rows[|rows| - 1];
      GatheredMeaning(front, selected, x, v);
      assert rows == front + [last];
      assert forall p :: p in rows <==> p in front || p == last;
    }
  }

  lemma {:induction false} ReachedMeaning(rows: seq<Parameter>, selected: set<int>, name: string, p: Parameter)
    ensures p in Reached(rows, selected, name) <==> p in rows && Paths(p) * selected != {} && Name(p) == name
  {
    hide Name, Paths;
    if rows != [] {
      var front, last := rows[..|rows| - 1], rows[|rows| - 1];
      ReachedMeaning(front, selected, name, p);
      assert rows == front + [last];
    }
  }

  /** An archived row holds exactly the ids and the selected paths of the rows reached under its name, and
      each of their values once. */
  lemma ArchivedMeaning(rows: seq<Parameter>, selected: set<int>, name: string, x: int, v: string)
    requires name in Names(rows, selected)
    ensures var row := Archived(rows, selected)[name];
            (x in row.ids <==> exists p :: p in Reached(rows, selected, name) && p.id == x)
            && (x in row.reqPids <==> x in selected && exists p :: p in Reached(rows, selected, name) && x in ProfileArchive.PathIds(p.reqPids))
            && (x in row.resPids <==> x in selected && exists p :: p in Reached(rows, selected, name) && x in ProfileArchive.PathIds(p.resPids))
            && (v in row.reqValues <==> exists p :: p in Reached(rows, selected, name) && v in p.reqValues)
            && (v in row.resValues <==> exists p :: p in Reached(rows, selected, name) && v in p.resValues)
            && DistinctKeys(row.reqValues, Same) && DistinctKeys(row.resValues, Same)
  {
    hide Reached, Gathered, Names, Dedup, DistinctKeys;
    var g := Gathered(Reached(rows, selected, name), selected);
    GatheredMeaning(Reached(rows, selected, name), selected, x, v);
    DedupKeeps(g.reqValues, v);
    DedupKeeps(g.resValues, v);
  }

  lemma DedupKeeps(s: seq<string>, v: string)
    ensures v in Dedup(s, Same) <==> v in s
    ensures DistinctKeys(Dedup(s, Same), Same)
  {
    DedupFacts(s, Same);
    if v in s {
      assert Same(v) in Keys(s, Same);
      var x :| x in Dedup(s, Same) && Same(x) == Same(v);
    }
  }

  /** Every row of the name keeps its paths within the second selection, as far as the first goes. */
  ghost predicate Within(rows: seq<Parameter>, a: set<int>, b: set<int>, name: string) {
    forall p | p in rows && Name(p) == name :: Paths(p) * a <= b
  }

  /** A run replaces, it does not add. Importing the paths `a` and then the paths `b` gives the archive of
      importing both at once exactly when no name that `b` reaches uses a path of `a` outside `b`. */
  lemma TwoImportsAreOneIff(rows: seq<Parameter>, before: map<string, Row>, a: set<int>, b: set<int>)
    ensures before + Archived(rows, a) + Archived(rows, b) == before + Archived(rows, a + b)
            <==> forall name | name in Names(rows, b) :: Within(rows, a, b, name)
  {
    var split, whole := before + Archived(rows, a) + Archived(rows, b), before + Archived(rows, a + b);
    NamesOfBoth(rows, a, b);
    KeysOfArchived(rows, a);
    KeysOfArchived(rows, b);
    KeysOfArchived(rows, a + b);
    hide Archived, Names, Within;
    assert split.Keys == whole.Keys;
    forall name | name in Names(rows, a + b)
      ensures split[name] == whole[name] <==> (name in Names(rows, b) ==> Within(rows, a, b, name))
    {
      if name !in Names(rows, b) {
        OnlyFirst(rows, a, b, name);
      } else if Within(rows, a, b, name) {
        SecondCovers(rows, a, b, name);
      } else {
        SecondLoses(rows, a, b, name);
      }
    }
    if split == whole {
      assert forall name | name in Names(rows, b) :: name in Names(rows, a + b);
    }
  }

  lemma KeysOfArchived(rows: seq<Parameter>, selected: set<int>)
    ensures Archived(rows, selected).Keys == Names(rows, selected)
  {
    hide Names;
  }

  /** Two rows of one name, each used by a path of its own. */
  function TwoRows(name: string, x: int, y: int): seq<Parameter> {
    [Parameter(name, 1, [ProfileArchive.Id(x)], [], [], []), Parameter(name, 2, [ProfileArchive.Id(y)], [], [], [])]
  }

  /** Imported one after the other, the paths of such rows give an archive without the first path; imported
      together they keep it. */
  lemma SecondImportLosesAPath(name: string, x: int, y: int, before: map<string, Row>)
    requires x != y
    ensures var rows := TwoRows(name, x, y);
            var leaf := WeakRelations.LeafName(name);
            var split, whole := before + Archived(rows, {x}) + Archived(rows, {y}), before + Archived(rows, {x} + {y});
            leaf in split && leaf in whole && x !in split[leaf].reqPids && x in whole[leaf].reqPids && split != whole
  {
    var rows := TwoRows(name, x, y);
    var leaf := WeakRelations.LeafName(name);
    BothAreReached(name, x, y);
    hide *;
    KeysOfArchived(rows, {y});
    KeysOfArchived(rows, {x} + {y});
    ReachedPath(rows, {y}, leaf, x);
    ReachedPath(rows, {x} + {y}, leaf, x);
  }

  lemma ReachedPath(rows: seq<Parameter>, selected: set<int>, name: string, x: int)
    requires name in Names(rows, selected)
    ensures name in Archived(rows, selected)
    ensures x in Archived(rows, selected)[name].reqPids
            <==> x in selected && exists p :: p in Reached(rows, selected, name) && x in ProfileArchive.PathIds(p.reqPids)
  {
    hide Archived, Names, Reached;
    KeysOfArchived(rows, selected);
    ArchivedMeaning(rows, selected, name, x, "");
  }

  lemma BothAreReached(name: string, x: int, y: int)
    ensures var (rows, leaf) := (TwoRows(name, x, y), WeakRelations.LeafName(name));
            leaf in Names(rows, {y}) && leaf in Names(rows, {x} + {y})
            && exists p :: p in Reached(rows, {x} + {y}, leaf) && x in ProfileArchive.PathIds(p.reqPids)
  {
    var rows := TwoRows(name, x, y);
    var leaf := WeakRelations.LeafName(name);
    PathsOfOne(rows[0], x);
    PathsOfOne(rows[1], y);
    var both := {x} + {y};
    assert x in Paths(rows[0]) * both && y in Paths(rows[1]) * {y};
    assert Name(rows[0]) == leaf && Name(rows[1]) == leaf;
    assert rows[0] in rows && rows[1] in rows;
    hide Paths, Reached, TwoRows, Name;
    ReachedMeaning(rows, both, leaf, rows[0]);
  }

  lemma PathsOfOne(p: Parameter, x: int)
    requires p.reqPids == [ProfileArchive.Id(x)] && p.resPids == []
    ensures Paths(p) == {x} && ProfileArchive.PathIds(p.reqPids) == {x}
  {
    assert p.reqPids[0] == ProfileArchive.Id(x);
    assert x in ProfileArchive.EntryIds(p.reqPids[0]);
  }

  lemma NamesOfBoth(rows: seq<Parameter>, a: set<int>, b: set<int>)
    ensures Names(rows, a + b) == Names(rows, a) + Names(rows, b)
  {
    hide Name, Paths;
    forall p ensures Paths(p) * (a + b) != {} <==> Paths(p) * a != {} || Paths(p) * b != {} {
      assert Paths(p) * (a + b) == Paths(p) * a + Paths(p) * b;
    }
  }

  /** Selections that agree on every row of a name reach the same rows and paths of it. */
  lemma {:induction false} SameReach(rows: seq<Parameter>, s: set<int>, t: set<int>, name: string)
    requires forall p | p in rows && Name(p) == name :: Paths(p) * s == Paths(p) * t
    ensures Reached(rows, s, name) == Reached(rows, t, name)
    ensures Gathered(Reached(rows, s, name), s) == Gathered(Reached(rows, t, name), t)
  {
    hide Name;
    if rows != [] {
      var front, last := rows[..|rows| - 1], rows[|rows| - 1];
      assert last in rows;
      assert forall p | p in front :: p in rows;
      SameReach(front, s, t, name);
      if Paths(last) * s != {} && Name(last) == name {
        OneMore(Reached(front, s, name), last, s);
        OneMore(Reached(front, t, name), last, t);
        SameParts(last, s, t);
        assert Reached(rows, s, name) == Reached(front, s, name) + [last];
        assert Reached(rows, t, name) == Reached(front, t, name) + [last];
      } else {
        assert Reached(rows, s, name) == Reached(front, s, name) && Reached(rows, t, name) == Reached(front, t, name);
      }
    }
  }

  lemma OneMore(rows: seq<Parameter>, p: Parameter, selected: set<int>)
    ensures Gathered(rows + [p], selected) == AddTo(Gathered(rows, selected), p, selected)
  {
    assert (rows + [p])[..|rows|] == rows;
  }

  lemma SameParts(p: Parameter, s: set<int>, t: set<int>)
    requires Paths(p) * s == Paths(p) * t
    ensures ProfileArchive.PathIds(p.reqPids) * s == ProfileArchive.PathIds(p.reqPids) * t
    ensures ProfileArchive.PathIds(p.resPids) * s == ProfileArchive.PathIds(p.resPids) * t
  {
    forall x ensures x in ProfileArchive.PathIds(p.reqPids) * s <==> x in ProfileArchive.PathIds(p.reqPids) * t {
      assert x in Paths(p) * s <==> x in Paths(p) * t;
    }
    forall x ensures x in ProfileArchive.PathIds(p.resPids) * s <==> x in ProfileArchive.PathIds(p.resPids) * t {
      assert x in Paths(p) * s <==> x in Paths(p) * t;
    }
  }

  lemma OnlyFirst(rows: seq<Parameter>, a: set<int>, b: set<int>, name: string)
    requires name in Names(rows, a) && name !in Names(rows, b) && name in Names(rows, a + b)
    ensures Archived(rows, a)[name] == Archived(rows, a + b)[name]
  {
    hide Name, Paths, Stored, Gathered, Reached;
    forall p | p in rows && Name(p) == name ensures Paths(p) * a == Paths(p) * (a + b) {
      assert Paths(p) * b == {};
      assert Paths(p) * (a + b) == Paths(p) * a + Paths(p) * b;
    }
    SameReach(rows, a, a + b, name);
  }

  lemma SecondCovers(rows: seq<Parameter>, a: set<int>, b: set<int>, name: string)
    requires name in Names(rows, b) && name in Names(rows, a + b) && Within(rows, a, b, name)
    ensures Archived(rows, b)[name] == Archived(rows, a + b)[name]
  {
    hide Name, Paths, Stored, Gathered, Reached;
    forall p | p in rows && Name(p) == name ensures Paths(p) * b == Paths(p) * (a + b) {
      assert Paths(p) * (a + b) == Paths(p) * a + Paths(p) * b;
      forall x | x in Paths(p) * a ensures x in Paths(p) * b {
      }
    }
    SameReach(rows, b, a + b, name);
  }

  lemma SecondLoses(rows: seq<Parameter>, a: set<int>, b: set<int>, name: string)
    requires name in Names(rows, b) && name in Names(rows, a + b) && !Within(rows, a, b, name)
    ensures Archived(rows, b)[name] != Archived(rows, a + b)[name]
  {
    hide Name, Gathered, Reached, Names, Dedup;
    var p :| p in rows && Name(p) == name && !(Paths(p) * a <= b);
    var x :| x in Paths(p) * a && x !in b;
    assert x in Paths(p) * (a + b);
    ReachedMeaning(rows, a + b, name, p);
    ArchivedMeaning(rows, a + b, name, x, "");
    ArchivedMeaning(rows, b, name, x, "");
  }

  /** Importing the same paths again changes nothing. */
  lemma ImportTwice(rows: seq<Parameter>, before: map<string, Row>, selected: set<int>)
    ensures before + Archived(rows, selected) + Archived(rows, selected) == before + Archived(rows, selected)
  {
    hide Stored, Gathered, Reached, Names;
  }
}
