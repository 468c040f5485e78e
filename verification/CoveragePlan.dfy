/** The plan of `tools/build_host_coverage_target_plan.py`: which modules to confirm, one safe request
    each, so that enough operations get a host. */
module CoveragePlan {
  import opened Order

  /** A module is a folder of a project. */
  type Module = (string, string)

  datatype Row = Row(project: string, folder: string, status: string)

  datatype Candidate = Candidate(project: string, folder: string, unknown: nat)

  datatype Plan = Plan(total: nat, base: nat, target: int, needed: nat, modules: seq<Candidate>, covered: nat, projected: real)

  /** `Raised` is the division by the number of rows when there is none. */
  datatype Outcome = Planned(plan: Plan) | Raised

  const ACCEPTED := {"runtime_confirmed", "direct_candidate", "module_candidate"}

  predicate Accepted(row: Row) { row.status in ACCEPTED }

  predicate Unknown(row: Row) { row.status == "mapping_unknown" }

  function ModuleOf(row: Row): Module { (row.project, row.folder) }

  function KeyOf(c: Candidate): Module { (c.project, c.folder) }

  function Clamp(percent: real): real {
    if percent < 0.0 then 0.0 else if percent > 100.0 then 100.0 else percent
  }

  function Ceil(x: real): int { -((-x).Floor) }

  lemma CeilMeaning(n: int, x: real)
    ensures n >= Ceil(x) <==> n as real >= x
  {
  }

  function Target(total: nat, percent: real): int {
    Ceil(total as real * Clamp(percent) / 100.0)
  }

  // ------------------------------------------------------------------ what a choice of modules covers

  /** The rows of unknown placement that lie in one of the modules. */
  ghost function Covered(rows: seq<Row>, modules: set<Module>): nat {
    if rows == [] then 0
    else
      var front, last := rows[..|rows| - 1], rows[|rows| - 1];
      Covered(front, modules) + if Unknown(last) && ModuleOf(last) in modules then 1 else 0
  }

  ghost function Base(rows: seq<Row>): nat {
    if rows == [] then 0
    else Base(rows[..|rows| - 1]) + if Accepted(rows[|rows| - 1]) then 1 else 0
  }

  /** The rows of a module, in order. */
  ghost function RowsOf(rows: seq<Row>, m: Module): seq<Row> {
    if rows == [] then []
    else
      var front, last := rows[..|rows| - 1], rows[|rows| - 1];
      RowsOf(front, m) + if ModuleOf(last) == m then [last] else []
  }

  ghost function UnknownIn(rows: seq<Row>): nat {
    if rows == [] then 0
    else UnknownIn(rows[..|rows| - 1]) + if Unknown(rows[|rows| - 1]) then 1 else 0
  }

  /** The modules worth a request: some unknown rows, and a safe request to send. */
  ghost function CandidateSet(rows: seq<Row>, safe: set<Module>): set<Candidate> {
    set row | row in rows && ModuleOf(row) in safe && Covered(rows, {ModuleOf(row)}) > 0
      :: Candidate(row.project, row.folder, Covered(rows, {ModuleOf(row)}))
  }

  /** Most unknown rows first, then by project and folder. */
  predicate CandidateLe(a: Candidate, b: Candidate) {
    a.unknown > b.unknown
    || (a.unknown == b.unknown && (if a.project == b.project then StrLe(a.folder, b.folder) else StrLe(a.project, b.project)))
  }

  lemma CandidateLeOrder()
    ensures LinearOrder(CandidateLe)
  {
    StrLeOrder();
  }

  ghost function Ranked(rows: seq<Row>, safe: set<Module>): seq<Candidate> {
    CandidateLeOrder();
    SortedSet(CandidateSet(rows, safe), CandidateLe)
  }

  /** The shortest prefix that reaches `needed`, or everything. */
  function Chosen(cs: seq<Candidate>, needed: int): seq<Candidate> {
    if cs == [] || needed <= 0 then [] else [cs[0]] + Chosen(cs[1..], needed - cs[0].unknown)
  }

  ghost function Sum(cs: seq<Candidate>): nat {
    if cs == [] then 0 else Sum(cs[..|cs| - 1]) + cs[|cs| - 1].unknown
  }

  ghost function Keys(cs: seq<Candidate>): set<Module> {
    set c | c in cs :: KeyOf(c)
  }

  ghost function PlanOf(rows: seq<Row>, safe: set<Module>, percent: real): Plan
    requires rows != []
  {
    var base, target := Base(rows), Target(|rows|, percent);
    var modules := Chosen(Ranked(rows, safe), Max(0, target - base));
    Plan(|rows|, base, target, Max(0, target - base), modules, Sum(modules),
         100.0 * (base + Sum(modules)) as real / |rows| as real)
  }

  // ------------------------------------------------------------------ the program

  lemma RowsOfStep(rows: seq<Row>, i: nat, m: Module)
    requires i < |rows|
    ensures RowsOf(rows[..i + 1], m) == RowsOf(rows[..i], m) + if ModuleOf(rows[i]) == m then [rows[i]] else []
  {
    assert rows[..i + 1][..i] == rows[..i];
  }

  method GroupByModule(rows: seq<Row>) returns (order: seq<Module>, grouped: map<Module, seq<Row>>)
    ensures NoRepeats(order) && forall m :: m in order <==> m in grouped
    ensures forall m :: m in grouped <==> exists row :: row in rows && ModuleOf(row) == m
    ensures forall m | m in grouped :: grouped[m] == RowsOf(rows, m)
  {
    order, grouped := [], map[];
    for i := 0 to |rows|
      invariant NoRepeats(order) && forall m :: m in order <==> m in grouped
      invariant forall m :: m in grouped <==> RowsOf(rows[..i], m) != []
      invariant forall m | m in grouped :: grouped[m] == RowsOf(rows[..i], m)
    {
      var m := ModuleOf(rows[i]);
      forall n { RowsOfStep(rows, i, n); }
      hide RowsOf, ModuleOf;
      if m !in grouped {
        order := order + [m];
        grouped := grouped[m := []];
      }
      grouped := grouped[m := grouped[m] + [rows[i]]];
    }
    assert rows[..|rows|] == rows;
    forall m { RowsOfSome(rows, m); }
  }

  lemma {:induction false} RowsOfSome(rows: seq<Row>, m: Module)
    ensures RowsOf(rows, m) != [] <==> exists row :: row in rows && ModuleOf(row) == m
  {
    if rows != [] {
      var front, last := rows[..|rows| - 1], rows[|rows| - 1];
      RowsOfSome(front, m);
      hide ModuleOf;
      assert rows == front + [last];
    }
  }

  method CountUnknown(rows: seq<Row>) returns (n: nat)
    ensures n == UnknownIn(rows)
  {
    n := 0;
    for i := 0 to |rows|
      invariant n == UnknownIn(rows[..i])
    {
      assert rows[..i + 1][..i] == rows[..i];
      n := n + if Unknown(rows[i]) then 1 else 0;
    }
    assert rows[..|rows|] == rows;
  }

  method CountAccepted(rows: seq<Row>) returns (n: nat)
    ensures n == Base(rows)
  {
    n := 0;
    for i := 0 to |rows|
      invariant n == Base(rows[..i])
    {
      assert rows[..i + 1][..i] == rows[..i];
      n := n + if Accepted(rows[i]) then 1 else 0;
    }
    assert rows[..|rows|] == rows;
  }

  method RankCandidates(rows: seq<Row>, safe: set<Module>) returns (candidates: seq<Candidate>)
    ensures candidates == Ranked(rows, safe)
  {
    var order, grouped := GroupByModule(rows);
    candidates := [];
    for i := 0 to |order|
      invariant NoRepeats(candidates)
      invariant forall c | c in candidates :: KeyOf(c) in order[..i]
      invariant forall c :: c in candidates <==> c in CandidateSet(rows, safe) && KeyOf(c) in order[..i]
    {
      var m := order[i];
      assert order[..i + 1] == order[..i] + [m];
      assert m !in order[..i];
      var unknown := CountUnknown(grouped[m]);
      UnknownOfModule(rows, m);
      CandidateOfModule(rows, safe, m);
      if unknown != 0 && m in safe {
        candidates := candidates + [Candidate(m.0, m.1, unknown)];
      }
    }
    assert order[..|order|] == order;
    forall c | c in CandidateSet(rows, safe) ensures KeyOf(c) in order {
      var row :| row in rows && c == Candidate(row.project, row.folder, Covered(rows, {ModuleOf(row)}));
      assert ModuleOf(row) == KeyOf(c);
    }
    SortIsRanked(candidates, rows, safe);
    candidates := Sort(candidates, CandidateLe);
  }

  lemma SortIsRanked(cs: seq<Candidate>, rows: seq<Row>, safe: set<Module>)
    requires NoRepeats(cs) && forall c :: c in cs <==> c in CandidateSet(rows, safe)
    ensures Sort(cs, CandidateLe) == Ranked(rows, safe)
  {
    CandidateLeOrder();
    var r := Ranked(rows, safe);
    SortedSetSorted(CandidateSet(rows, safe), CandidateLe);
    DistinctMultiset(cs, r);
    SortSorted(cs, CandidateLe);
    SortedUnique(Sort(cs, CandidateLe), r, CandidateLe);
  }

  /** The candidate of a module, if it is one. */
  lemma CandidateOfModule(rows: seq<Row>, safe: set<Module>, m: Module)
    requires exists row :: row in rows && ModuleOf(row) == m
    ensures forall c | KeyOf(c) == m :: c in CandidateSet(rows, safe) <==> m in safe && c.unknown > 0 && c.unknown == Covered(rows, {m})
  {
    var row :| row in rows && ModuleOf(row) == m;
    forall c | KeyOf(c) == m
      ensures c in CandidateSet(rows, safe) <==> m in safe && c.unknown > 0 && c.unknown == Covered(rows, {m})
    {
      if m in safe && c.unknown > 0 && c.unknown == Covered(rows, {m}) {
        assert c == Candidate(row.project, row.folder, Covered(rows, {ModuleOf(row)}));
      }
    }
  }

  lemma {:induction false} UnknownOfModule(rows: seq<Row>, m: Module)
    ensures UnknownIn(RowsOf(rows, m)) == Covered(rows, {m})
  {
    if rows != [] {
      var front, last := rows[..|rows| - 1], rows[|rows| - 1];
      UnknownOfModule(front, m);
      if ModuleOf(last) == m {
        assert (RowsOf(front, m) + [last])[..|RowsOf(front, m)|] == RowsOf(front, m);
      } else {
        assert RowsOf(rows, m) == RowsOf(front, m);
      }
    }
  }

  /** Half way through: the first `i` candidates are chosen, and the rest decides what follows. */
  ghost predicate Selecting(cs: seq<Candidate>, i: nat, selected: seq<Candidate>, covered: nat, needed: int) {
    i <= |cs| && covered == Sum(selected) && Chosen(cs, needed) == selected + Chosen(cs[i..], needed - covered)
  }

  lemma SelectOne(cs: seq<Candidate>, i: nat, selected: seq<Candidate>, covered: nat, needed: int)
    requires Selecting(cs, i, selected, covered, needed) && i < |cs| && covered < needed
    ensures Selecting(cs, i + 1, selected + [cs[i]], covered + cs[i].unknown, needed)
  {
    assert cs[i..][1..] == cs[i + 1..];
    assert (selected + [cs[i]])[..|selected|] == selected;
    ghost var rest := Chosen(cs[i + 1..], needed - covered - cs[i].unknown);
    assert Chosen(cs[i..], needed - covered) == [cs[i]] + rest;
    assert Sum(selected + [cs[i]]) == Sum(selected) + cs[i].unknown;
    hide Chosen, Sum;
    assert selected + ([cs[i]] + rest) == (selected + [cs[i]]) + rest;
  }

  lemma SelectStarts(cs: seq<Candidate>, needed: int)
    ensures Selecting(cs, 0, [], 0, needed)
  {
    assert cs[0..] == cs;
  }

  lemma SelectEnds(cs: seq<Candidate>, i: nat, selected: seq<Candidate>, covered: nat, needed: int)
    requires Selecting(cs, i, selected, covered, needed) && (i == |cs| || needed <= covered)
    ensures selected == Chosen(cs, needed) && covered == Sum(selected)
  {
    assert selected + [] == selected;
  }

  method Select(candidates: seq<Candidate>, needed: int) returns (selected: seq<Candidate>, covered: nat)
    ensures selected == Chosen(candidates, needed) && covered == Sum(selected)
  {
    hide Selecting;
    selected, covered := [], 0;
    var i := 0;
    SelectStarts(candidates, needed);
    while i < |candidates| && covered < needed
      invariant i <= |candidates| && Selecting(candidates, i, selected, covered, needed)
    {
      SelectOne(candidates, i, selected, covered, needed);
      selected := selected + [candidates[i]];
      covered := covered + candidates[i].unknown;
      i := i + 1;
    }
    SelectEnds(candidates, i, selected, covered, needed);
  }

  method BuildPlan(rows: seq<Row>, safe: set<Module>, percent: real) returns (r: Outcome)
    ensures r == if rows == [] then Raised else Planned(PlanOf(rows, safe, percent))
  {
    var total := |rows|;
    var base := CountAccepted(rows);
    var target := Target(total, percent);
    var needed := Max(0, target - base);
    var candidates := RankCandidates(rows, safe);
    var selected, covered := Select(candidates, needed);
    if total == 0 {
      return Raised;
    }
    return Planned(Plan(total, base, target, needed, selected, covered, 100.0 * (base + covered) as real / total as real));
  }

  // ------------------------------------------------------------------ covering

  lemma {:induction false} CoveredAdds(rows: seq<Row>, modules: set<Module>, m: Module)
    requires m !in modules
    ensures Covered(rows, modules + {m}) == Covered(rows, modules) + Covered(rows, {m})
  {
    if rows != [] {
      CoveredAdds(rows[..|rows| - 1], modules, m);
    }
  }

  lemma {:induction false} CoveredMonotone(rows: seq<Row>, a: set<Module>, b: set<Module>)
    requires a <= b
    ensures Covered(rows, a) <= Covered(rows, b)
  {
    if rows != [] {
      CoveredMonotone(rows[..|rows| - 1], a, b);
    }
  }

  lemma {:induction false} CoversNothing(rows: seq<Row>)
    ensures Covered(rows, {}) == 0
  {
    if rows != [] {
      CoversNothing(rows[..|rows| - 1]);
    }
  }

  /** Accepted rows are not unknown ones, so nothing is counted twice. */
  lemma {:induction false} NothingCountedTwice(rows: seq<Row>, modules: set<Module>)
    ensures Base(rows) + Covered(rows, modules) <= |rows|
  {
    if rows != [] {
      NothingCountedTwice(rows[..|rows| - 1], modules);
    }
  }

  /** A ranking in which every module occurs at most once, with its own count. */
  ghost predicate Faithful(rows: seq<Row>, cs: seq<Candidate>) {
    (forall i, j | 0 <= i < j < |cs| :: KeyOf(cs[i]) != KeyOf(cs[j]))
    && forall c | c in cs :: c.unknown == Covered(rows, {KeyOf(c)}) && c.unknown > 0
  }

  lemma RankedIsFaithful(rows: seq<Row>, safe: set<Module>)
    ensures Faithful(rows, Ranked(rows, safe)) && Sorted(Ranked(rows, safe), CandidateLe)
    ensures Keys(Ranked(rows, safe)) <= safe
    ensures forall m | m in safe && Covered(rows, {m}) > 0 :: m in Keys(Ranked(rows, safe))
  {
    CandidateLeOrder();
    var cs := Ranked(rows, safe);
    SortedSetSorted(CandidateSet(rows, safe), CandidateLe);
    forall c | c in cs ensures c.unknown == Covered(rows, {KeyOf(c)}) && c.unknown > 0 && KeyOf(c) in safe {
      assert c in CandidateSet(rows, safe);
      var row :| row in rows && ModuleOf(row) in safe && c == Candidate(row.project, row.folder, Covered(rows, {ModuleOf(row)}));
      assert ModuleOf(row) == KeyOf(c);
    }
    forall i, j | 0 <= i < j < |cs| ensures KeyOf(cs[i]) != KeyOf(cs[j]) {
      assert cs[i] in cs && cs[j] in cs;
    }
    forall m | m in safe && Covered(rows, {m}) > 0 ensures m in Keys(cs) {
      CoveredHasRow(rows, m);
      CandidateOfModule(rows, safe, m);
      var c := Candidate(m.0, m.1, Covered(rows, {m}));
      assert KeyOf(c) == m;
      assert c in cs;
    }
  }

  lemma {:induction false} CoveredHasRow(rows: seq<Row>, m: Module)
    requires Covered(rows, {m}) > 0
    ensures exists row :: row in rows && ModuleOf(row) == m
  {
    var front, last := rows[..|rows| - 1], rows[|rows| - 1];
    if ModuleOf(last) == m {
      assert last in rows;
    } else {
      CoveredHasRow(front, m);
      var row :| row in front && ModuleOf(row) == m;
      assert row in rows;
    }
  }

  lemma {:induction false} SumIsCovered(rows: seq<Row>, cs: seq<Candidate>)
    requires Faithful(rows, cs)
    ensures Sum(cs) == Covered(rows, Keys(cs)) && |Keys(cs)| == |cs|
  {
    if cs == [] {
      CoversNothing(rows);
      assert Keys(cs) == {};
    } else {
      hide Covered, Faithful, Keys;
      var front, last := cs[..|cs| - 1], cs[|cs| - 1];
      FaithfulPrefix(rows, cs, |cs| - 1);
      SumIsCovered(rows, front);
      LastKey(rows, cs);
      CoveredAdds(rows, Keys(front), KeyOf(last));
    }
  }

  lemma LastKey(rows: seq<Row>, cs: seq<Candidate>)
    requires Faithful(rows, cs) && cs != []
    ensures var (front, last) := (cs[..|cs| - 1], cs[|cs| - 1]);
            Keys(cs) == Keys(front) + {KeyOf(last)} && KeyOf(last) !in Keys(front) && last.unknown == Covered(rows, {KeyOf(last)})
  {
    hide Covered;
    assert cs == cs[..|cs| - 1] + [cs[|cs| - 1]];
    assert cs[|cs| - 1] in cs;
  }

  /** Exchange argument: no choice of `n` safe modules covers more than the `n` best-ranked ones. */
  lemma {:induction false} BestOfSize(rows: seq<Row>, safe: set<Module>, modules: set<Module>, n: nat)
    requires modules <= safe && |modules| <= n <= |Ranked(rows, safe)|
    ensures Covered(rows, modules) <= Sum(Ranked(rows, safe)[..n])
    decreases n
  {
    hide Ranked, Covered, Faithful, Keys, Sum;
    var cs := Ranked(rows, safe);
    RankedIsFaithful(rows, safe);
    FaithfulPrefix(rows, cs, n);
    SumIsCovered(rows, cs[..n]);
    if modules <= Keys(cs[..n]) {
      CoveredMonotone(rows, modules, Keys(cs[..n]));
    } else {
      NotCoveredByNone(modules, cs, n);
      var m :| m in modules && m !in Keys(cs[..n]);
      var rest := modules - {m};
      assert modules == rest + {m};
      CoveredAdds(rows, rest, m);
      BestOfSize(rows, safe, rest, n - 1);
      SumSnoc(cs, n);
      LaterIsSmaller(rows, safe, m, n);
    }
  }

  lemma NotCoveredByNone(modules: set<Module>, cs: seq<Candidate>, n: nat)
    requires |modules| <= n <= |cs| && !(modules <= Keys(cs[..n]))
    ensures n > 0
  {
    assert modules != {};
  }

  lemma SumSnoc(cs: seq<Candidate>, n: nat)
    requires 0 < n <= |cs|
    ensures Sum(cs[..n]) == Sum(cs[..n - 1]) + cs[n - 1].unknown
  {
    assert cs[..n][..n - 1] == cs[..n - 1];
  }

  lemma FaithfulPrefix(rows: seq<Row>, cs: seq<Candidate>, n: nat)
    requires Faithful(rows, cs) && n <= |cs|
    ensures Faithful(rows, cs[..n])
  {
    assert forall c | c in cs[..n] :: c in cs;
  }

  lemma LaterIsSmaller(rows: seq<Row>, safe: set<Module>, m: Module, n: nat)
    requires 0 < n <= |Ranked(rows, safe)| && m in safe && m !in Keys(Ranked(rows, safe)[..n])
    ensures Covered(rows, {m}) <= Ranked(rows, safe)[n - 1].unknown
  {
    RankedIsFaithful(rows, safe);
    var cs := Ranked(rows, safe);
    if Covered(rows, {m}) > 0 {
      var c :| c in cs && KeyOf(c) == m;
      var i :| 0 <= i < |cs| && cs[i] == c;
      forall k | 0 <= k < n ensures KeyOf(cs[k]) != m {
        assert cs[..n][k] in cs[..n];
      }
      assert CandidateLe(cs[n - 1], cs[i]);
    }
  }

  // ------------------------------------------------------------------ the greedy prefix

  lemma {:induction false} SumSplit(c: Candidate, cs: seq<Candidate>)
    ensures Sum([c] + cs) == c.unknown + Sum(cs)
  {
    if cs == [] {
      assert [c] + cs == [c];
      assert [c][..0] == [];
      assert Sum([c]) == Sum([]) + c.unknown;
    } else {
      SumSplit(c, cs[..|cs| - 1]);
      assert ([c] + cs)[..|cs|] == [c] + cs[..|cs| - 1];
    }
  }

  lemma ChosenStep(cs: seq<Candidate>, needed: int)
    requires cs != [] && needed > 0
    ensures Chosen(cs, needed) == [cs[0]] + Chosen(cs[1..], needed - cs[0].unknown)
  {
  }

  lemma SumOfNone(cs: seq<Candidate>)
    ensures Sum(cs[..0]) == 0
  {
  }

  lemma {:induction false} ChosenMeaning(cs: seq<Candidate>, needed: int)
    ensures Chosen(cs, needed) <= cs
    ensures Sum(Chosen(cs, needed)) >= needed || Chosen(cs, needed) == cs
    ensures var n := |Chosen(cs, needed)|; n > 0 ==> Sum(cs[..n - 1]) < needed
  {
    ChosenSuffices(cs, needed);
    if |Chosen(cs, needed)| > 0 {
      ChosenIsShortest(cs, needed, |Chosen(cs, needed)| - 1);
    }
  }

  lemma {:induction false} ChosenSuffices(cs: seq<Candidate>, needed: int)
    ensures Chosen(cs, needed) <= cs
    ensures Sum(Chosen(cs, needed)) >= needed || Chosen(cs, needed) == cs
  {
    if cs == [] || needed <= 0 {
      assert Sum([]) == 0;
    } else {
      ChosenStep(cs, needed);
      hide Chosen, Sum;
      ChosenSuffices(cs[1..], needed - cs[0].unknown);
      assert cs == [cs[0]] + cs[1..];
      SumSplit(cs[0], Chosen(cs[1..], needed - cs[0].unknown));
    }
  }

  /** No shorter prefix reaches what is needed. */
  lemma {:induction false} ChosenIsShortest(cs: seq<Candidate>, needed: int, m: nat)
    requires m < |Chosen(cs, needed)| && m <= |cs|
    ensures Sum(cs[..m]) < needed
    decreases m
  {
    ChosenStep(cs, needed);
    hide Chosen, Sum;
    if m == 0 {
      SumOfNone(cs);
    } else {
      ChosenIsShortest(cs[1..], needed - cs[0].unknown, m - 1);
      SumSplit(cs[0], cs[1..][..m - 1]);
      assert cs[..m] == [cs[0]] + cs[1..][..m - 1];
    }
  }

  // ------------------------------------------------------------------ main results

  /** If some choice of safe modules covers what is needed, the plan does so too, and no choice of fewer
      modules does. */
  lemma PlanIsOptimal(rows: seq<Row>, safe: set<Module>, percent: real, modules: set<Module>)
    requires rows != [] && modules <= safe
    requires var plan := PlanOf(rows, safe, percent); Covered(rows, modules) >= plan.needed
    ensures var plan := PlanOf(rows, safe, percent);
            plan.covered >= plan.needed && |plan.modules| <= |modules|
            && plan.covered == Covered(rows, Keys(plan.modules)) && Keys(plan.modules) <= safe && |Keys(plan.modules)| == |plan.modules|
  {
    var plan := PlanOf(rows, safe, percent);
    var cs, n := Ranked(rows, safe), |plan.modules|;
    ChosenMeaning(cs, plan.needed);
    ChosenIsPrefix(rows, safe, plan.needed);
    if |modules| < n {
      BestOfSize(rows, safe, modules, n - 1);
      assert false;
    }
    if plan.covered < plan.needed {
      BestOfAll(rows, safe, modules);
    }
  }

  lemma ChosenIsPrefix(rows: seq<Row>, safe: set<Module>, needed: int)
    ensures var selected := Chosen(Ranked(rows, safe), needed);
            Sum(selected) == Covered(rows, Keys(selected)) && Keys(selected) <= safe && |Keys(selected)| == |selected|
  {
    var cs := Ranked(rows, safe);
    ChosenMeaning(cs, needed);
    RankedIsFaithful(rows, safe);
    var n := |Chosen(cs, needed)|;
    assert Chosen(cs, needed) == cs[..n];
    FaithfulPrefix(rows, cs, n);
    SumIsCovered(rows, cs[..n]);
    assert forall c | c in cs[..n] :: c in cs;
  }

  /** All candidates together cover what all safe modules cover. */
  lemma {:induction false} BestOfAll(rows: seq<Row>, safe: set<Module>, modules: set<Module>)
    requires modules <= safe
    ensures Covered(rows, modules) <= Sum(Ranked(rows, safe))
  {
    var cs := Ranked(rows, safe);
    RankedIsFaithful(rows, safe);
    SumIsCovered(rows, cs);
    if modules <= Keys(cs) {
      CoveredMonotone(rows, modules, Keys(cs));
    } else {
      var m :| m in modules && m !in Keys(cs);
      var rest := modules - {m};
      assert modules == rest + {m};
      CoveredAdds(rows, rest, m);
      BestOfAll(rows, safe, rest);
    }
  }

  /** The plan meets the requested percentage exactly when confirming every safe module would. Otherwise
      it lists every useful module. */
  lemma TargetMetIff(rows: seq<Row>, safe: set<Module>, percent: real)
    requires rows != []
    ensures var plan := PlanOf(rows, safe, percent);
            (plan.projected >= Clamp(percent) <==> Base(rows) + Covered(rows, safe) >= plan.target)
            && (plan.projected < Clamp(percent) ==> plan.modules == Ranked(rows, safe) && plan.covered == Covered(rows, safe))
  {
    var plan := PlanOf(rows, safe, percent);
    PlanParts(rows, safe, percent);
    hide *;
    ChosenMeaning(Ranked(rows, safe), plan.needed);
    ChosenIsPrefix(rows, safe, plan.needed);
    CoveredMonotone(rows, Keys(plan.modules), safe);
    BestOfAll(rows, safe, safe);
  }

  lemma PlanParts(rows: seq<Row>, safe: set<Module>, percent: real)
    requires rows != []
    ensures var plan := PlanOf(rows, safe, percent);
            plan.modules == Chosen(Ranked(rows, safe), plan.needed) && plan.covered == Sum(plan.modules) && plan.base == Base(rows)
            && plan.needed >= 0 && plan.needed >= plan.target - plan.base && (plan.needed == 0 || plan.needed == plan.target - plan.base)
            && (plan.projected >= Clamp(percent) <==> plan.base + plan.covered >= plan.target)
  {
    hide Ranked, Chosen, Covered, Base, Sum;
    var plan := PlanOf(rows, safe, percent);
    PercentMeaning(plan.base + plan.covered, |rows|, percent);
  }

  lemma PercentMeaning(projected: nat, total: nat, percent: real)
    requires total > 0
    ensures 100.0 * projected as real / total as real >= Clamp(percent) <==> projected >= Target(total, percent)
  {
    CeilMeaning(projected, total as real * Clamp(percent) / 100.0);
    Ratio(100.0 * projected as real, total as real, Clamp(percent));
  }

  lemma Ratio(p: real, t: real, c: real)
    requires t > 0.0
    ensures p / t >= c <==> p >= t * c
    ensures p / t <= c <==> p <= t * c
  {
    var q := p / t;
    assert q * t == p;
    if q > c {
      assert q * t > c * t;
    } else if q < c {
      assert q * t < c * t;
    }
  }

  /** The projected number of operations never exceeds their total, and the target is not overshot by a
      whole module. */
  lemma ProjectionIsBounded(rows: seq<Row>, safe: set<Module>, percent: real)
    requires rows != []
    ensures var plan := PlanOf(rows, safe, percent);
            plan.base + plan.covered <= plan.total && plan.projected <= 100.0
            && (plan.modules != [] ==> plan.base + plan.covered < plan.target + plan.modules[|plan.modules| - 1].unknown)
  {
    var plan := PlanOf(rows, safe, percent);
    ChosenMeaning(Ranked(rows, safe), plan.needed);
    ChosenIsPrefix(rows, safe, plan.needed);
    NothingCountedTwice(rows, Keys(plan.modules));
    hide Ranked, Chosen, Covered, Base, Target, Sum, Keys, Max;
    AtMostAll(plan.base + plan.covered, plan.total);
    if plan.modules != [] {
      LastOfSum(Ranked(rows, safe), plan.modules);
    }
  }

  lemma LastOfSum(cs: seq<Candidate>, prefix: seq<Candidate>)
    requires prefix != [] && prefix <= cs
    ensures Sum(prefix) == Sum(cs[..|prefix| - 1]) + prefix[|prefix| - 1].unknown
  {
    var n := |prefix|;
    SumSnoc(prefix, n);
    assert prefix[..n] == prefix && prefix[..n - 1] == cs[..n - 1];
  }

  lemma AtMostAll(n: nat, total: nat)
    requires n <= total && total > 0
    ensures 100.0 * n as real / total as real <= 100.0
  {
    Ratio(100.0 * n as real, total as real, 100.0);
  }

  /** The order of the placement rows does not matter. */
  lemma PlanIgnoresRowOrder(rows: seq<Row>, other: seq<Row>, safe: set<Module>, percent: real)
    requires rows != [] && other != [] && multiset(rows) == multiset(other)
    ensures PlanOf(rows, safe, percent) == PlanOf(other, safe, percent)
  {
    SameMultisetSameLength(rows, other);
    CountsOfPermutation(rows, other);
    SameCandidates(rows, other, safe);
    hide CandidateSet, Chosen, Sum, Base, Target, Covered, Max;
  }

  lemma SameCandidates(rows: seq<Row>, other: seq<Row>, safe: set<Module>)
    requires multiset(rows) == multiset(other)
    ensures CandidateSet(rows, safe) == CandidateSet(other, safe)
  {
    hide Covered;
    SameElements(rows, other);
    CountsOfPermutation(rows, other);
  }

  lemma {:induction false} CountsOfPermutation(rows: seq<Row>, other: seq<Row>)
    requires multiset(rows) == multiset(other)
    ensures Base(rows) == Base(other)
    ensures forall modules :: Covered(rows, modules) == Covered(other, modules)
    decreases |rows|
  {
    SameMultisetSameLength(rows, other);
    if rows != [] {
      var last := rows[|rows| - 1];
      var i := WithoutLast(rows, other);
      CountsOfPermutation(rows[..|rows| - 1], other[..i] + other[i + 1..]);
      CountsWithout(other, i);
      CountsWithout(rows, |rows| - 1);
      assert rows[..|rows| - 1] + rows[|rows|..] == rows[..|rows| - 1];
      hide Covered, Base;
    }
  }

  lemma WithoutLast(rows: seq<Row>, other: seq<Row>) returns (i: nat)
    requires rows != [] && multiset(rows) == multiset(other)
    ensures i < |other| && other[i] == rows[|rows| - 1]
    ensures multiset(rows[..|rows| - 1]) == multiset(other[..i] + other[i + 1..])
  {
    var last := rows[|rows| - 1];
    assert rows == rows[..|rows| - 1] + [last];
    assert last in multiset(other);
    i :| 0 <= i < |other| && other[i] == last;
    assert other == other[..i] + [last] + other[i + 1..];
    assert multiset(other[..i] + other[i + 1..]) == multiset(other) - multiset{last};
    assert multiset(rows[..|rows| - 1]) == multiset(rows) - multiset{last};
  }

  lemma {:induction false} CountsWithout(rows: seq<Row>, i: nat)
    requires i < |rows|
    ensures var rest := rows[..i] + rows[i + 1..];
            Base(rows) == Base(rest) + (if Accepted(rows[i]) then 1 else 0)
            && forall modules :: Covered(rows, modules) == Covered(rest, modules) + if Unknown(rows[i]) && ModuleOf(rows[i]) in modules then 1 else 0
    decreases |rows|
  {
    var front, last := rows[..|rows| - 1], rows[|rows| - 1];
    var rest := rows[..i] + rows[i + 1..];
    if i == |rows| - 1 {
      assert rest == front;
    } else {
      CountsWithout(front, i);
      hide Accepted, Unknown, ModuleOf;
      var less := front[..i] + front[i + 1..];
      assert rest == less + [last] && rest[..|rest| - 1] == less;
      assert front[i] == rows[i];
      forall modules
        ensures Covered(rows, modules) == Covered(rest, modules) + if Unknown(rows[i]) && ModuleOf(rows[i]) in modules then 1 else 0
      {
        assert Covered(front, modules) == Covered(less, modules) + if Unknown(rows[i]) && ModuleOf(rows[i]) in modules then 1 else 0;
      }
    }
  }
}
