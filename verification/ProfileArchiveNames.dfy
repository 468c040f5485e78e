/** The profile archive under the repository's own naming scheme: its conditions in terms of the planned
    identities, and the inputs at which it does not do what is expected of it. */
module ProfileArchiveNames {
  import opened Order
  import opened Text
  import opened ParameterIdentity
  import opened PreferredNames
  import opened ProfileArchive
  import opened ProfileArchiveRuns
  import opened Wrappers

  // ------------------------------------------------------------------ names of created rows

  /** A created row is named by an alias of its identity. */
  lemma CreatedFromAlias(names: Naming, inputs: Inputs, store: Store, plan: Plan, j: nat)
    requires Planned(names, inputs, store, plan) && j < |plan.operations| && plan.operations[j].action.Create?
    ensures exists p, h :: names.identity(p, h) == plan.operations[j].identity && names.alias(p, h) == plan.operations[j].parameter
  {
    hide Carriers, Groups, PlanFor;
    var op := plan.operations[j];
    OperationAt(names, inputs, store, plan, j);
    OperationShape(names, inputs, store, plan, j);
    var g := Groups(names, inputs.occurrences)[op.identity];
    var at := Lookup(names, inputs.scope, store, op.identity);
    DraftAction(names, inputs, op.identity, g, at, RowAt(store, at));
    hide Drafted;
    PreferredNameMeaning(names.IdOf, op.identity, g.aliases);
    assert op.parameter == PreferredName(names.IdOf, op.identity, g.aliases);
  }

  /** What an alias stands for is what its occurrence's identity stands for; it is that identity itself
      exactly when the identity has no outer underscore. */
  lemma AliasStandsFor(table: AliasTable, p: string, h: string)
    requires WellFormed(table)
    ensures var (alias, identity) := (OccurrenceAlias(p, h), Identity(table, p, h));
            IdentityOf(table, alias) == IdentityOf(table, identity)
            && (IdentityOf(table, alias) == identity <==> Trimmed(identity, Underscore))
  {
    hide Identity, IdentityOf, OccurrenceAlias, Canonical, NormalizedLeaf;
    var alias := OccurrenceAlias(p, h);
    IdentityFromAlias(table, p, h);
    AliasCarriesIdentityIff(table, p, h);
    IdentityIdempotent(table, alias);
    if IdentityOf(table, alias) != Canonical(table, alias) {
      StrayName(table, alias);
    }
  }

  /** Planned under the repository's naming scheme with a well-formed alias table; the laws of naming hold
      there, so they need not be asked for. */
  ghost predicate PlannedByTable(table: AliasTable, inputs: Inputs, store: Store, plan: Plan) {
    && WellFormed(table) && 1 <= inputs.limits.maxValues
    && store.Valid()
    && PlanFor(StandardNaming(table), inputs, store) == Ok(plan)
  }

  lemma PlannedByTableIsPlanned(table: AliasTable, inputs: Inputs, store: Store, plan: Plan)
    ensures PlannedByTable(table, inputs, store, plan) <==> WellFormed(table) && Planned(StandardNaming(table), inputs, store, plan)
  {
    hide StandardNaming, Naming.Lawful, WellFormed, PlanFor;
    if WellFormed(table) {
      StandardNamingLawful(table);
    }
  }

  /** Under a well-formed alias table, a created row carries its identity exactly when that identity has no
      outer underscore; in every case its name stands for what the identity itself stands for. */
  lemma CreatedRowCarriesIff(table: AliasTable, inputs: Inputs, store: Store, plan: Plan, j: nat)
    requires PlannedByTable(table, inputs, store, plan)
    requires j < |plan.operations| && plan.operations[j].action.Create?
    ensures var op := plan.operations[j];
            (Carries(StandardNaming(table), op) <==> Trimmed(op.identity, Underscore))
            && StandardNaming(table).IdOf(op.parameter) == IdentityOf(table, op.identity)
  {
    hide PlannedByTable, WellFormed, Identity, OccurrenceAlias, Trimmed;
    var p, h := AliasOfTable(table, inputs, store, plan, j);
    AliasStandsFor(table, p, h);
  }

  lemma AliasOfTable(table: AliasTable, inputs: Inputs, store: Store, plan: Plan, j: nat) returns (p: string, h: string)
    requires PlannedByTable(table, inputs, store, plan) && j < |plan.operations| && plan.operations[j].action.Create?
    ensures WellFormed(table)
    ensures Identity(table, p, h) == plan.operations[j].identity && OccurrenceAlias(p, h) == plan.operations[j].parameter
  {
    hide PlannedByTable, Planned, WellFormed, Identity, OccurrenceAlias;
    PlannedByTableIsPlanned(table, inputs, store, plan);
    var names := StandardNaming(table);
    CreatedFromAlias(names, inputs, store, plan, j);
    p, h :| names.identity(p, h) == plan.operations[j].identity && names.alias(p, h) == plan.operations[j].parameter;
  }

  /** No identity the first `k` operations create begins or ends with an underscore. */
  ghost predicate PlainIdentities(plan: Plan, k: nat)
    requires k <= |plan.operations|
  {
    forall j | 0 <= j < k && plan.operations[j].action.Create? :: Trimmed(plan.operations[j].identity, Underscore)
  }

  lemma NamesAgreeIff(table: AliasTable, inputs: Inputs, store: Store, plan: Plan, k: nat)
    requires PlannedByTable(table, inputs, store, plan) && k <= |plan.operations|
    ensures NamesAgree(StandardNaming(table), plan, k) <==> PlainIdentities(plan, k)
  {
    hide PlanFor, Carries, Trimmed;
    forall j | 0 <= j < k && plan.operations[j].action.Create?
      ensures Carries(StandardNaming(table), plan.operations[j]) <==> Trimmed(plan.operations[j].identity, Underscore)
    {
      CreatedRowCarriesIff(table, inputs, store, plan, j);
    }
  }

  /** The plan conflicts with itself at `c` exactly when an earlier created identity, read as a name,
      stands for the identity created there. */
  lemma ConflictsIff(table: AliasTable, inputs: Inputs, store: Store, plan: Plan, c: nat)
    requires PlannedByTable(table, inputs, store, plan) && c < |plan.operations|
    ensures Conflicts(StandardNaming(table), plan, c)
            <==> plan.operations[c].action.Create?
                 && exists j | 0 <= j < c && plan.operations[j].action.Create? ::
                      IdentityOf(table, plan.operations[j].identity) == plan.operations[c].identity
  {
    hide PlanFor, IdentityOf, Identity, Naming.IdOf;
    forall j | 0 <= j < c && plan.operations[j].action.Create?
      ensures StandardNaming(table).IdOf(plan.operations[j].parameter) == IdentityOf(table, plan.operations[j].identity)
    {
      CreatedRowCarriesIff(table, inputs, store, plan, j);
    }
  }

  // ------------------------------------------------------------------ the main results, for the repository's names

  /** A second plan after a full application is all `unchanged` exactly when no created identity has an
      outer underscore and the rows fit the budget. */
  lemma StandardFixpoint(table: AliasTable, inputs: Inputs, store: Store, plan: Plan)
    requires PlannedByTable(table, inputs, store, plan)
    requires Run(StandardNaming(table), plan, |plan.operations|, store).failed.None?
    ensures var (names, n) := (StandardNaming(table), |plan.operations|);
            var again := PlanFor(names, inputs, Run(names, plan, n, store).store);
            (again.Ok? && AllUnchanged(again.value))
            <==> PlainIdentities(plan, n) && |ScopedIds(inputs.scope, store)| + Creates(plan, n) <= inputs.limits.maxExisting
  {
    hide StandardNaming, PlannedByTable, Planned, PlanFor, Run, AllUnchanged, PlainIdentities, NamesAgree, Creates, ScopedIds;
    PlannedByTableIsPlanned(table, inputs, store, plan);
    NamesAgreeIff(table, inputs, store, plan, |plan.operations|);
    PlanApplyFixpoint(StandardNaming(table), inputs, store, plan);
  }

  /** An interrupted application converges exactly when no identity created so far has an outer underscore
      and the rows fit the budget. */
  lemma StandardCrashConvergence(table: AliasTable, inputs: Inputs, store: Store, plan: Plan, k: nat)
    requires PlannedByTable(table, inputs, store, plan) && k <= |plan.operations|
    requires Run(StandardNaming(table), plan, |plan.operations|, store).failed.None?
    ensures Converges(StandardNaming(table), inputs, store, plan, k)
            <==> PlainIdentities(plan, k) && |ScopedIds(inputs.scope, store)| + Creates(plan, k) <= inputs.limits.maxExisting
  {
    hide StandardNaming, PlannedByTable, Planned, PlanFor, Run, Converges, PlainIdentities, NamesAgree, Creates, ScopedIds;
    PlannedByTableIsPlanned(table, inputs, store, plan);
    NamesAgreeIff(table, inputs, store, plan, k);
    CrashConvergence(StandardNaming(table), inputs, store, plan, k);
  }

  // ------------------------------------------------------------------ plans of two creations

  const EMPTY := Store(map[], 0)

  const PLACE := Scope("project", "env", "account", "revision")

  /** A request parameter seen once, with one value. */
  function Seen(parameter: string): Occurrence {
    Occurrence(parameter, "", true, 1, [Str("value")])
  }

  function TwoSeen(first: string, second: string, budget: nat): Inputs {
    Inputs(PLACE, Limits(budget, 1), [Seen(first), Seen(second)], map[], "watermark", true)
  }

  lemma TwoGroups(names: Naming, first: string, second: string)
    requires names.identity(first, "") != names.identity(second, "")
    requires names.identity(first, "") != "" && names.identity(second, "") != ""
    requires names.alias(first, "") != "" && names.alias(second, "") != ""
    ensures var groups := Groups(names, [Seen(first), Seen(second)]);
            groups.Keys == {names.identity(first, ""), names.identity(second, "")}
            && groups[names.identity(first, "")].aliases == [names.alias(first, "")]
            && groups[names.identity(second, "")].aliases == [names.alias(second, "")]
  {
    var both := [Seen(first), Seen(second)];
    assert both[..1] == [Seen(first)] && [Seen(first)][..0] == [];
    assert Groups(names, []) == map[];
    assert Groups(names, [Seen(first)]).Keys == {names.identity(first, "")};
  }

  lemma SortedPair(a: string, b: string)
    requires a != b && StrLe(a, b)
    ensures SortedStrings({a, b}) == [a, b]
  {
    StrLeOrder();
    SortedSetUnique({a, b}, [a, b], StrLe);
  }

  lemma CreatesUnder(names: Naming, inputs: Inputs, identity: string, g: Group, alias: string)
    requires g.aliases == [alias]
    ensures var op := OperationFor(names, inputs, identity, g, EMPTY);
            op.identity == identity && op.action.Create? && op.parameter == alias
  {
    hide Drafted, PreferredName, Naming.IdOf;
    assert Lookup(names, inputs.scope, EMPTY, identity) == None;
    hide Lookup, Carriers;
    DraftAction(names, inputs, identity, g, None, RowAt(EMPTY, None));
    PreferredNameMeaning(names.IdOf, identity, g.aliases);
    assert PreferredName(names.IdOf, identity, g.aliases) in g.aliases;
  }

  /** Two parameters of different identities, seen for the first time, are planned as two creations. */
  lemma TwoCreations(names: Naming, first: string, second: string, budget: nat) returns (plan: Plan)
    requires names.Lawful()
    requires names.identity(first, "") != names.identity(second, "") && StrLe(names.identity(first, ""), names.identity(second, ""))
    requires names.alias(first, "") != "" && names.alias(second, "") != ""
    ensures Planned(names, TwoSeen(first, second, budget), EMPTY, plan) && plan.blockers == []
    ensures |plan.operations| == 2 && |ScopedIds(PLACE, EMPTY)| == 0
    ensures plan.operations[0].action.Create? && plan.operations[1].action.Create?
    ensures plan.operations[0].identity == names.identity(first, "") && plan.operations[0].parameter == names.alias(first, "")
    ensures plan.operations[1].identity == names.identity(second, "") && plan.operations[1].parameter == names.alias(second, "")
  {
    hide Groups, OperationFor, StrLe, PlanFor, Operations;
    var inputs := TwoSeen(first, second, budget);
    assert names.identity(first, "") != "" && names.identity(second, "") != "";
    TwoGroups(names, first, second);
    SortedPair(names.identity(first, ""), names.identity(second, ""));
    var groups := Groups(names, inputs.occurrences);
    CreatesUnder(names, inputs, names.identity(first, ""), groups[names.identity(first, "")], names.alias(first, ""));
    CreatesUnder(names, inputs, names.identity(second, ""), groups[names.identity(second, "")], names.alias(second, ""));
    assert Identities(groups) == [names.identity(first, ""), names.identity(second, "")];
    OperationsOfTwo(names, inputs, names.identity(first, ""), names.identity(second, ""));
    PlanOfEmpty(names, inputs);
    plan := PlanFor(names, inputs, EMPTY).value;
  }

  lemma OperationsOfTwo(names: Naming, inputs: Inputs, a: string, b: string)
    requires Identities(Groups(names, inputs.occurrences)) == [a, b]
    requires a in Groups(names, inputs.occurrences) && b in Groups(names, inputs.occurrences)
    ensures var groups := Groups(names, inputs.occurrences);
            Operations(names, inputs, EMPTY) == [OperationFor(names, inputs, a, groups[a], EMPTY), OperationFor(names, inputs, b, groups[b], EMPTY)]
  {
    hide Groups, OperationFor;
  }

  lemma PlanOfEmpty(names: Naming, inputs: Inputs)
    ensures ScopedIds(inputs.scope, EMPTY) == {}
    ensures var ops := Operations(names, inputs, EMPTY);
            PlanFor(names, inputs, EMPTY)
            == Ok(Plan(inputs.scope, inputs.limits, inputs.watermark, ops, Blockers(inputs.anySample, ops != [])))
  {
    hide Operations;
    assert ScopedIds(inputs.scope, EMPTY) == {};
  }

  lemma TwoCounted(plan: Plan)
    requires |plan.operations| == 2 && plan.operations[0].action.Create? && plan.operations[1].action.Create?
    ensures Creates(plan, 0) == 0 && Creates(plan, 1) == 1 && Creates(plan, 2) == 2
  {
  }

  // ------------------------------------------------------------------ the failing inputs

  /** How the parameters `a`, `$_a`, `a_$` and `b` are read, if the alias table leaves `a` and `b` alone. */
  lemma Readings(table: AliasTable)
    requires WellFormed(table) && "a" !in table && "b" !in table
    ensures OccurrenceAlias("a", "") == "a" && Identity(table, "a", "") == "a"
    ensures OccurrenceAlias("b", "") == "b" && Identity(table, "b", "") == "b"
    ensures OccurrenceAlias("$_a", "") == "_a" && Identity(table, "$_a", "") == "_a" && IdentityOf(table, "_a") == "a"
    ensures OccurrenceAlias("a_$", "") == "a_" && Identity(table, "a_$", "") == "a_" && IdentityOf(table, "a_") == "a"
  {
    hide *;
    Letters();
    PlainReading(table, "a");
    PlainReading(table, "b");
    DollarLeaf("_a");
    LeafDollar("a_");
    assert ['$'] + "_a" == "$_a" && "a_" + ['$'] == "a_$";
    StrayReading(table, "$_a", "_a", "a");
    StrayReading(table, "a_$", "a_", "a");
  }

  lemma Letters()
    ensures Clean("a") && Clean("b") && Clean("_a") && Clean("a_")
    ensures Trimmed("a", Underscore) && Trimmed("b", Underscore) && !Trimmed("_a", Underscore) && !Trimmed("a_", Underscore)
    ensures StripBy("_a", Underscore) == "a" && StripBy("a_", Underscore) == "a"
  {
    LettersStripped();
    hide StripBy;
  }

  lemma LettersStripped()
    ensures StripBy("_a", Underscore) == "a" && StripBy("a_", Underscore) == "a"
  {
    hide StripLeft, StripRight;
    var l, r := StripLeft("_a", Underscore), StripLeft("a_", Underscore);
    assert l == "a" by {
      assert "_a"[0] == '_' && "_a"[1] == 'a';
    }
    assert r == "a_" by {
      assert "a_"[0] == 'a';
    }
    assert StripRight(l, Underscore) == "a";
    assert StripRight(r, Underscore) == "a" by {
      assert "a_"[0] == 'a' && "a_"[1] == '_';
    }
  }

  lemma PlainReading(table: AliasTable, leaf: string)
    requires WellFormed(table) && Clean(leaf) && leaf != "" && Trimmed(leaf, Underscore) && leaf !in table
    ensures OccurrenceAlias(leaf, "") == leaf && Identity(table, leaf, "") == leaf
  {
    NormalizedLeafOfClean(leaf);
    StripByFixed(leaf, Underscore);
    hide RawLeaf, Squeeze, NormalizedLeaf, Canonical, Identity, StripBy, Trimmed;
    IdentityFromAlias(table, leaf, "");
    CanonicalOfClean(table, leaf);
  }

  lemma StrayReading(table: AliasTable, parameter: string, leaf: string, core: string)
    requires WellFormed(table) && Clean(leaf) && leaf != "" && !Trimmed(leaf, Underscore) && core !in table
    requires NormalizedLeaf(parameter) == leaf && StripBy(leaf, Underscore) == core && core != ""
    ensures OccurrenceAlias(parameter, "") == leaf && Identity(table, parameter, "") == leaf && IdentityOf(table, leaf) == core
  {
    assert leaf !in table;
    hide RawLeaf, Squeeze, NormalizedLeaf, Canonical, Identity, IdentityOf, StripBy, Trimmed;
    IdentityFromAlias(table, parameter, "");
    CanonicalOfClean(table, leaf);
    IdentityOfClean(table, leaf);
    CanonicalOfClean(table, core);
  }

  /** An empty archive, and samples with the parameters `$_a` and `a`. The plan creates `_a` first, under a
      name that stands for `a`; the check before the creation of `a` finds that row. The application fails
      although nobody interfered, with one row written. */
  lemma OwnRowIsAConflict(table: AliasTable, budget: nat) returns (plan: Plan)
    requires WellFormed(table) && "a" !in table && "b" !in table && budget >= 2
    ensures PlannedByTable(table, TwoSeen("$_a", "a", budget), EMPTY, plan) && plan.blockers == []
    ensures var o := Run(StandardNaming(table), plan, |plan.operations|, EMPTY);
            o.failed == Some(ArchiveChanged) && |o.store.rows| == 1
  {
    var names := StandardNaming(table);
    Readings(table);
    StandardNamingLawful(table);
    hide Identity, OccurrenceAlias, Run, PlanFor, WellFormed;
    assert StrLe("_a", "a") && "_a" != "a";
    plan := TwoCreations(names, "$_a", "a", budget);
    PlannedByTableIsPlanned(table, TwoSeen("$_a", "a", budget), EMPTY, plan);
    TwoCounted(plan);
    var inputs := TwoSeen("$_a", "a", budget);
    assert names.IdOf(plan.operations[0].parameter) == "a";
    assert Conflicts(names, plan, 1) && NoConflict(names, plan, 1);
    assert StopsOnConflict(names, plan, 1, 0, budget);
    ApplyOutcome(names, inputs, EMPTY, plan, 2);
    ApplyOutcome(names, inputs, EMPTY, plan, 1);
    OneWritten(names, inputs, plan);
  }

  lemma OneWritten(names: Naming, inputs: Inputs, plan: Plan)
    requires Planned(names, inputs, EMPTY, plan) && |plan.operations| == 2 && plan.operations[0].action.Create?
    requires Run(names, plan, 1, EMPTY).failed.None? && Run(names, plan, 2, EMPTY).failed.Some?
    ensures |Run(names, plan, 2, EMPTY).store.rows| == 1
  {
    hide PlanFor, Guard;
    var first := Run(names, plan, 1, EMPTY);
    assert Run(names, plan, 0, EMPTY) == Outcome(EMPTY, 0, None);
    assert first.store.rows == map[0 := RowFor(plan, plan.operations[0])];
    assert Run(names, plan, 2, EMPTY).store == first.store;
  }

  /** An empty archive, and samples with the parameters `a` and `a_$`. The application succeeds and leaves two
      rows whose names stand for `a`. Every later plan is refused for a duplicate identity: the
      application does not reach a fixpoint, and interrupting it after its last write does not converge. */
  lemma OwnRowsAreDuplicates(table: AliasTable, budget: nat) returns (plan: Plan)
    requires WellFormed(table) && "a" !in table && "b" !in table && budget >= 2
    ensures PlannedByTable(table, TwoSeen("a", "a_$", budget), EMPTY, plan) && plan.blockers == []
    ensures var names := StandardNaming(table);
            var o := Run(names, plan, |plan.operations|, EMPTY);
            o.failed == None && !NamesAgree(names, plan, |plan.operations|)
            && PlanFor(names, TwoSeen("a", "a_$", budget), o.store) == Err(DuplicateIdentity)
            && !Converges(names, TwoSeen("a", "a_$", budget), EMPTY, plan, |plan.operations|)
  {
    var names := StandardNaming(table);
    Readings(table);
    StandardNamingLawful(table);
    hide Identity, OccurrenceAlias, Run, PlanFor, WellFormed, Converges;
    assert StrLe("a", "a_") && "a" != "a_";
    plan := TwoCreations(names, "a", "a_$", budget);
    PlannedByTableIsPlanned(table, TwoSeen("a", "a_$", budget), EMPTY, plan);
    assert names.IdOf(plan.operations[0].parameter) == "a" && names.IdOf(plan.operations[1].parameter) == "a";
    TwoOfOneIdentity(names, TwoSeen("a", "a_$", budget), plan);
  }

  lemma TwoOfOneIdentity(names: Naming, inputs: Inputs, plan: Plan)
    requires Planned(names, inputs, EMPTY, plan) && |plan.operations| == 2 && inputs.limits.maxExisting >= 2
    requires plan.operations[0].action.Create? && plan.operations[1].action.Create?
    requires Carries(names, plan.operations[0]) && plan.operations[0].identity != ""
    requires names.IdOf(plan.operations[1].parameter) == plan.operations[0].identity != plan.operations[1].identity
    ensures var o := Run(names, plan, 2, EMPTY);
            o.failed == None && !NamesAgree(names, plan, 2) && PlanFor(names, inputs, o.store) == Err(DuplicateIdentity)
            && !Converges(names, inputs, EMPTY, plan, 2)
  {
    hide Run, PlanFor, Naming.IdOf, Operations, ScopedIds;
    TwoCounted(plan);
    PlanOfEmpty(names, inputs);
    assert !Conflicts(names, plan, 0) && !Conflicts(names, plan, 1);
    assert NoConflict(names, plan, 2);
    ApplyOutcome(names, inputs, EMPTY, plan, 2);
    RunWritesExactlyThePlan(names, inputs, EMPTY, plan, 2);
    assert ClashAt(names, inputs.scope, EMPTY, plan, 2, 1);
    assert Clash(names, inputs.scope, EMPTY, plan, 2);
    assert !Carries(names, plan.operations[1]);
    hide Creates, AppliedUpTo, Clash, ClashAt, Conflicts;
    ReplanOutcome(names, inputs, EMPTY, plan, 2, Run(names, plan, 2, EMPTY).store);
  }

  /** An empty archive with room for one row, and samples with the parameters `a` and `b`. Each creation finds
      the rows before it within the budget, so both succeed; every later plan is refused on the budget. */
  lemma LastCreationExceedsTheBudget(table: AliasTable) returns (plan: Plan)
    requires WellFormed(table) && "a" !in table && "b" !in table
    ensures PlannedByTable(table, TwoSeen("a", "b", 1), EMPTY, plan) && plan.blockers == []
    ensures var names := StandardNaming(table);
            var o := Run(names, plan, |plan.operations|, EMPTY);
            o.failed == None && NamesAgree(names, plan, |plan.operations|)
            && PlanFor(names, TwoSeen("a", "b", 1), o.store) == Err(BudgetExceeded)
            && !Converges(names, TwoSeen("a", "b", 1), EMPTY, plan, |plan.operations|)
  {
    var names := StandardNaming(table);
    Readings(table);
    StandardNamingLawful(table);
    hide Identity, OccurrenceAlias, Run, PlanFor, WellFormed, Converges;
    assert StrLe("a", "b") && "a" != "b";
    plan := TwoCreations(names, "a", "b", 1);
    PlannedByTableIsPlanned(table, TwoSeen("a", "b", 1), EMPTY, plan);
    assert names.IdOf(plan.operations[0].parameter) == "a" && names.IdOf(plan.operations[1].parameter) == "b";
    TwoForOnePlace(names, TwoSeen("a", "b", 1), plan);
  }

  lemma TwoForOnePlace(names: Naming, inputs: Inputs, plan: Plan)
    requires Planned(names, inputs, EMPTY, plan) && |plan.operations| == 2 && inputs.limits.maxExisting == 1
    requires plan.operations[0].action.Create? && plan.operations[1].action.Create?
    requires Carries(names, plan.operations[0]) && Carries(names, plan.operations[1])
    requires plan.operations[0].identity != plan.operations[1].identity
    ensures var o := Run(names, plan, 2, EMPTY);
            o.failed == None && NamesAgree(names, plan, 2) && PlanFor(names, inputs, o.store) == Err(BudgetExceeded)
            && !Converges(names, inputs, EMPTY, plan, 2)
  {
    hide Run, PlanFor, Naming.IdOf, Operations, ScopedIds;
    TwoCounted(plan);
    PlanOfEmpty(names, inputs);
    assert !Conflicts(names, plan, 0) && !Conflicts(names, plan, 1);
    assert NoConflict(names, plan, 2);
    ApplyOutcome(names, inputs, EMPTY, plan, 2);
    RunWritesExactlyThePlan(names, inputs, EMPTY, plan, 2);
    hide Creates, AppliedUpTo, Clash, ClashAt, Conflicts;
    ReplanOutcome(names, inputs, EMPTY, plan, 2, Run(names, plan, 2, EMPTY).store);
  }
}
