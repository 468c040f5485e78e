/** Whole runs of the profile archive: applying a plan, being interrupted, planning again. */
module ProfileArchiveRuns {
  import opened Order
  import opened Distinct
  import opened PreferredNames
  import opened ProfileArchive
  import opened Wrappers

  // ------------------------------------------------------------- one operation, once applied

  ghost function IntSet(s: seq<int>): set<int> { set x | x in s }

  lemma SortedIntsFacts(s: set<int>)
    ensures Sort(SortedInts(s), IntLe) == SortedInts(s)
    ensures IntSet(SortedInts(s)) == s
    ensures PathIds(AsEntries(SortedInts(s))) == s
  {
    IntLeOrder();
    SortedSetSorted(s, IntLe);
    SortOfSorted(SortedInts(s), IntLe);
    PathIdsOfEntries(SortedInts(s));
  }

  lemma PathIdsOfEntries(ids: seq<int>)
    ensures PathIds(AsEntries(ids)) == IntSet(ids)
  {
    var entries := AsEntries(ids);
    forall x | x in ids ensures x in PathIds(entries) {
      var i :| 0 <= i < |ids| && ids[i] == x;
      assert x in EntryIds(entries[i]);
    }
  }

  lemma SortedStringsFacts(s: set<string>)
    requires "" !in s
    ensures Sort(NonEmpty(SortedStrings(s)), StrLe) == SortedStrings(s)
    ensures (set x | x in SortedStrings(s) && x != "") == s
  {
    StrLeOrder();
    SortedSetSorted(s, StrLe);
    SortOfSorted(SortedStrings(s), StrLe);
  }

  /** What a drafted operation stores is what it planned, read back. */
  lemma StoredStateIsPlannedState(names: Naming, inputs: Inputs, identity: string, g: Group, at: Option<nat>,
                                  existing: Row, plan: Plan, action: Action)
    requires plan.scope == inputs.scope && plan.watermark == inputs.watermark
    ensures var op := Drafted(names, inputs, identity, g, at, existing).(action := action);
            ArchiveState(RowFor(plan, op)) == OperationState(inputs.scope, inputs.watermark, op)
  {
    hide Sort, SortedSet, SortedInts, SortedStrings, NonEmpty, FirstDistinct, PathIds;
    SortedIntsFacts(MetadataIds(inputs, identity) + set x | x in existing.parameterids);
    SortedIntsFacts(PathIds(existing.reqPathids) + g.reqPathids);
    SortedIntsFacts(PathIds(existing.resPathids) + g.resPathids);
    SortedStringsFacts((set x | x in existing.properties && x != "") + {SOURCE_KIND});
  }

  /** Drafting again over the stored row reproduces every merged field. */
  lemma DraftIsStable(names: Naming, inputs: Inputs, identity: string, g: Group, at: Option<nat>,
                      existing: Row, plan: Plan, again: nat)
    requires plan.scope == inputs.scope && plan.watermark == inputs.watermark
    requires DisplayName(names, identity, g, existing) != ""
    ensures var op := Drafted(names, inputs, identity, g, at, existing);
            var row := RowFor(plan, op);
            Drafted(names, inputs, identity, g, Some(again), row)
            == op.(existingId := Some(again), before := Some(ArchiveState(row)))
  {
    hide ArchiveState, Sort, SortedSet, SortedInts, SortedStrings, FirstDistinct, PathIds;
    var ids := MetadataIds(inputs, identity) + set x | x in existing.parameterids;
    var req := PathIds(existing.reqPathids) + g.reqPathids;
    var res := PathIds(existing.resPathids) + g.resPathids;
    var props := (set x | x in existing.properties && x != "") + {SOURCE_KIND};
    SortedIntsFacts(ids);
    SortedIntsFacts(req);
    SortedIntsFacts(res);
    SortedStringsFacts(props);
    assert MetadataIds(inputs, identity) + (set x | x in SortedInts(ids)) == ids;
    assert PathIds(AsEntries(SortedInts(req))) + g.reqPathids == req;
    assert PathIds(AsEntries(SortedInts(res))) + g.resPathids == res;
    assert (set x | x in SortedStrings(props) && x != "") + {SOURCE_KIND} == props;
    MergeIdempotent(existing.reqValues, g.reqValues, ValueKey, inputs.limits.maxValues);
    MergeIdempotent(existing.resValues, g.resValues, ValueKey, inputs.limits.maxValues);
  }

  /** An operation that has been applied is planned as `unchanged` the next time. */
  lemma AppliedOperationSettles(names: Naming, inputs: Inputs, identity: string, g: Group, at: Option<nat>,
                                existing: Row, plan: Plan, again: nat)
    requires plan.scope == inputs.scope && plan.watermark == inputs.watermark
    requires DisplayName(names, identity, g, existing) != ""
    ensures var op := Decide(inputs, Drafted(names, inputs, identity, g, at, existing));
            var row := RowFor(plan, op);
            Decide(inputs, Drafted(names, inputs, identity, g, Some(again), row))
            == op.(existingId := Some(again), before := Some(ArchiveState(row)), action := Unchanged)
  {
    hide ArchiveState, Drafted;
    var draft := Drafted(names, inputs, identity, g, at, existing);
    var op := Decide(inputs, draft);
    assert op == draft.(action := op.action);
    assert RowFor(plan, op) == RowFor(plan, draft);
    DraftIsStable(names, inputs, identity, g, at, existing, plan, again);
    DraftAction(names, inputs, identity, g, at, existing);
    StoredStateIsPlannedState(names, inputs, identity, g, at, existing, plan, Create);
  }

  lemma DraftAction(names: Naming, inputs: Inputs, identity: string, g: Group, at: Option<nat>, existing: Row)
    ensures Drafted(names, inputs, identity, g, at, existing).action == Create
    ensures Drafted(names, inputs, identity, g, at, existing).identity == identity
    ensures Drafted(names, inputs, identity, g, at, existing).existingId == at
    ensures Drafted(names, inputs, identity, g, at, existing).before
            == if at.Some? then Some(ArchiveState(existing)) else None
    ensures Drafted(names, inputs, identity, g, at, existing).parameter == DisplayName(names, identity, g, existing)
  {
  }

  // ------------------------------------------------------------- the plan of a store

  /** `plan` is what planning returns for this archive. */
  ghost predicate Planned(names: Naming, inputs: Inputs, store: Store, plan: Plan) {
    && names.Lawful() && 1 <= inputs.limits.maxValues
    && store.Valid()
    && PlanFor(names, inputs, store) == Ok(plan)
  }

  ghost predicate Active(plan: Plan, j: nat) {
    j < |plan.operations| && !plan.operations[j].action.Unchanged?
  }

  /** Every row the first `k` operations create carries the identity it was created for. */
  ghost predicate NamesAgree(names: Naming, plan: Plan, k: nat)
    requires k <= |plan.operations|
  {
    forall j | 0 <= j < k && plan.operations[j].action.Create? :: Carries(names, plan.operations[j])
  }

  ghost predicate Carries(names: Naming, op: Operation) {
    names.IdOf(op.parameter) == op.identity
  }

  ghost function Creates(plan: Plan, k: nat): nat
    requires k <= |plan.operations|
  {
    if k == 0 then 0 else Creates(plan, k - 1) + if plan.operations[k - 1].action.Create? then 1 else 0
  }

  /** What planning settles about the operation at a position. */
  lemma OperationAt(names: Naming, inputs: Inputs, store: Store, plan: Plan, j: nat)
    requires Planned(names, inputs, store, plan) && j < |plan.operations|
    ensures var op := plan.operations[j];
            var groups := Groups(names, inputs.occurrences);
            && op.identity in groups && NamedBy(names, op.identity, groups[op.identity])
            && op == OperationFor(names, inputs, op.identity, groups[op.identity], store)
  {
    hide OperationFor, Lookup;
    GroupsAreNamed(names, inputs.occurrences);
    var groups := Groups(names, inputs.occurrences);
    var ids := Identities(groups);
    assert ids[j] in ids;
    OperationIdentity(names, inputs, ids[j], groups[ids[j]], store);
  }

  lemma OperationIdentity(names: Naming, inputs: Inputs, identity: string, g: Group, store: Store)
    ensures OperationFor(names, inputs, identity, g, store).identity == identity
  {
    hide Drafted;
    var at := Lookup(names, inputs.scope, store, identity);
    DraftAction(names, inputs, identity, g, at, RowAt(store, at));
  }

  lemma IdentitiesDiffer(names: Naming, inputs: Inputs, store: Store, plan: Plan, i: nat, j: nat)
    requires Planned(names, inputs, store, plan) && i < j < |plan.operations|
    ensures plan.operations[i].identity != plan.operations[j].identity
  {
    hide OperationFor, Lookup;
    var groups := Groups(names, inputs.occurrences);
    var ids := Identities(groups);
    StrLeOrder();
    SortedSetSorted(groups.Keys, StrLe);
    OperationIdentity(names, inputs, ids[i], groups[ids[i]], store);
    OperationIdentity(names, inputs, ids[j], groups[ids[j]], store);
  }

  /** The name chosen for a row is never empty, and it obeys the naming law. */
  lemma ChosenName(names: Naming, identity: string, g: Group, existing: Row)
    requires names.Lawful() && NamedBy(names, identity, g)
    ensures DisplayName(names, identity, g, existing) != ""
    ensures existing.parameter == "" ==>
              var p := DisplayName(names, identity, g, existing);
              && names.IdOf(names.IdOf(p)) == names.IdOf(p)
              && (names.IdOf(p) != identity ==> names.IdOf(identity) != identity)
  {
    if existing.parameter == "" {
      PreferredNameMeaning(names.IdOf, identity, g.aliases);
      var p := PreferredName(names.IdOf, identity, g.aliases);
      assert p in g.aliases;
      var q, h :| names.identity(q, h) == identity && names.alias(q, h) == p;
    }
  }

  /** The shape of a planned operation, by its action. */
  lemma OperationShape(names: Naming, inputs: Inputs, store: Store, plan: Plan, j: nat)
    requires Planned(names, inputs, store, plan) && j < |plan.operations|
    ensures var op := plan.operations[j];
            && op.identity != ""
            && (op.action.Create? <==> Carriers(names, inputs.scope, store, op.identity) == {})
            && (op.action.Create? ==>
                  && op.existingId.None?
                  && names.IdOf(names.IdOf(op.parameter)) == names.IdOf(op.parameter)
                  && (names.IdOf(op.parameter) != op.identity ==> names.IdOf(op.identity) != op.identity))
            && (!op.action.Create? ==>
                  && op.existingId.Some? && op.existingId.value in store.rows
                  && Carriers(names, inputs.scope, store, op.identity) == {op.existingId.value}
                  && op.before == Some(ArchiveState(store.rows[op.existingId.value]))
                  && op.parameter == store.rows[op.existingId.value].parameter)
  {
    OperationAt(names, inputs, store, plan, j);
    var op := plan.operations[j];
    var g := Groups(names, inputs.occurrences)[op.identity];
    ShapeOf(names, inputs, op.identity, g, store);
  }

  lemma ShapeOf(names: Naming, inputs: Inputs, identity: string, g: Group, store: Store)
    requires names.Lawful() && NamedBy(names, identity, g) && NoDuplicates(names, inputs.scope, store)
    ensures var op := OperationFor(names, inputs, identity, g, store);
            && (op.action.Create? <==> Carriers(names, inputs.scope, store, identity) == {})
            && (op.action.Create? ==>
                  && op.existingId.None?
                  && names.IdOf(names.IdOf(op.parameter)) == names.IdOf(op.parameter)
                  && (names.IdOf(op.parameter) != identity ==> names.IdOf(identity) != identity))
            && (!op.action.Create? ==>
                  && op.existingId.Some? && op.existingId.value in store.rows
                  && Carriers(names, inputs.scope, store, identity) == {op.existingId.value}
                  && op.before == Some(ArchiveState(store.rows[op.existingId.value]))
                  && op.parameter == store.rows[op.existingId.value].parameter)
  {
    hide Drafted, ArchiveState, SameState;
    var at := Lookup(names, inputs.scope, store, identity);
    var existing := RowAt(store, at);
    DraftAction(names, inputs, identity, g, at, existing);
    ChosenName(names, identity, g, existing);
    if at.Some? {
      assert at.value in Carriers(names, inputs.scope, store, identity);
      SingleCarrier(names, inputs.scope, store, identity, at.value);
      assert existing.parameter != "";
    }
  }

  lemma SingleCarrier(names: Naming, scope: Scope, store: Store, identity: string, r: nat)
    requires NoDuplicates(names, scope, store) && identity != "" && r in Carriers(names, scope, store, identity)
    ensures Carriers(names, scope, store, identity) == {r}
  {
    forall i | i in Carriers(names, scope, store, identity) ensures i == r {
      assert i in ScopedIds(scope, store) && r in ScopedIds(scope, store);
    }
  }

  // ------------------------------------------------------------- one write

  lemma PutScoped(scope: Scope, store: Store, id: nat, row: Row, next: nat)
    requires InScope(scope, row)
    ensures ScopedIds(scope, Store(store.rows[id := row], next)) == ScopedIds(scope, store) + {id}
  {
  }

  ghost predicate WriteReady(names: Naming, plan: Plan, op: Operation, store: Store) {
    && store.Valid() && Guard(names, plan, op, store).None?
    && (op.action.Update? ==> op.existingId.Some? && op.existingId.value in ScopedIds(plan.scope, store)
                              && op.parameter == store.rows[op.existingId.value].parameter)
  }

  lemma WriteScoped(names: Naming, plan: Plan, op: Operation, store: Store)
    requires WriteReady(names, plan, op, store)
    ensures |ScopedIds(plan.scope, Write(plan, op, store))|
            == |ScopedIds(plan.scope, store)| + if op.action.Create? then 1 else 0
    ensures Write(plan, op, store).Valid()
  {
    hide Guard, ArchiveState;
    var row := RowFor(plan, op);
    match op.action {
      case Unchanged =>
      case Create =>
        PutScoped(plan.scope, store, store.next, row, store.next + 1);
      case Update =>
        PutScoped(plan.scope, store, op.existingId.value, row, store.next);
        assert ScopedIds(plan.scope, store) + {op.existingId.value} == ScopedIds(plan.scope, store);
    }
  }

  // ------------------------------------------------------------- the archive after k operations

  /** The row an active operation writes. */
  ghost function RowId(store: Store, plan: Plan, j: nat): nat
    requires j < |plan.operations|
  {
    var op := plan.operations[j];
    if op.action.Update? && op.existingId.Some? then op.existingId.value else store.next + Creates(plan, j)
  }

  ghost predicate WrittenBefore(store: Store, plan: Plan, k: nat, r: nat)
    requires k <= |plan.operations|
  {
    exists j | 0 <= j < k :: Active(plan, j) && RowId(store, plan, j) == r
  }

  /** `after` is `store` with exactly the planned rows of the first `k` operations written. */
  ghost predicate AppliedUpTo(store: Store, plan: Plan, k: nat, after: Store)
    requires k <= |plan.operations|
  {
    && after.Valid() && after.next == store.next + Creates(plan, k)
    && (forall j | 0 <= j < k && Active(plan, j) ::
          RowId(store, plan, j) in after.rows && after.rows[RowId(store, plan, j)] == RowFor(plan, plan.operations[j]))
    && (forall r | r in store.rows :: r in after.rows)
    && (forall r | r in after.rows && !WrittenBefore(store, plan, k, r) :: r in store.rows && after.rows[r] == store.rows[r])
    && |ScopedIds(plan.scope, after)| == |ScopedIds(plan.scope, store)| + Creates(plan, k)
  }

  lemma {:induction false} CreatesMonotone(plan: Plan, j: nat, k: nat)
    requires j <= k <= |plan.operations|
    ensures Creates(plan, j) <= Creates(plan, k)
    ensures j < k && plan.operations[j].action.Create? ==> Creates(plan, j) < Creates(plan, k)
  {
    if j < k {
      CreatesMonotone(plan, j, k - 1);
    }
  }

  lemma CreatesStep(plan: Plan, k: nat)
    requires k < |plan.operations|
    ensures Creates(plan, k + 1) == Creates(plan, k) + if plan.operations[k].action.Create? then 1 else 0
  {
  }

  lemma RowIdsDiffer(names: Naming, inputs: Inputs, store: Store, plan: Plan, i: nat, j: nat)
    requires Planned(names, inputs, store, plan) && i < j < |plan.operations|
    requires Active(plan, i) && Active(plan, j)
    ensures RowId(store, plan, i) != RowId(store, plan, j)
  {
    hide Carriers, ArchiveState, PlanFor;
    OperationShape(names, inputs, store, plan, i);
    OperationShape(names, inputs, store, plan, j);
    IdentitiesDiffer(names, inputs, store, plan, i, j);
    CreatesMonotone(plan, i, j);
    if plan.operations[i].action.Update? && plan.operations[j].action.Update? {
      CarrierHasIdentity(names, inputs.scope, store, plan.operations[i].identity, plan.operations[i].existingId.value);
      CarrierHasIdentity(names, inputs.scope, store, plan.operations[j].identity, plan.operations[j].existingId.value);
    }
  }

  lemma CarrierHasIdentity(names: Naming, scope: Scope, store: Store, identity: string, r: nat)
    requires r in Carriers(names, scope, store, identity)
    ensures r in ScopedIds(scope, store) && names.IdOf(store.rows[r].parameter) == identity
  {
  }

  lemma NotYetWritten(names: Naming, inputs: Inputs, store: Store, plan: Plan, k: nat)
    requires Planned(names, inputs, store, plan) && k < |plan.operations| && Active(plan, k)
    ensures !WrittenBefore(store, plan, k, RowId(store, plan, k))
  {
    forall j | 0 <= j < k && Active(plan, j) ensures RowId(store, plan, j) != RowId(store, plan, k) {
      RowIdsDiffer(names, inputs, store, plan, j, k);
    }
  }

  lemma NextUpdateIsReady(names: Naming, inputs: Inputs, store: Store, plan: Plan, k: nat, at: Store)
    requires Planned(names, inputs, store, plan) && k < |plan.operations| && AppliedUpTo(store, plan, k, at)
    requires plan.operations[k].action.Update?
    ensures Guard(names, plan, plan.operations[k], at).None?
    ensures WriteReady(names, plan, plan.operations[k], at)
  {
    hide ArchiveState, Creates, PlanFor;
    var op := plan.operations[k];
    OperationShape(names, inputs, store, plan, k);
    NotYetWritten(names, inputs, store, plan, k);
    var r := op.existingId.value;
    assert RowId(store, plan, k) == r;
    assert r in store.rows && r in at.rows && at.rows[r] == store.rows[r];
    assert r in Carriers(names, inputs.scope, store, op.identity);
    assert plan.scope == inputs.scope by { PlanKeepsInputs(names, inputs, store, plan); }
  }

  lemma PlanKeepsInputs(names: Naming, inputs: Inputs, store: Store, plan: Plan)
    requires Planned(names, inputs, store, plan)
    ensures plan.scope == inputs.scope && plan.limits == inputs.limits && plan.watermark == inputs.watermark
    ensures NoDuplicates(names, inputs.scope, store)
    ensures |ScopedIds(inputs.scope, store)| <= inputs.limits.maxExisting
    ensures plan.operations == Operations(names, inputs, store)
    ensures plan.blockers == Blockers(inputs.anySample, plan.operations != [])
  {
    hide Operations, NoDuplicates, ScopedIds;
  }

  lemma WrittenGrows(store: Store, plan: Plan, k: nat, r: nat)
    requires k < |plan.operations|
    ensures WrittenBefore(store, plan, k + 1, r)
            <==> WrittenBefore(store, plan, k, r) || (Active(plan, k) && RowId(store, plan, k) == r)
  {
    hide Active, RowId;
    if WrittenBefore(store, plan, k, r) {
      var j :| 0 <= j < k && Active(plan, j) && RowId(store, plan, j) == r;
      assert 0 <= j < k + 1;
    }
  }

  /** An active write lands on its own row and on no other. */
  lemma WriteHitsItsRow(names: Naming, inputs: Inputs, store: Store, plan: Plan, k: nat, at: Store)
    requires Planned(names, inputs, store, plan) && k < |plan.operations| && AppliedUpTo(store, plan, k, at)
    requires Active(plan, k)
    ensures var op := plan.operations[k];
            Write(plan, op, at) == Store(at.rows[RowId(store, plan, k) := RowFor(plan, op)],
                                         at.next + if op.action.Create? then 1 else 0)
  {
    hide RowFor, ArchiveState, PlanFor, ScopedIds, Carriers;
    OperationShape(names, inputs, store, plan, k);
  }

  lemma ApplyOneMore(names: Naming, inputs: Inputs, store: Store, plan: Plan, k: nat, at: Store)
    requires Planned(names, inputs, store, plan) && k < |plan.operations| && AppliedUpTo(store, plan, k, at)
    requires Guard(names, plan, plan.operations[k], at).None?
    ensures AppliedUpTo(store, plan, k + 1, Write(plan, plan.operations[k], at))
  {
    hide Planned, Guard, ScopedIds, RowFor, RowId, WrittenBefore, Creates;
    var op := plan.operations[k];
    var after := Write(plan, op, at);
    CreatesStep(plan, k);
    if op.action.Update? {
      NextUpdateIsReady(names, inputs, store, plan, k, at);
    }
    WriteScoped(names, plan, op, at);
    forall r ensures WrittenBefore(store, plan, k + 1, r)
                     <==> WrittenBefore(store, plan, k, r) || (Active(plan, k) && RowId(store, plan, k) == r)
    {
      WrittenGrows(store, plan, k, r);
    }
    if Active(plan, k) {
      WriteHitsItsRow(names, inputs, store, plan, k, at);
      hide Write;
      forall j | 0 <= j < k && Active(plan, j) ensures RowId(store, plan, j) != RowId(store, plan, k) {
        RowIdsDiffer(names, inputs, store, plan, j, k);
      }
      forall r | r in after.rows && !WrittenBefore(store, plan, k + 1, r) ensures r in store.rows && after.rows[r] == store.rows[r] {
        assert !WrittenBefore(store, plan, k, r);
        assert r != RowId(store, plan, k);
      }
    }
  }

  /** A run that has not failed wrote exactly the planned rows: nothing else in the collection moved. */
  lemma {:induction false} RunWritesExactlyThePlan(names: Naming, inputs: Inputs, store: Store, plan: Plan, k: nat)
    requires Planned(names, inputs, store, plan) && k <= |plan.operations|
    requires Run(names, plan, k, store).failed.None?
    ensures AppliedUpTo(store, plan, k, Run(names, plan, k, store).store)
  {
    hide Guard, Write, PlanFor, ScopedIds, RowFor, AppliedUpTo, Naming.Lawful;
    if k == 0 {
      NothingApplied(store, plan);
    } else {
      hide Planned;
      RunWritesExactlyThePlan(names, inputs, store, plan, k - 1);
      ApplyOneMore(names, inputs, store, plan, k - 1, Run(names, plan, k - 1, store).store);
    }
  }

  lemma NothingApplied(store: Store, plan: Plan)
    requires store.Valid()
    ensures AppliedUpTo(store, plan, 0, store)
  {
    hide ScopedIds, RowFor;
  }

  // ------------------------------------------------------------- when names carry their identities

  ghost predicate Touched(plan: Plan, k: nat, identity: string)
    requires k <= |plan.operations|
  {
    exists j | 0 <= j < k :: Active(plan, j) && plan.operations[j].identity == identity
  }

  /** A written row belongs to the scope and, if names agree, carries its operation's identity. */
  lemma WrittenRowCarries(names: Naming, inputs: Inputs, store: Store, plan: Plan, k: nat, at: Store, j: nat)
    requires Planned(names, inputs, store, plan) && k <= |plan.operations| && AppliedUpTo(store, plan, k, at)
    requires NamesAgree(names, plan, k) && j < k && Active(plan, j)
    ensures RowId(store, plan, j) in ScopedIds(inputs.scope, at)
    ensures names.IdOf(at.rows[RowId(store, plan, j)].parameter) == plan.operations[j].identity
    ensures Carriers(names, inputs.scope, store, plan.operations[j].identity) <= {RowId(store, plan, j)}
  {
    hide PlanFor, ArchiveState, Creates;
    var op := plan.operations[j];
    PlanKeepsInputs(names, inputs, store, plan);
    OperationShape(names, inputs, store, plan, j);
    assert InScope(inputs.scope, RowFor(plan, op));
    if op.action.Create? {
      assert Carries(names, op);
    } else {
      CarrierHasIdentity(names, inputs.scope, store, op.identity, op.existingId.value);
    }
  }

  lemma UnwrittenCarrier(names: Naming, scope: Scope, store: Store, plan: Plan, k: nat, at: Store, r: nat, identity: string)
    requires k <= |plan.operations| && AppliedUpTo(store, plan, k, at) && !WrittenBefore(store, plan, k, r)
    ensures r in Carriers(names, scope, at, identity) <==> r in Carriers(names, scope, store, identity)
    ensures r in Carriers(names, scope, at, identity) ==> r in at.rows && r in store.rows && at.rows[r] == store.rows[r]
  {
    hide Creates, RowId, Naming.IdOf;
  }

  lemma RowCarries(names: Naming, scope: Scope, store: Store, r: nat, identity: string)
    requires r in ScopedIds(scope, store) && names.IdOf(store.rows[r].parameter) == identity
    ensures forall other :: r in Carriers(names, scope, store, other) <==> other == identity
  {
  }

  lemma WrittenIdentity(names: Naming, inputs: Inputs, store: Store, plan: Plan, k: nat, at: Store, r: nat)
    requires Planned(names, inputs, store, plan) && k <= |plan.operations| && AppliedUpTo(store, plan, k, at)
    requires NamesAgree(names, plan, k) && WrittenBefore(store, plan, k, r)
    ensures exists j | 0 <= j < k :: Active(plan, j) && RowId(store, plan, j) == r
              && (forall identity :: r in Carriers(names, inputs.scope, at, identity) <==> identity == plan.operations[j].identity)
              && Carriers(names, inputs.scope, store, plan.operations[j].identity) <= {r}
  {
    hide PlanFor, AppliedUpTo, Naming.IdOf, RowId, Carriers, ScopedIds, NamesAgree, Active;
    var j :| 0 <= j < k && Active(plan, j) && RowId(store, plan, j) == r;
    WrittenRowCarries(names, inputs, store, plan, k, at, j);
    RowCarries(names, inputs.scope, at, r, plan.operations[j].identity);
  }

  lemma TouchedCarriers(names: Naming, inputs: Inputs, store: Store, plan: Plan, k: nat, at: Store, j: nat)
    requires Planned(names, inputs, store, plan) && k <= |plan.operations| && AppliedUpTo(store, plan, k, at)
    requires NamesAgree(names, plan, k) && j < k && Active(plan, j)
    ensures Carriers(names, inputs.scope, at, plan.operations[j].identity) == {RowId(store, plan, j)}
  {
    hide PlanFor, AppliedUpTo, Naming.IdOf, RowId, Carriers, ScopedIds, NamesAgree;
    var identity, id := plan.operations[j].identity, RowId(store, plan, j);
    WrittenRowCarries(names, inputs, store, plan, k, at, j);
    RowCarries(names, inputs.scope, at, id, identity);
    forall r | r in Carriers(names, inputs.scope, at, identity) ensures r == id {
      if WrittenBefore(store, plan, k, r) {
        WrittenIdentity(names, inputs, store, plan, k, at, r);
        var i :| 0 <= i < k && Active(plan, i) && RowId(store, plan, i) == r && plan.operations[i].identity == identity;
        SameIdentitySameOperation(names, inputs, store, plan, i, j);
      } else {
        UnwrittenCarrier(names, inputs.scope, store, plan, k, at, r, identity);
      }
    }
  }

  lemma SameIdentitySameOperation(names: Naming, inputs: Inputs, store: Store, plan: Plan, i: nat, j: nat)
    requires Planned(names, inputs, store, plan) && i < |plan.operations| && j < |plan.operations|
    requires plan.operations[i].identity == plan.operations[j].identity
    ensures i == j
  {
    hide PlanFor;
    if i < j {
      IdentitiesDiffer(names, inputs, store, plan, i, j);
    } else if j < i {
      IdentitiesDiffer(names, inputs, store, plan, j, i);
    }
  }

  lemma UntouchedCarriers(names: Naming, inputs: Inputs, store: Store, plan: Plan, k: nat, at: Store, identity: string)
    requires Planned(names, inputs, store, plan) && k <= |plan.operations| && AppliedUpTo(store, plan, k, at)
    requires NamesAgree(names, plan, k) && !Touched(plan, k, identity)
    ensures Carriers(names, inputs.scope, at, identity) == Carriers(names, inputs.scope, store, identity)
    ensures forall r | r in Carriers(names, inputs.scope, at, identity) ::
              r in at.rows && r in store.rows && at.rows[r] == store.rows[r]
  {
    hide PlanFor, AppliedUpTo, Naming.IdOf, RowId, Carriers, ScopedIds, NamesAgree, Active;
    forall r
      ensures r in Carriers(names, inputs.scope, at, identity) <==> r in Carriers(names, inputs.scope, store, identity)
      ensures r in Carriers(names, inputs.scope, at, identity) ==>
                r in at.rows && r in store.rows && at.rows[r] == store.rows[r]
    {
      if WrittenBefore(store, plan, k, r) {
        WrittenIdentity(names, inputs, store, plan, k, at, r);
        var j :| 0 <= j < k && Active(plan, j) && RowId(store, plan, j) == r
              && (forall other :: r in Carriers(names, inputs.scope, at, other) <==> other == plan.operations[j].identity);
        assert plan.operations[j].identity != identity;
        WrittenRowOrigin(names, inputs, store, plan, j, identity);
      } else {
        UnwrittenCarrier(names, inputs.scope, store, plan, k, at, r, identity);
      }
    }
  }

  lemma WrittenRowOrigin(names: Naming, inputs: Inputs, store: Store, plan: Plan, j: nat, identity: string)
    requires Planned(names, inputs, store, plan) && j < |plan.operations| && Active(plan, j)
    requires plan.operations[j].identity != identity
    ensures RowId(store, plan, j) !in Carriers(names, inputs.scope, store, identity)
  {
    hide PlanFor, ArchiveState, Creates;
    OperationShape(names, inputs, store, plan, j);
    var op := plan.operations[j];
    if op.action.Update? {
      CarrierHasIdentity(names, inputs.scope, store, op.identity, op.existingId.value);
    }
  }

  lemma NoDuplicatesAfter(names: Naming, inputs: Inputs, store: Store, plan: Plan, k: nat, at: Store)
    requires Planned(names, inputs, store, plan) && k <= |plan.operations| && AppliedUpTo(store, plan, k, at)
    requires NamesAgree(names, plan, k)
    ensures NoDuplicates(names, inputs.scope, at)
  {
    hide PlanFor, AppliedUpTo, Planned, NamesAgree, Touched;
    forall i, j | i in ScopedIds(inputs.scope, at) && j in ScopedIds(inputs.scope, at)
                  && names.IdOf(at.rows[i].parameter) == names.IdOf(at.rows[j].parameter) != ""
      ensures i == j
    {
      var identity := names.IdOf(at.rows[i].parameter);
      assert i in Carriers(names, inputs.scope, at, identity) && j in Carriers(names, inputs.scope, at, identity);
      AtMostOneCarrier(names, inputs, store, plan, k, at, identity, i, j);
    }
  }

  lemma AtMostOneCarrier(names: Naming, inputs: Inputs, store: Store, plan: Plan, k: nat, at: Store, identity: string,
                         i: nat, j: nat)
    requires Planned(names, inputs, store, plan) && k <= |plan.operations| && AppliedUpTo(store, plan, k, at)
    requires NamesAgree(names, plan, k) && identity != ""
    requires i in Carriers(names, inputs.scope, at, identity) && j in Carriers(names, inputs.scope, at, identity)
    ensures i == j
  {
    hide PlanFor, AppliedUpTo, NamesAgree, Carriers, RowId, NoDuplicates, Active;
    if Touched(plan, k, identity) {
      var n :| 0 <= n < k && Active(plan, n) && plan.operations[n].identity == identity;
      TouchedCarriers(names, inputs, store, plan, k, at, n);
    } else {
      UntouchedCarriers(names, inputs, store, plan, k, at, identity);
      PlanKeepsInputs(names, inputs, store, plan);
      SingleCarrier(names, inputs.scope, store, identity, i);
    }
  }

  // ------------------------------------------------------------- planning again

  /** An applied operation as the next plan lists it. */
  ghost function Settled(store: Store, plan: Plan, j: nat): Operation
    requires j < |plan.operations|
  {
    var op := plan.operations[j];
    op.(existingId := Some(RowId(store, plan, j)), before := Some(OperationState(plan.scope, plan.watermark, op)),
        action := Unchanged)
  }

  /** The next plan after `k` applied operations: those are settled, the others are as before. */
  ghost function Replanned(store: Store, plan: Plan, k: nat): Plan
    requires k <= |plan.operations|
  {
    plan.(operations := seq(|plan.operations|, j requires 0 <= j < |plan.operations| =>
      if j < k && Active(plan, j) then Settled(store, plan, j) else plan.operations[j]))
  }

  lemma LookupIs(names: Naming, scope: Scope, store: Store, identity: string, carriers: set<nat>)
    requires Carriers(names, scope, store, identity) == carriers
    ensures carriers == {} ==> Lookup(names, scope, store, identity) == None
    ensures forall r | carriers == {r} :: Lookup(names, scope, store, identity) == Some(r)
  {
  }

  /** An operation depends on the archive only through the row that carries its identity. */
  lemma OperationDependsOnRow(names: Naming, inputs: Inputs, identity: string, g: Group, store: Store, at: Option<nat>)
    requires Carriers(names, inputs.scope, store, identity) == if at.Some? then {at.value} else {}
    ensures OperationFor(names, inputs, identity, g, store)
            == Decide(inputs, Drafted(names, inputs, identity, g, at, RowAt(store, at)))
  {
    hide Drafted, Decide, Carriers;
    LookupIs(names, inputs.scope, store, identity, Carriers(names, inputs.scope, store, identity));
    if at.Some? {
      assert Lookup(names, inputs.scope, store, identity) == Some(at.value);
    }
  }

  lemma PendingIsUntouched(names: Naming, inputs: Inputs, store: Store, plan: Plan, k: nat, j: nat)
    requires Planned(names, inputs, store, plan) && k <= |plan.operations|
    requires j < |plan.operations| && (j >= k || !Active(plan, j))
    ensures !Touched(plan, k, plan.operations[j].identity)
  {
    hide PlanFor;
    forall i | 0 <= i < k && Active(plan, i) ensures plan.operations[i].identity != plan.operations[j].identity {
      if plan.operations[i].identity == plan.operations[j].identity {
        SameIdentitySameOperation(names, inputs, store, plan, i, j);
      }
    }
  }

  lemma ReplanUntouched(names: Naming, inputs: Inputs, store: Store, plan: Plan, k: nat, at: Store, j: nat)
    requires Planned(names, inputs, store, plan) && k <= |plan.operations| && AppliedUpTo(store, plan, k, at)
    requires NamesAgree(names, plan, k) && j < |plan.operations| && (j >= k || !Active(plan, j))
    ensures var op := plan.operations[j];
            var groups := Groups(names, inputs.occurrences);
            op.identity in groups && OperationFor(names, inputs, op.identity, groups[op.identity], at) == op
  {
    hide PlanFor, AppliedUpTo, Drafted, Decide, Groups, Carriers, NamesAgree, Naming.IdOf, NamedBy, OperationFor, Active, Touched;
    var op := plan.operations[j];
    OperationAt(names, inputs, store, plan, j);
    OperationShape(names, inputs, store, plan, j);
    PendingIsUntouched(names, inputs, store, plan, k, j);
    UntouchedCarriers(names, inputs, store, plan, k, at, op.identity);
    var g := Groups(names, inputs.occurrences)[op.identity];
    var id := if op.action.Create? then None else op.existingId;
    OperationDependsOnRow(names, inputs, op.identity, g, store, id);
    OperationDependsOnRow(names, inputs, op.identity, g, at, id);
    assert id.Some? ==> id.value in Carriers(names, inputs.scope, at, op.identity);
  }

  lemma ReplanApplied(names: Naming, inputs: Inputs, store: Store, plan: Plan, k: nat, at: Store, j: nat)
    requires Planned(names, inputs, store, plan) && k <= |plan.operations| && AppliedUpTo(store, plan, k, at)
    requires NamesAgree(names, plan, k) && j < k && Active(plan, j)
    ensures var op := plan.operations[j];
            var groups := Groups(names, inputs.occurrences);
            op.identity in groups && OperationFor(names, inputs, op.identity, groups[op.identity], at) == Settled(store, plan, j)
  {
    hide PlanFor, Drafted, Decide, Groups, Carriers, NamesAgree, Naming.IdOf, RowId, ArchiveState, RowFor, NamedBy,
      OperationState, Lookup, WrittenBefore;
    var op := plan.operations[j];
    PlanKeepsInputs(names, inputs, store, plan);
    OperationAt(names, inputs, store, plan, j);
    TouchedCarriers(names, inputs, store, plan, k, at, j);
    var g := Groups(names, inputs.occurrences)[op.identity];
    var id := RowId(store, plan, j);
    OperationDependsOnRow(names, inputs, op.identity, g, at, Some(id));
    var was := Lookup(names, inputs.scope, store, op.identity);
    var existing := RowAt(store, was);
    assert at.rows[id] == RowFor(plan, op);
    hide AppliedUpTo, OperationFor;
    ChosenName(names, op.identity, g, existing);
    AppliedOperationSettles(names, inputs, op.identity, g, was, existing, plan, id);
    AppliedStateIsPlanned(names, inputs, op.identity, g, was, existing, plan);
  }

  lemma AppliedStateIsPlanned(names: Naming, inputs: Inputs, identity: string, g: Group, at: Option<nat>,
                              existing: Row, plan: Plan)
    requires plan.scope == inputs.scope && plan.watermark == inputs.watermark
    ensures var op := Decide(inputs, Drafted(names, inputs, identity, g, at, existing));
            ArchiveState(RowFor(plan, op)) == OperationState(plan.scope, plan.watermark, op)
  {
    hide ArchiveState, Drafted, RowFor, OperationState, SameState;
    var draft := Drafted(names, inputs, identity, g, at, existing);
    var op := Decide(inputs, draft);
    assert op == draft.(action := op.action);
    StoredStateIsPlannedState(names, inputs, identity, g, at, existing, plan, op.action);
  }

  /** Planning after `k` operations whose created rows carry their identities. */
  lemma ReplanWhenNamesAgree(names: Naming, inputs: Inputs, store: Store, plan: Plan, k: nat, at: Store)
    requires Planned(names, inputs, store, plan) && k <= |plan.operations| && AppliedUpTo(store, plan, k, at)
    requires NamesAgree(names, plan, k)
    ensures PlanFor(names, inputs, at)
            == if |ScopedIds(inputs.scope, store)| + Creates(plan, k) > inputs.limits.maxExisting then Err(BudgetExceeded)
               else Ok(Replanned(store, plan, k))
  {
    hide OperationFor, Groups, Carriers, NamesAgree, RowId, ScopedIds, Settled, NoDuplicates;
    PlanKeepsInputs(names, inputs, store, plan);
    NoDuplicatesAfter(names, inputs, store, plan, k, at);
    var groups := Groups(names, inputs.occurrences);
    var ids := Identities(groups);
    var again := Replanned(store, plan, k);
    forall j | 0 <= j < |ids|
      ensures OperationFor(names, inputs, ids[j], groups[ids[j]], at) == again.operations[j]
    {
      OperationIdentity(names, inputs, ids[j], groups[ids[j]], store);
      if j < k && Active(plan, j) {
        ReplanApplied(names, inputs, store, plan, k, at, j);
      } else {
        ReplanUntouched(names, inputs, store, plan, k, at, j);
      }
    }
    assert Operations(names, inputs, at) == again.operations;
  }

  // ------------------------------------------------------------- main results

  /** An earlier creation of the plan leaves a row whose name stands for the identity created at `c`. */
  ghost predicate Conflicts(names: Naming, plan: Plan, c: nat)
    requires c < |plan.operations|
  {
    plan.operations[c].action.Create?
    && exists j | 0 <= j < c && plan.operations[j].action.Create? :: names.IdOf(plan.operations[j].parameter) == plan.operations[c].identity
  }

  ghost predicate NoConflict(names: Naming, plan: Plan, k: nat)
    requires k <= |plan.operations|
  {
    forall c | 0 <= c < k :: !Conflicts(names, plan, c)
  }

  /** A created row stands where it was put, under its name. */
  lemma CreatedRow(names: Naming, inputs: Inputs, store: Store, plan: Plan, k: nat, at: Store, j: nat)
    requires Planned(names, inputs, store, plan) && k <= |plan.operations| && AppliedUpTo(store, plan, k, at)
    requires j < k && plan.operations[j].action.Create?
    ensures RowId(store, plan, j) !in store.rows
    ensures RowId(store, plan, j) in Carriers(names, inputs.scope, at, names.IdOf(plan.operations[j].parameter))
  {
    hide PlanFor, ArchiveState, Creates, AppliedUpTo, RowFor, InScope, Carriers, Naming.IdOf;
    PlanKeepsInputs(names, inputs, store, plan);
    WrittenRow(store, plan, k, at, j);
    NewRowCarries(names, plan, plan.operations[j], at, RowId(store, plan, j));
  }

  lemma WrittenRow(store: Store, plan: Plan, k: nat, at: Store, j: nat)
    requires k <= |plan.operations| && AppliedUpTo(store, plan, k, at) && j < k && Active(plan, j)
    ensures RowId(store, plan, j) in at.rows && at.rows[RowId(store, plan, j)] == RowFor(plan, plan.operations[j])
  {
    hide RowId, RowFor, Creates, WrittenBefore, ScopedIds;
  }

  lemma NewRowCarries(names: Naming, plan: Plan, op: Operation, at: Store, r: nat)
    requires r in at.rows && at.rows[r] == RowFor(plan, op)
    ensures r in Carriers(names, plan.scope, at, names.IdOf(op.parameter))
  {
    assert r in ScopedIds(plan.scope, at);
  }

  /** A row of the scope after `k` operations was there before under the same name, or was created. */
  lemma RowOrigin(names: Naming, inputs: Inputs, store: Store, plan: Plan, k: nat, at: Store, r: nat, identity: string)
    requires Planned(names, inputs, store, plan) && k <= |plan.operations| && AppliedUpTo(store, plan, k, at)
    requires r in Carriers(names, inputs.scope, at, identity)
    ensures r in Carriers(names, inputs.scope, store, identity)
            || exists j | 0 <= j < k && plan.operations[j].action.Create? ::
                 RowId(store, plan, j) == r && names.IdOf(plan.operations[j].parameter) == identity
  {
    hide PlanFor, ArchiveState, Creates, RowId, Carriers;
    CarrierHasIdentity(names, inputs.scope, at, identity, r);
    if WrittenBefore(store, plan, k, r) {
      var j :| 0 <= j < k && Active(plan, j) && RowId(store, plan, j) == r;
      WrittenName(names, inputs, store, plan, k, at, j);
    } else {
      UnwrittenCarrier(names, inputs.scope, store, plan, k, at, r, identity);
    }
  }

  /** The conflict scan before a creation finds a row exactly when the plan conflicts with itself there. */
  lemma ConflictScan(names: Naming, inputs: Inputs, store: Store, plan: Plan, k: nat, at: Store)
    requires Planned(names, inputs, store, plan) && k < |plan.operations| && AppliedUpTo(store, plan, k, at)
    requires plan.operations[k].action.Create?
    ensures Carriers(names, inputs.scope, at, plan.operations[k].identity) != {} <==> Conflicts(names, plan, k)
  {
    hide PlanFor, AppliedUpTo, Carriers, RowId, ArchiveState, Naming.IdOf;
    var identity := plan.operations[k].identity;
    OperationShape(names, inputs, store, plan, k);
    if Carriers(names, inputs.scope, at, identity) != {} {
      var r :| r in Carriers(names, inputs.scope, at, identity);
      RowOrigin(names, inputs, store, plan, k, at, r, identity);
    }
    if Conflicts(names, plan, k) {
      var j :| 0 <= j < k && plan.operations[j].action.Create? && names.IdOf(plan.operations[j].parameter) == identity;
      CreatedRow(names, inputs, store, plan, k, at, j);
    }
  }

  /** What the check before the next write finds in an undisturbed run. */
  lemma NextGuard(names: Naming, inputs: Inputs, store: Store, plan: Plan, k: nat, at: Store)
    requires Planned(names, inputs, store, plan) && k < |plan.operations| && AppliedUpTo(store, plan, k, at)
    ensures Guard(names, plan, plan.operations[k], at)
            == if plan.operations[k].action.Create? && |ScopedIds(inputs.scope, store)| + Creates(plan, k) > inputs.limits.maxExisting
               then Some(BudgetExceeded)
               else if Conflicts(names, plan, k) then Some(ArchiveChanged) else None
  {
    hide PlanFor, Creates, Carriers, ScopedIds, ArchiveState, Conflicts, Naming.IdOf;
    PlanKeepsInputs(names, inputs, store, plan);
    OnlyCreationsConflict(names, plan, k);
    if plan.operations[k].action.Create? {
      ConflictScan(names, inputs, store, plan, k, at);
    } else if plan.operations[k].action.Update? {
      NextUpdateIsReady(names, inputs, store, plan, k, at);
    }
  }

  lemma OnlyCreationsConflict(names: Naming, plan: Plan, k: nat)
    requires k < |plan.operations|
    ensures Conflicts(names, plan, k) ==> plan.operations[k].action.Create?
  {
  }

  /** All rows but the last created one fit the budget. */
  ghost predicate CreatesFit(plan: Plan, k: nat, existing: nat, budget: nat)
    requires k <= |plan.operations|
  {
    Creates(plan, k) == 0 || existing + Creates(plan, k) - 1 <= budget
  }

  lemma FitsNextCreate(plan: Plan, k: nat, existing: nat, budget: nat)
    requires k <= |plan.operations|
    ensures k == 0 ==> CreatesFit(plan, k, existing, budget)
    ensures k > 0 ==>
              (CreatesFit(plan, k, existing, budget)
               <==> CreatesFit(plan, k - 1, existing, budget)
                    && !(plan.operations[k - 1].action.Create? && existing + Creates(plan, k - 1) > budget))
  {
  }

  /** The run stops at `c` because an earlier creation took the identity. */
  ghost predicate StopsOnConflict(names: Naming, plan: Plan, c: nat, existing: nat, budget: nat)
    requires c < |plan.operations|
  {
    NoConflict(names, plan, c) && Conflicts(names, plan, c) && CreatesFit(plan, c + 1, existing, budget)
  }

  /** The run stops at `c` because the rows before it already exceed the budget. */
  ghost predicate StopsOnBudget(names: Naming, plan: Plan, c: nat, existing: nat, budget: nat)
    requires c < |plan.operations|
  {
    NoConflict(names, plan, c) && CreatesFit(plan, c, existing, budget) && !CreatesFit(plan, c + 1, existing, budget)
  }

  lemma NoConflictStep(names: Naming, plan: Plan, k: nat)
    requires 0 < k <= |plan.operations|
    ensures NoConflict(names, plan, k) <==> NoConflict(names, plan, k - 1) && !Conflicts(names, plan, k - 1)
  {
    hide Conflicts;
  }

  /** Without interference, application succeeds exactly when no creation conflicts with an earlier one of
      the plan and all rows but the last created one fit the budget. Otherwise it stops at the first
      operation that conflicts or exceeds the budget, with the error of that operation. */
  lemma {:induction false} ApplyOutcome(names: Naming, inputs: Inputs, store: Store, plan: Plan, k: nat)
    requires Planned(names, inputs, store, plan) && k <= |plan.operations|
    ensures var (existing, budget) := (|ScopedIds(inputs.scope, store)|, inputs.limits.maxExisting);
            var failed := Run(names, plan, k, store).failed;
            && (failed == None <==> NoConflict(names, plan, k) && CreatesFit(plan, k, existing, budget))
            && (failed == Some(ArchiveChanged) <==> exists c | 0 <= c < k :: StopsOnConflict(names, plan, c, existing, budget))
            && (failed == Some(BudgetExceeded) <==> exists c | 0 <= c < k :: StopsOnBudget(names, plan, c, existing, budget))
            && (failed == None || failed == Some(ArchiveChanged) || failed == Some(BudgetExceeded))
  {
    hide Planned, AppliedUpTo, ScopedIds, Guard, Run, NoConflict, Conflicts, CreatesFit, Creates, StopsOnConflict, StopsOnBudget;
    var (existing, budget) := (|ScopedIds(inputs.scope, store)|, inputs.limits.maxExisting);
    if k == 0 {
      EmptyRun(names, plan, store);
      NothingConflicts(names, plan, existing, budget);
    } else {
      ApplyOutcome(names, inputs, store, plan, k - 1);
      StopStep(names, plan, k, existing, budget);
      var o := Run(names, plan, k - 1, store);
      if o.failed.Some? {
        FailureSticks(names, plan, k - 1, k, store);
        StopsOnce(names, plan, k, existing, budget);
      } else {
        RunWritesExactlyThePlan(names, inputs, store, plan, k - 1);
        NextGuard(names, inputs, store, plan, k - 1, o.store);
        RunFailsOnGuard(names, plan, k, store);
        NeverStopped(names, plan, k - 1, existing, budget);
      }
    }
  }

  lemma NothingConflicts(names: Naming, plan: Plan, existing: nat, budget: nat)
    ensures NoConflict(names, plan, 0) && CreatesFit(plan, 0, existing, budget)
  {
  }

  /** What the last of `k` operations decides, the others being in order. */
  lemma StopStep(names: Naming, plan: Plan, k: nat, existing: nat, budget: nat)
    requires 0 < k <= |plan.operations|
    ensures var over := plan.operations[k - 1].action.Create? && existing + Creates(plan, k - 1) > budget;
            var before := NoConflict(names, plan, k - 1) && CreatesFit(plan, k - 1, existing, budget);
            && (NoConflict(names, plan, k) && CreatesFit(plan, k, existing, budget) <==> before && !over && !Conflicts(names, plan, k - 1))
            && (before ==>
                  (StopsOnConflict(names, plan, k - 1, existing, budget) <==> !over && Conflicts(names, plan, k - 1))
                  && (StopsOnBudget(names, plan, k - 1, existing, budget) <==> over))
            && (StopsOnConflict(names, plan, k - 1, existing, budget) || StopsOnBudget(names, plan, k - 1, existing, budget) ==> before)
  {
    hide Conflicts, NoConflict;
    NoConflictStep(names, plan, k);
    FitsNextCreate(plan, k, existing, budget);
    hide CreatesFit;
  }

  /** Once stopped, the later operations decide nothing. */
  lemma StopsOnce(names: Naming, plan: Plan, k: nat, existing: nat, budget: nat)
    requires 0 < k <= |plan.operations| && !(NoConflict(names, plan, k - 1) && CreatesFit(plan, k - 1, existing, budget))
    ensures forall c | 0 <= c < k ::
              (StopsOnConflict(names, plan, c, existing, budget) || StopsOnBudget(names, plan, c, existing, budget)) ==> c < k - 1
  {
    StopStep(names, plan, k, existing, budget);
  }

  lemma {:induction false} NeverStopped(names: Naming, plan: Plan, k: nat, existing: nat, budget: nat)
    requires k <= |plan.operations| && NoConflict(names, plan, k) && CreatesFit(plan, k, existing, budget)
    ensures forall c | 0 <= c < k ::
              !StopsOnConflict(names, plan, c, existing, budget) && !StopsOnBudget(names, plan, c, existing, budget)
  {
    if k > 0 {
      StopStep(names, plan, k, existing, budget);
      hide Conflicts, NoConflict, CreatesFit, StopsOnConflict, StopsOnBudget, Creates;
      NeverStopped(names, plan, k - 1, existing, budget);
    }
  }

  lemma EmptyRun(names: Naming, plan: Plan, store: Store)
    ensures Run(names, plan, 0, store) == Outcome(store, 0, None)
  {
  }

  lemma RunFailsOnGuard(names: Naming, plan: Plan, k: nat, store: Store)
    requires 0 < k <= |plan.operations| && Run(names, plan, k - 1, store).failed.None?
    ensures Run(names, plan, k, store).failed == Guard(names, plan, plan.operations[k - 1], Run(names, plan, k - 1, store).store)
  {
    hide Guard, Write;
  }

  lemma StepIgnoresPlanOperations(names: Naming, plan: Plan, again: Plan, op: Operation, o: Outcome)
    requires again.scope == plan.scope && again.limits == plan.limits && again.watermark == plan.watermark
    ensures Step(names, again, op, o) == Step(names, plan, op, o)
  {
  }

  /** The second half of an interrupted run does what the uninterrupted run would have done. */
  lemma {:induction false} ResumeRun(names: Naming, store: Store, plan: Plan, k: nat, n: nat)
    requires k <= |plan.operations| && n <= |plan.operations|
    requires Run(names, plan, k, store).failed.None?
    ensures var first := Run(names, plan, k, store);
            var second := Run(names, Replanned(store, plan, k), n, first.store);
            if n <= k then second == Outcome(first.store, 0, None)
            else
              && second.store == Run(names, plan, n, store).store
              && second.failed == Run(names, plan, n, store).failed
              && first.writes + second.writes == Run(names, plan, n, store).writes
  {
    hide Guard, Write, Settled;
    if n > 0 {
      ResumeRun(names, store, plan, k, n - 1);
      var again := Replanned(store, plan, k);
      var first := Run(names, plan, k, store);
      var second := Run(names, again, n - 1, first.store);
      if n <= k {
        NothingToWrite(names, again, again.operations[n - 1], second, store, plan, k, n - 1);
      } else {
        StepIgnoresPlanOperations(names, plan, again, plan.operations[n - 1], second);
        SecondStep(names, plan, plan.operations[n - 1], first.writes, second, Run(names, plan, n - 1, store));
      }
    }
  }

  lemma SecondStep(names: Naming, plan: Plan, op: Operation, writes: nat, second: Outcome, whole: Outcome)
    requires second.store == whole.store && second.failed == whole.failed && writes + second.writes == whole.writes
    ensures var s, w := Step(names, plan, op, second), Step(names, plan, op, whole);
            s.store == w.store && s.failed == w.failed && writes + s.writes == w.writes
  {
    hide Guard, Write;
  }

  lemma NothingToWrite(names: Naming, again: Plan, op: Operation, o: Outcome, store: Store, plan: Plan, k: nat, j: nat)
    requires j < k <= |plan.operations| && again == Replanned(store, plan, k) && op == again.operations[j]
    requires o.failed.None?
    ensures Step(names, again, op, o) == o
  {
  }

  ghost predicate AllUnchanged(plan: Plan) {
    forall op | op in plan.operations :: op.action.Unchanged?
  }

  /** Who a row of the scope belongs to after a run, whether or not names agree. */
  lemma StrayRowsStayStray(names: Naming, inputs: Inputs, store: Store, plan: Plan, k: nat, at: Store, c: nat)
    requires Planned(names, inputs, store, plan) && k <= |plan.operations| && AppliedUpTo(store, plan, k, at)
    requires c < |plan.operations| && plan.operations[c].action.Create? && !Carries(names, plan.operations[c])
    ensures Carriers(names, inputs.scope, at, plan.operations[c].identity) == {}
  {
    hide PlanFor, ArchiveState, Creates, RowId;
    var identity := plan.operations[c].identity;
    OperationShape(names, inputs, store, plan, c);
    forall r | r in Carriers(names, inputs.scope, at, identity) ensures false {
      if WrittenBefore(store, plan, k, r) {
        var j :| 0 <= j < k && Active(plan, j) && RowId(store, plan, j) == r;
        OperationShape(names, inputs, store, plan, j);
        WrittenName(names, inputs, store, plan, k, at, j);
      } else {
        UnwrittenCarrier(names, inputs.scope, store, plan, k, at, r, identity);
      }
    }
  }

  lemma WrittenName(names: Naming, inputs: Inputs, store: Store, plan: Plan, k: nat, at: Store, j: nat)
    requires Planned(names, inputs, store, plan) && k <= |plan.operations| && AppliedUpTo(store, plan, k, at)
    requires j < k && Active(plan, j)
    ensures RowId(store, plan, j) in at.rows
    ensures at.rows[RowId(store, plan, j)].parameter == plan.operations[j].parameter
    ensures plan.operations[j].action.Update? ==>
              RowId(store, plan, j) in Carriers(names, inputs.scope, store, names.IdOf(plan.operations[j].parameter))
  {
    hide PlanFor, ArchiveState, Creates;
    OperationShape(names, inputs, store, plan, j);
    if plan.operations[j].action.Update? {
      CarrierHasIdentity(names, inputs.scope, store, plan.operations[j].identity, plan.operations[j].existingId.value);
    }
  }

  /** A created row that does not carry its identity is created once more by the next plan. */
  lemma StrayNameReplansCreate(names: Naming, inputs: Inputs, store: Store, plan: Plan, k: nat, at: Store, c: nat)
    requires Planned(names, inputs, store, plan) && k <= |plan.operations| && AppliedUpTo(store, plan, k, at)
    requires c < |plan.operations| && plan.operations[c].action.Create? && !Carries(names, plan.operations[c])
    requires PlanFor(names, inputs, at).Ok?
    ensures var again := PlanFor(names, inputs, at).value;
            |again.operations| == |plan.operations| && again.operations[c].action.Create?
  {
    StrayRowsStayStray(names, inputs, store, plan, k, at, c);
    FreeIdentityIsCreated(names, inputs, store, plan, at, c);
  }

  /** An identity nobody carries in `at` is created by the plan of `at`. */
  lemma FreeIdentityIsCreated(names: Naming, inputs: Inputs, store: Store, plan: Plan, at: Store, c: nat)
    requires Planned(names, inputs, store, plan) && c < |plan.operations| && PlanFor(names, inputs, at).Ok?
    requires Carriers(names, inputs.scope, at, plan.operations[c].identity) == {}
    ensures var again := PlanFor(names, inputs, at).value;
            |again.operations| == |plan.operations| && again.operations[c].action.Create?
  {
    hide Groups, Carriers, Drafted, RowId, ScopedIds, NoDuplicates, OperationFor;
    var again := PlanFor(names, inputs, at).value;
    OperationAt(names, inputs, store, plan, c);
    PlanKeepsInputs(names, inputs, store, plan);
    var groups := Groups(names, inputs.occurrences);
    var ids := Identities(groups);
    OperationIdentity(names, inputs, ids[c], groups[ids[c]], store);
    assert again.operations[c] == OperationFor(names, inputs, ids[c], groups[ids[c]], at);
    CreateWithoutCarrier(names, inputs, ids[c], groups[ids[c]], at);
  }

  lemma CreateWithoutCarrier(names: Naming, inputs: Inputs, identity: string, g: Group, store: Store)
    requires Carriers(names, inputs.scope, store, identity) == {}
    ensures OperationFor(names, inputs, identity, g, store).action.Create?
  {
    hide Drafted, Carriers;
    OperationDependsOnRow(names, inputs, identity, g, store, None);
    DraftAction(names, inputs, identity, g, None, RowAt(store, None));
  }

  lemma AllSettled(store: Store, plan: Plan)
    ensures var again := Replanned(store, plan, |plan.operations|);
            AllUnchanged(again) && |again.operations| == |plan.operations|
  {
    hide RowId, OperationState;
    var again := Replanned(store, plan, |plan.operations|);
    forall op | op in again.operations ensures op.action.Unchanged? {
      var j :| 0 <= j < |again.operations| && again.operations[j] == op;
    }
  }

  /** The fixpoint, exactly. After a full application, planning again on the same inputs lists every
      operation as unchanged if and only if every created row carries its identity and the rows,
      including the created ones, fit the budget. Applying that plan then writes nothing. */
  lemma PlanApplyFixpoint(names: Naming, inputs: Inputs, store: Store, plan: Plan)
    requires Planned(names, inputs, store, plan)
    requires Run(names, plan, |plan.operations|, store).failed.None?
    ensures var n := |plan.operations|;
            var at := Run(names, plan, n, store).store;
            var again := PlanFor(names, inputs, at);
            && ((again.Ok? && AllUnchanged(again.value))
                <==> NamesAgree(names, plan, n) && |ScopedIds(inputs.scope, store)| + Creates(plan, n) <= inputs.limits.maxExisting)
            && (again.Ok? && AllUnchanged(again.value) ==>
                  |again.value.operations| == n && Run(names, again.value, n, at) == Outcome(at, 0, None))
  {
    hide Planned, AppliedUpTo, PlanFor, Run, ScopedIds, Replanned, Creates, NamesAgree, AllUnchanged;
    var n := |plan.operations|;
    var at := Run(names, plan, n, store).store;
    RunWritesExactlyThePlan(names, inputs, store, plan, n);
    PlanKeepsInputs(names, inputs, store, plan);
    if NamesAgree(names, plan, n) {
      ReplanWhenNamesAgree(names, inputs, store, plan, n, at);
      ResumeRun(names, store, plan, n, n);
      AllSettled(store, plan);
    } else {
      if PlanFor(names, inputs, at).Ok? {
        DisagreementShows(names, inputs, store, plan, at);
      }
    }
  }

  lemma DisagreementShows(names: Naming, inputs: Inputs, store: Store, plan: Plan, at: Store)
    requires Planned(names, inputs, store, plan) && AppliedUpTo(store, plan, |plan.operations|, at)
    requires !NamesAgree(names, plan, |plan.operations|) && PlanFor(names, inputs, at).Ok?
    ensures !AllUnchanged(PlanFor(names, inputs, at).value)
  {
    hide Planned, AppliedUpTo, PlanFor, Carries;
    var n := |plan.operations|;
    var c :| 0 <= c < n && plan.operations[c].action.Create? && !Carries(names, plan.operations[c]);
    StrayNameReplansCreate(names, inputs, store, plan, n, at, c);
    var again := PlanFor(names, inputs, at).value;
    assert again.operations[c] in again.operations;
    assert !again.operations[c].action.Unchanged?;
  }

  // ------------------------------------------------------------- interruption

  lemma {:induction false} CreatesDominate(plan: Plan, again: Plan, k: nat, n: nat)
    requires k <= n <= |plan.operations| == |again.operations|
    requires forall i | k <= i < n && plan.operations[i].action.Create? :: again.operations[i].action.Create?
    ensures Creates(again, n) - Creates(again, k) >= Creates(plan, n) - Creates(plan, k)
  {
    if k < n {
      CreatesDominate(plan, again, k, n - 1);
    }
  }

  /** What carries an identity after `k` operations still does so later in the run. */
  lemma CarriersPersist(names: Naming, inputs: Inputs, store: Store, plan: Plan, k: nat, first: Store, i: nat, later: Store, r: nat, identity: string)
    requires Planned(names, inputs, store, plan) && k <= i <= |plan.operations|
    requires AppliedUpTo(store, plan, k, first) && AppliedUpTo(store, plan, i, later)
    requires r in Carriers(names, inputs.scope, first, identity)
    ensures r in Carriers(names, inputs.scope, later, identity)
  {
    hide PlanFor, ArchiveState, Creates, RowId, Carriers;
    CarrierHasIdentity(names, inputs.scope, first, identity, r);
    if WrittenBefore(store, plan, k, r) {
      var j :| 0 <= j < k && Active(plan, j) && RowId(store, plan, j) == r;
      assert later.rows[r] == RowFor(plan, plan.operations[j]) == first.rows[r];
      SameRowSameCarrier(names, inputs.scope, first, later, r, identity);
    } else if WrittenBefore(store, plan, i, r) {
      var j :| 0 <= j < i && Active(plan, j) && RowId(store, plan, j) == r;
      UnwrittenCarrier(names, inputs.scope, store, plan, k, first, r, identity);
      RewrittenCarrier(names, inputs, store, plan, i, later, j, identity);
    } else {
      UnwrittenCarrier(names, inputs.scope, store, plan, k, first, r, identity);
      UnwrittenCarrier(names, inputs.scope, store, plan, i, later, r, identity);
    }
  }

  lemma SameRowSameCarrier(names: Naming, scope: Scope, s: Store, t: Store, r: nat, identity: string)
    requires r in s.rows && r in t.rows && s.rows[r] == t.rows[r] && r in Carriers(names, scope, s, identity)
    ensures r in Carriers(names, scope, t, identity)
  {
  }

  /** An update keeps the name, hence the identity, of the row it overwrites. */
  lemma RewrittenCarrier(names: Naming, inputs: Inputs, store: Store, plan: Plan, i: nat, later: Store, j: nat, identity: string)
    requires Planned(names, inputs, store, plan) && i <= |plan.operations| && AppliedUpTo(store, plan, i, later)
    requires j < i && Active(plan, j) && RowId(store, plan, j) in Carriers(names, inputs.scope, store, identity)
    ensures RowId(store, plan, j) in Carriers(names, inputs.scope, later, identity)
  {
    hide PlanFor, ArchiveState, Creates;
    var op := plan.operations[j];
    PlanKeepsInputs(names, inputs, store, plan);
    OperationShape(names, inputs, store, plan, j);
    assert InScope(inputs.scope, RowFor(plan, op));
    assert op.action.Update?;
  }

  lemma GuardedCreate(names: Naming, plan: Plan, op: Operation, store: Store)
    requires op.action.Create? && Guard(names, plan, op, store).None?
    ensures Carriers(names, plan.scope, store, op.identity) == {}
  {
  }

  lemma PrefixSucceeds(names: Naming, store: Store, plan: Plan, j: nat)
    requires j <= |plan.operations| && Run(names, plan, |plan.operations|, store).failed.None?
    ensures Run(names, plan, j, store).failed.None?
  {
    hide Run;
    if Run(names, plan, j, store).failed.Some? {
      FailureSticks(names, plan, j, |plan.operations|, store);
    }
  }

  lemma CreateFoundNoCarrier(names: Naming, store: Store, plan: Plan, i: nat)
    requires i < |plan.operations| && plan.operations[i].action.Create?
    requires Run(names, plan, |plan.operations|, store).failed.None?
    ensures Carriers(names, plan.scope, Run(names, plan, i, store).store, plan.operations[i].identity) == {}
  {
    hide Run, Guard, Carriers;
    PrefixSucceeds(names, store, plan, i);
    PrefixSucceeds(names, store, plan, i + 1);
    RunFailsOnGuard(names, plan, i + 1, store);
    GuardedCreate(names, plan, plan.operations[i], Run(names, plan, i, store).store);
  }

  /** An identity the rest of a successful run creates is still free when the run is interrupted. */
  lemma LaterCreateIsFree(names: Naming, inputs: Inputs, store: Store, plan: Plan, k: nat, i: nat)
    requires Planned(names, inputs, store, plan) && k <= i < |plan.operations| && plan.operations[i].action.Create?
    requires Run(names, plan, |plan.operations|, store).failed.None?
    ensures Carriers(names, inputs.scope, Run(names, plan, k, store).store, plan.operations[i].identity) == {}
  {
    hide Planned, AppliedUpTo, Carriers, Run, ScopedIds, Operations, Blockers;
    PrefixSucceeds(names, store, plan, k);
    PrefixSucceeds(names, store, plan, i);
    PlanKeepsInputs(names, inputs, store, plan);
    RunWritesExactlyThePlan(names, inputs, store, plan, k);
    RunWritesExactlyThePlan(names, inputs, store, plan, i);
    CreateFoundNoCarrier(names, store, plan, i);
    var identity := plan.operations[i].identity;
    var first, later := Run(names, plan, k, store).store, Run(names, plan, i, store).store;
    forall r | r in Carriers(names, inputs.scope, first, identity) ensures false {
      CarriersPersist(names, inputs, store, plan, k, first, i, later, r, identity);
    }
  }

  /** Resuming after a stray creation hands out more row ids than the uninterrupted run. */
  lemma StrayCreationDiverges(names: Naming, inputs: Inputs, store: Store, plan: Plan, k: nat)
    requires Planned(names, inputs, store, plan) && k <= |plan.operations| && !NamesAgree(names, plan, k)
    requires Run(names, plan, |plan.operations|, store).failed.None? && Run(names, plan, k, store).failed.None?
    requires PlanFor(names, inputs, Run(names, plan, k, store).store).Ok?
    ensures var again := PlanFor(names, inputs, Run(names, plan, k, store).store).value;
            |again.operations| == |plan.operations|
            && var second := Run(names, again, |plan.operations|, Run(names, plan, k, store).store);
               second.failed.None? ==> second.store != Run(names, plan, |plan.operations|, store).store
  {
    var c :| 0 <= c < k && plan.operations[c].action.Create? && !Carries(names, plan.operations[c]);
    hide PlanFor, AppliedUpTo, Carriers, Run, Carries, Creates, NamesAgree;
    var n := |plan.operations|;
    var first := Run(names, plan, k, store).store;
    var again := PlanFor(names, inputs, first).value;
    RunWritesExactlyThePlan(names, inputs, store, plan, k);
    RunWritesExactlyThePlan(names, inputs, store, plan, n);
    StrayNameReplansCreate(names, inputs, store, plan, k, first, c);
    forall i | k <= i < n && plan.operations[i].action.Create? ensures again.operations[i].action.Create? {
      LaterCreateIsFree(names, inputs, store, plan, k, i);
      FreeIdentityIsCreated(names, inputs, store, plan, first, i);
    }
    CreatesDominate(plan, again, k, n);
    CreatesMonotone(again, c, k);
    AppliedNext(store, plan, k, first);
    if Run(names, again, n, first).failed.None? {
      assert Planned(names, inputs, first, again);
      RunWritesExactlyThePlan(names, inputs, first, again, n);
      AppliedNext(first, again, n, Run(names, again, n, first).store);
      AppliedNext(store, plan, n, Run(names, plan, n, store).store);
    }
  }

  lemma AppliedNext(store: Store, plan: Plan, k: nat, after: Store)
    requires k <= |plan.operations| && AppliedUpTo(store, plan, k, after)
    ensures after.Valid() && after.next == store.next + Creates(plan, k)
  {
  }

  /** A created row shares its identity with a row that was there or with another created row. */
  ghost predicate Clash(names: Naming, scope: Scope, store: Store, plan: Plan, k: nat)
    requires k <= |plan.operations|
  {
    exists i | 0 <= i < k && plan.operations[i].action.Create? :: ClashAt(names, scope, store, plan, k, i)
  }

  ghost predicate ClashAt(names: Naming, scope: Scope, store: Store, plan: Plan, k: nat, i: nat)
    requires i < k <= |plan.operations|
  {
    var identity := names.IdOf(plan.operations[i].parameter);
    identity != ""
    && (Carriers(names, scope, store, identity) != {}
        || exists j | 0 <= j < k && j != i && plan.operations[j].action.Create? :: names.IdOf(plan.operations[j].parameter) == identity)
  }

  lemma ClashDuplicates(names: Naming, inputs: Inputs, store: Store, plan: Plan, k: nat, at: Store, i: nat)
    requires Planned(names, inputs, store, plan) && k <= |plan.operations| && AppliedUpTo(store, plan, k, at)
    requires i < k && plan.operations[i].action.Create? && ClashAt(names, inputs.scope, store, plan, k, i)
    ensures !NoDuplicates(names, inputs.scope, at)
  {
    hide PlanFor, AppliedUpTo, Carriers, RowId, ScopedIds, Naming.IdOf;
    var identity := names.IdOf(plan.operations[i].parameter);
    var r := RowId(store, plan, i);
    CreatedRow(names, inputs, store, plan, k, at, i);
    CarrierHasIdentity(names, inputs.scope, at, identity, r);
    var other: nat;
    if Carriers(names, inputs.scope, store, identity) != {} {
      other :| other in Carriers(names, inputs.scope, store, identity);
      NothingApplied(store, plan);
      CarrierIsRow(names, inputs.scope, store, other, identity);
      CarriersPersist(names, inputs, store, plan, 0, store, k, at, other, identity);
    } else {
      var j :| 0 <= j < k && j != i && plan.operations[j].action.Create? && names.IdOf(plan.operations[j].parameter) == identity;
      other := RowId(store, plan, j);
      CreatedRow(names, inputs, store, plan, k, at, j);
      RowIdsDiffer(names, inputs, store, plan, if i < j then i else j, if i < j then j else i);
    }
    CarrierHasIdentity(names, inputs.scope, at, identity, other);
  }

  lemma CarrierIsRow(names: Naming, scope: Scope, store: Store, r: nat, identity: string)
    requires r in Carriers(names, scope, store, identity)
    ensures r in store.rows
  {
  }

  /** After `k` operations the scope has two rows of one identity exactly when the plan clashes. */
  lemma DuplicatesIff(names: Naming, inputs: Inputs, store: Store, plan: Plan, k: nat, at: Store)
    requires Planned(names, inputs, store, plan) && k <= |plan.operations| && AppliedUpTo(store, plan, k, at)
    ensures !NoDuplicates(names, inputs.scope, at) <==> Clash(names, inputs.scope, store, plan, k)
  {
    hide Planned, AppliedUpTo, Carriers, RowId, ClashAt, Naming.IdOf;
    if Clash(names, inputs.scope, store, plan, k) {
      var i :| 0 <= i < k && plan.operations[i].action.Create? && ClashAt(names, inputs.scope, store, plan, k, i);
      ClashDuplicates(names, inputs, store, plan, k, at, i);
    } else {
      forall r, q | r in ScopedIds(inputs.scope, at) && q in ScopedIds(inputs.scope, at)
                    && names.IdOf(at.rows[r].parameter) == names.IdOf(at.rows[q].parameter) != ""
        ensures r == q
      {
        var identity := names.IdOf(at.rows[r].parameter);
        RowCarries(names, inputs.scope, at, r, identity);
        RowCarries(names, inputs.scope, at, q, identity);
        NoClashNoRival(names, inputs, store, plan, k, at, r, q, identity);
      }
    }
  }

  lemma NoClashNoRival(names: Naming, inputs: Inputs, store: Store, plan: Plan, k: nat, at: Store, r: nat, q: nat, identity: string)
    requires Planned(names, inputs, store, plan) && k <= |plan.operations| && AppliedUpTo(store, plan, k, at)
    requires !Clash(names, inputs.scope, store, plan, k) && identity != ""
    requires r in Carriers(names, inputs.scope, at, identity) && q in Carriers(names, inputs.scope, at, identity)
    ensures r == q
  {
    hide PlanFor, AppliedUpTo, Carriers, RowId, ScopedIds, NoDuplicates, Naming.IdOf;
    PlanKeepsInputs(names, inputs, store, plan);
    RowOrigin(names, inputs, store, plan, k, at, r, identity);
    RowOrigin(names, inputs, store, plan, k, at, q, identity);
    if r in Carriers(names, inputs.scope, store, identity) {
      SingleCarrier(names, inputs.scope, store, identity, r);
    }
    forall i | 0 <= i < k && plan.operations[i].action.Create? && names.IdOf(plan.operations[i].parameter) == identity
      ensures Carriers(names, inputs.scope, store, identity) == {}
      ensures forall j | 0 <= j < k && plan.operations[j].action.Create? && names.IdOf(plan.operations[j].parameter) == identity :: j == i
    {
      assert !ClashAt(names, inputs.scope, store, plan, k, i);
    }
  }

  /** Planning again after `k` operations, in all cases. It is refused on the budget exactly when the created
      rows exceed it, and for a duplicate identity exactly when, within the budget, the plan clashes; it
      continues where the run stopped exactly when, within the budget, every created row carries its
      identity. */
  lemma ReplanOutcome(names: Naming, inputs: Inputs, store: Store, plan: Plan, k: nat, at: Store)
    requires Planned(names, inputs, store, plan) && k <= |plan.operations| && AppliedUpTo(store, plan, k, at)
    ensures var over := |ScopedIds(inputs.scope, store)| + Creates(plan, k) > inputs.limits.maxExisting;
            var again := PlanFor(names, inputs, at);
            && (again == Err(BudgetExceeded) <==> over)
            && (again == Err(DuplicateIdentity) <==> !over && Clash(names, inputs.scope, store, plan, k))
            && (again.Ok? <==> !over && !Clash(names, inputs.scope, store, plan, k))
            && (again == Ok(Replanned(store, plan, k)) <==> !over && NamesAgree(names, plan, k))
  {
    DuplicatesIff(names, inputs, store, plan, k, at);
    PlanKeepsInputs(names, inputs, store, plan);
    hide NoDuplicates, Clash, Operations, NamesAgree, Replanned, Creates, ScopedIds;
    assert |ScopedIds(inputs.scope, at)| == |ScopedIds(inputs.scope, store)| + Creates(plan, k);
    if NamesAgree(names, plan, k) {
      ReplanWhenNamesAgree(names, inputs, store, plan, k, at);
    } else if PlanFor(names, inputs, at) == Ok(Replanned(store, plan, k)) {
      StrayIsNotSettled(names, inputs, store, plan, k, at);
    }
  }

  lemma StrayIsNotSettled(names: Naming, inputs: Inputs, store: Store, plan: Plan, k: nat, at: Store)
    requires Planned(names, inputs, store, plan) && k <= |plan.operations| && AppliedUpTo(store, plan, k, at)
    requires PlanFor(names, inputs, at) == Ok(Replanned(store, plan, k))
    ensures NamesAgree(names, plan, k)
  {
    hide Planned, AppliedUpTo, PlanFor, Carries, RowId, OperationState;
    if !NamesAgree(names, plan, k) {
      var c :| 0 <= c < k && plan.operations[c].action.Create? && !Carries(names, plan.operations[c]);
      StrayNameReplansCreate(names, inputs, store, plan, k, at, c);
    }
  }

  /** The archive ends as it would have without the interruption. */
  ghost predicate Converges(names: Naming, inputs: Inputs, store: Store, plan: Plan, k: nat)
    requires k <= |plan.operations|
  {
    var first := Run(names, plan, k, store);
    var again := PlanFor(names, inputs, first.store);
    first.failed.None? && again.Ok?
    && var second := Run(names, again.value, |again.value.operations|, first.store);
       second.failed.None? && second.store == Run(names, plan, |plan.operations|, store).store
  }

  /** Crash convergence, exactly. Stop a successful application after any `k` operations, plan again from
      the same inputs and apply again: the archive ends up identical, row ids included, to that of the
      uninterrupted application if and only if every row created so far carries its identity and the
      rows fit the budget of the new plan. The two parts then also write as often as the whole. */
  lemma CrashConvergence(names: Naming, inputs: Inputs, store: Store, plan: Plan, k: nat)
    requires Planned(names, inputs, store, plan) && k <= |plan.operations|
    requires Run(names, plan, |plan.operations|, store).failed.None?
    ensures Converges(names, inputs, store, plan, k)
            <==> NamesAgree(names, plan, k) && |ScopedIds(inputs.scope, store)| + Creates(plan, k) <= inputs.limits.maxExisting
    ensures Converges(names, inputs, store, plan, k) ==>
              var first := Run(names, plan, k, store);
              var again := PlanFor(names, inputs, first.store).value;
              |again.operations| == |plan.operations| && again.blockers == plan.blockers
              && first.writes + Run(names, again, |plan.operations|, first.store).writes == Run(names, plan, |plan.operations|, store).writes
  {
    hide PlanFor, Run, ScopedIds, NamesAgree, Settled, AppliedUpTo, Creates;
    var n := |plan.operations|;
    PrefixSucceeds(names, store, plan, k);
    var first := Run(names, plan, k, store);
    RunWritesExactlyThePlan(names, inputs, store, plan, k);
    if |ScopedIds(inputs.scope, store)| + Creates(plan, k) > inputs.limits.maxExisting {
      TooManyRows(names, inputs, store, plan, k, first.store);
    } else if NamesAgree(names, plan, k) {
      ReplanWhenNamesAgree(names, inputs, store, plan, k, first.store);
      ResumeRun(names, store, plan, k, n);
      if k == n {
        assert Run(names, Replanned(store, plan, k), n, first.store) == Outcome(first.store, 0, None);
      }
    } else if PlanFor(names, inputs, first.store).Ok? {
      StrayCreationDiverges(names, inputs, store, plan, k);
    }
  }

  lemma TooManyRows(names: Naming, inputs: Inputs, store: Store, plan: Plan, k: nat, at: Store)
    requires Planned(names, inputs, store, plan) && k <= |plan.operations| && AppliedUpTo(store, plan, k, at)
    requires |ScopedIds(inputs.scope, store)| + Creates(plan, k) > inputs.limits.maxExisting
    ensures PlanFor(names, inputs, at) == Err(BudgetExceeded)
  {
    PlanKeepsInputs(names, inputs, store, plan);
  }
}
