/** Applying a reviewed plan while others write to the same collection. One check-and-save is one
    atomic step; between two such steps any other writer may change the collection. */
module ProfileArchiveProtocol {
  import opened PreferredNames
  import opened ProfileArchive
  import opened ProfileArchiveRuns
  import opened Wrappers

  /** One write of the applier: which operation, which row, and the collection it was decided on. */
  datatype Entry = Entry(index: nat, id: nat, seen: Store)

  datatype Status = Running | Failed(error: Error)

  /** `foreign` collects the ids of all rows another writer has changed since the start. */
  datatype Session = Session(store: Store, pc: nat, status: Status, log: seq<Entry>, foreign: set<nat>)

  ghost predicate Init(s: Session) {
    s.store.Valid() && s.pc == 0 && s.status == Running && s.log == [] && s.foreign == {}
  }

  ghost function WriteId(op: Operation, store: Store): nat {
    if op.action.Update? && op.existingId.Some? then op.existingId.value else store.next
  }

  ghost predicate ApplyStep(names: Naming, plan: Plan, s: Session, t: Session) {
    && s.status == Running && s.pc < |plan.operations|
    && var op := plan.operations[s.pc];
       var failure := Guard(names, plan, op, s.store);
       t == if failure.Some? then s.(status := Failed(failure.value))
            else s.(store := Write(plan, op, s.store), pc := s.pc + 1,
                    log := s.log + if op.action.Unchanged? then [] else [Entry(s.pc, WriteId(op, s.store), s.store)])
  }

  ghost predicate SameAt(a: map<nat, Row>, b: map<nat, Row>, id: nat) {
    (id in a <==> id in b) && (id in a ==> a[id] == b[id])
  }

  /** Any change to any rows; document ids are never handed out twice. */
  ghost predicate OtherStep(s: Session, t: Session) {
    && t.store.Valid() && s.store.next <= t.store.next
    && s.foreign <= t.foreign
    && (forall id | id !in t.foreign :: SameAt(s.store.rows, t.store.rows, id))
    && t == s.(store := t.store, foreign := t.foreign)
  }

  ghost predicate Next(names: Naming, plan: Plan, s: Session, t: Session) {
    ApplyStep(names, plan, s, t) || OtherStep(s, t)
  }

  ghost predicate Behaviour(names: Naming, plan: Plan, run: seq<Session>) {
    && run != [] && Init(run[0])
    && forall i | 0 <= i < |run| - 1 :: Next(names, plan, run[i], run[i + 1])
  }

  /** The positions of the operations that write, below `k`. */
  ghost function Writers(plan: Plan, k: nat): seq<nat>
    requires k <= |plan.operations|
  {
    if k == 0 then []
    else Writers(plan, k - 1) + if plan.operations[k - 1].action.Unchanged? then [] else [k - 1]
  }

  ghost function Indices(log: seq<Entry>): seq<nat> {
    if log == [] then [] else Indices(log[..|log| - 1]) + [log[|log| - 1].index]
  }

  /** The rows after the logged writes alone. */
  ghost function Replay(plan: Plan, rows: map<nat, Row>, log: seq<Entry>): map<nat, Row>
    requires forall e | e in log :: e.index < |plan.operations|
  {
    if log == [] then rows
    else
      var e := log[|log| - 1];
      Replay(plan, rows, log[..|log| - 1])[e.id := RowFor(plan, plan.operations[e.index])]
  }

  /** What justified a write at the moment it was made. */
  ghost predicate Justified(names: Naming, plan: Plan, e: Entry)
    requires e.index < |plan.operations|
  {
    var op := plan.operations[e.index];
    match op.action
    case Unchanged => false
    case Create =>
      && e.id !in e.seen.rows
      && Carriers(names, plan.scope, e.seen, op.identity) == {}
    case Update =>
      && op.existingId == Some(e.id) && e.id in e.seen.rows
      && op.before == Some(ArchiveState(e.seen.rows[e.id]))
  }

  ghost predicate Sound(names: Naming, plan: Plan, initial: Store, s: Session) {
    && s.pc <= |plan.operations| && s.store.Valid()
    && (forall e | e in s.log :: e.index < |plan.operations| && Justified(names, plan, e))
    && Indices(s.log) == Writers(plan, s.pc)
    && (forall id | id !in s.foreign :: SameAt(s.store.rows, Replay(plan, initial.rows, s.log), id))
    && (s.status.Failed? ==> s.pc < |plan.operations|)
  }

  lemma ApplyStepSound(names: Naming, plan: Plan, initial: Store, s: Session, t: Session)
    requires Sound(names, plan, initial, s) && ApplyStep(names, plan, s, t)
    ensures Sound(names, plan, initial, t)
  {
    hide ArchiveState, RowFor, Carriers, ScopedIds;
    var op := plan.operations[s.pc];
    if Guard(names, plan, op, s.store).None? && !op.action.Unchanged? {
      var e := Entry(s.pc, WriteId(op, s.store), s.store);
      assert t.log[..|t.log| - 1] == s.log;
      assert Justified(names, plan, e);
      assert t.store.rows == s.store.rows[e.id := RowFor(plan, op)];
    } else {
      assert t.log == s.log;
    }
  }

  lemma StepSound(names: Naming, plan: Plan, initial: Store, s: Session, t: Session)
    requires Sound(names, plan, initial, s) && Next(names, plan, s, t)
    ensures Sound(names, plan, initial, t)
  {
    hide ArchiveState, RowFor, Carriers, ScopedIds, Write, Guard, Justified;
    if ApplyStep(names, plan, s, t) {
      ApplyStepSound(names, plan, initial, s, t);
    }
  }

  /** Step `n` of the run makes the entry: the archive the entry records is the archive of the run at that
      moment, and the step leaves it with that one operation written. */
  ghost predicate WrittenAt(plan: Plan, run: seq<Session>, e: Entry, n: nat) {
    && n < |run| - 1 && run[n].pc == e.index < |plan.operations| && run[n].store == e.seen
    && run[n + 1].log == run[n].log + [e] && run[n + 1].store == Write(plan, plan.operations[e.index], run[n].store)
  }

  ghost predicate WrittenInRun(plan: Plan, run: seq<Session>, e: Entry) {
    exists n :: WrittenAt(plan, run, e, n)
  }

  lemma {:induction false} SeenInTheRun(names: Naming, plan: Plan, run: seq<Session>)
    requires Behaviour(names, plan, run)
    ensures forall e | e in run[|run| - 1].log :: WrittenInRun(plan, run, e)
  {
    hide Guard, Write;
    if |run| > 1 {
      var (front, k) := (run[..|run| - 1], |run| - 2);
      SeenInTheRun(names, plan, front);
      assert Next(names, plan, run[k], run[k + 1]);
      forall e | e in run[k + 1].log ensures WrittenInRun(plan, run, e) {
        if e in run[k].log {
          assert front[|front| - 1] == run[k] && WrittenInRun(plan, front, e);
          var n: nat :| WrittenAt(plan, front, e, n);
          assert front[n] == run[n] && front[n + 1] == run[n + 1];
          assert WrittenAt(plan, run, e, n);
        } else {
          assert WrittenAt(plan, run, e, k);
        }
      }
    }
  }

  /** Fail-closed application, in every interleaving with any other writer. Each write was justified by the
      archive of the run at the step that made it: no row was overwritten unless its state was the planned
      before-state, and no row was created while a row of the scope carried the identity. The writes made
      are those of the operations before the current (or failed) one, in order, each once; and every row
      no other writer has touched holds exactly what those writes left in it. */
  lemma {:induction false} FailClosed(names: Naming, plan: Plan, run: seq<Session>)
    requires Behaviour(names, plan, run)
    ensures Sound(names, plan, run[0].store, run[|run| - 1])
    ensures forall e | e in run[|run| - 1].log :: WrittenInRun(plan, run, e)
  {
    SeenInTheRun(names, plan, run);
    hide WrittenInRun;
    if |run| == 1 {
      assert Indices([]) == Writers(plan, 0);
    } else {
      FailClosed(names, plan, run[..|run| - 1]);
      StepSound(names, plan, run[0].store, run[|run| - 2], run[|run| - 1]);
    }
  }

  /** A failed session stays where it failed: nothing more is written. */
  lemma {:induction false} FailureIsFinal(names: Naming, plan: Plan, run: seq<Session>, i: nat)
    requires Behaviour(names, plan, run) && i < |run| && run[i].status.Failed?
    ensures run[|run| - 1].log == run[i].log && run[|run| - 1].pc == run[i].pc && run[|run| - 1].status == run[i].status
  {
    hide Write, Guard;
    if i < |run| - 1 {
      FailureIsFinal(names, plan, run[..|run| - 1], i);
      assert Next(names, plan, run[|run| - 2], run[|run| - 1]);
    }
  }

  /** A check fails only for a reason: the operation's row changed, its identity appeared, or the
      collection outgrew its budget. Read backwards: if another writer changed the planned row in
      any compared field, the step fails and writes nothing. */
  lemma StaleRowStopsTheSession(names: Naming, plan: Plan, s: Session, t: Session)
    requires ApplyStep(names, plan, s, t) && plan.operations[s.pc].action.Update?
    ensures var op := plan.operations[s.pc];
            (t.status == Failed(ArchiveChanged)
             <==> !(op.existingId.Some? && op.existingId.value in s.store.rows
                    && op.before == Some(ArchiveState(s.store.rows[op.existingId.value]))))
            && (t.status.Failed? ==> t.store == s.store && t.log == s.log)
  {
    hide ArchiveState, RowFor;
  }

  // ------------------------------------------------------------- several appliers at once

  /** Appliers over one collection; each holds its own plan and its own position. */
  datatype Fleet = Fleet(store: Store, pcs: seq<nat>, failed: set<nat>)

  /** An update keeps the name and the scope of the row it was planned on. */
  ghost predicate KeepsRow(plan: Plan, op: Operation) {
    op.action.Update? ==> op.before.Some? && SameName(op.before.value, OperationState(plan.scope, plan.watermark, op))
  }

  /** Besides, a creation carries its identity. */
  ghost predicate KeepsIdentity(names: Naming, plan: Plan, op: Operation) {
    KeepsRow(plan, op) && (op.action.Create? ==> Carries(names, op))
  }

  ghost predicate SameName(a: State, b: State) {
    && a.parameter == b.parameter && a.projectId == b.projectId && a.envId == b.envId && a.accountId == b.accountId
    && a.profileRevisionId == b.profileRevisionId && a.sourceKind == b.sourceKind
  }

  /** Worker `i` takes one step of its plan, or fails. */
  ghost predicate FleetStep(names: Naming, plans: seq<Plan>, s: Fleet, t: Fleet, i: nat) {
    && i < |plans| && i < |s.pcs| && i !in s.failed && s.pcs[i] < |plans[i].operations|
    && var op := plans[i].operations[s.pcs[i]];
       if Guard(names, plans[i], op, s.store).Some? then t == s.(failed := s.failed + {i})
       else t == s.(store := Write(plans[i], op, s.store), pcs := s.pcs[i := s.pcs[i] + 1])
  }

  ghost predicate FleetBehaviour(names: Naming, plans: seq<Plan>, run: seq<Fleet>, schedule: seq<nat>) {
    && |run| == |schedule| + 1 && run[0].store.Valid()
    && forall i | 0 <= i < |schedule| :: FleetStep(names, plans, run[i], run[i + 1], schedule[i])
  }

  /** Planning guarantees the first of every operation, and the second exactly of those that do not create
      a row under a name of another identity. */
  lemma PlannedOperationKeepsIdentity(names: Naming, inputs: Inputs, store: Store, plan: Plan, j: nat)
    requires Planned(names, inputs, store, plan) && j < |plan.operations|
    ensures KeepsRow(plan, plan.operations[j])
    ensures KeepsIdentity(names, plan, plan.operations[j]) <==> plan.operations[j].action.Create? ==> Carries(names, plan.operations[j])
  {
    hide PlanFor, Operations, Carries;
    PlanKeepsInputs(names, inputs, store, plan);
    OperationShape(names, inputs, store, plan, j);
    var op := plan.operations[j];
    if op.action.Update? {
      CarrierHasIdentity(names, inputs.scope, store, op.identity, op.existingId.value);
    }
  }

  /** Two rows of one scope with the same identity. */
  ghost predicate Rivals(names: Naming, a: Row, b: Row) {
    && a.projectId == b.projectId && a.envId == b.envId && a.accountId == b.accountId
    && a.profileRevisionId == b.profileRevisionId && a.sourceKind == SOURCE_KIND && b.sourceKind == SOURCE_KIND
    && names.IdOf(a.parameter) == names.IdOf(b.parameter) != ""
  }

  ghost predicate Unique(names: Naming, store: Store) {
    forall i, j | i in store.rows && j in store.rows && Rivals(names, store.rows[i], store.rows[j]) :: i == j
  }

  lemma UniqueMeansNoDuplicates(names: Naming, store: Store)
    ensures Unique(names, store) <==> forall scope :: NoDuplicates(names, scope, store)
  {
    if forall scope :: NoDuplicates(names, scope, store) {
      forall i, j | i in store.rows && j in store.rows && Rivals(names, store.rows[i], store.rows[j]) ensures i == j {
        var a := store.rows[i];
        var scope := Scope(a.projectId, a.envId, a.accountId, a.profileRevisionId);
        assert i in ScopedIds(scope, store) && j in ScopedIds(scope, store);
        assert NoDuplicates(names, scope, store);
      }
    }
  }

  /** The write would put a second row beside one that carries the identity its name stands for. */
  ghost predicate CreatesBeside(names: Naming, plan: Plan, op: Operation, store: Store) {
    op.action.Create? && names.IdOf(op.parameter) != "" && Carriers(names, plan.scope, store, names.IdOf(op.parameter)) != {}
  }

  lemma NewRowRivals(names: Naming, plan: Plan, op: Operation, store: Store, i: nat)
    requires i in store.rows
    ensures Rivals(names, store.rows[i], RowFor(plan, op))
            <==> names.IdOf(op.parameter) != "" && i in Carriers(names, plan.scope, store, names.IdOf(op.parameter))
  {
    assert i in ScopedIds(plan.scope, store) <==> InScope(plan.scope, store.rows[i]);
  }

  lemma OverwrittenRowHasSameRivals(names: Naming, plan: Plan, op: Operation, was: Row, other: Row)
    requires op.action.Update? && KeepsRow(plan, op) && op.before == Some(ArchiveState(was))
    ensures Rivals(names, other, RowFor(plan, op)) <==> Rivals(names, other, was)
  {
  }

  lemma RivalsAreSymmetric(names: Naming, rows: map<nat, Row>, b: Row)
    ensures forall i | i in rows :: Rivals(names, rows[i], b) <==> Rivals(names, b, rows[i])
  {
  }

  lemma CreationKeepsUniqueIff(names: Naming, plan: Plan, op: Operation, store: Store)
    requires op.action.Create? && store.Valid()
    ensures Unique(names, Write(plan, op, store)) <==> Unique(names, store) && !CreatesBeside(names, plan, op, store)
  {
    hide RowFor, Carriers, ScopedIds, Rivals, Naming.IdOf;
    var after := Write(plan, op, store);
    var (id, row) := (store.next, RowFor(plan, op));
    assert after.rows == store.rows[id := row] && id !in store.rows;
    forall i | i in store.rows
      ensures Rivals(names, store.rows[i], row)
              <==> names.IdOf(op.parameter) != "" && i in Carriers(names, plan.scope, store, names.IdOf(op.parameter))
    {
      NewRowRivals(names, plan, op, store, i);
    }
    CarriersAreRows(names, plan.scope, store, names.IdOf(op.parameter));
    RivalsAreSymmetric(names, store.rows, row);
    if Unique(names, after) {
      forall i, j | i in store.rows && j in store.rows && Rivals(names, store.rows[i], store.rows[j]) ensures i == j {
        assert i in after.rows && j in after.rows && after.rows[i] == store.rows[i] && after.rows[j] == store.rows[j];
      }
      forall i | i in store.rows ensures !Rivals(names, store.rows[i], row) {
        assert i in after.rows && id in after.rows && i != id;
      }
    }
  }

  lemma CarriersAreRows(names: Naming, scope: Scope, store: Store, identity: string)
    ensures forall i | i in Carriers(names, scope, store, identity) :: i in store.rows
  {
  }

  lemma UpdateKeepsUniqueIff(names: Naming, plan: Plan, op: Operation, store: Store)
    requires op.action.Update? && KeepsRow(plan, op) && store.Valid() && Guard(names, plan, op, store).None?
    ensures Unique(names, Write(plan, op, store)) <==> Unique(names, store)
  {
    hide ArchiveState, RowFor, Carriers, ScopedIds, Rivals, KeepsRow;
    var after := Write(plan, op, store);
    var (id, row) := (op.existingId.value, RowFor(plan, op));
    var was := store.rows[id];
    assert after.rows == store.rows[id := row] && after.rows.Keys == store.rows.Keys;
    forall i | i in store.rows ensures Rivals(names, store.rows[i], row) <==> Rivals(names, store.rows[i], was) {
      OverwrittenRowHasSameRivals(names, plan, op, was, store.rows[i]);
    }
    RivalsAreSymmetric(names, store.rows, row);
    RivalsAreSymmetric(names, store.rows, was);
    if Unique(names, after) {
      forall i, j | i in store.rows && j in store.rows && Rivals(names, store.rows[i], store.rows[j]) ensures i == j {
        assert i in after.rows && j in after.rows;
      }
    }
  }

  /** One write keeps the identities unique exactly when it does not create beside a carrier, and no write
      makes them unique again. */
  lemma WriteKeepsUniqueIff(names: Naming, plan: Plan, op: Operation, store: Store)
    requires KeepsRow(plan, op) && store.Valid() && Guard(names, plan, op, store).None?
    ensures Write(plan, op, store).Valid()
    ensures Unique(names, Write(plan, op, store)) <==> Unique(names, store) && !CreatesBeside(names, plan, op, store)
  {
    hide ArchiveState, RowFor, Carriers, ScopedIds, Rivals, KeepsRow, Unique;
    if op.action.Create? {
      CreationKeepsUniqueIff(names, plan, op, store);
    } else if op.action.Update? {
      UpdateKeepsUniqueIff(names, plan, op, store);
    }
  }

  /** Step `n` of the schedule does not create a row beside a carrier. */
  ghost predicate CleanStep(names: Naming, plans: seq<Plan>, run: seq<Fleet>, schedule: seq<nat>, n: nat)
    requires FleetBehaviour(names, plans, run, schedule) && n < |schedule|
  {
    assert FleetStep(names, plans, run[n], run[n + 1], schedule[n]);
    var (plan, store) := (plans[schedule[n]], run[n].store);
    var op := plan.operations[run[n].pcs[schedule[n]]];
    Guard(names, plan, op, store).None? ==> !CreatesBeside(names, plan, op, store)
  }

  /** Any number of appliers at once, in any schedule, with check and save as one step: the identities of a
      scope end up unique exactly when no step created a row beside one that carried the identity its name
      stands for. */
  lemma {:induction false} ConcurrentApplyUniqueIff(names: Naming, plans: seq<Plan>, run: seq<Fleet>, schedule: seq<nat>)
    requires FleetBehaviour(names, plans, run, schedule)
    requires forall p | p in plans :: forall op | op in p.operations :: KeepsRow(p, op)
    requires Unique(names, run[0].store)
    ensures run[|run| - 1].store.Valid()
    ensures Unique(names, run[|run| - 1].store) <==> forall n | 0 <= n < |schedule| :: CleanStep(names, plans, run, schedule, n)
  {
    hide Guard, Write, Unique, KeepsRow, CreatesBeside;
    if |schedule| > 0 {
      var n := |schedule| - 1;
      var (front, past) := (run[..n + 1], schedule[..n]);
      assert FleetBehaviour(names, plans, front, past);
      ConcurrentApplyUniqueIff(names, plans, front, past);
      forall m | 0 <= m < n ensures CleanStep(names, plans, front, past, m) <==> CleanStep(names, plans, run, schedule, m) {
      }
      var s, i := run[n], schedule[n];
      assert FleetStep(names, plans, s, run[n + 1], i);
      var op := plans[i].operations[s.pcs[i]];
      assert plans[i] in plans && op in plans[i].operations;
      if Guard(names, plans[i], op, s.store).None? {
        WriteKeepsUniqueIff(names, plans[i], op, s.store);
      }
      assert CleanStep(names, plans, run, schedule, n)
             <==> (Guard(names, plans[i], op, s.store).None? ==> !CreatesBeside(names, plans[i], op, s.store));
    }
  }

  /** A creation that carries its identity is never beside a carrier: the check has looked for it. */
  lemma CheckedCreationIsAlone(names: Naming, plan: Plan, op: Operation, store: Store)
    requires KeepsIdentity(names, plan, op) && Guard(names, plan, op, store).None?
    ensures !CreatesBeside(names, plan, op, store)
  {
    hide ArchiveState, Carriers, ScopedIds;
  }

  /** In particular, if every creation carries its identity, no identity of a scope ever gets a second row. */
  lemma ConcurrentApplyKeepsIdentitiesUnique(names: Naming, plans: seq<Plan>, run: seq<Fleet>, schedule: seq<nat>)
    requires FleetBehaviour(names, plans, run, schedule)
    requires forall p | p in plans :: forall op | op in p.operations :: KeepsIdentity(names, p, op)
    requires Unique(names, run[0].store)
    ensures run[|run| - 1].store.Valid() && Unique(names, run[|run| - 1].store)
  {
    hide Guard, Write, Unique, KeepsRow, CreatesBeside, Carries;
    ConcurrentApplyUniqueIff(names, plans, run, schedule);
    forall n | 0 <= n < |schedule| ensures CleanStep(names, plans, run, schedule, n) {
      assert FleetStep(names, plans, run[n], run[n + 1], schedule[n]);
      var (plan, store) := (plans[schedule[n]], run[n].store);
      var op := plan.operations[run[n].pcs[schedule[n]]];
      assert plan in plans && op in plan.operations;
      if Guard(names, plan, op, store).None? {
        CheckedCreationIsAlone(names, plan, op, store);
      }
    }
  }
}
