/** `apiAnalysis/rule/profile_parameter_archive.py`: the planner that merges profile-scoped samples
    into the `parameterArchive` collection, and the fail-closed application of a reviewed plan.
    A SHA-256 of a state or of a plan is represented by the hashed data itself. */
module ProfileArchive {
  import opened Order
  import opened Distinct
  import opened PreferredNames
  import opened Wrappers

  const SOURCE_KIND := "profile_scoped_request_sample_v1"

  // ------------------------------------------------------------------------ values and rows

  /** A stored value. `Doc` is a stored list or object, identified by its JSON text. */
  datatype Value = Str(s: string) | Int(n: int) | Bool(b: bool) | Num(x: real) | Doc(json: string)

  /** `_value_key` pairs the type name with the JSON text, so it separates all values. */
  function ValueKey(v: Value): Value { v }

  function Numeric(v: Value): Option<real> {
    match v
    case Int(n) => Some(n as real)
    case Bool(b) => Some(if b then 1.0 else 0.0)
    case Num(x) => Some(x)
    case _ => None
  }

  /** Python's `==` on stored values: `1`, `1.0` and `True` are equal although their keys differ. */
  predicate PyEqual(a: Value, b: Value) {
    a == b || (Numeric(a).Some? && Numeric(a) == Numeric(b))
  }

  predicate PyEqualSeq(a: seq<Value>, b: seq<Value>) {
    |a| == |b| && forall i | 0 <= i < |a| :: PyEqual(a[i], b[i])
  }

  /** An element of a stored path-id list: convertible by `int()`, not convertible, or nested. */
  datatype PathEntry = Id(n: int) | Junk | Nested(entries: seq<PathEntry>)

  function EntryIds(e: PathEntry): set<int> {
    match e
    case Id(n) => {n}
    case Junk => {}
    case Nested(entries) => set i, k | 0 <= i < |entries| && k in EntryIds(entries[i]) :: k
  }

  function PathIds(entries: seq<PathEntry>): set<int> {
    set i, k | 0 <= i < |entries| && k in EntryIds(entries[i]) :: k
  }

  function EntrySize(e: PathEntry): nat {
    match e
    case Nested(entries) => 1 + EntriesSize(entries)
    case _ => 1
  }

  function EntriesSize(entries: seq<PathEntry>): nat {
    if entries == [] then 0
    else EntriesSize(entries[..|entries| - 1]) + EntrySize(entries[|entries| - 1])
  }

  lemma {:induction false} EntriesSizeAppend(a: seq<PathEntry>, b: seq<PathEntry>)
    ensures EntriesSize(a + b) == EntriesSize(a) + EntriesSize(b)
  {
    if b == [] {
      assert a + b == a;
    } else {
      assert (a + b)[..|a + b| - 1] == a + b[..|b| - 1];
      EntriesSizeAppend(a, b[..|b| - 1]);
    }
  }

  lemma PathIdsAppend(a: seq<PathEntry>, b: seq<PathEntry>)
    ensures PathIds(a + b) == PathIds(a) + PathIds(b)
  {
    forall k | k in PathIds(a) + PathIds(b) ensures k in PathIds(a + b) {
      if k in PathIds(a) {
        var i :| 0 <= i < |a| && k in EntryIds(a[i]);
        assert (a + b)[i] == a[i];
      } else {
        var i :| 0 <= i < |b| && k in EntryIds(b[i]);
        assert (a + b)[|a| + i] == b[i];
      }
    }
  }

  /** `_normalized_pathids`: a worklist that unfolds nested lists from the end. */
  method NormalizedPathids(values: seq<PathEntry>) returns (result: set<int>)
    ensures result == PathIds(values)
  {
    result := {};
    var pending := values;
    while pending != []
      invariant result + PathIds(pending) == PathIds(values)
      decreases EntriesSize(pending)
    {
      var front, value := pending[..|pending| - 1], pending[|pending| - 1];
      assert pending == front + [value];
      assert EntriesSize(pending) == EntriesSize(front) + EntrySize(value);
      PathIdsAppend(front, [value]);
      assert PathIds([value]) == EntryIds(value);
      match value {
        case Nested(entries) =>
          assert EntryIds(value) == PathIds(entries);
          PathIdsAppend(front, entries);
          EntriesSizeAppend(front, entries);
          pending := front + entries;
        case Id(n) =>
          result := result + {n};
          pending := front;
        case Junk =>
          pending := front;
      }
    }
  }

  datatype Row = Row(parameter: string, parameterids: seq<int>,
                     reqPathids: seq<PathEntry>, resPathids: seq<PathEntry>,
                     reqValues: seq<Value>, resValues: seq<Value>, properties: seq<string>,
                     modificator: string, projectId: string, envId: string, accountId: string,
                     profileRevisionId: string, sourceKind: string, watermark: string)

  /** The comparable state of a row or of a planned operation. */
  datatype State = State(parameter: string, parameterids: seq<int>, reqPathids: seq<int>, resPathids: seq<int>,
                         reqValues: seq<Value>, resValues: seq<Value>, properties: seq<string>,
                         modificator: string, projectId: string, envId: string, accountId: string,
                         profileRevisionId: string, sourceKind: string, watermark: string)

  lemma IntLeOrder()
    ensures LinearOrder(IntLe)
  {
  }

  function SortedInts(s: set<int>): (r: seq<int>)
    ensures forall x :: x in r <==> x in s
  {
    IntLeOrder();
    SortedSet(s, IntLe)
  }

  function SortedStrings(s: set<string>): (r: seq<string>)
    ensures forall x :: x in r <==> x in s
  {
    StrLeOrder();
    SortedSet(s, StrLe)
  }

  function NonEmpty(s: seq<string>): (r: seq<string>)
    ensures forall x :: x in r <==> x in s && x != ""
    ensures "" !in s ==> r == s
  {
    if s == [] then [] else (if s[0] != "" then [s[0]] else []) + NonEmpty(s[1..])
  }

  /** `_archive_state`. */
  function ArchiveState(row: Row): State {
    State(row.parameter, Sort(row.parameterids, IntLe), SortedInts(PathIds(row.reqPathids)), SortedInts(PathIds(row.resPathids)),
          row.reqValues, row.resValues, Sort(NonEmpty(row.properties), StrLe), row.modificator, row.projectId, row.envId,
          row.accountId, row.profileRevisionId, row.sourceKind, row.watermark)
  }

  /** Python's `==` on two states. */
  predicate SameState(a: State, b: State) {
    a.(reqValues := [], resValues := []) == b.(reqValues := [], resValues := [])
    && PyEqualSeq(a.reqValues, b.reqValues) && PyEqualSeq(a.resValues, b.resValues)
  }

  // ------------------------------------------------------------------------ planning inputs

  datatype Scope = Scope(projectId: string, envId: string, accountKey: string, profileRevisionId: string)

  datatype Limits = Limits(maxExisting: nat, maxValues: nat)

  /** One observed parameter occurrence with the scalar values accepted from a sample. */
  datatype Occurrence = Occurrence(parameter: string, hint: string, request: bool, pathid: int, accepted: seq<Value>)

  datatype Group = Group(aliases: seq<string>, reqPathids: set<int>, resPathids: set<int>,
                         reqValues: seq<Value>, resValues: seq<Value>)

  const EMPTY_GROUP := Group([], {}, {}, [], [])

  function Observe(names: Naming, g: Group, o: Occurrence): Group {
    var alias := names.alias(o.parameter, o.hint);
    var named := if alias != "" then g.(aliases := g.aliases + [alias]) else g;
    if o.request then named.(reqPathids := g.reqPathids + {o.pathid}, reqValues := g.reqValues + o.accepted)
    else named.(resPathids := g.resPathids + {o.pathid}, resValues := g.resValues + o.accepted)
  }

  predicate Counts(names: Naming, o: Occurrence) {
    names.identity(o.parameter, o.hint) != "" && o.accepted != []
  }

  /** The groups by identity after a stream of occurrences. */
  function Groups(names: Naming, occurrences: seq<Occurrence>): map<string, Group> {
    if occurrences == [] then map[]
    else
      var before := Groups(names, occurrences[..|occurrences| - 1]);
      var o := occurrences[|occurrences| - 1];
      if !Counts(names, o) then before
      else
        var identity := names.identity(o.parameter, o.hint);
        before[identity := Observe(names, if identity in before then before[identity] else EMPTY_GROUP, o)]
  }

  /** The grouping loop: each occurrence is added to the group of its identity. */
  method GroupOccurrences(names: Naming, occurrences: seq<Occurrence>) returns (groups: map<string, Group>)
    ensures groups == Groups(names, occurrences)
  {
    groups := map[];
    for i := 0 to |occurrences|
      invariant groups == Groups(names, occurrences[..i])
    {
      assert occurrences[..i + 1][..i] == occurrences[..i];
      var o := occurrences[i];
      var identity := names.identity(o.parameter, o.hint);
      if identity == "" || o.accepted == [] {
        continue;
      }
      var group := if identity in groups then groups[identity] else EMPTY_GROUP;
      var alias := names.alias(o.parameter, o.hint);
      if alias != "" {
        group := group.(aliases := group.aliases + [alias]);
      }
      if o.request {
        group := group.(reqPathids := group.reqPathids + {o.pathid}, reqValues := group.reqValues + o.accepted);
      } else {
        group := group.(resPathids := group.resPathids + {o.pathid}, resValues := group.resValues + o.accepted);
      }
      groups := groups[identity := group];
    }
    assert occurrences[..|occurrences|] == occurrences;
  }

  /** Every group is named by the occurrences that formed it. */
  ghost predicate NamedBy(names: Naming, identity: string, g: Group) {
    && identity != "" && g.aliases != []
    && forall a | a in g.aliases :: exists p, h :: names.identity(p, h) == identity && names.alias(p, h) == a
  }

  lemma {:induction false} GroupsAreNamed(names: Naming, occurrences: seq<Occurrence>)
    requires names.Lawful()
    ensures forall i | i in Groups(names, occurrences) :: NamedBy(names, i, Groups(names, occurrences)[i])
  {
    if occurrences != [] {
      GroupsAreNamed(names, occurrences[..|occurrences| - 1]);
      var before := Groups(names, occurrences[..|occurrences| - 1]);
      var o := occurrences[|occurrences| - 1];
      if Counts(names, o) {
        var identity := names.identity(o.parameter, o.hint);
        var prior := if identity in before then before[identity] else EMPTY_GROUP;
        var g := Observe(names, prior, o);
        assert names.alias(o.parameter, o.hint) != "";
        assert g.aliases == prior.aliases + [names.alias(o.parameter, o.hint)];
        assert NamedBy(names, identity, g);
      }
    }
  }

  /** Everything a plan depends on besides the archive itself. */
  datatype Inputs = Inputs(scope: Scope, limits: Limits, occurrences: seq<Occurrence>,
                           parameterIds: map<string, set<int>>, watermark: string, anySample: bool)

  // ------------------------------------------------------------------------ the archive

  datatype Store = Store(rows: map<nat, Row>, next: nat) {
    ghost predicate Valid() {
      forall i | i in rows :: i < next
    }
  }

  predicate InScope(scope: Scope, row: Row) {
    && row.projectId == scope.projectId && row.envId == scope.envId && row.accountId == scope.accountKey
    && row.profileRevisionId == scope.profileRevisionId && row.sourceKind == SOURCE_KIND
  }

  function ScopedIds(scope: Scope, store: Store): set<nat> {
    set i | i in store.rows && InScope(scope, store.rows[i])
  }

  /** The rows of the scope that carry an identity. */
  function Carriers(names: Naming, scope: Scope, store: Store, identity: string): set<nat> {
    set i | i in ScopedIds(scope, store) && names.IdOf(store.rows[i].parameter) == identity
  }

  ghost predicate NoDuplicates(names: Naming, scope: Scope, store: Store) {
    forall i, j | i in ScopedIds(scope, store) && j in ScopedIds(scope, store)
                  && names.IdOf(store.rows[i].parameter) == names.IdOf(store.rows[j].parameter) != "" :: i == j
  }

  ghost function Lookup(names: Naming, scope: Scope, store: Store, identity: string): (r: Option<nat>)
    ensures r.Some? ==> r.value in Carriers(names, scope, store, identity)
    ensures r.None? ==> Carriers(names, scope, store, identity) == {}
  {
    var c := Carriers(names, scope, store, identity);
    if c == {} then None else var i :| i in c; Some(i)
  }

  // ------------------------------------------------------------------------ plans

  datatype Action = Create | Update | Unchanged

  datatype Operation = Operation(identity: string, parameter: string, parameterids: seq<int>,
                                 reqPathids: seq<int>, resPathids: seq<int>,
                                 reqValues: seq<Value>, resValues: seq<Value>, properties: seq<string>,
                                 existingId: Option<nat>, before: Option<State>, action: Action)

  datatype Blocker = SamplesUnavailable | ValuesUnavailable

  datatype Plan = Plan(scope: Scope, limits: Limits, watermark: string, operations: seq<Operation>, blockers: seq<Blocker>)

  /** What the plan hash covers. */
  datatype Digest = Digest(watermark: string, operations: seq<Operation>, blockers: seq<Blocker>)

  function DigestOf(plan: Plan): Digest {
    Digest(plan.watermark, plan.operations, plan.blockers)
  }

  datatype Error = BudgetExceeded | DuplicateIdentity | Blocked | HashMismatch | ArchiveChanged

  /** `_operation_state`. */
  function OperationState(scope: Scope, watermark: string, op: Operation): State {
    State(op.parameter, op.parameterids, op.reqPathids, op.resPathids, op.reqValues, op.resValues, op.properties,
          SOURCE_KIND, scope.projectId, scope.envId, scope.accountKey, scope.profileRevisionId, SOURCE_KIND, watermark)
  }

  ghost function Merge(limits: Limits, existing: seq<Value>, additions: seq<Value>): seq<Value> {
    FirstDistinct(existing + additions, ValueKey, limits.maxValues)
  }

  const NO_ROW := Row("", [], [], [], [], [], [], "", "", "", "", "", "", "")

  /** The stored row an operation starts from; a missing row contributes nothing. */
  function RowAt(store: Store, at: Option<nat>): Row {
    if at.Some? && at.value in store.rows then store.rows[at.value] else NO_ROW
  }

  function MetadataIds(inputs: Inputs, identity: string): set<int> {
    if identity in inputs.parameterIds then inputs.parameterIds[identity] else {}
  }

  function DisplayName(names: Naming, identity: string, g: Group, existing: Row): string {
    if existing.parameter != "" then existing.parameter else PreferredName(names.IdOf, identity, g.aliases)
  }

  /** The merged contents planned for one identity, before the action is decided. */
  ghost function Drafted(names: Naming, inputs: Inputs, identity: string, g: Group, at: Option<nat>, existing: Row): Operation {
    Operation(identity, DisplayName(names, identity, g, existing),
              SortedInts(MetadataIds(inputs, identity) + set x | x in existing.parameterids),
              SortedInts(PathIds(existing.reqPathids) + g.reqPathids),
              SortedInts(PathIds(existing.resPathids) + g.resPathids),
              Merge(inputs.limits, existing.reqValues, g.reqValues),
              Merge(inputs.limits, existing.resValues, g.resValues),
              SortedStrings((set x | x in existing.properties && x != "") + {SOURCE_KIND}),
              at, if at.Some? then Some(ArchiveState(existing)) else None, Create)
  }

  function Decide(inputs: Inputs, draft: Operation): Operation {
    if draft.existingId.None? || draft.before.None? then draft.(action := Create)
    else if SameState(draft.before.value, OperationState(inputs.scope, inputs.watermark, draft)) then draft.(action := Unchanged)
    else draft.(action := Update)
  }

  ghost function OperationFor(names: Naming, inputs: Inputs, identity: string, g: Group, store: Store): Operation {
    var at := Lookup(names, inputs.scope, store, identity);
    Decide(inputs, Drafted(names, inputs, identity, g, at, RowAt(store, at)))
  }

  function Identities(groups: map<string, Group>): (r: seq<string>)
    ensures forall x :: x in r <==> x in groups
  {
    SortedStrings(groups.Keys)
  }

  ghost function Operations(names: Naming, inputs: Inputs, store: Store): seq<Operation> {
    var groups := Groups(names, inputs.occurrences);
    var ids := Identities(groups);
    seq(|ids|, i requires 0 <= i < |ids| => OperationFor(names, inputs, ids[i], groups[ids[i]], store))
  }

  function Blockers(anySample: bool, anyOperation: bool): seq<Blocker> {
    if !anySample then [SamplesUnavailable] else if !anyOperation then [ValuesUnavailable] else []
  }

  /** What `build_profile_archive_plan` must return. */
  ghost function PlanFor(names: Naming, inputs: Inputs, store: Store): Result<Plan, Error> {
    if |ScopedIds(inputs.scope, store)| > inputs.limits.maxExisting then Err(BudgetExceeded)
    else if !NoDuplicates(names, inputs.scope, store) then Err(DuplicateIdentity)
    else
      var ops := Operations(names, inputs, store);
      Ok(Plan(inputs.scope, inputs.limits, inputs.watermark, ops, Blockers(inputs.anySample, ops != [])))
  }

  // ------------------------------------------------------------------------ application

  /** The stored form of a planned state; every field of the row is overwritten. */
  function RowFor(plan: Plan, op: Operation): Row {
    Row(op.parameter, op.parameterids, AsEntries(op.reqPathids), AsEntries(op.resPathids), op.reqValues, op.resValues,
        op.properties, SOURCE_KIND, plan.scope.projectId, plan.scope.envId, plan.scope.accountKey,
        plan.scope.profileRevisionId, SOURCE_KIND, plan.watermark)
  }

  function AsEntries(ids: seq<int>): (r: seq<PathEntry>)
    ensures |r| == |ids| && forall i | 0 <= i < |ids| :: r[i] == Id(ids[i])
  {
    seq(|ids|, i requires 0 <= i < |ids| => Id(ids[i]))
  }

  /** The check made just before a write. */
  function Guard(names: Naming, plan: Plan, op: Operation, store: Store): Option<Error> {
    match op.action
    case Unchanged => None
    case Create =>
      if |ScopedIds(plan.scope, store)| > plan.limits.maxExisting then Some(BudgetExceeded)
      else if Carriers(names, plan.scope, store, op.identity) != {} then Some(ArchiveChanged)
      else None
    case Update =>
      if op.existingId.Some? && op.existingId.value in store.rows
         && op.before == Some(ArchiveState(store.rows[op.existingId.value]))
      then None
      else Some(ArchiveChanged)
  }

  /** The write itself: a new row, or the planned row overwritten. */
  function Write(plan: Plan, op: Operation, store: Store): Store {
    match op.action
    case Unchanged => store
    case Create => Store(store.rows[store.next := RowFor(plan, op)], store.next + 1)
    case Update =>
      if op.existingId.Some? then store.(rows := store.rows[op.existingId.value := RowFor(plan, op)]) else store
  }

  datatype Outcome = Outcome(store: Store, writes: nat, failed: Option<Error>)

  /** One turn of the apply loop; a failed check ends the work. */
  function Step(names: Naming, plan: Plan, op: Operation, o: Outcome): Outcome {
    if o.failed.Some? then o
    else
      var failure := Guard(names, plan, op, o.store);
      if failure.Some? then o.(failed := failure)
      else Outcome(Write(plan, op, o.store), o.writes + if op.action.Unchanged? then 0 else 1, None)
  }

  /** The archive after the first `k` operations of a plan, or at the first failing check. */
  function Run(names: Naming, plan: Plan, k: nat, store: Store): Outcome
    requires k <= |plan.operations|
  {
    if k == 0 then Outcome(store, 0, None)
    else Step(names, plan, plan.operations[k - 1], Run(names, plan, k - 1, store))
  }

  lemma {:induction false} FailureSticks(names: Naming, plan: Plan, j: nat, k: nat, store: Store)
    requires j <= k <= |plan.operations|
    requires Run(names, plan, j, store).failed.Some?
    ensures Run(names, plan, k, store) == Run(names, plan, j, store)
  {
    hide Guard, Write;
    if j < k {
      FailureSticks(names, plan, j, k - 1, store);
    }
  }

  /** The MongoDB collection, with the document ids it hands out. */
  class Collection {
    var rows: map<nat, Row>
    var next: nat

    function Contents(): Store
      reads this
    {
      Store(rows, next)
    }

    constructor (initial: Store)
      ensures Contents() == initial
    {
      rows, next := initial.rows, initial.next;
    }

    method Save(row: Row, at: Option<nat>)
      modifies this
      ensures at.None? ==> Contents() == Store(old(rows)[old(next) := row], old(next) + 1)
      ensures at.Some? ==> Contents() == Store(old(rows)[at.value := row], old(next))
    {
      if at.None? {
        rows, next := rows[next := row], next + 1;
      } else {
        rows := rows[at.value := row];
      }
    }

    /** `apply_profile_archive_plan`: nothing is written unless the plan is unblocked and is the
        reviewed one; otherwise operations are applied in order up to the first failing check. */
    method Apply(names: Naming, plan: Plan, expected: Digest) returns (result: Result<nat, Error>)
      modifies this
      ensures plan.blockers != [] ==> result == Err(Blocked) && Contents() == old(Contents())
      ensures plan.blockers == [] && expected != DigestOf(plan) ==> result == Err(HashMismatch) && Contents() == old(Contents())
      ensures plan.blockers == [] && expected == DigestOf(plan) ==>
                var o := Run(names, plan, |plan.operations|, old(Contents()));
                && Contents() == o.store
                && result == if o.failed.Some? then Err(o.failed.value) else Ok(o.writes)
    {
      if plan.blockers != [] {
        return Err(Blocked);
      }
      if expected != DigestOf(plan) {
        return Err(HashMismatch);
      }
      result := ApplyAll(names, plan);
    }

    method ApplyAll(names: Naming, plan: Plan) returns (result: Result<nat, Error>)
      modifies this
      ensures var o := Run(names, plan, |plan.operations|, old(Contents()));
              && Contents() == o.store
              && result == if o.failed.Some? then Err(o.failed.value) else Ok(o.writes)
    {
      hide Guard, Write;
      var writes := 0;
      ghost var start := Contents();
      for i := 0 to |plan.operations|
        invariant Run(names, plan, i, start) == Outcome(Contents(), writes, None)
      {
        var failure := ApplyOne(names, plan, plan.operations[i]);
        if failure.Some? {
          FailureSticks(names, plan, i + 1, |plan.operations|, start);
          return Err(failure.value);
        }
        if !plan.operations[i].action.Unchanged? {
          writes := writes + 1;
        }
      }
      return Ok(writes);
    }

    /** Check, then save: one step of the protocol. */
    method ApplyOne(names: Naming, plan: Plan, op: Operation) returns (failure: Option<Error>)
      modifies this
      ensures failure == Guard(names, plan, op, old(Contents()))
      ensures Contents() == if failure.Some? then old(Contents()) else Write(plan, op, old(Contents()))
    {
      hide ArchiveState, RowFor, ScopedIds, Carriers;
      failure := None;
      match op.action {
        case Unchanged =>
        case Create =>
          var conflicts := FindConflicts(names, plan.scope, plan.limits.maxExisting, op.identity);
          if conflicts.Err? {
            return Some(conflicts.error);
          }
          if conflicts.value != {} {
            return Some(ArchiveChanged);
          }
          Save(RowFor(plan, op), None);
        case Update =>
          if op.existingId.None? || op.existingId.value !in rows || op.before != Some(ArchiveState(rows[op.existingId.value])) {
            return Some(ArchiveChanged);
          }
          Save(RowFor(plan, op), op.existingId);
      }
    }

    /** The scan before a creation: the rows of the scope are bounded, then searched for the identity. */
    method FindConflicts(names: Naming, scope: Scope, limit: nat, identity: string) returns (conflicts: Result<set<nat>, Error>)
      ensures conflicts == if |ScopedIds(scope, Contents())| > limit then Err(BudgetExceeded)
                           else Ok(Carriers(names, scope, Contents(), identity))
    {
      var pending := ScopedIds(scope, Contents());
      if |pending| > limit {
        return Err(BudgetExceeded);
      }
      var found: set<nat> := {};
      while pending != {}
        invariant pending <= ScopedIds(scope, Contents())
        invariant found == Carriers(names, scope, Contents(), identity) - pending
      {
        var i :| i in pending;
        pending := pending - {i};
        if names.IdOf(rows[i].parameter) == identity {
          found := found + {i};
        }
      }
      return Ok(found);
    }

    /** The loop that indexes the existing rows of the scope by identity. */
    method IndexExisting(names: Naming, scope: Scope, limit: nat) returns (index: Result<map<string, nat>, Error>)
      ensures index == Err(BudgetExceeded) <==> |ScopedIds(scope, Contents())| > limit
      ensures index == Err(DuplicateIdentity) <==>
                |ScopedIds(scope, Contents())| <= limit && !NoDuplicates(names, scope, Contents())
      ensures index.Ok? ==> NoDuplicates(names, scope, Contents())
                            && forall identity | identity != "" ::
                                 Lookup(names, scope, Contents(), identity)
                                 == if identity in index.value then Some(index.value[identity]) else None
      ensures index.Ok? ==> "" !in index.value
      ensures index.Err? ==> index.error.BudgetExceeded? || index.error.DuplicateIdentity?
    {
      var pending := ScopedIds(scope, Contents());
      if |pending| > limit {
        return Err(BudgetExceeded);
      }
      var found: map<string, nat> := map[];
      while pending != {}
        invariant pending <= ScopedIds(scope, Contents())
        invariant "" !in found
        invariant forall k | k in found :: found[k] in Carriers(names, scope, Contents(), k) && found[k] !in pending
        invariant forall i | i in ScopedIds(scope, Contents()) && i !in pending ::
                    var identity := names.IdOf(rows[i].parameter);
                    identity != "" ==> identity in found && found[identity] == i
      {
        var i :| i in pending;
        pending := pending - {i};
        var identity := names.IdOf(rows[i].parameter);
        if identity == "" {
          continue;
        }
        if identity in found {
          assert i in ScopedIds(scope, Contents()) && found[identity] in ScopedIds(scope, Contents());
          return Err(DuplicateIdentity);
        }
        found := found[identity := i];
      }
      forall identity | identity != ""
        ensures Lookup(names, scope, Contents(), identity) == if identity in found then Some(found[identity]) else None
      {
        var r := Lookup(names, scope, Contents(), identity);
        if identity in found {
          assert found[identity] in Carriers(names, scope, Contents(), identity);
        }
      }
      return Ok(found);
    }

    /** `build_profile_archive_plan`, from the accepted occurrences on. */
    method BuildPlan(names: Naming, inputs: Inputs) returns (plan: Result<Plan, Error>)
      requires names.Lawful() && 1 <= inputs.limits.maxValues
      ensures plan == PlanFor(names, inputs, Contents())
    {
      var groups := GroupOccurrences(names, inputs.occurrences);
      GroupsAreNamed(names, inputs.occurrences);
      var index := IndexExisting(names, inputs.scope, inputs.limits.maxExisting);
      if index.Err? {
        return Err(index.error);
      }
      var ops := PlanAll(names, inputs, groups, index.value);
      return Ok(Plan(inputs.scope, inputs.limits, inputs.watermark, ops, Blockers(inputs.anySample, ops != [])));
    }

    method PlanAll(names: Naming, inputs: Inputs, groups: map<string, Group>, index: map<string, nat>)
      returns (ops: seq<Operation>)
      requires 1 <= inputs.limits.maxValues
      requires groups == Groups(names, inputs.occurrences) && "" !in groups
      requires forall identity | identity != "" ::
                 Lookup(names, inputs.scope, Contents(), identity) == if identity in index then Some(index[identity]) else None
      ensures ops == Operations(names, inputs, Contents())
    {
      hide Lookup, Groups, OperationFor;
      var ids := Identities(groups);
      ops := [];
      for i := 0 to |ids|
        invariant |ops| == i
        invariant forall j | 0 <= j < i :: ops[j] == OperationFor(names, inputs, ids[j], groups[ids[j]], Contents())
      {
        var identity := ids[i];
        assert identity in groups;
        var op := PlanOne(names, inputs, identity, groups[identity],
                          if identity in index then Some(index[identity]) else None);
        ops := ops + [op];
      }
    }

    method PlanOne(names: Naming, inputs: Inputs, identity: string, g: Group, at: Option<nat>) returns (op: Operation)
      requires 1 <= inputs.limits.maxValues
      requires at == Lookup(names, inputs.scope, Contents(), identity)
      ensures op == OperationFor(names, inputs, identity, g, Contents())
    {
      var existing := RowAt(Contents(), at);
      var reqValues := MergeValues(existing.reqValues, g.reqValues, ValueKey, inputs.limits.maxValues);
      var resValues := MergeValues(existing.resValues, g.resValues, ValueKey, inputs.limits.maxValues);
      var reqIds := NormalizedPathids(existing.reqPathids);
      var resIds := NormalizedPathids(existing.resPathids);
      var draft := Operation(identity, DisplayName(names, identity, g, existing),
                             SortedInts(MetadataIds(inputs, identity) + set x | x in existing.parameterids),
                             SortedInts(reqIds + g.reqPathids), SortedInts(resIds + g.resPathids), reqValues, resValues,
                             SortedStrings((set x | x in existing.properties && x != "") + {SOURCE_KIND}),
                             at, if at.Some? then Some(ArchiveState(existing)) else None, Create);
      op := Decide(inputs, draft);
    }
  }
}
