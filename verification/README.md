# Verified model of the API manager's deterministic core

The repository plans and reviews authorization tests of HTTP APIs. Around its network code lies a core that
must be exactly right: it decides what is stored, which combinations of facts become findings, which requests are
rewritten, which tools may run. This project models that core in Dafny and proves what its documentation, its
tests and its callers rely on. Nothing here runs the original program.

## Reading order

| component | modules |
|---|---|
| profile archive: plan, apply, crash, concurrency | `ProfileArchive`, `ProfileArchiveRuns`, `ProfileArchiveNames`, `ProfileArchiveProtocol` |
| parameter names behind it | `ParameterIdentity`, `PreferredNames`, `Distinct` |
| offline rule engine and its rule format | `RuleSpecs`, `RuleEngine`, `RuleEngineTheorems`, `RuleSpecCodec` |
| fact builders feeding the engine | `PairFacts` |
| weak relations | `WeakScore`, `WeakRelations` |
| archive of an import | `ImportArchive` |
| import of OpenAPI request schemas | `SchemaFlatten` |
| host coverage planner | `CoveragePlan` |
| object-identifier substitution | `ObjectIdSwap` |
| first-run credentials | `EnvFile`, `FirstRun` |
| parameter ids and aggregation | `ParameterIds`, `ValueAggregation` |
| AI command line | `AccessPolicy`, `ApprovalGate`, `ApprovalGateTheorems` |
| evaluation metrics | `ConfusionMetrics` |
| orders, sorting, Python string operations, `Option` and `Result` | `Order`, `Text`, `Wrappers` |

The form follows the source. What the program changes in place is a class with `modifies` clauses (the archive
collection, the relation store, the predicate registry, the request parameters, the credentials host, the counter
and parameter rows, the approval gate); its loops are loops with invariants, proved equal to a specification
function; the laws are lemmas about those functions. What several processes do at once is a state machine, and the
laws quantify over every interleaving. `dafny verify dfyconfig.toml` checks everything.

## What turned out not to hold as promised

Each of these is proved with its exact condition.

- **An archive plan can be its own obstacle.** `parameter_identity(preferred_parameter_name(id, aliases)) == id` fails
  exactly for identities with an outer underscore: the parameter `$_a` has identity `_a`, and its alias `_a` has identity
  `a` (`AliasCarriesIdentityIff`, `CreatedRowCarriesIff`). A row created under such a name is found under another identity.
  - *Applying.* An undisturbed application fails with "changed after planning" at the first creation whose identity an
    earlier created row's name stands for, if the budget has not run out by then; it fails on the budget exactly when the
    creations before the last one exceed it first; otherwise it succeeds (`ApplyOutcome`, and `ConflictsIff` in terms of the
    planned identities). The samples `$_a` and `a` on an empty archive fail, with one row written (`OwnRowIsAConflict`).
  - *Planning again.* After a full application, or a part of one, planning is refused on the budget if and only if the
    created rows exceed it, and as a duplicate if and only if they do not and some created row's name stands for an identity
    that another row's name stands for (`ReplanOutcome`). The samples `a` and `a_$` are applied and then refused for good
    (`OwnRowsAreDuplicates`). The apply step compares the row count *before* a creation, so the last creation may exceed
    the budget (`LastCreationExceedsTheBudget`).
  - *Fixpoint and crash convergence.* A second plan is all `unchanged` if and only if every created row's name carries its
    identity and the rows fit `max_existing_archives`; the same two conditions, on the rows created so far, decide whether an
    interrupted application converges (`PlanApplyFixpoint`, `CrashConvergence`). For the repository's naming scheme the first
    condition is that no created identity begins or ends with an underscore (`StandardFixpoint`, `StandardCrashConvergence`).
  - *Concurrency.* Concurrent appliers keep identities unique if and only if no step that passes its check creates a row
    whose name stands for an identity that is already there (`ConcurrentApplyUniqueIff`).
- **A parsed rule does not always survive printing.** The raw inputs `Infinity` and `"inf"`, or two NaN objects, are
  different values with one text; a rule with both parses, but its canonical form does not. The round trip holds if and only
  if the input names are distinct after `str` (`RoundTripIff`, `SameTextBreaksTheRoundTrip`, `PlainRuleFails`).
- **A repeated input breaks the order of the report.** With ids distinct within each input, a report that has matches lists
  them in strict lexicographic order of fact ids if and only if every input name that occurs twice has at most one fact
  (`MatchesInOrderIff`); in particular if no name occurs twice (`MatchesAreLexicographic`). Under a repeated name, which the
  parser lets through in the case above, a match refers to the last fact of that name only (`RepeatedInputBreaksTheOrder`).
- **A process may report a generated password and hold none.** If the password variable is preset to the empty string,
  `setdefault` keeps it (`FirstRunAgreement`, `EmptyPresetKeepsNoPassword`).
- **Substitution in the query or the path can change shapes.** A victim's list or dictionary may replace a scalar there;
  in bodies it cannot (`FlatShapeKeptIff`, `FlatShapeCanChange`, `BodyShapeKept`).
- **Two imports are not always one.** The archive of an import replaces the rows of the names it reaches. Importing two sets
  of paths one after the other equals importing both at once if and only if no name the second reaches uses a path of the
  first outside the second (`TwoImportsAreOneIff`); two rows that share a name and are used by one path each already fall
  short (`SecondImportLosesAPath`).
- **Resource chains cross projects.** The builder never compares projects, and labels a chain with the parent's
  (`ChainsAreTheQualifyingPairs`, `ChainAcrossProjects`).
- **An access given next to a policy file does not narrow it** unless the file's access is `custom`: every preset decides
  the same capabilities, and the file's go over them (`ComposedStatus`, `AccessDoesNotNarrowAFile`).

Where the documentation of the repository and its code differ, the model follows the code:

- `apiAnalysis/ai_cli/policy.py` says that unknown capabilities are prompted and may be denied by fragments. In
  `ApprovalGate.decide` an unknown capability is treated like an allowed one, and a fragment with `allow: false` is
  no veto (`UnknownIsLikeAllowed`, `RefusingFragmentIsNoVeto`).
- The prompt offers "always allow this rule". The choice only takes effect in later sessions; the session in which it is
  made prompts for the tool again (`AlwaysRuleIsForLaterSessions`).
- `_swap_body` logs paths without list positions while `collect_object_ids` lists them with positions, so the log
  names a leaf only up to its position in lists. The model keeps both names of each leaf (`LogIsOfCollected`,
  `LogIsTheDifference`).

## Assumptions

- Checking a row and saving it is one step, as are a counter increment, one upsert, and one read or write of the
  credentials file. Document ids and counter values are handed out once.
- SHA-256 is the data it covers; JSON dedupe keys are injective. Floating-point numbers are reals, and rounding for display
  is not modelled.
- Regular-expression tests, `str()` of a JSON value, random tokens, typed answers, tool results and provider replies are
  parameters, and the laws hold for all of them. `str.lower()` is the ASCII one.

## Model

A row that begins with "reading" spells out a definition of the model in a caller's terms and follows by unfolding it, and
"example" computes one input; such rows say what the model means. The other rows are methods against their specification, and theorems.

| member | source | states |
|---|---|---|
| ParameterIdentity.NormalizedLeafIsClean | apiAnalysis/tool/parameter_identity.py:14-21 | reading: the normalized leaf consists of lower-case letters, digits and single underscores only |
| ParameterIdentity.IdentityFromAlias | apiAnalysis/tool/parameter_identity.py:24-37 | an occurrence's identity is the canonical name of the alias it contributes, and empty together with it |
| ParameterIdentity.IdentityIdempotent | apiAnalysis/tool/parameter_identity.py:24-32 | taking the identity of an identity of a stored leaf changes nothing, for every well-formed alias table |
| ParameterIdentity.NameAgreesIff | apiAnalysis/tool/parameter_dependency.py:74-84 | a leaf carries the identity its own canonical name stands for exactly when it has no outer underscore |
| ParameterIdentity.AliasCarriesIdentityIff | apiAnalysis/tool/parameter_identity.py:24-45 | an occurrence's alias carries the occurrence's identity exactly when that identity has no outer underscore |
| ParameterIdentity.AliasLosesIdentity | apiAnalysis/tool/parameter_identity.py:14-37 | the whole family of parameters `$leaf` with a leading underscore in the leaf gets an alias of another identity |
| ParameterIdentity.StandardNamingLawful | apiAnalysis/tool/parameter_identity.py:14-37 | the repository's naming scheme satisfies the naming laws the archive proofs assume |
| PreferredNames.PreferredNameMeaning | apiAnalysis/tool/parameter_identity.py:40-56 | the display name is an alias, carries the identity whenever some alias does, and is maximal in the stated ranking among the eligible ones |
| Distinct.MergeValues | apiAnalysis/rule/profile_parameter_archive.py:364-375 | the merge loop returns exactly the first `limit` key-distinct values of the existing ones followed by the additions |
| Distinct.FirstDistinctMeaning | apiAnalysis/rule/profile_parameter_archive.py:364-375 | the merged values are bounded, pairwise distinct in key, taken from the input, and complete unless the bound is reached |
| Distinct.FirstDistinctResume | apiAnalysis/rule/profile_parameter_archive.py:364-375 | merging into an already merged, truncated list equals merging everything at once |
| Distinct.MergeIdempotent | apiAnalysis/rule/profile_parameter_archive.py:364-375 | merging the same additions a second time changes nothing |
| Distinct.AppendUnique | apiAnalysis/db/save.py:629-638 | repeated bounded appends keep exactly the first `limit` key-distinct values |
| ProfileArchive.NormalizedPathids | apiAnalysis/rule/profile_parameter_archive.py:132-144 | the worklist loop terminates on every nesting and returns the integers found at any depth |
| ProfileArchive.GroupOccurrences | apiAnalysis/rule/profile_parameter_archive.py:462-506 | the grouping loop returns the groups of the occurrences in order |
| ProfileArchive.GroupsAreNamed | apiAnalysis/rule/profile_parameter_archive.py:462-506 | every group was formed by occurrences of its identity and its aliases come from them |
| ProfileArchive.Collection.IndexExisting | apiAnalysis/rule/profile_parameter_archive.py:534-552 | the index is refused exactly on too many rows or a duplicated identity, and otherwise finds for each identity the one row that carries it |
| ProfileArchive.Collection.BuildPlan | apiAnalysis/rule/profile_parameter_archive.py:534-657 | the planning loops return the plan, or the error, the specification gives for the archive as it is |
| ProfileArchive.Collection.PlanOne | apiAnalysis/rule/profile_parameter_archive.py:555-611 | one turn of the operation loop drafts the merged contents and decides between create, update and unchanged as specified |
| ProfileArchive.Collection.FindConflicts | apiAnalysis/rule/profile_parameter_archive.py:697-703 | the conflict scan refuses too many rows and otherwise returns exactly the rows of the scope whose names stand for the identity |
| ProfileArchive.Collection.ApplyOne | apiAnalysis/rule/profile_parameter_archive.py:686-728 | a failed check leaves the archive as it was, a passed one writes the planned row and nothing else |
| ProfileArchive.Collection.Apply | apiAnalysis/rule/profile_parameter_archive.py:679-729 | a blocked plan or a wrong hash changes nothing; otherwise the result and the archive are those of running the operations in order up to the first failing check |
| ProfileArchive.FailureSticks | apiAnalysis/rule/profile_parameter_archive.py:686-729 | after a failed check no later operation has any effect |
| ProfileArchiveRuns.StoredStateIsPlannedState | apiAnalysis/rule/profile_parameter_archive.py:345-361 | the state read back from a written row is the planned after-state |
| ProfileArchiveRuns.AppliedOperationSettles | apiAnalysis/rule/profile_parameter_archive.py:555-611 | planning again over a row the operation has written gives the same contents and the action `unchanged` |
| ProfileArchiveRuns.RunWritesExactlyThePlan | apiAnalysis/rule/profile_parameter_archive.py:686-729 | after `k` successful operations the archive differs from the start in exactly the planned rows of those operations |
| ProfileArchiveRuns.ApplyOutcome | apiAnalysis/rule/profile_parameter_archive.py:686-711 | the exact outcome of undisturbed application after any number of operations: "changed after planning" if and only if a creation finds a row this run created under a name that stands for its identity, the budget error if and only if the row count passes the budget first, and success in every other case |
| ProfileArchiveRuns.ReplanOutcome | apiAnalysis/rule/profile_parameter_archive.py:534-611 | the exact outcome of planning after a prefix of operations: the budget error if and only if the created rows exceed the budget, the duplicate error if and only if they do not and a created row shares its identity with another row, a plan otherwise; and the plan settles what was applied and keeps the rest if and only if every created row carries its identity |
| ProfileArchiveRuns.ResumeRun | apiAnalysis/rule/profile_parameter_archive.py:686-729 | running the re-planned operations continues the interrupted run: same archive, same failure, write counts add up |
| ProfileArchiveRuns.CrashConvergence | apiAnalysis/rule/profile_parameter_archive.py:554-729 | a successful application stopped after any prefix, re-planned and applied again ends in the identical archive, row ids included, if and only if every row created so far carries its identity and the rows fit the new plan's budget |
| ProfileArchiveRuns.StrayNameReplansCreate | apiAnalysis/rule/profile_parameter_archive.py:545-562 | a created row that does not carry its identity is created once more by the next plan |
| ProfileArchiveRuns.CarriersPersist | apiAnalysis/rule/profile_parameter_archive.py:712-727 | a row that carries an identity at some point of a run still carries it later in the run |
| ProfileArchiveRuns.PlanApplyFixpoint | apiAnalysis/rule/profile_parameter_archive.py:579-729 | a fresh plan after a full application is all `unchanged`, and writes nothing, if and only if every created row carries its identity and the rows fit the budget |
| ProfileArchiveNames.CreatedRowCarriesIff | apiAnalysis/tool/parameter_identity.py:24-56 | under a well-formed alias table a created row carries its identity exactly when that identity has no outer underscore, and its name stands for what the identity stands for |
| ProfileArchiveNames.ConflictsIff | apiAnalysis/rule/profile_parameter_archive.py:690-705 | a plan conflicts with itself at a creation exactly when an earlier created identity, read as a name, stands for the identity created there |
| ProfileArchiveNames.StandardFixpoint | apiAnalysis/rule/profile_parameter_archive.py:579-729 | with the repository's names: a second plan is all `unchanged` if and only if no created identity has an outer underscore and the rows fit the budget |
| ProfileArchiveNames.StandardCrashConvergence | apiAnalysis/rule/profile_parameter_archive.py:554-729 | with the repository's names: an interrupted application converges if and only if no identity created so far has an outer underscore and the rows fit the budget |
| ProfileArchiveNames.OwnRowIsAConflict | apiAnalysis/rule/profile_parameter_archive.py:690-711 | on an empty archive, the plan for the parameters `$_a` and `a` fails undisturbed with "changed after planning" and leaves one row |
| ProfileArchiveNames.OwnRowsAreDuplicates | apiAnalysis/rule/profile_parameter_archive.py:545-552 | the plan for `a` and `a_$` is applied in full, and every later plan is refused for a duplicate identity; no fixpoint, no convergence |
| ProfileArchiveNames.LastCreationExceedsTheBudget | apiAnalysis/rule/profile_parameter_archive.py:534-544 | with room for one row, the plan for `a` and `b` is applied in full, and every later plan is refused on the budget |
| ProfileArchiveProtocol.FailClosed | apiAnalysis/rule/profile_parameter_archive.py:696-728 | in every interleaving with another writer each overwrite found the planned before-state and no row was created beside one of its identity, both in the archive of the run at the step that wrote; exactly the operations before the current one are in effect |
| ProfileArchiveProtocol.FailureIsFinal | apiAnalysis/rule/profile_parameter_archive.py:705-711 | a failed session never writes again, whatever other writers do |
| ProfileArchiveProtocol.StaleRowStopsTheSession | apiAnalysis/rule/profile_parameter_archive.py:709-711 | reading: an update fails exactly when its row is gone or differs from the planned state, and then writes nothing |
| ProfileArchiveProtocol.PlannedOperationKeepsIdentity | apiAnalysis/rule/profile_parameter_archive.py:561-562 | a planned update keeps its row's identity and scope; a planned creation keeps its identity exactly when the name it gives the row carries it |
| ProfileArchiveProtocol.UniqueMeansNoDuplicates | apiAnalysis/rule/profile_parameter_archive.py:545-552 | pairwise uniqueness of identities is what the planner's duplicate test accepts, for every scope |
| ProfileArchiveProtocol.ConcurrentApplyUniqueIff | apiAnalysis/rule/profile_parameter_archive.py:696-728 | for any number of appliers of planned operations (all of which keep the rows they update) and any schedule: identities stay unique throughout if and only if no step that passes its check creates a row whose name stands for an identity already present in its scope |
| ProfileArchiveProtocol.ConcurrentApplyKeepsIdentitiesUnique | apiAnalysis/rule/profile_parameter_archive.py:696-728 | if every planned creation carries its identity, any number of concurrent appliers, in any schedule, never give an identity of a scope a second row |
| RuleEngine.PredicateRegistry.Register | apiAnalysis/rule/framework.py:444-449 | a name is claimed once: a second registration is refused and leaves the registry as it was |
| RuleEngine.HardPredicates | apiAnalysis/rule/framework.py:592-605 | the short-circuiting loop stops at the first predicate that does not match, with the reason codes gathered so far |
| RuleEngine.JudgeCombination | apiAnalysis/rule/framework.py:585-638 | one combination is judged as specified: ill-typed, rejected with its code, badly valued, or matched with score and contributions |
| RuleEngine.Scan | apiAnalysis/rule/framework.py:581-645 | the scan counts, rejects, collects and raises on the first combination at which the specification raises |
| RuleEngine.Evaluate | apiAnalysis/rule/framework.py:549-645 | the engine returns the declarative evaluation of the rule on the sorted facts, or its error |
| RuleEngineTheorems.ProductMembers | apiAnalysis/rule/framework.py:584-586 | the combinations are exactly the choices of one fact per input |
| RuleEngineTheorems.ProductIncreasing | apiAnalysis/rule/framework.py:574-586 | from sorted lists with distinct ids the combinations come in strictly increasing lexicographic order |
| RuleEngineTheorems.ScanIsLexicographic | apiAnalysis/rule/framework.py:574-586 | with ids distinct within each input, the engine scans its combinations in strict lexicographic order of fact ids, whatever order the facts come in |
| RuleEngineTheorems.MatchesInOrderIff | apiAnalysis/rule/framework.py:574-644 | with ids distinct within each input, a report that has matches lists them in strictly increasing order of their fact ids if and only if every input name that occurs twice has at most one fact |
| RuleEngineTheorems.RepeatedInputBreaksTheOrder | apiAnalysis/rule/framework.py:584-586 | a concrete instance out of order: a rule that names one input of two facts twice reports its second match before a smaller third one |
| RuleEngineTheorems.QualifiesIff | apiAnalysis/rule/framework.py:584-623 | reading: a combination is a match exactly when it fits the types, passes the scope and every predicate and has its features in range; its score is the clamped weighted sum, in [0,1] |
| RuleEngineTheorems.ScopeMeaning | apiAnalysis/rule/framework.py:661-689 | the scope filter accepts exactly when its flags hold: one project, one environment, and the demanded principal relation |
| RuleEngineTheorems.ScanErrorIff | apiAnalysis/rule/framework.py:584-638 | how the scan ends, exactly: no error if no combination is ill-typed or badly valued and the qualifying ones fit `max_matches`; the budget error if some stretch from the start without bad ones holds more; the protocol error if a bad one comes first |
| RuleEngineTheorems.EveryCombinationCounts | apiAnalysis/rule/framework.py:575-644 | every combination is a match or is counted as one rejection |
| RuleEngineTheorems.MatchesAreTheQualifying | apiAnalysis/rule/framework.py:575-644 | the matches are those of the qualifying combinations, all of them, in scan order |
| RuleEngineTheorems.EvaluationMeetsSpecification | apiAnalysis/rule/framework.py:549-644 | for every rule that passes its checks, the exact condition of a report, of the budget error and of the protocol error; `evaluated` is the product of the input sizes and the sum of matches and rejection counts, and the matches are exactly the qualifying combinations in scan order |
| RuleEngineTheorems.FactOrderIndependence | apiAnalysis/rule/framework.py:574-586 | permuting the supplied facts gives the identical report |
| RuleEngineTheorems.PredicateOrderIndependence | apiAnalysis/rule/framework.py:592-605 | permuting the predicates keeps the matched combinations, scores, contributions and the total of rejections |
| RuleSpecCodec.RoundTripIff | apiAnalysis/rule/framework.py:271-418 | printing a parsed rule and parsing it again gives it back if and only if its input names are distinct; otherwise the print is rejected |
| RuleSpecCodec.StringInputsAreDistinct | apiAnalysis/rule/framework.py:271-374 | reading: raw inputs that are strings parse to distinct names |
| RuleSpecCodec.SameTextBreaksTheRoundTrip | apiAnalysis/rule/framework.py:271-418 | any accepted rule given two inputs that are different values with one text is accepted, and its print is not |
| RuleSpecCodec.InfinityBreaksTheRoundTrip | apiAnalysis/rule/framework.py:271-418 | the instance `Infinity` and `"inf"`, in any accepted rule |
| RuleSpecCodec.TwoNaNsBreakTheRoundTrip | apiAnalysis/rule/framework.py:271-418 | the instance of two NaN objects |
| RuleSpecCodec.PlainRuleFails | apiAnalysis/rule/framework.py:271-418 | a smallest rule is accepted and printed faithfully; with `Infinity` and `"inf"` for inputs it is accepted and its print is not |
| RuleSpecCodec.DefaultsDoNotMatter | apiAnalysis/rule/framework.py:271-418 | mappings that differ only in omitted defaults parse alike and have one canonical form |
| WeakScore.ScoreWeakRelation | apiAnalysis/rule/legacy_scoring.py:140-166 | the accumulation returns the specified score and its reason codes |
| WeakScore.ScoreIsWholeAndBounded | apiAnalysis/rule/legacy_scoring.py:140-166 | reading: scores are whole numbers between 0 and 98, so the cap and the rounding never act |
| WeakScore.ScoreMonotone | apiAnalysis/rule/legacy_scoring.py:140-166 | more shared values never lower the score |
| WeakScore.TruncationOnlyLosesOverlap | apiAnalysis/rule/framework.py:191-221 | the overlap of truncated digests never exceeds that of the values, and is equal exactly when every shared value was kept on both sides |
| WeakScore.TruncationOnlyUnderScores | apiAnalysis/rule/builtin_rules.py:254-313 | the engine's weak score never exceeds the score on the full value sets and equals it when neither side is bounded |
| WeakRelations.GroupParameters | apiAnalysis/rule/analysis.py:404-417 | the grouping loop collects for each leaf name exactly the path ids and values of all rows that share it |
| WeakRelations.CollectedMeaning | apiAnalysis/rule/analysis.py:404-417 | membership in a group, row by row |
| WeakRelations.RelationStore.InferPair | apiAnalysis/rule/analysis.py:426-490 | one pair is skipped, counted below the minimum, or upserted with the higher score |
| WeakRelations.RelationStore.Infer | apiAnalysis/rule/analysis.py:419-536 | one run, in whatever order pairs are visited, leaves the merged store, and candidates are accepted plus skipped |
| WeakRelations.MergeTwice | apiAnalysis/rule/analysis.py:463-490 | upserting two overlapping sets of pairs one after the other is upserting their union |
| WeakRelations.IncrementalEqualsBatch | apiAnalysis/rule/analysis.py:397-490 | runs over any family of scopes that reaches every accepted pair leave the store of one unscoped run |
| WeakRelations.IncrementalEqualsBatchIff | apiAnalysis/rule/analysis.py:397-490 | from any store the runs leave what one unscoped run would if and only if every accepted pair no scope reaches is in the store already, with no lower score and the same codes |
| WeakRelations.IncrementalEqualsBatchFromEmpty | apiAnalysis/rule/analysis.py:397-490 | from an empty store: if and only if the scopes reach every accepted pair |
| WeakRelations.CoveringScopesReach | apiAnalysis/rule/analysis.py:430-431 | reading: scopes that cover all request paths, or all response paths, reach every pair |
| WeakRelations.RunsOnlyImprove | apiAnalysis/rule/analysis.py:460-490 | reading: no score decreases, nothing is removed, and a created relation reaches the minimum |
| ImportArchive.Archive.Run | apiAnalysis/rule/analysis.py:152-225 | a run refuses an empty selection and otherwise replaces exactly the rows of the names it reaches, and counts them |
| ImportArchive.Group | apiAnalysis/rule/analysis.py:190-205 | the grouping loop gathers for each name exactly the rows the selection reaches |
| ImportArchive.UniqueValues | apiAnalysis/rule/analysis.py:177-188 | the loop keeps each value once, in order of first occurrence |
| ImportArchive.ArchivedMeaning | apiAnalysis/rule/analysis.py:190-223 | an archived row holds the ids and selected paths of the rows reached, and each of their values once |
| ImportArchive.TwoImportsAreOneIff | apiAnalysis/rule/analysis.py:190-225 | two imports equal one import of both selections if and only if no name the second reaches uses a path of the first outside the second |
| ImportArchive.SecondImportLosesAPath | apiAnalysis/rule/analysis.py:190-225 | two rows that share a name and are used by one path each: importing the paths one after the other loses the first, importing both keeps it |
| ImportArchive.ImportTwice | apiAnalysis/rule/analysis.py:207-225 | reading: importing the same paths again changes nothing |
| SchemaFlatten.ResolveRefLoop | tools/import_openapi_request_schemas.py:25-35 | the loop resolves a reference to the object at its path, and to an empty object on every other way |
| SchemaFlatten.FlattenDocument | tools/import_openapi_request_schemas.py:38-78 | the program terminates on every document and schema, cyclic references included, and returns the specified rows or the exception |
| SchemaFlatten.FlattenSchema | tools/import_openapi_request_schemas.py:38-46 | following references with the seen set, by a measure of unseen references and schema size |
| SchemaFlatten.FlattenInline | tools/import_openapi_request_schemas.py:47-78 | combinators, properties, arrays and leaves give the specified rows |
| SchemaFlatten.FlattenOne | tools/import_openapi_request_schemas.py:57-72 | the property loop's body, with its in-place rewriting of the required flags |
| SchemaFlatten.ArrayIsItsItems | tools/import_openapi_request_schemas.py:73-75 | reading: the rows of an array are those of `items or {}` under the indexed name, or one row of its own when there are none |
| SchemaFlatten.RowsAreWalks | tools/import_openapi_request_schemas.py:38-78 | the rows are exactly those that walks through the schema lead to |
| SchemaFlatten.WalkRow | tools/import_openapi_request_schemas.py:57-72 | a walk's row has the parent path or continues it with `.` or `[`, and is required exactly when some property passed is in its object's `required` |
| SchemaFlatten.FlattenedRows | tools/import_openapi_request_schemas.py:38-78 | every row of an import has a walk, a name that is the parent path or continues it, and the required flag of that walk |
| SchemaFlatten.EveryPropertyHasARow | tools/import_openapi_request_schemas.py:57-72 | every property of an object has a row that a walk through this property leads to, at its path or below, required if the property is, even where a cycle is cut |
| SchemaFlatten.ArriveSurfaces | tools/import_openapi_request_schemas.py:38-78 | every row below a reached schema is a row of the import |
| SchemaFlatten.EveryReachedPropertyHasARow | tools/import_openapi_request_schemas.py:38-78 | every property of every object reached through references, alternatives, properties and items has a row of the import that the same walk, continued through this property, leads to: at its path or below, and required if it or a property passed before is listed as required |
| CoveragePlan.GroupByModule | tools/build_host_coverage_target_plan.py:76-78 | the groups partition the rows by project and folder, in order |
| CoveragePlan.RankCandidates | tools/build_host_coverage_target_plan.py:79-100 | the candidates are exactly the safe modules with unknown rows, with their counts, in the unique sorted order |
| CoveragePlan.Select | tools/build_host_coverage_target_plan.py:101-107 | the greedy loop selects the shortest prefix that reaches what is needed, or everything |
| CoveragePlan.BuildPlan | tools/build_host_coverage_target_plan.py:70-123 | the program returns the specified plan, and raises exactly on an empty placement file |
| CoveragePlan.ChosenMeaning | tools/build_host_coverage_target_plan.py:101-107 | the selection is a prefix, suffices or is everything, and without its last module does not suffice |
| CoveragePlan.BestOfSize | tools/build_host_coverage_target_plan.py:96-107 | no choice of `n` safe modules covers more unknown rows than the `n` best ranked |
| CoveragePlan.PlanIsOptimal | tools/build_host_coverage_target_plan.py:96-107 | if any choice of safe modules covers what is needed, the plan does, and no choice of fewer modules does |
| CoveragePlan.TargetMetIff | tools/build_host_coverage_target_plan.py:73-120 | the projected percentage reaches the requested one exactly when all safe modules together would; otherwise every useful module is listed |
| CoveragePlan.ProjectionIsBounded | tools/build_host_coverage_target_plan.py:71-120 | the projection never exceeds the number of operations and overshoots the target by less than the last module |
| CoveragePlan.NothingCountedTwice | tools/build_host_coverage_target_plan.py:71-82 | accepted rows and covered unknown rows are disjoint |
| CoveragePlan.PlanIgnoresRowOrder | tools/build_host_coverage_target_plan.py:70-107 | permuting the placement rows gives the identical plan |
| ObjectIdSwap.IndexLeafValues | apiAnalysis/rule/object_id.py:136-146 | the recursive loops build the index of first occurrences |
| ObjectIdSwap.FirstLeafWins | apiAnalysis/rule/object_id.py:136-146 | the index maps exactly the keys of scalars, each to its first value in document order |
| ObjectIdSwap.Parameters.SwapAll | apiAnalysis/rule/object_id.py:183-197 | the in-place loop over a dictionary yields the specified fields and log entries |
| ObjectIdSwap.SwapBody | apiAnalysis/rule/object_id.py:200-219 | the recursive rewriting yields the specified body and appends its log in document order |
| ObjectIdSwap.CollectBody | apiAnalysis/rule/object_id.py:157-167 | the recursive collection lists every identifier leaf with its positioned path |
| ObjectIdSwap.BuildIdorPayload | apiAnalysis/rule/object_id.py:222-252 | the result is a fresh request with the specified contents and log; neither given request is modified |
| ObjectIdSwap.OnlyIdLeavesChange | apiAnalysis/rule/object_id.py:200-219 | at every position of a body, containers keep kind, size and keys, and a scalar changes only under an identifier key with a usable, different victim value, to that value |
| ObjectIdSwap.LogIsTheDifference | apiAnalysis/rule/object_id.py:183-252 | the log is exactly the difference between the two requests: an entry is logged if and only if a query field, a path field or a scalar at some body position changed, under that name, from the logged attacker value to the logged victim value |
| ObjectIdSwap.BodyLogIsTheDifference | apiAnalysis/rule/object_id.py:200-219 | the same of a body: an entry for each changed position and for nothing else |
| ObjectIdSwap.FlatLogIff | apiAnalysis/rule/object_id.py:183-197 | an entry of the query or path log exactly for a field whose replacement is due, with its value and the victim's |
| ObjectIdSwap.IdentifiersReadLikeTheVictim | apiAnalysis/rule/object_id.py:183-219 | afterwards every identifier with a usable victim value reads like it |
| ObjectIdSwap.EmptyLogIff | apiAnalysis/rule/object_id.py:222-252 | the log is empty exactly when the request is unchanged |
| ObjectIdSwap.SecondSubstitutionIsEmpty | apiAnalysis/rule/object_id.py:222-252 | a second substitution against the same victim logs nothing and changes nothing |
| ObjectIdSwap.LogIsOfCollected | apiAnalysis/rule/object_id.py:157-219 | an entry is in the body log exactly when a collected identifier leaf with that value is pending |
| ObjectIdSwap.BodyShapeKept | apiAnalysis/rule/object_id.py:200-219 | a body keeps its exact shape |
| ObjectIdSwap.FlatShapeKeptIff | apiAnalysis/rule/object_id.py:183-197 | reading: query and path keep their shape exactly when every replacement has the shape of what it replaces |
| ObjectIdSwap.FlatShapeCanChange | apiAnalysis/rule/object_id.py:183-197 | example: a concrete victim list replaces a scalar |
| EnvFile.ParseEnvFile | local_web_credentials.py:28-40 | the line loop returns the specified assignments, later ones winning |
| EnvFile.SplitAtLineFeed | local_web_credentials.py:30-30 | a line feed ends a line whatever precedes it, also a carriage return |
| EnvFile.ParsedValuesAreOneLiners | local_web_credentials.py:28-40 | no value read from any file contains a line break |
| EnvFile.RoundTripIff | local_web_credentials.py:28-95 | reading the generated file gives exactly the three values written if and only if each is on one line, trimmed and not in matching quotes |
| EnvFile.PasswordAndKeySurvive | local_web_credentials.py:28-95 | password and key survive exactly when they are clean, whatever the user name is |
| EnvFile.TokensAreClean | local_web_credentials.py:139-140 | URL-safe tokens survive |
| FirstRun.Host.LoadFile | local_web_credentials.py:43-63 | loading fails exactly on an incomplete file and otherwise sets only absent variables |
| FirstRun.Host.Bootstrap | local_web_credentials.py:115-156 | the bootstrap without interference is the run of one process alone |
| FirstRun.Reachable | local_web_credentials.py:82-156 | in every interleaving each process stays consistent with the file, and the file has at most one creator |
| FirstRun.AtMostOneGenerates | local_web_credentials.py:82-156 | no two processes report `generated`, and none when the file existed |
| FirstRun.FirstRunAgreement | local_web_credentials.py:43-156 | a process that comes back with file credentials holds the generator's password exactly when its password variable was absent, and likewise the key |
| FirstRun.TwoProcessesAgree | local_web_credentials.py:43-156 | any two such processes without preset variables hold the same non-empty password and key |
| FirstRun.FailsOnlyBeforeTheWrite | local_web_credentials.py:47-52 | on a first run a process fails only by reading between another's creation and write |
| FirstRun.ExistingFileIsKept | local_web_credentials.py:134-136 | an existing file is never changed, and its values are the ones loaded |
| FirstRun.EmptyPresetKeepsNoPassword | local_web_credentials.py:117-156 | with the password variable preset to the empty string the process reports a password and holds none |
| ParameterIds.Store.AllocateRange | apiAnalysis/db/save.py:43-52 | the allocated range is the next `count` numbers, and nothing for a count that is not positive |
| ParameterIds.Store.ImportAlone | apiAnalysis/db/save.py:1734-1757 | an undisturbed import numbers the missing names in order and upserts every name |
| ParameterIds.WrittenMeaning | apiAnalysis/db/save.py:1739-1757 | each row keeps its id and gains the import's items; a new one gets its number |
| ParameterIds.IdsAreUnique | apiAnalysis/db/save.py:1734-1757 | in every interleaving of imports every row has an id and no two rows share one |
| ParameterIds.IdsAreForever | apiAnalysis/db/save.py:1739-1757 | a name keeps its id and its items for the rest of every run |
| ParameterIds.RowsHoldWhatWasBrought | apiAnalysis/db/save.py:1739-1757 | a row holds exactly what it held and what the imports that upserted it brought, in whatever order |
| ParameterIds.NewRowsGetNewIds | apiAnalysis/db/save.py:43-52 | ids handed out in a run exceed every earlier one |
| ValueAggregation.FlattenValueList | apiAnalysis/db/save.py:605-619 | the nested loops return the flattened list |
| ValueAggregation.FlattenMeaning | apiAnalysis/db/save.py:605-619 | exactly one level of nesting and all nulls go |
| ValueAggregation.Aggregate | apiAnalysis/db/save.py:1711-1729 | both loops leave one bucket for exactly the names mentioned, each as specified |
| ValueAggregation.AddRequest | apiAnalysis/db/save.py:1713-1720 | one request document changes the bucket of its name only, as specified |
| ValueAggregation.AddResponse | apiAnalysis/db/save.py:1722-1729 | one response document likewise |
| ValueAggregation.BucketMeaning | apiAnalysis/db/save.py:1711-1729 | a bucket is bounded, free of duplicates, holds only values of its documents, and all of them unless the bound is reached |
| ValueAggregation.SecondReadChangesNothing | apiAnalysis/db/save.py:1711-1729 | reading the same documents twice changes no bucket |
| AccessPolicy.MergeFragments | apiAnalysis/ai_cli/policy.py:218-235 | the loop merges the fragments in order |
| AccessPolicy.LastFragmentWins | apiAnalysis/ai_cli/policy.py:218-235 | the last fragment naming a tool decides for it, and other tools keep their rule |
| AccessPolicy.ComposedStatus | apiAnalysis/ai_cli/policy.py:174-288 | reading: the status of every capability under every combination of access, preference, file and fragments |
| AccessPolicy.AccessDoesNotNarrowAFile | apiAnalysis/ai_cli/policy.py:270-282 | reading: an access next to a file with a preset changes the status of no capability |
| ApprovalGate.Gate.DecideOn | apiAnalysis/ai_cli/session.py:99-136 | the gate's branches and updates are those of the specified decision |
| ApprovalGate.Gate.Prompt | apiAnalysis/ai_cli/session.py:138-167 | one line is consumed; end of file and garbage count as a refusal |
| ApprovalGate.Gate.ExecuteOne | apiAnalysis/ai_cli/cli.py:237-322 | one request is decided, run or not, and coded as specified |
| ApprovalGate.Gate.Run | apiAnalysis/ai_cli/cli.py:413-420 | the request loop returns the maximum of the per-request codes under 0 < 1 < 10 |
| ApprovalGate.Gate.CallTools | apiAnalysis/ai_cli/cli.py:454-515 | the calls of a reply are executed in order up to the first open decision |
| ApprovalGate.Gate.RunProvider | apiAnalysis/ai_cli/cli.py:447-525 | the provider loop returns the specified code and session |
| ApprovalGateTheorems.ApprovedIff | apiAnalysis/ai_cli/session.py:99-136 | reading: the exact condition under which a call is approved |
| ApprovalGateTheorems.RefusingFragmentIsNoVeto | apiAnalysis/ai_cli/session.py:105-106 | reading: a fragment that says no changes no decision |
| ApprovalGateTheorems.UnknownIsLikeAllowed | apiAnalysis/ai_cli/session.py:100-102 | reading: an unknown capability is decided like an allowed one |
| ApprovalGateTheorems.AlwaysRuleIsForLaterSessions | apiAnalysis/ai_cli/session.py:133-135 | reading: the third choice saves a rule that spares later sessions the prompt but not the present one |
| ApprovalGateTheorems.ExecuteMeaning | apiAnalysis/ai_cli/cli.py:261-322 | a tool runs exactly when approved, valid and not in a dry run, and the code says what happened |
| ApprovalGateTheorems.SessionSafety | apiAnalysis/ai_cli/cli.py:393-525 | over whole sessions a tool runs only right after its approval, never in a dry run or with a denied capability even under `--yes`, and a session-allowed tool never prompts again |
| ApprovalGateTheorems.RunWaitsIff | apiAnalysis/ai_cli/cli.py:413-420 | some request ends with the approval code exactly when some decision was left open |
| ApprovalGateTheorems.ProviderLoopBound | apiAnalysis/ai_cli/cli.py:447-525 | at most `max(1, max_steps)` provider calls; the approval code exactly on an open decision, after which nothing happens |
| PairFacts.BuildChains | apiAnalysis/rule/p1_rules.py:407-432 | the nested loops return all chains in order, or raise exactly when they exceed the budget |
| PairFacts.ChainsAreTheQualifyingPairs | apiAnalysis/rule/p1_rules.py:411-420 | a chain is emitted exactly for a pair whose path extends the parent's by one or two segments |
| PairFacts.EachPairOnce | apiAnalysis/rule/p1_rules.py:411-431 | with distinct ids no pair is emitted twice |
| PairFacts.ChainsAreAcyclic | apiAnalysis/rule/p1_rules.py:407-432 | the chains form a directed acyclic graph: along every walk paths grow and none returns |
| PairFacts.ChainsAreEligible | apiAnalysis/rule/p1_rules.py:181-191 | every chain satisfies the predicate the engine tests it with |
| PairFacts.ChainAcrossProjects | apiAnalysis/rule/p1_rules.py:422-429 | a chain may link two projects |
| PairFacts.ChainsIgnoreInputOrder | apiAnalysis/rule/p1_rules.py:410-410 | with distinct ids the sorted endpoints, hence the chains, do not depend on the input order |
| PairFacts.BuildPrincipalPairs | apiAnalysis/rule/p1_rules.py:458-487 | the nested loops return all relations in order, or raise exactly when they exceed the budget |
| PairFacts.AllFactsMeaning | apiAnalysis/rule/p1_rules.py:458-487 | the facts are exactly the relations between principals of one project and environment |
| PairFacts.RelationsMeaning | apiAnalysis/rule/p1_rules.py:435-451 | exactly one privilege relation, the comparison of ranks, and the conditions of every other relation |
| PairFacts.FactsClosedUnderConverse | apiAnalysis/rule/p1_rules.py:435-487 | a fact is emitted exactly when its converse is |
| ConfusionMetrics.CountCells | tools/eval_class_relation.py:42-57 | the counting loop fills the matrix, the labels and the hits with the counts of rows |
| ConfusionMetrics.SumWhere | tools/eval_class_relation.py:62-63 | a filtered sum over the matrix counts the rows behind it |
| ConfusionMetrics.LabelFigures | tools/eval_class_relation.py:60-72 | the figures of a label are those of its counts of rows, and F1 is `2tp / (2tp + fp + fn)` |
| ConfusionMetrics.SumsOverLabels | tools/eval_class_relation.py:60-72 | supports sum to the total, true positives to the hits, false positives and false negatives each to the misses |
| ConfusionMetrics.ReportLabels | tools/eval_class_relation.py:60-60 | the sorted labels list every label of every row once |
| ConfusionMetrics.F1OfCounts | tools/eval_class_relation.py:64-66 | reading: the harmonic mean of precision and recall equals `2tp / (2tp + fp + fn)`, zero cases included |
| ConfusionMetrics.F1IsBetween | tools/eval_class_relation.py:64-66 | F1 lies between precision and recall |
| ConfusionMetrics.MicroAverageIsAccuracy | tools/eval_class_relation.py:60-84 | summed over labels, precision, recall and accuracy coincide |

## Left out

- Extraction of values from samples and the sample filter (`profile_parameter_archive.py:156-342, 378-455`): the archive model starts from the accepted occurrences; the statistics and reports are not modelled.
- Mongo, Redis, Flask, HTTP clients, AI providers and migration scripts: I/O with little logic of its own.
- The window between the check and `save()` inside one apply step, and partial writes of the credentials file: both are taken as one step.
- The JSON trees of request bodies are values: `SwapBody` returns the rewritten tree, so updating nested dictionaries in place and aliasing between them are not captured; the request and its parameter dictionaries are objects.
- `rendered_url` of a substituted request: its function lies elsewhere and its failure is swallowed.
- Tokenizing of parameter names, path normalization by regular expression, and low-information filters of relation values: parameters of the model, or given already normalized.
- Evidence, occurrence binding, `top_candidates` and the insufficient-evidence counter of weak relations: reporting only.
- Representative requests and evidence hosts of the coverage plan, and rounding of its percentage to two digits: they do not affect the selection.
- A placement status that cannot be hashed, and a target percentage that is not a number: the planner model takes strings and reals.
- Dictionaries of OpenAPI documents whose keys are not strings; `required` entries that are not strings cannot match a property and are dropped.
- `safe_values` and `upsert_body_param` of the schema import: field copies into documents.
- `build_endpoint_pair_facts` and the emitters of `p1_rules.py`, and the built-in pair predicates other than the weak score: easy members beside the chains and relations.
- `eval_relation` and the list of top errors: simple counters.
- The values of one parameter in the database are sets (`$addToSet`), so their order is not modelled, and the bound on a bucket is one per import, not per row.
- Failures while a fragment or a session log is written, redaction of arguments and the printed messages.
- ProfileArchiveProtocol.ConcurrentApplyKeepsIdentitiesUnique: is about creations that carry their identities, the general condition being in `ConcurrentApplyUniqueIff`; check and save are one step, and in the source another process may act between them.
