# A verified model of the migration engine, the query-set cache, SELECT printing and Save

The project models the parts of the Go repository in which several functions, a state machine or many concurrent calls
have to agree, and proves what they promise together. It is written in Dafny 4.11; `dafny verify dfyconfig.toml` checks
all of it.

* **Planner.** `newPlannerGraph`, the strongly-connected-components search, forward and backward plans, history checks
  and targets (`Graph`, `CycleSearch`, `GraphBuild`, `Draining`, `PlanSpec`, `PlanTheory`, `Planner`, `AppliedState`).
  The worklists, the recursive search and its shared variables, and the applied set edited during planning are
  imperative; each method is tied to an order-free definition: which keys a plan holds is a reachability set, and their
  order is the lexicographically least one that respects the edges.
* **State transitions.** Schema normalization, project states, and the two operations in both directions
  (`SchemaIR`, `ProjectState`, `Operations`, `StateChange`, `Migrations`).
* **Execution.** The database is a value: tables with ordered columns and a row count, and a set of records. A
  transaction is an object with a pending copy and a `done` flag. Every context check and every backend call asks a
  schedule of verdicts, which is arbitrary (`Database`, `Rendering`, `PlanRun`, `Transaction`, `Execution`,
  `PlanExecution`, `Recovery`, `Undo`). A failing commit leaves nothing durable; but closing the connection after a
  successful commit can fail as well, and then the code reports a failure for a migration that is durable. The
  documentation says that a failed call returns the durable state; the model follows the code, and the theorems say
  exactly when the returned state is one step behind: when the error is a commit failure and, of the last three calls
  of the schedule, the context check and the commit succeed and the closing does not.
* **Historical states.** Closure unions, the filters, replay (`Projection`, `Replay`).
* **The query-set cache.** `QuerySet.All` as a transition system with one atomic step per mutex section, channel wait
  and context check, over any number of calls and any interleaving (`SingleFlight`).
* **SELECT printing.** The compiler, a reader for its output, placeholders, LIKE patterns, and the rows a statement
  accepts (`Texts`, `Like`, `SqlCompiler`, `SqlDecoder`, `SqlPlaceholders`, `SqlMeaning`).
* **Save.** Options, the plan they compile to, its execution, and its effect on the table (`Save`, `SaveExecution`).
* **Identifier search.** The boundary search that guards DROP COLUMN (`IdentifierScan`).

Three properties are false of the code in full generality. Each has a failing input and an exact condition:

| property | failing input | holds exactly when |
|---|---|---|
| removing the explicit targets from a projection keeps parents first | `TargetsAroundMigration` | no other migration lies strictly between two targets (`WithoutTargetsParentsFirst`) |
| a default save of a keyed model succeeds | `KeyOnlySaveFails` | the model has a field besides its key (`DefaultSaveUpserts`) |
| a failed execution leaves the database in the state it returns | `DurableThoughFailed` | the failure is not a closing that fails after its commit succeeded (`Execute`, `RunSteps`, `ExecutePlan`) |

The identifier search misses an occurrence only for identifiers with bytes that no column or table name contains
(`OverlapMissed`, `ExactCondition`); it is exact for every identifier the engine searches for, because those are
normalized names (`NormalizedNamesFound`).

## Model

| member | source | states |
|---|---|---|
| `CycleSearches.FirstCycleComponent` | migrations/planner_graph.go:279-337 | The search ends; it returns nothing exactly when the parent graph is acyclic, self-loops being cycles; otherwise the ascending members of exactly one strong component on a cycle, the one whose least key no other cyclic key precedes |
| `CycleSearches.CycleSearch.Visit` | migrations/planner_graph.go:288-323 | A visit leaves the stack it found below whatever it adds, keeps all numbers and low links it found, records exactly the cyclic components that became settled, and bounds every edge back into the old stack by its low link |
| `CycleSearches.CycleSearch.Follow` | migrations/planner_graph.go:295-304 | Following one more parent keeps the loop state whether the parent is new, open or closed |
| `CycleSearches.CycleSearch.PopMembers` | migrations/planner_graph.go:309-318 | Popping stops at the node: the stack is the base again and the members are what was above it, each once |
| `CycleSearches.CycleSearch.Pop` | migrations/planner_graph.go:309-322 | Exactly the popped part is cut off, and its sorted members are recorded exactly when there are several or a self-loop |
| `CycleSearches.TopIsComponent` | migrations/planner_graph.go:306-322 | What lies above a node that cannot reach below itself is its whole strong component, and removing it leaves the closed nodes closed under parents |
| `CycleSearches.CyclicComponent` | migrations/planner_graph.go:320-322 | A component lies on a cycle exactly when it has several members or a self-loop |
| `GraphBuild.NewPlannerGraph` | migrations/planner_graph.go:21-117 | The result is the one that the definitions determine as an unordered collection, and an accepted graph is well formed and acyclic |
| `GraphBuild.OutcomeUnique` | migrations/planner_graph.go:21-117 | The unordered definitions determine the result: the same graph, or an error with the same code, node, related key and members |
| `GraphBuild.OrderIndependent` | migrations/planner_graph.go:21-117 | Reordering the migrations, or the dependencies inside any of them, changes neither the graph nor the error |
| `GraphBuild.CheckAndBuild` | migrations/planner_graph.go:48-116 | The checks on edges run in their order, each reporting its least offending edge, and what passes them all becomes the graph |
| `GraphBuild.CheckEdges` | migrations/planner_graph.go:48-66 | Collects exactly the invalid and the repeated edges, and sorts each dependency list |
| `GraphBuild.BuildGraph` | migrations/planner_graph.go:96-111 | Nodes, parents and children are ascending and without repetition, and children is the converse of parents |
| `GraphBuild.FindDuplicate` | migrations/planner_graph.go:39-46 | Finds the first equal neighbours of the sorted definitions, if there are any |
| `GraphBuild.FirstPairLeast` | migrations/planner_graph.go:39-46 | The first equal neighbours carry the least key that any two definitions share |
| `AppliedStates.NewAppliedState` | migrations/planner.go:19-39 | Accepts exactly valid keys without repetition; otherwise reports the least invalid key, or else the least repeated one |
| `Keys.KeyLessExactly` | migrations/planner_graph.go:361-366 | Keys are ordered by app, then name: at the first difference the smaller character, or the end of the string, comes first |
| `Draining.DrainValid` | migrations/planner_graph.go:158-188 | Taking the least ready key again and again lists every candidate once, after everything it waits for |
| `Draining.DrainLeast` | migrations/planner_graph.go:158-188 | That order is lexicographically least among all orders that respect the edges |
| `Draining.DrainResumes` | migrations/planner_graph.go:158-188 | Starting over after the first n keys yields exactly the remaining ones |
| `Planner.CollectNeeded` | migrations/planner_graph.go:143-156 | The worklist collects exactly the unapplied ancestors of the target, and the target |
| `Planner.CollectDependents` | migrations/planner_graph.go:191-205 | The worklist through children collects exactly the applied keys that depend on the seed, and the seed if applied |
| `Planner.FirstForwardReady` | migrations/planner_graph.go:171-188 | Returns the least candidate whose parents are all applied; nothing only if no candidate is ready |
| `Planner.FirstBackwardReady` | migrations/planner_graph.go:220-237 | Returns the least candidate without a child among the candidates; nothing only if there is none |
| `Planner.PlanForward` | migrations/planner_graph.go:142-169 | On an accepted graph with consistent history the internal cycle error is never reached, the steps are the needed keys in least order, and the working set gains exactly them |
| `Planner.PlanBackward` | migrations/planner_graph.go:190-218 | The steps are the dependent applied keys in least order, children first, and the working set loses exactly them |
| `Planner.ValidateAppliedHistory` | migrations/planner_graph.go:128-140 | Succeeds exactly when every known applied key has its parents applied; otherwise names the least broken edge |
| `Planner.AppRoots` | migrations/planner_graph.go:239-257 | Lists, in key order, exactly the nodes of the app without a parent in the app |
| `Planner.PlanTarget` | migrations/planner.go:169-202 | One target extends the plan as defined, edits the working set to match, and leaves the history consistent |
| `Planner.Plan` | migrations/planner.go:152-204 | All targets are validated first, then the history, then each target is planned against what the previous ones left |
| `PlanTheory.ForwardCanonical` | migrations/planner_graph.go:142-169 | A forward plan holds each unapplied ancestor and the target once, parents first, ends with the target, and is lexicographically least among all such orders |
| `PlanTheory.Resume` | migrations/planner.go:168-203 | Replanning the same named or zero target after the first n steps yields exactly the remaining steps and a consistent history, unknown applied keys included |
| `PlanTheory.HistoryNeverBroken` | migrations/planner.go:163-204 | After any prefix of the plan for any list of targets every known applied key still has its parents applied |
| `PlanTheory.RollbackExact` | migrations/planner_graph.go:190-218 | Rolling back several seeds removes exactly the applied keys that depend on, or are, one of them, children before parents |
| `PlanTheory.RollbackCanonical` | migrations/planner_graph.go:190-218 | A rollback goes seed by seed, and each seed's part is the lexicographically least order of its dependents, children first |
| `PlanTheory.ZeroTargetClears` | migrations/planner.go:193-200 | A zero target rolls the roots of the app back in key order; it leaves the applied keys minus everything that depends on those roots, so no known key of the app stays applied |
| `PlanTheory.NamedTargetRollsBack` | migrations/planner.go:183-192 | An applied named target removes exactly what depends on its same-app children and stays applied itself |
| `PlanTheory.NamedTargetApplies` | migrations/planner.go:169-192 | A named target that is not applied becomes so together with exactly its ancestors, by forward steps of unapplied migrations |
| `PlanTheory.TargetPlanned` | migrations/planner.go:169-202 | Only a named target that is no node has no plan, and the error names it |
| `PlanTheory.RootAbove` | migrations/planner_graph.go:239-257 | Every node depends on, or is, a root of its own app |
| `PlanTheory.SingleTargetShape` | migrations/planner.go:168-203 | A plan for one target has a single direction, repeats no key, and lists only due ones: unapplied going forward, applied going backward |
| `PlanSpec.ValidTargets` | migrations/planner.go:206-221 | A target is accepted exactly when it is a named target for a valid key or a zero target for a named app; the error otherwise names the target's key |
| `SchemaIR.NormalizeSchema` | schema/ir/normalize.go:28-75 | Filling defaults and validating one model after the other, with seen-sets, yields the filled schema exactly when that is valid as a whole |
| `SchemaIR.NormalizeFields` | schema/ir/normalize.go:77-137 | Filling and checking the fields in place yields the filled list exactly when all are valid, names, Go names and columns are distinct, and there is one key |
| `SchemaIR.NormalizeIdempotent` | schema/ir/normalize.go:28-75 | Normalizing twice is normalizing once, and the result is what the state check demands |
| `SchemaIR.IdentifierGrammar` | schema/ir/normalize.go:13 | Identifiers are generated by the grammar of the expression: a letter or underscore, then any of those or a digit |
| `SchemaIR.ExportedGrammar` | schema/ir/normalize.go:249-263 | Exported Go identifiers by their grammar |
| `SchemaIR.DefaultsValid` | schema/ir/normalize.go:53-99 | A left-out table becomes app_model and a left-out column its field's name, and those are valid whenever the given names are |
| `SchemaIR.KeyFilled` | schema/ir/normalize.go:77-93 | A model without an automatic key gets one named id in front of its fields; one with such a key gets none |
| `ProjectStates.NormalizeFilled` | migrations/state.go:92-109 | A schema of filled models normalizes to itself or not at all |
| `ProjectStates.StateVersions` | migrations/state.go:42-56 | A state without a version is one of version 1, and no other version is valid |
| `StateChanges.CreateForwardChange` | migrations/operation.go:35-53 | Creating a model makes exactly that model findable, filled, where none was, in a valid state |
| `StateChanges.CreateBackwardChange` | migrations/operation.go:55-83 | Deleting a model makes exactly that model disappear, provided it equals what the operation creates |
| `StateChanges.AddForwardChange` | migrations/operation.go:113-139 | Adding a field appends the filled field to the named model, which did not have it, and changes no other model |
| `StateChanges.AddBackwardChange` | migrations/operation.go:141-181 | Removing a field changes only the named model; it loses exactly the equal field, unless that was its key |
| `StateChanges.CreateForwardExactly` | migrations/operation.go:35-53 | In a valid state a model can be created if and only if the app is an identifier, the filled model is valid, and it shares no name, Go name or table with a model of the app; it is then appended to them |
| `StateChanges.CreateBackwardExactly` | migrations/operation.go:55-83 | A model can be deleted if and only if it is there and equals, filled, what the operation creates |
| `StateChanges.AddForwardExactly` | migrations/operation.go:113-139 | A field can be added if and only if the model exists, the filled field is valid and no key, and it shares no name, Go name or column with a field of the model |
| `StateChanges.AddBackwardExactly` | migrations/operation.go:141-181 | A field can be removed if and only if it is there as added and, should it be the key, the implicit key put back finds its names free |
| `Operations.CreateUndone` | migrations/operation.go:55-83 | Deleting what was created restores the state, the app included |
| `Operations.AddUndone` | migrations/operation.go:141-181 | Removing the field that was added restores the state |
| `Operations.OperationUndone` | migrations/operation.go:35-181 | Every operation keeps states valid, and its backward transition undoes its forward one |
| `Execution.Preflight` | migrations/executor.go:184-220 | Threading the state through the operations prepares each with the state before and after it, or stops at the first refused one with its index |
| `Migrations.PreflightFolds` | migrations/executor.go:184-220 | The prepared operations are all of them in running order, each with its index and the states before and after; a failure is that of an invalid state, app or name, or of the first refused operation, whose index the error carries |
| `Migrations.MigrationUndone` | migrations/executor.go:184-251 | After a migration preflights forward, it preflights backward from the result and returns the state it started from |
| `Migrations.PlanUndone` | migrations/execution.go:145-163 | A forward sequence that preflights is undone by the reversed sequence run backward |
| `Migrations.BackAlong` | migrations/executor.go:239-251 | Reversed operation indices visit the states of a forward run in reverse |
| `Rendering.ModelRendered` | db/sqlite/migration_sql.go:63-96 | Every field of a valid model has a column declaration |
| `Rendering.ColumnAdmits` | db/sqlite/migration_sql.go:63-96 | The column of a valid field stores a value if and only if the field has it: NULL exactly if nullable, text exactly up to the maximum length, integers for automatic keys, booleans for booleans |
| `Rendering.TableAdmits` | db/sqlite/migration_sql.go:63-96 | The table of a model has one column a field, in order and under its column name, which stores exactly the field's values |
| `Rendering.FieldValidExactly` | schema/ir/normalize.go:139-191 | Without a default a field is valid if and only if a column can be declared for it, exactly keys are automatic, and only texts have a length |
| `Rendering.DefaultValidExactly` | schema/ir/normalize.go:139-214 | A default is valid if and only if it carries one payload and is a value of its field, which is no key |
| `Rendering.TablesFaithful` | db/sqlite/migration_sql.go:63-96 | The rendered columns of a valid model tell every field's column, kind, length and nullability, in order |
| `Rendering.CreateRuns` | migrations/operation.go:85-91 | Creating the table fails exactly when its name is taken; otherwise the new tables render the new state |
| `Rendering.DeleteRuns` | migrations/operation.go:93-99 | Dropping the table of a rendered model always works and leaves the tables rendering the new state |
| `Rendering.AddRuns` | db/sqlite/migration_backend.go:106-144 | Adding a column works exactly for fields without default that are nullable or meet an empty table; every refusal is a capability error |
| `Rendering.RemoveRuns` | db/sqlite/migration_backend.go:146-174 | Dropping a column works exactly for fields that are no key, and the remaining columns keep their order |
| `PlanRuns.OperationRuns` | migrations/operation.go:85-205 | With tables that render the state, an operation runs exactly when it is runnable, and then the tables render the next state |
| `PlanRuns.OperationsRender` | migrations/executor.go:155-166 | A migration's edits stop if and only if some operation, after those before it, finds a database that renders its state but is not fit for it; otherwise the tables render the final state and the records are unchanged |
| `PlanRuns.EffectRuns` | migrations/executor.go:128-182 | A migration runs if and only if its preflight passes, none of its edits is stuck, and its record is due |
| `PlanRuns.EffectRenders` | migrations/executor.go:155-181 | A completed migration leaves tables that render the new state and moves exactly its own record, which was absent before applying and present before unapplying |
| `PlanRuns.PlanRenders` | migrations/execution.go:21-72 | A plan's run keeps the tables rendering the state, agrees with the plan's preflight, and leaves the records the planner predicts |
| `PlanRuns.PlanKeepsRows` | migrations/execution.go:47-66 | Whatever a plan does, a table that stays keeps its rows and a new one is empty; a forward plan drops no table and no column |
| `PlanRuns.PlanRunConcat` | migrations/execution.go:47-66 | Running two plans in a row is running their concatenation |
| `Transactions.Transaction.Edit` | db/sqlite/migration_backend.go:269-285 | An edit changes only the pending database, and only if the transaction is open and the statement succeeds; a refused call is a capability error, a broken one a statement failure, and otherwise the error is exactly the one the edit of this database has |
| `Transactions.Transaction.WriteRecord` | db/sqlite/migration_backend.go:176-222 | A record is added only if absent and removed only if present |
| `Transactions.Transaction.Commit` | db/sqlite/migration_backend.go:224-243 | Cancellation leaves the transaction open and nothing durable; otherwise it is done, durable exactly if the commit succeeded, and reported as success only if closing succeeded too |
| `Transactions.Transaction.Rollback` | db/sqlite/migration_backend.go:245-267 | Always resolves the transaction, changes nothing durable, and is harmless after a commit |
| `Execution.RunOperations` | migrations/executor.go:155-166 | Runs the edits in order; if one fails it is the first that the schedule or the database refuses, and the error carries its own operation index and the category and code of that refusal |
| `Execution.RollBack` | migrations/executor.go:273-282 | Rolls back and returns the first error, marked exactly when the rollback or the closing failed; a transaction that is already resolved is left alone |
| `Execution.InTransaction` | migrations/executor.go:155-181 | Tells from the schedule and the database which edit, the record, the commit or its closing failed, with which error and after which call; the database changes exactly when the commit succeeded |
| `Execution.ErrorTellsStage` | migrations/executor.go:155-181 | From the error alone one can tell how far a transaction got: the refused edit and whether the backend could not represent it or the statement failed, the record, or the commit |
| `Execution.Execute` | migrations/executor.go:128-182 | On success every call succeeded, the whole migration is durable and the new state returned; on failure the old state is returned, the error and the failing call follow from the schedule, and the migration is durable if and only if the commit is followed by a failing close; without failing calls a possible migration succeeds |
| `Execution.DurableThoughFailed` | migrations/executor.go:177-180 | The failing input: when only the closing after the commit fails, every migration that can run becomes durable while its error and the old state are returned |
| `PlanExecution.CollectDefinitions` | migrations/execution.go:80-98 | Accepts exactly valid, distinct keys; otherwise names the first offending definition |
| `PlanExecution.DefinitionFound` | migrations/execution.go:80-98 | With distinct keys, looking up a definition's key finds that definition and no other |
| `PlanExecution.CheckSteps` | migrations/execution.go:100-143 | Accepts exactly defined, distinct, same-direction steps; otherwise names the first offending step and tells mixed directions from the rest |
| `PlanExecution.ExecutableExactly` | migrations/execution.go:100-143 | The accepted plans are those of distinct, valid, defined keys that run all forward or all backward |
| `PlanExecution.PreflightSteps` | migrations/execution.go:145-163 | Prepares every step's migration and the state after it, taking one call a step; or stops at the first step that is cancelled or refused, with that step's own error |
| `PlanExecution.RunSteps` | migrations/execution.go:47-66 | Whatever calls fail, exactly the first k steps are durable and their state is returned, or one step more than reported if and only if its commit was followed by a failing close; the error is that of step k, told from the schedule from the call at which it starts |
| `PlanExecution.ExecutePlan` | migrations/execution.go:21-72 | The first of these that applies decides the error: cancellation, a bad definition, a bad step, a stopped preflight, a failing step; before a step fails nothing changes, afterwards exactly a prefix of the plan is durable, one step more than reported if and only if its commit was followed by a failing close; without failing calls a possible plan completes |
| `PlanExecution.PlanErrorTells` | migrations/execution.go:21-72 | A malformed plan is reported as such exactly when the start was not cancelled and definitions or plan do not pass the checks, and then nothing was begun |
| `PlanExecution.PlanRunState` | migrations/executor.go:184-220 | The preflight inside each step reproduces the prepared state |
| `Recovery.PlannerOutputExecutable` | migrations/execution.go:100-143 | The plan for one target passes the structural checks when its nodes are defined |
| `Recovery.PlannedStepRuns` | migrations/execution.go:47-66 | The records never stop a planner's plan: its next step runs if and only if its preflight passes and none of its edits is stuck |
| `Recovery.CrashResumes` | migrations/planner.go:168-203 | After the first k steps became durable the tables still render the state, planning from the durable records yields exactly the rest, and running the rest ends as the undisturbed plan |
| `Recovery.ExecuteUntilDone` | migrations/execution.go:21-72 | Planning from the durable records and executing, again after every failure, under one arbitrary schedule of failures for each attempt: always a prefix of the first plan is durable, and one attempt without a failing call ends as the undisturbed plan |
| `Undoing.EffectUndone` | migrations/executor.go:128-182 | Unapplying a migration restores both the state and the database it was applied to |
| `Undoing.PlanRunUndone` | migrations/execution.go:21-72 | Unapplying a plan's migrations in reverse restores the state, all tables with their columns in order, and the records |
| `Projections.TargetProjection` | migrations/reconstructor.go:178-206 | Yields the closure union as forward steps, or the error of the first target that has none |
| `Projections.UnionGrows` | migrations/reconstructor.go:178-206 | The closures come in target order: naming more targets only adds to the end |
| `Projections.UnionGood` | migrations/reconstructor.go:178-206 | A closure union repeats no key, puts parents first, and holds exactly the targets and their ancestors |
| `Projections.UnionOfOne` | migrations/reconstructor.go:178-206 | The closure of one target is its forward plan from nothing applied |
| `Projections.AppLeaves` | migrations/planner_graph.go:262-277 | Lists exactly the nodes without a child in their app |
| `Projections.LeafBelow` | migrations/planner_graph.go:262-277 | Every node is, or is needed by, a leaf of its own app |
| `Projections.LatestCoversAll` | migrations/reconstructor.go:170-172 | The latest projection lists every node exactly once, parents first |
| `Projections.FilterParentsFirst` | migrations/reconstructor.go:208-230 | Filtering keeps parents first exactly when no kept key loses a parent |
| `Projections.AppliedKeepsParents` | migrations/reconstructor.go:222-230 | Filtering by a consistent applied set keeps parents first |
| `Projections.WithoutTargetsParentsFirst` | migrations/reconstructor.go:208-220 | Removing the explicit targets keeps parents first exactly when no other migration lies strictly between two targets |
| `Projections.TargetsAroundMigration` | migrations/reconstructor.go:208-220 | The failing input: of three migrations in a row the outer two are targets, and removing them leaves one without its parent |
| `Projections.UnrelatedTargets` | migrations/reconstructor.go:208-220 | In particular when no target is a proper ancestor of another |
| `Projections.WithoutExplicitTargets` | migrations/reconstructor.go:208-220 | Drops exactly the targets and keeps the order |
| `Projections.OnlyAppliedSteps` | migrations/reconstructor.go:222-230 | Keeps exactly the applied steps in order |
| `Replays.Replay` | migrations/reconstructor.go:232-254 | Replays the steps from the empty state or stops at the first missing definition or refused migration |
| `Replays.ReplayStops` | migrations/reconstructor.go:232-254 | A failed replay stops at the first key without definition, or at the first migration refused in the state that those before it led to |
| `Replays.ProjectedExactly` | migrations/reconstructor.go:101-119 | A request replays each migration it asks for once and no other, in an order that puts parents first: all that targets need, the same without the targets, every node, or every applied node |
| `Replays.Reconstruct` | migrations/reconstructor.go:92-157 | The state is that of replaying exactly the migrations the request asks for: after targets all they need, before them the same without the targets, at latest every node, for a history its applied nodes; it is refused if and only if it is the zero request, has no target, an invalid or unknown one, or an inconsistent history, and refusals name the first invalid target, else the first unknown one, or the least broken history edge |
| `Replays.OperationDescribed` | migrations/operation.go:35-139 | Each operation adds to a state exactly the model header and fields it gives |
| `Replays.ReplayConfluent` | migrations/reconstructor.go:232-254 | Two orders of the same migrations that both replay hold the same apps, models and fields |
| `Replays.SameWantsAgree` | migrations/reconstructor.go:92-121 | Any two requests that ask for the same migrations reconstruct the same contents when both replay |
| `Replays.TargetOrderIrrelevant` | migrations/reconstructor.go:178-206 | The order in which targets are named does not change the contents reconstructed before or after them |
| `Replays.HistoryReconstructs` | migrations/reconstructor.go:109-120 | The state reconstructed from an applied history has the contents of the state its execution, in any order, led to |
| `SingleFlight.StepKeepsInv` | orm/manager.go:131-196 | Every step of any call keeps the invariant of flights, owners, waiters and cache |
| `SingleFlight.RunSafe` | orm/manager.go:131-196 | In every reachable state at most one flight is open, returned rows are the cached ones, a failure taken from a flight is that flight's non-context error, a call that tries again last waited on a flight that succeeded or whose owner's context ended, and once the cache is filled no call can query or publish |
| `SingleFlight.StepOutcome` | orm/manager.go:131-195 | In which steps a call returns and with what: a cancelled one with its context's error, one that finds the cache with its rows, a waiter of a flight that failed otherwise with exactly that error, and in no other case before its own publication |
| `SingleFlight.OwnerOutcome` | orm/manager.go:174-195 | The owner returns its own scan's rows or error, or its context's error if that ended before a successful scan was published; the flight, and for rows the cache, records the same |
| `SingleFlight.ErrorShared` | orm/manager.go:155-168 | Every waiter of a flight whose owner failed, other than by its context, returns that very error whenever it wakes; all other waiters try again |
| `SingleFlight.CacheStable` | orm/manager.go:181-189 | The cache is written once and no backend query starts after it is filled |
| `SingleFlight.QueriesRecorded` | orm/manager.go:170-174 | The recorded backend queries are exactly those that were started, in order |
| `SingleFlight.CacheFilledLive` | orm/manager.go:174-189 | The cache is filled only with rows of a scan that succeeded, after which the owner's context was found live |
| `SingleFlight.QueriedWhileLive` | orm/manager.go:137-174 | A call that may query claimed its flight right after its context was found live, with no wait in between |
| `SingleFlight.FlightsBounded` | orm/manager.go:170-172 | Each flight has its own owner, so n calls open at most n flights |
| `SingleFlight.WaiterMoves` | orm/manager.go:150-155 | A waiter can give up as soon as its context ends and wakes as soon as its flight is over; until then the flight's owner is at work |
| `SingleFlight.NeverStuck` | orm/manager.go:136-195 | While a call has not returned, some call can move: a recorded flight has a running owner |
| `SingleFlight.RunsEnd` | orm/manager.go:136-195 | Without new calls the number of steps is bounded, so every waiter's retries end |
| `Likes.EscapePerCharacter` | db/sqlite/compiler.go:140-144 | The three successive replacements equal one escape per character |
| `Likes.ContainsMeaning` | db/sqlite/compiler.go:110-116 | The escaped pattern between two percent signs matches exactly the texts that contain the value up to ASCII case |
| `Likes.FoldExactly` | db/sqlite/compiler.go:110-116 | Case folding identifies exactly the letters that differ in ASCII case |
| `SqlCompiler.Compile` | db/sqlite/compiler.go:10-94 | Reports the first failing check in the order the statement is written; otherwise the whole text and the arguments in condition order with the limit last |
| `SqlCompiler.PlanCompiles` | db/sqlite/compiler.go:10-138 | A plan compiles if and only if its names can be quoted, it selects something, its conditions and orderings use selected fields, every lookup is defined for its field and value, and every direction is known |
| `SqlCompiler.PlanRefused` | db/sqlite/compiler.go:96-173 | A plan is reported as unsupported exactly when its names are fine and its first bad condition has a lookup its field does not support |
| `SqlCompiler.WriteConditions` | db/sqlite/compiler.go:38-62 | Writes the conditions in order and collects their arguments, or stops at the first bad one |
| `SqlDecoder.IdentifierParsed` | db/sqlite/compiler.go:133-138 | A quoted identifier reads back as itself, quotes included |
| `SqlDecoder.DecodesCompiled` | db/sqlite/compiler.go:10-138 | Reading a printed statement recovers columns, table, each condition's column and operator, orderings and the presence of a limit |
| `SqlPlaceholders.PlaceholdersMatch` | db/sqlite/compiler.go:38-93 | The question marks outside identifiers are exactly as many as the arguments |
| `SqlPlaceholders.QuotePlain` | db/sqlite/compiler.go:133-138 | A quoted identifier holds no placeholder, whatever its characters |
| `SqlMeaning.ConditionMeaning` | db/sqlite/compiler.go:96-131 | A cell passes the compiled operator and argument exactly when it meets the condition |
| `SqlMeaning.SelectMeaning` | db/sqlite/compiler.go:10-94 | Reading a statement back and running it with its arguments accepts exactly the rows that meet every condition of the plan |
| `IdentifierScan.IdentifierAppears` | db/sqlite/migration_backend.go:571-588 | The search ends for every non-empty identifier and, unless the identifier overlaps itself after a non-identifier byte, answers whether it stands anywhere between boundaries |
| `IdentifierScan.ExactCondition` | db/sqlite/migration_backend.go:571-588 | The search is exact for every statement if and only if the identifier has no such overlap |
| `IdentifierScan.NormalizedNamesFound` | db/sqlite/migration_backend.go:437-494 | For every normalized name, which are all the engine searches for, the search says exactly whether the name stands in the statement |
| `IdentifierScan.IdentifierBytes` | db/sqlite/migration_backend.go:590-592 | The bytes that count as part of an identifier are exactly those that normalized names are made of |
| `IdentifierScan.OverlapMissed` | db/sqlite/migration_backend.go:571-588 | A statement in which the search misses an identifier with a hyphen |
| `IdentifierScan.IdentifiersScanExactly` | schema/ir/normalize.go:13 | An identifier made of identifier bytes has none |
| `Saving.FoldedMeaning` | orm/save.go:31-103 | The collected options say which were given, and an error is recorded exactly when one repeats or is unknown |
| `Saving.FoldedMask` | orm/save.go:31-97 | Without an error the collected mask holds exactly the references or names of the one that was given |
| `Saving.FoldedFault` | orm/save.go:31-103 | The recorded error is that of the first option that is unknown or repeats |
| `Saving.CollectOptions` | orm/save.go:157-173 | The zero option is reported before any other error, then the first recorded one, then contradicting force flags |
| `Saving.ResolveSaveFields` | orm/save.go:315-369 | Without a mask nothing is selected; with one it yields the selected fields in metadata order, or the first entry that selects none |
| `Saving.SaveAssignments` | orm/save.go:381-399 | One assignment per field in order, or the error of the first field that cannot be assigned: a key field, or one without a matching value |
| `SaveExecution.BuildSaveExecutionPlan` | orm/save.go:150-270 | Refuses for the first of these reasons and for no other: bad options, a bad mask, a force-insert with a mask, a bad key, an unwritable field, an update without key; otherwise chooses between nothing, insert, update, and update-or-insert by mask, force flags and key presence |
| `SaveExecution.RefusedInOrder` | orm/save.go:150-220 | From model and options alone: a save is refused for the first reason that holds, in the order of the checks, and accepted if none holds |
| `SaveExecution.EntryRefused` | orm/save.go:319-363 | A mask entry is unknown exactly if no field has its reference or name, refused if that field is the key, and otherwise selects it |
| `SaveExecution.WrittenChosen` | orm/save.go:315-379 | A field is written if and only if some entry of the given mask names it, or no mask is given and it is not the key; a mask selects nothing exactly if it is empty |
| `SaveExecution.NothingPlanned` | orm/save.go:178-180 | Nothing is planned if and only if the save is given an empty mask |
| `SaveExecution.ValueAdmitted` | orm/write.go:237-250 | Save accepts exactly the values its field can have, except that it does not check a text's length, and filters accept the same but NULL |
| `SaveExecution.ExecuteSavePlan` | orm/save.go:272-313 | On success the plan's whole effect and the generated key; on any failure table and model are as before; a plan makes no call if and only if it is empty |
| `SaveExecution.Save` | orm/save.go:132-148 | A refused save makes no backend call; one with an empty mask succeeds without any; a failed one leaves no trace; a successful one changes the model exactly if it had no key, and then hands one out; and when no call fails, a save that is not refused succeeds if and only if its plan does, and then has exactly its effect |
| `SaveExecution.DefaultSaveUpserts` | orm/save.go:246-269 | A default save with a key writes exactly that row's columns, present or not, if and only if the model has a field besides its key |
| `SaveExecution.KeyOnlySaveFails` | orm/save.go:246-269 | The failing input: a model with nothing but its key fails a default save, whatever the table holds |
| `SaveExecution.ForcedInsertAdds` | orm/save.go:239-244 | A forced insert adds exactly its row, if and only if the key is not in use |
| `SaveExecution.UpdateChangesSelected` | orm/save.go:249-256 | A masked or forced update changes exactly the columns of the fields that the options choose, if and only if the row exists and a field is chosen; otherwise it reports the missing row |
| `SaveExecution.UnkeyedSaveInserts` | orm/save.go:210-224 | A save without a key adds exactly one row under a key not in use, and hands that key out |
| `SaveExecution.GeneratedKeysStayFresh` | orm/save.go:272-313 | After any plan the next generated key is above every key in use |
| `SaveExecution.InsertRow` | orm/save.go:226-237 | The explicit-key insert holds the key next to the same values the update would write |

## Left out

* Text: strings are sequences of characters; UTF-8 validity, byte lengths of character defaults and Unicode case folding
  are not modelled, and exported Go identifiers are restricted to ASCII. LIKE on texts with embedded NUL is not modelled.
* Error texts, wrapping and joined causes: errors keep category, code, keys and operation index; the rollback cause is
  one flag. Validation errors of a schema are not told apart.
* Nil receivers, nil interfaces, pointer variants of operations, deep clones and aliasing: values are used throughout,
  so snapshots of caller-owned slices hold by construction.
* Raw state requests with leftover fields, and the construction of a reconstructor's definitions: a request is one of
  its public forms or the zero value.
* SQLite itself: index, trigger, view and foreign-key inspection before a column is dropped, and all driver calls, are
  verdicts of the schedule. One verdict covers the context check and the statements inside one editor call, so the order
  of a cancelled context and a capability refusal is not modelled. A model whose table is the recorder's own table or
  has a name SQLite reserves is not modelled, nor are other writers of the same database.
* A commit that fails is taken to leave nothing durable, and an insert or update that fails to change no row: a driver
  that inserted the row and then cannot report the affected rows or the new key is not modelled.
* `NewProjectState`, `Hash`, canonical JSON and code generation.
* `Count`, `Exists`, `At`, `First` and `Iterate` do not take part in the flight protocol beyond reading the cache under
  the same lock. Cloning of rows is the identity on values.
* Save: a row's cells for columns that no assignment names are left to the database; descriptor metadata is taken to be
  a normalized model whose key field is given, so the checks of the write configuration are not modelled; an
  affected-row count other than zero or one cannot occur for a key and is not modelled. The identifier comparison of the
  write compiler is not modelled.
* `db.Atomic`, `Create`, `Patch` and `Delete` paths, which add single-branch checks.
- `SchemaIR.NormalizeSchema`: says that an invalid schema is refused, not which path and code its first violation has.
- `SchemaIR.NormalizeFields`: the same; execution reports every invalid state alike.
- `Rendering.RemoveRuns`: refusals found by inspecting indexes, triggers, views and foreign keys come from the schedule.
- `SingleFlight.RunsEnd`: counts steps of calls that have begun and takes for granted that each scan returns.
