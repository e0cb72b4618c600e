# Verified model of the workflow orchestrator

A Dafny model of the orchestrator's workflow compiler, its token-counting choreography, the
versioned patch store, the two workflow patchers, the human-approval worker and the config
resolver, with machine-checked proofs. `dafny verify dfyconfig.toml` checks all of it.

## What is modelled

- **Compiler** (`WorkflowIR`, `Compiler`, `CycleCheck`, `Schemas`, `SchemaMeaning`, `MapOrder`,
  `Reachability`). A schema of nodes and edges
  becomes an IR with forward and backward adjacency, branch rules, loop configs and flags, and is
  then validated. Go ranges over maps in arbitrary order; results are proved for every order, and
  the graphs accepted in every order are characterised exactly.
- **Routing** (`ControlFlow`, `Absorbers`). Branch and loop outcomes for every evaluation oracle, and
  the inline expansion of branch nodes.
- **Token protocol** (`Counter`, `Coordinator`, `Activations`, `Schedules`, `Completion`,
  `CompletionExact`, `CompletionRaces`, `LateTokens`, `Handlers`, `HandlerOutcomes`, `Trails`,
  `Witnesses`). Handlers are goroutines, so the protocol is a transition system in which every
  publication, counter operation and check is one step and all activations interleave. `Handlers`
  holds the handler bodies as imperative code, each proved to be a sequence of those steps.
  Conservation is proved for every graph and interleaving; activation and completion results state
  the graphs they need. What interleaved handlers can and cannot do to COMPLETED is decided from the
  graph alone, by building the runs that fail and excluding them on all other graphs.
- **Patch store** (`PatchStore`, `PatchService`). Blobs, artifacts, the pre-materialised chain table
  and tags. The source does not store a patch's predecessor; the model records it in ghost state as
  the reference the chain table must agree with. SHA-256 is injective, and the JSON Patch library is
  an arbitrary deterministic partial function, so results hold for every such function.
- **Patchers** (`WorkflowPatch`, `PatchMeaning`, `RunPatches`, `ReloadRaces`). The in-place patcher on slices with spare capacity,
  compared with sections 4.1 to 4.3 of RFC 6902 and the pointers of RFC 6901, and the append-only
  run-time patcher followed by recompilation.
- **Approvals** (`Hitl`, `HitlWorker`, `HitlRaces`, `HitlDecisions`). Every Redis command or transaction of the request and response
  goroutines is one step.
- **Resolver** (`Resolver`, `ResolverMeaning`). Placeholder interpolation as the Go loop does it, against the one-pass
  substitution of the Python resolver.

## Properties the code does not have

Each is kept as the code has it, with the exact condition under which it fails or holds and a failing
input. The workflows in `Witnesses` compile and are accepted, for any distinct node names.

- The cycle check can accept or reject the same graph depending on map order
  (`MapOrder.VerdictDependsOnOrder`, `CycleCheck.AcceptedInEveryOrderIff`).
- A loop node with one iteration and no timeout path never emits and yet is not flagged terminal
  (`ControlFlow.TerminalFlagExact`); a→l→z with such an l never records COMPLETED
  (`Witnesses.DeadLoopNeverCompletes`).
- A handler publishes its successors after it consumed its token, and counts them after it published
  them, so COMPLETED can be recorded early: while tokens are published and uncounted
  (`CompletionRaces.EarlyCompletion`), while a handler has consumed and published nothing yet
  (`CompletionRaces.EarlyCompletionBeforeRouting`), and even with handlers as atomic steps while an
  absorber is pending (`CompletionRaces.SerialEarlyCompletion`). The exact conditions are
  `CompletionRaces.EarlyIffHandlerUnderWay` and `Completion.SerialEarlyIffAbsorberPending`. On
  branch-free, loop-free forests a token can follow COMPLETED iff some non-terminal node does not lead
  to some terminal node (`LateTokens.LateTokenIff`, `Witnesses.CompletedBeforeToken`).
- Each completion signal is handled in its own goroutine
  (cmd/workflow-runner/coordinator/coordinator.go:152-153), so COMPLETED can also be missed: a node
  counts its successors after they have finished, and nobody checks again. On those forests every
  drained run records COMPLETED iff no node has a dependent (`CompletionExact.NeverMissedIff`,
  `Witnesses.CompletedMissed`).
- COMPLETED can be recorded twice: two terminal nodes both consume before either checks. No run
  records it twice iff there is only one terminal node (`CompletionExact.NeverTwiceIff`,
  `Witnesses.CompletedTwice`).
- Consume keys name the node, not the token, so a join node leaves the counter above zero
  (`Completion.DrainedZeroIffForest`, `CompletionExact.NeverLeaksIff`, `Witnesses.JoinLeaks`); an
  absorber counts nested absorbers (`Absorbers.EmittedExactIff`, `Witnesses.NestedConditionalsLeak`).
- Compaction refuses a chain in which two patches have equal content, although it materialises
  (`PatchStore.MaterialisesButNotCompacted`, `PatchStore.RefusalHappens`,
  `PatchService.Service.CompactWorkflow`).
- Concurrent reloads can overwrite a newer IR with an older one
  (`ReloadRaces.OvertakenReloadLosesNode`, `RunPatches.StoreKeepsNodesIff`).
- A response message naming another tag decrements another counter, possibly below zero
  (`HitlRaces.ForeignTagGoesNegative`, `HitlRaces.BalancedIffHonest`), and two response goroutines can
  signal twice (`Hitl.TwoWorkersSignalTwice`, `HitlRaces.SignalsOnceIffOneWorker`) or overturn a
  decision (`HitlDecisions.ApprovedThenRejected`, `HitlDecisions.DecisionsFinalIffOneWorker`).
- Sequential replacement differs from one-pass substitution for node outputs that make up a
  placeholder (`Resolver.LiveValueBreaks`, `Resolver.InertExactly`).
- Adding to a collection that is not an array replaces it, indexes such as `+0` or `01` are accepted,
  and an add or replace without a value member writes null, unlike in the RFCs
  (`WorkflowPatch.AddAgrees`, `WorkflowPatch.EditAgrees`, `WorkflowPatch.LooseIndexExamples`,
  `WorkflowPatch.LooseAddExamples`).
- A run request whose workflow cannot be fetched or compiled leaves the run marked as started, so a
  redelivered request does nothing (`Handlers.Runner.HandleRunRequest`).

Where documentation and code differ the code is followed: the seq documentation of
`GetWorkflowComponentsAtVersion` speaks of patched versions only, while a dag_version also accepts
seq 1; `wait_for_all` is documented as a join but routing never reads it.

## Model

| member | source | states |
|---|---|---|
| `Compiler.ExtractStringArray` | common/compiler/ir.go:359-369 | the strings of an array-valued config entry in order, other items dropped, and the empty list for anything else |
| `Compiler.CreateLoopConfig` | common/compiler/ir.go:319-347 | succeeds iff max_iterations is a positive number and loop_back_to a non-empty string, with every field taken from the config |
| `Compiler.CreateBranchConfig` | common/compiler/ir.go:284-316 | one rule per distinct condition holding that condition's targets in edge order, in whatever order the map is iterated; unconditional targets form the default |
| `Compiler.ConvertWorkflowNode` | common/compiler/ir.go:183-276 | succeeds iff the node type is known and its loop config is valid; the type mapping, branch and loop of the result follow the schema |
| `Compiler.LinkEdges` | common/compiler/ir.go:138-162 | fails iff an edge end is missing; otherwise Dependencies are the edge sources in edge order and non-branch Dependents the edge targets in edge order |
| `Compiler.SetFlags` | common/compiler/ir.go:165-173 | wait_for_all iff more than one dependency and terminal iff no successor of any kind, for every map order |
| `Compiler.Validate` | common/compiler/ir.go:476-583 | reports exactly the first failing check of terminal, entry, loop, branch and cycle, with the cycle check in the given order |
| `Compiler.CompileWorkflowSchema` | common/compiler/ir.go:111-180 | success means the declarative compilation relation and acceptance; a bad-node error is returned iff some node is inconvertible, and names one; a dangling-edge error iff all nodes convert and some edge lacks an end, and names one; any other error is the first check that fails in some map order |
| `Compiler.BranchCount` | common/compiler/ir.go:284-316 | grouping edges into rules and a default keeps every target with its multiplicity |
| `Compiler.EdgeTranspose` | common/compiler/ir.go:118-162 | for all u, v: multiplicity of v in Dependents of u = number of schema edges u→v = multiplicity of u in Dependencies of v, branch and approval nodes included |
| `Compiler.CompiledIsClosed` | common/compiler/ir.go:212-248 | every Dependents entry of a compiled IR is one of its nodes |
| `Schemas.LastNodeWins` | common/compiler/ir.go:118-136 | of several nodes with one id the last is compiled |
| `SchemaMeaning.StringsAreFiltered` | common/compiler/ir.go:359-369 | the strings of a list are the string items, selected in their order (`Seqs.FilteredSelects` says what that means by positions) |
| `SchemaMeaning.LoopRoundTrip` | common/compiler/ir.go:319-347 | every usable loop config is read back from the JSON an author writes for it, field by field |
| `SchemaMeaning.LoopIsUnique` | common/compiler/ir.go:319-347 | and a config is read in one way only |
| `SchemaMeaning.CompiledKeepsOrder` | common/compiler/ir.go:118-162 | in edge order: Dependencies are the sources of incoming edges, Dependents of a node without branch the targets of outgoing ones, a rule the targets with its condition, the default those without |
| `SchemaMeaning.TypeDecidesSpawn` | common/compiler/ir.go:183-276 | at run time http, agent and hitl nodes of the schema get a worker token, conditional and loop nodes are evaluated inline, and every other type is completed at once |
| `SchemaMeaning.TypeDecidesRouting` | common/compiler/ir.go:211-260 | exactly conditional nodes and approval nodes with a conditional edge branch, and exactly loop nodes loop |
| `SchemaMeaning.KnownTypes` | common/compiler/ir.go:183-281 | only the ten types of the schema compile |
| `SchemaMeaning.TypesConvert` | common/compiler/ir.go:183-281 | and each of them does, a loop node with a limit and a node to go back to |
| `SchemaMeaning.JoinMeaning` | common/compiler/ir.go:164-171 | a node waits for all iff two edges lead to it, and is an entry iff none does |
| `SchemaMeaning.TerminalMeaning` | common/compiler/ir.go:429-473 | a node is terminal iff it is no loop node and no edge leaves it |
| `SchemaMeaning.VerdictMeaning` | common/compiler/ir.go:476-583 | each of the five problems is reported iff its check fails and all earlier ones pass |
| `SchemaMeaning.AcceptedMeaning` | common/compiler/ir.go:476-583 | an IR is accepted iff the schema has a node that is no loop and that no edge leaves, a node that no edge enters, loops with a limit of at least one and an existing target, conditionals with an edge, and passes the cycle check in some order |
| `CycleCheck.Search.HasCycle` | common/compiler/ir.go:548-572 | the recursive search with its two mutable maps computes the functional search |
| `CycleCheck.Search.FindCycle` | common/compiler/ir.go:574-580 | the loop over the roots reports a cycle iff the functional search rejects this order |
| `CycleCheck.AcceptanceRanks` | common/compiler/ir.go:543-580 | acceptance in any order yields a ranking that strictly decreases along every edge not entering a loop-enabled node |
| `CycleCheck.AcceptedCyclesHaveLoops` | common/compiler/ir.go:543-580 | every cycle of an accepted graph contains a loop-enabled node |
| `CycleCheck.RejectionExhibitsCycle` | common/compiler/ir.go:556-568 | a rejection exhibits a real cycle through a node that is not a loop node |
| `CycleCheck.LoopFreeVerdict` | common/compiler/ir.go:543-580 | without loop nodes: accepted iff acyclic, for every order |
| `CycleCheck.AcceptedInEveryOrderIff` | common/compiler/ir.go:574-580 | accepted in every map order iff no cycle contains a node without an enabled loop |
| `MapOrder.GraphIsCompiled` | common/compiler/ir.go:111-180 | the IR of a workflow entry→task⇄loop→end, for any node names and loop config, is what compilation gives |
| `MapOrder.VerdictDependsOnOrder` | common/compiler/ir.go:476-583 | on that IR validation finds no problem when the map is ranged over from the loop node and a forbidden cycle when it starts at the task |
| `MapOrder.ProperExists` | common/compiler/ir.go:319-347 | names and a loop config that make up such a workflow exist |
| `Reachability.ReachesTerminal` | common/compiler/ir.go:428-499 | in a loop-free accepted graph every node has a walk to a terminal node |
| `Reachability.ReachedFromEntry` | common/compiler/ir.go:586-594 | in a loop-free accepted graph every node has a walk from an entry node |
| `Reachability.OnEntryToTerminalWalk` | common/compiler/ir.go:476-594 | every node of a compiled, accepted, loop-free workflow lies on a walk from an entry to a terminal node |
| `ControlFlow.HandleBranch` | cmd/workflow-runner/operators/control_flow.go:183-247 | the rule loop returns the targets of the first rule whose condition holds, else the default; evaluation errors count as not met |
| `ControlFlow.BranchMeaning` | cmd/workflow-runner/operators/control_flow.go:183-247 | for every rule order: some condition holds ⇒ the whole group of one true condition; none holds or all fail to evaluate ⇒ exactly the unconditional targets |
| `ControlFlow.UniqueConditionDecides` | common/compiler/ir.go:284-316 | if exactly one condition holds, routing returns exactly that condition's targets in edge order |
| `ControlFlow.LoopOperator.HandleLoop` | cmd/workflow-runner/operators/control_flow.go:84-164 | increments the stored iteration, exits by timeout at the limit or by the condition, otherwise loops back; the count is deleted on exit and other nodes keep theirs |
| `ControlFlow.LoopMeaning` | cmd/workflow-runner/operators/control_flow.go:84-164 | over any sequence of calls, from any cleared count: loops back while the condition is met, breaks at the first call where it is not, fails or has no output, and times out at call max_iterations |
| `ControlFlow.CountBelowLimit` | cmd/workflow-runner/operators/control_flow.go:84-164 | after any sequence of calls the stored iteration is below max_iterations |
| `ControlFlow.LoopsAreBounded` | cmd/workflow-runner/operators/control_flow.go:84-164 | any max_iterations consecutive calls contain an exit, so loop-backs in a row stay below the limit |
| `ControlFlow.TerminalFlagExact` | common/compiler/ir.go:435-473 | the terminal flag holds iff no evaluation outcome emits a successor, with the one exception of a loop that must time out into nothing, characterised exactly |
| `Witnesses.DeadCompiles` | common/compiler/ir.go:111-180 | a→l→z with a loop node l of one iteration and no timeout path compiles to the given IR, for any distinct names |
| `Witnesses.DeadAccepted` | common/compiler/ir.go:476-583 | validation accepts that IR |
| `Witnesses.TrappedRunsNeverComplete` | cmd/workflow-runner/workflow_lifecycle/completion.go:42-79 | if a set of non-terminal nodes holds the entry nodes and no outcome leaves it, no run records COMPLETED, loops and branches included |
| `Witnesses.DeadLoopNeverCompletes` | cmd/workflow-runner/operators/control_flow.go:84-164 | so no run of that workflow records COMPLETED: l never emits and is not flagged terminal |
| `Counter.Sdk.ApplyDelta` | common/sdk/sdk.go:41-79 | applies the delta iff the key is new and reports value, change and zero exactly as the script does |
| `Counter.Sdk.ConsumeToken` | common/sdk/sdk.go:82-102 | one decrement under a key that names the node only |
| `Counter.Sdk.EmitTokens` | common/sdk/sdk.go:105-135 | nothing for an empty list, else one increment by its length under a fresh key |
| `Counter.Sdk.InitializeCounter` | common/sdk/sdk.go:268-281 | sets the counter and keeps the applied keys |
| `Counter.Sdk.GetCounter` | common/sdk/sdk.go:253-265 | a missing counter reads as zero |
| `Counter.CounterIsSumOfDistinctDeltas` | scripts/apply_delta.lua:1-54 | after any sequence of operations the counter is the start value plus the deltas of the distinct new keys |
| `Counter.OrderAndRepetitionIrrelevant` | scripts/apply_delta.lua:1-54 | two sequences with the same keys, in any order and with any repetition, leave the same counter |
| `Coordinator.StepConserves` | cmd/workflow-runner/coordinator/node_router.go:15-70 | every step of every handler keeps the conservation law |
| `Coordinator.EveryRunConserves` | cmd/workflow-runner/coordinator/completion_handler.go:14-205 | the law holds in every state of every run: any graph, interleaving, failure, redelivery and IR replacement |
| `Coordinator.TokenConservation` | cmd/workflow-runner/coordinator/completion_handler.go:109-204 | counter + redelivered signals + tokens published but not yet counted = live + stuck + repeated completions + next nodes an absorber counted without a token |
| `Coordinator.ZeroIffClean` | cmd/workflow-runner/workflow_lifecycle/completion.go:42-79 | with nothing between publishing and emitting, the counter is 0 iff nothing is live or stuck and nothing was miscounted |
| `Handlers.Runner.HandleRunRequest` | cmd/workflow-runner/executor/run_request_consumer.go:133-272 | starts a run at most once, with an accepted compilation of the fetched workflow, the counter equal to the number of entry nodes and one token each; fails only if the fetch does or the compilation can, and then nothing is published and no later request starts the run |
| `Handlers.Runner.FindEntryNodes` | cmd/workflow-runner/executor/run_request_consumer.go:320-330 | exactly the nodes without dependencies, each once, in some map order |
| `Handlers.Runner.SpawnOne` | cmd/workflow-runner/coordinator/node_router.go:24-52 | one next node is one routing step: ignored if missing, inline if an absorber, else published or completed at once |
| `Handlers.Runner.RouteToNextNodes` | cmd/workflow-runner/coordinator/node_router.go:15-70 | all publications, then one emission: workers only for a completion, every next node for an absorber |
| `Handlers.Runner.HandleAbsorberNode` | cmd/workflow-runner/coordinator/node_router.go:224-313 | an absorber's goroutine is exactly determine, route, emit, without consuming |
| `Handlers.Runner.CheckCompletion` | cmd/workflow-runner/workflow_lifecycle/completion.go:42-79 | COMPLETED is recorded iff the node is terminal and the counter reads 0 |
| `Handlers.Runner.HandleCompletion` | cmd/workflow-runner/coordinator/completion_handler.go:14-205 | the steps of one handler in source order; a failed or unknown node changes nothing but its own activation, which ends failed or lost with its token unconsumed |
| `HandlerOutcomes.CompletionOutcome` | cmd/workflow-runner/coordinator/completion_handler.go:14-205 | what a whole handler does: drop an unknown node, fail a failed node or a blocked agent, or else take over the reloaded IR, consume once per node, add one activation per existing next node in order, count the workers, and record COMPLETED iff terminal with counter zero |
| `HandlerOutcomes.AbsorberOutcome` | cmd/workflow-runner/coordinator/node_router.go:224-313 | an absorber consumes nothing, adds one activation per existing next node and counts every next node |
| `Trails.RunsAreExplained` | cmd/workflow-runner/coordinator/completion_handler.go:14-205 | in every run the events of each activation are those of one handler in order, each once, whatever interleaves |
| `Trails.ChecksAreEarned` | cmd/workflow-runner/coordinator/completion_handler.go:109-204 | a completion check comes after success was reported, if there is a worker, and after taking up, consuming, choosing, handling every chosen node and counting them, in this order |
| `Trails.WorkersReportFirst` | cmd/workflow-runner/coordinator/completion_handler.go:14-108 | without redelivery or patch a token is consumed only after its worker reported success, if it was published to one, and after a synthetic completion otherwise |
| `Trails.FailedNodesStop` | cmd/workflow-runner/coordinator/completion_handler.go:37-41 | after a worker reports failure the activation may be redelivered and taken up, and never consumes, routes, emits or checks |
| `Trails.NoCompletionAfterFailure` | cmd/workflow-runner/coordinator/completion_handler.go:37-41 | with serial handlers and no redelivery COMPLETED is never recorded after a failure, on any graph |
| `Trails.FailedRunsNeverComplete` | cmd/workflow-runner/workflow_lifecycle/completion.go:42-79 | on workflows without absorbers a serial run with a failure never records COMPLETED, before or after it |
| `Handlers.AfterConserves` | cmd/workflow-runner/coordinator/completion_handler.go:109-205 | no sequence of handler steps breaks token conservation |
| `Handlers.AfterIsTrace` | cmd/workflow-runner/coordinator/completion_handler.go:14-205 | whatever a handler does is a trace of the transition system |
| `Absorbers.OutcomesFall` | cmd/workflow-runner/coordinator/node_router.go:171-303 | on an accepted loop-free workflow every outcome oracle makes absorber expansion fall in topological rank |
| `Absorbers.Streams.HandleAbsorberNode` | cmd/workflow-runner/coordinator/node_router.go:171-313 | with all nested absorbers run to completion: terminates, reaches exactly the expansion as a multiset, publishes exactly the nodes with a worker and raises the counter by exactly the emissions |
| `Absorbers.ExpansionIff` | cmd/workflow-runner/coordinator/node_router.go:240-303 | a node is reached iff a walk through absorbers following the outcomes leads to it and it is no absorber itself |
| `Absorbers.WalksAreWalks` | cmd/workflow-runner/coordinator/node_router.go:240-303 | the set of walks from an absorber to a node, told apart by the positions they take, holds exactly those |
| `Absorbers.OneTokenPerWalk` | cmd/workflow-runner/coordinator/node_router.go:240-303 | a node's multiplicity in the expansion is the number of walks that lead to it |
| `Absorbers.EmittedExceedsTokens` | cmd/workflow-runner/coordinator/node_router.go:305-306 | the counter rises by the number of tokens plus one for every nested absorber |
| `Absorbers.EmittedExactIff` | cmd/workflow-runner/coordinator/node_router.go:305-306 | emissions match tokens iff the absorber chose no other absorber |
| `Witnesses.RowCompiles` | common/compiler/ir.go:111-180 | a task, two conditionals in a row with unconditional edges, and a task compile to the given IR |
| `Witnesses.RowAccepted` | common/compiler/ir.go:476-583 | validation accepts that IR |
| `Witnesses.RowChoices` | cmd/workflow-runner/operators/control_flow.go:183-247 | such a workflow has an outcome oracle |
| `Witnesses.NestedConditionalsLeak` | cmd/workflow-runner/coordinator/node_router.go:305-306 | for every outcome oracle the first conditional publishes one token and raises the counter by two |
| `Activations.RoutesWithinDependents` | cmd/workflow-runner/operators/control_flow.go:50-63 | whatever the evaluation outcome, routing returns a sub-multiset of Dependents |
| `Activations.QuietRunTracks` | cmd/workflow-runner/coordinator/node_router.go:15-303 | in every state, activations of a node = its entry token + the times it was routed to |
| `Activations.ActivatedAtMostOnce` | cmd/workflow-runner/coordinator/node_router.go:15-319 | on accepted loop-free forests every run activates each node at most once through workers, skips and absorbers |
| `Activations.RunsAreFinite` | cmd/workflow-runner/coordinator/node_router.go:15-319 | such a run has at most one activation per node and a bounded number of steps |
| `Activations.DrainedActivations` | cmd/workflow-runner/coordinator/node_router.go:15-319 | a drained run activated each node exactly as often as the path count from the entries says, for a topological order of the graph |
| `Activations.ScheduleIrrelevant` | cmd/workflow-runner/coordinator/node_router.go:15-319 | two drained runs with the same branch outcomes activated every node equally often, whatever their interleavings and entry orders |
| `Schedules.LoopFreeRunsEnd` | cmd/workflow-runner/coordinator/node_router.go:15-319 | every accepted loop-free workflow has a bound on the steps of all its runs: joins, branches, failures and interleavings included |
| `Schedules.Exhaust` | cmd/workflow-runner/coordinator/node_router.go:15-319 | any run within such a bound can be continued by steps of any policy until the policy allows none |
| `Completion.EveryRunKeepsLedger` | common/sdk/sdk.go:82-102 | in every state each applied consume key belongs to exactly one non-repeated completion of its node, and every repeat has such a predecessor |
| `Completion.DrainedZeroIffForest` | cmd/workflow-runner/coordinator/completion_handler.go:109-204 | a drained run of a compiled, accepted, branch-free and loop-free workflow ends at counter 0 iff no node has two dependencies: a join leaks tokens |
| `CompletionExact.DrainedRunExists` | cmd/workflow-runner/coordinator/completion_handler.go:109-204 | every accepted loop-free, branch-free workflow, joins included, has a run that drains |
| `CompletionExact.NeverLeaksIff` | common/sdk/sdk.go:82-102 | every drained run of such a workflow ends at counter 0 iff no node has two dependencies |
| `Witnesses.JoinCompiles` | common/compiler/ir.go:111-180 | two tasks that lead to a third compile to the given IR |
| `Witnesses.JoinAccepted` | common/compiler/ir.go:476-583 | validation accepts that IR |
| `Witnesses.JoinLeaks` | common/sdk/sdk.go:82-102 | it has a drained run whose counter is not zero |
| `Completion.ForestConservation` | cmd/workflow-runner/coordinator/node_router.go:49-62 | on accepted loop-free forests without absorber-to-absorber edges, in every state of every interleaving: counter + published but uncounted tokens = outstanding + failed tokens |
| `Completion.CompletedWithoutTokens` | cmd/workflow-runner/workflow_lifecycle/completion.go:42-79 | with handlers as atomic steps COMPLETED is never recorded while a token is outstanding or after a failure, on any graph |
| `Completion.SerialEarlyIffAbsorberPending` | cmd/workflow-runner/workflow_lifecycle/completion.go:42-79 | with handlers as atomic steps COMPLETED is recorded with other work left iff an absorber is started and has not routed |
| `Completion.CompletedOnlyWhenIdle` | cmd/workflow-runner/workflow_lifecycle/completion.go:42-79 | so without absorbers, and with handlers as atomic steps, every other activation is done when COMPLETED is recorded |
| `Completion.CheckRecordsIffLast` | cmd/workflow-runner/workflow_lifecycle/completion.go:56-75 | on a branch-free forest a check records COMPLETED iff it ends the last activation |
| `Completion.CompletedExactlyWhenDrained` | cmd/workflow-runner/workflow_lifecycle/completion.go:42-79 | if handlers never interleave, on a branch-free, loop-free forest the number of COMPLETED records is 1 in drained states and 0 in all others; for interleaved handlers see `CompletionExact.NeverMissedIff`, `CompletionExact.NeverTwiceIff` and `LateTokens.LateTokenIff` |
| `CompletionRaces.EarlyIffHandlerUnderWay` | cmd/workflow-runner/coordinator/completion_handler.go:109-204 | in any interleaving without redelivery, COMPLETED is recorded with other work left iff another handler or absorber stands between taking up its node and counting its successors; and with a token outstanding or failed or a completion miscounted iff another handler has published tokens it has not counted |
| `CompletionRaces.EarlyCompletion` | cmd/workflow-runner/coordinator/node_router.go:49-62 | a concrete interleaving of three nodes that records COMPLETED while a published token is uncounted |
| `CompletionRaces.EarlyCompletionBeforeRouting` | cmd/workflow-runner/coordinator/completion_handler.go:109-196 | a second one in which nothing is published or uncounted when COMPLETED is recorded, and a token is published afterwards |
| `CompletionRaces.SerialEarlyCompletion` | cmd/workflow-runner/coordinator/node_router.go:45-46 | a serial run that records COMPLETED while a branch node is pending, and publishes a token afterwards |
| `CompletionExact.MissedRunExists` | cmd/workflow-runner/coordinator/completion_handler.go:109-204 | on an accepted branch-free, loop-free forest, for every node with a dependent there is a drained run in which that node counts last and COMPLETED is never recorded |
| `CompletionExact.NeverMissedIff` | cmd/workflow-runner/workflow_lifecycle/completion.go:42-79 | on those forests, over all interleavings, every drained run records COMPLETED iff no node has a dependent |
| `CompletionExact.TwiceRunExists` | cmd/workflow-runner/workflow_lifecycle/completion.go:42-79 | two terminal nodes give a run that records COMPLETED twice |
| `CompletionExact.NeverTwiceIff` | cmd/workflow-runner/workflow_lifecycle/completion.go:42-79 | on those forests no run records COMPLETED twice iff there is only one terminal node |
| `LateTokens.LateRunExists` | cmd/workflow-runner/coordinator/coordinator.go:152-153 | if some non-terminal node does not lead to some terminal node, a run publishes a token after COMPLETED |
| `LateTokens.NoLateToken` | cmd/workflow-runner/coordinator/node_router.go:49-62 | otherwise no run does: while the parent of the terminal nodes is routing, the counter is below zero at every check |
| `LateTokens.LateTokenIff` | cmd/workflow-runner/workflow_lifecycle/completion.go:42-79 | so on those forests a token can follow COMPLETED iff some non-terminal node does not lead to some terminal node |
| `Witnesses.BesideIsPlain` | common/compiler/ir.go:111-180 | two tasks in a row beside a third compile, are accepted and are such a forest |
| `Witnesses.CompletedMissed` | cmd/workflow-runner/workflow_lifecycle/completion.go:42-79 | that workflow has a drained run without COMPLETED |
| `Witnesses.CompletedTwice` | cmd/workflow-runner/workflow_lifecycle/completion.go:42-79 | a run with two COMPLETED records |
| `Witnesses.CompletedBeforeToken` | cmd/workflow-runner/coordinator/coordinator.go:152-153 | and a run with a token published after COMPLETED |
| `Hitl.MarkKeepsBalance` | cmd/hitl-worker/worker/hitl_worker.go:515-534 | marking keeps a counter balanced iff the counter decremented is the one the approval was counted in |
| `Hitl.StepKeepsBalance` | cmd/hitl-worker/worker/hitl_worker.go:256-302 | every Redis step keeps: counter = pending approvals + duplicates to undo − decrements to mark (for a workflow counter, when the responder uses the stored tag) |
| `Hitl.CountersBalance` | cmd/hitl-worker/worker/hitl_worker.go:256-541 | that balance in every state of every interleaving of one worker's goroutines: every run counter, and every workflow counter when responses carry the stored tag or none |
| `Hitl.CountersNeverNegative` | cmd/hitl-worker/worker/hitl_worker.go:442-462 | in the same runs no pending counter is ever negative |
| `HitlRaces.MarkBalancesIff` | cmd/hitl-worker/worker/hitl_worker.go:515-534 | when all workflow counters are balanced, marking keeps them so iff the response being carried through named no tag or the stored one |
| `HitlRaces.BalancedIffHonest` | cmd/hitl-worker/worker/hitl_worker.go:397-541 | in every run of one worker: all workflow counters are balanced in every state iff every response that was marked named no tag or the one stored with its approval |
| `Hitl.AtMostOneSignal` | cmd/hitl-worker/worker/hitl_worker.go:404-513 | each (run, node) yields at most one completion signal under any duplication of requests and responses |
| `Hitl.TwoWorkersSignalTwice` | cmd/hitl-worker/worker/hitl_worker.go:404-534 | with a second response goroutine the same approval can signal twice: a concrete trace |
| `HitlRaces.ExclusiveRunsSignalOnce` | cmd/hitl-worker/worker/hitl_worker.go:404-534 | with any number of workers, an approval that is never held by two goroutines at once signals at most once |
| `HitlRaces.SharedApprovalSignalsTwice` | cmd/hitl-worker/worker/hitl_worker.go:404-534 | a run in which two goroutines hold one approval, one of them before its signal, extends to a run with two signals |
| `HitlRaces.SignalsOnceIffExclusive` | cmd/hitl-worker/worker/hitl_worker.go:404-534 | the mechanism: no run signals an approval twice iff no run lets two goroutines hold it at once |
| `HitlRaces.SignalsOnceIffOneWorker` | cmd/hitl-worker/worker/hitl_worker.go:404-534 | an approval signals at most once in every run iff there is at most one response goroutine |
| `HitlRaces.ForeignTagGoesNegative` | cmd/hitl-worker/worker/hitl_worker.go:413-449 | a concrete run in which a response naming another workflow tag takes that counter to -1 |
| `HitlWorker.Worker.HandleApprovalRequest` | cmd/hitl-worker/worker/hitl_worker.go:256-302 | creates a pending record with the workflow label and token id iff new and raises both counters by one; a duplicate leaves records and every counter as they were; equals the machine steps |
| `HitlWorker.Worker.HandleApprovalResponse` | cmd/hitl-worker/worker/hitl_worker.go:397-541 | signals once iff the approval is pending with a token id; then stores approved or rejected as the response says, lowers both counters by one and leaves every other record, and otherwise changes nothing; equals the machine steps |
| `HitlDecisions.MarkDecides` | cmd/hitl-worker/worker/hitl_worker.go:515-534 | the mark stores the answer of the very response it belongs to and touches no other record |
| `HitlDecisions.StatusIsAnswer` | cmd/hitl-worker/worker/hitl_worker.go:397-541 | in every run of one worker an approval is approved iff a response approving it was carried through, and rejected iff one rejecting it was |
| `HitlDecisions.SignalsMatchRecords` | cmd/hitl-worker/worker/hitl_worker.go:486-534 | whenever the response goroutine is idle, a completion signal with an answer was sent iff that answer is recorded |
| `HitlDecisions.DecisionsFinalIffOneWorker` | cmd/hitl-worker/worker/hitl_worker.go:404-534 | no run ever changes a decided record iff there is at most one response goroutine |
| `HitlDecisions.ApprovedThenRejected` | cmd/hitl-worker/worker/hitl_worker.go:404-534 | with two or more, a run that turns an approved record into a rejected one |
| `WorkflowPatch.AddAgrees` | cmd/orchestrator/handlers/workflow_patch.go:68-92 | an add at the end of a collection is the RFC 6902 section 4.1 result iff the collection is an array and the operation has a value member |
| `WorkflowPatch.EditAgrees` | cmd/orchestrator/handlers/workflow_patch.go:95-163 | an accepted remove or replace is the RFC 6902 section 4.2 or 4.3 result iff its pointer is a canonical RFC 6901 one and a replace has a value member |
| `WorkflowPatch.ReadAlike` | cmd/orchestrator/handlers/workflow_patch.go:31-61 | the patcher reads an operation object as the RFC does, except that a missing value is null |
| `PatchMeaning.ReplaceMeaning` | cmd/orchestrator/handlers/workflow_patch.go:131-163 | a replace writes the value at the index, keeps the length and every other element, and leaves the rest of the document alone |
| `PatchMeaning.RemoveMeaning` | cmd/orchestrator/handlers/workflow_patch.go:95-128 | a remove takes out the element at the index and moves the later ones down by one |
| `PatchMeaning.AddMeaning` | cmd/orchestrator/handlers/workflow_patch.go:68-92 | an add keeps every element of an array and puts the value behind them |
| `PatchMeaning.AcceptedIff` | cmd/orchestrator/handlers/workflow_patch.go:31-163 | exactly the adds at the end of nodes or edges and the removes and replaces of an existing element are accepted, with or without a leading slash |
| `PatchMeaning.PointerRoundTrip` | cmd/orchestrator/handlers/workflow_patch.go:95-105 | every list of reference tokens is read back from its RFC 6901 pointer |
| `PatchMeaning.DigitsRoundTrip` | cmd/orchestrator/handlers/workflow_patch.go:100-105 | every number is read back from its decimal spelling, which is a canonical index |
| `PatchMeaning.CanonicalIsDigits` | cmd/orchestrator/handlers/workflow_patch.go:100-105 | canonical indexes are exactly the decimal spellings of numbers |
| `PatchMeaning.AtoiReadsDigits` | cmd/orchestrator/handlers/workflow_patch.go:100-105 | strconv.Atoi reads every decimal spelling in range, with either sign |
| `WorkflowPatch.LooseIndexAccepted` | cmd/orchestrator/handlers/workflow_patch.go:95-128 | every non-canonical spelling of an index in range is accepted by a remove and refused by the RFC |
| `WorkflowPatch.LooseIndexExamples` | cmd/orchestrator/handlers/workflow_patch.go:95-128 | /nodes/+0 and /nodes/01 are two such spellings |
| `WorkflowPatch.LooseAddExamples` | cmd/orchestrator/handlers/workflow_patch.go:68-92 | an add replaces a collection that is no array, and without a value appends null; the RFC does neither |
| `WorkflowPatch.StepAgrees` | cmd/orchestrator/handlers/workflow_patch.go:31-163 | one accepted operation on array-valued collections with a canonical pointer and the required value is the RFC step |
| `WorkflowPatch.PatcherRefinesStandard` | cmd/orchestrator/handlers/workflow_patch.go:13-66 | an accepted patch list of such operations gives the sequential RFC 6902 result |
| `WorkflowPatch.Slice.Append` | cmd/orchestrator/handlers/workflow_patch.go:68-92 | append in place when there is capacity, else into new storage: the elements gain the value at the end |
| `WorkflowPatch.Slice.RemoveAt` | cmd/orchestrator/handlers/workflow_patch.go:95-128 | shifting inside the same backing array removes exactly the indexed element |
| `WorkflowPatch.CopyWorkflow` | cmd/orchestrator/handlers/workflow_patch.go:14-29 | the working copy has fresh map and arrays and equal content |
| `WorkflowPatch.ApplyOperation` | cmd/orchestrator/handlers/workflow_patch.go:31-61 | one in-place operation succeeds and changes the content exactly as specified |
| `WorkflowPatch.ApplyJSONPatchToWorkflow` | cmd/orchestrator/handlers/workflow_patch.go:13-66 | success iff specified, result in fresh storage, caller's document untouched on success and on error |
| `PatchStore.DocumentIsReplay` | cmd/orchestrator/service/materializer.go:46-97 | replaying a stored chain over its base equals following predecessors one patch at a time |
| `PatchStore.PathPrefix` | cmd/orchestrator/service/artifact.go:104-118 | the first k entries of a chain are the chain of its k-th member, over the same base |
| `PatchStore.ChainsAreConsistent` | common/repository/artifact.go:225-236 | rows are numbered 1 to depth, end in the head, share one dag_version base, and the rows of the i-th member are the first i rows |
| `PatchStore.MembersAreDistinct` | common/repository/artifact.go:321-342 | no member repeats in a chain, so the unique constraint never fires |
| `PatchStore.StepKeepsValid` | cmd/orchestrator/service/workflow.go:148-214 | create, patch, compact and migrate keep the store invariant and every existing row |
| `PatchStore.RunsKeepDocuments` | cmd/orchestrator/service/compaction.go:66-229 | no sequence of commands changes what an existing artifact materialises to |
| `PatchStore.UnnamedTagsStay` | cmd/orchestrator/service/workflow.go:68-214 | a tag that no create, patch or migration of a run names keeps its artifact and document |
| `PatchStore.LastWriterDecides` | cmd/orchestrator/service/workflow.go:68-214 | after any run a tag points at what the last command naming it set |
| `PatchStore.CreateStoresDocument` | cmd/orchestrator/service/workflow.go:68-103 | after create the tag stands for exactly the submitted document, also when an artifact is reused |
| `PatchStore.PatchExtendsDocument` | cmd/orchestrator/service/workflow.go:148-214 | after a patch the tag stands for the patch applied to what it stood for |
| `PatchStore.TimeTravel` | cmd/orchestrator/service/workflow.go:592-632 | the first k patches over the base give the document of the k-th chain member as a head |
| `PatchStore.CompactionPreservesMeaning` | cmd/orchestrator/service/compaction.go:134-203 | the new base stands for the document of the old head and no other artifact changes |
| `PatchStore.CompactionIsInvisible` | cmd/orchestrator/service/compaction.go:233-284 | after compaction and tag migration every further patch sequence gives the document of the uncompacted chain |
| `PatchStore.RepeatedPatchNotCompacted` | cmd/orchestrator/service/compaction.go:117-130 | a chain whose last two patches have equal content cannot be compacted, whatever they materialise to |
| `PatchStore.MaterialisesButNotCompacted` | cmd/orchestrator/service/compaction.go:117-130 | adding the same node to a workflow twice, with JSON Patch on an encoding that reads back the documents and the patch involved, materialises to the document with both nodes, which parses, and is still refused |
| `PatchStore.RefusalHappens` | cmd/orchestrator/service/compaction.go:117-130 | for every document and node a store and an encoding meet those conditions |
| `PatchService.Service.StoreContent` | cmd/orchestrator/service/cas.go:29-61 | deduplicating insert: the content is found under its hash and nothing else changes |
| `PatchService.Service.GetPatchChain` | common/repository/artifact.go:226-275 | rows in ascending seq order are the predecessor chain |
| `PatchService.Service.InsertPatchChain` | common/repository/artifact.go:321-342 | row-by-row insertion numbered from 1 |
| `PatchService.Service.CreatePatchArtifact` | cmd/orchestrator/service/artifact.go:87-134 | the artifact row and the previous chain extended by the new patch |
| `PatchService.Service.CreateWorkflow` | cmd/orchestrator/service/workflow.go:59-103 | uses the fresh id iff no artifact has this version hash and otherwise creates nothing; moves this tag and no other |
| `PatchService.Service.CreatePatch` | cmd/orchestrator/service/workflow.go:148-214 | fails iff the tag is missing, without effect; otherwise the patch command on the store: one blob, one patch set one deeper over the same base, and this tag moved |
| `PatchService.Service.LoadPatchChain` | cmd/orchestrator/service/workflow.go:465-511 | contents in chain order, repeated content ids included; fails iff a blob is missing |
| `PatchService.Service.GetWorkflowComponents` | cmd/orchestrator/service/workflow.go:324-355 | base content and all patches of the tag's chain; fails iff the tag is missing |
| `PatchService.Service.GetWorkflowComponentsAtVersion` | cmd/orchestrator/service/workflow.go:519-632 | succeeds iff 0 ≤ seq ≤ depth (≤ 1 for a dag_version), with the first seq patches over the base |
| `PatchService.Service.Materialize` | cmd/orchestrator/service/materializer.go:26-80 | the loop is the replay of the patches followed by parsing |
| `PatchService.Service.MaterializeTag` | cmd/orchestrator/service/materializer.go:26-44 | a tag reads back as its document by predecessors, if that parses |
| `PatchService.Service.MaterializeTagAtVersion` | cmd/orchestrator/service/workflow.go:519-632 | version k is the k-th chain member as a head, version 0 the base, anything else refused |
| `PatchService.Service.ReplayChain` | cmd/orchestrator/service/compaction.go:117-150 | replays the chain unless two entries share a content id, in which case it refuses |
| `PatchService.Service.CompactWorkflow` | cmd/orchestrator/service/compaction.go:68-229 | succeeds iff the head is a patch set that materialises and parses and whose chain repeats no content id; then adds one dag_version of that document that names the head, and no tag or row changes; a refusal changes nothing |
| `PatchService.Service.MigrateTagToCompactedBase` | cmd/orchestrator/service/compaction.go:233-284 | succeeds iff the tag exists and the target is a dag_version; this tag moves and no other |
| `RunPatches.RestrictsHandlerPatcher` | common/clients/orchestrator.go:174-233 | the run-time patcher accepts exactly the add-only lists the handler-side patcher accepts, with the same result |
| `RunPatches.RunWorkflow.ApplyOperation` | common/clients/orchestrator.go:174-233 | adds at the end of nodes or edges, refuses everything else without change |
| `RunPatches.RunWorkflow.MaterializeWorkflowForRun` | common/clients/orchestrator.go:131-171 | the nested loops apply the concatenation of all patches |
| `RunPatches.RunIR.ReloadIRIfPatched` | cmd/workflow-runner/coordinator/patch_loader.go:31-214 | an empty first fetch or any error leaves the stored IR; otherwise it is an accepted compilation of base plus all patches of the second fetch; an error means that some step of the reload can fail |
| `RunPatches.PatchesAreMonotone` | cmd/workflow-runner/coordinator/patch_loader.go:64-127 | with more patches every node survives, its Dependencies list is extended at the end and its Dependents grow as a multiset |
| `RunPatches.RecompilationIsStable` | common/compiler/ir.go:111-180 | two compilations of one schema agree on every node up to the order of branch rules |
| `RunPatches.ReloadIsIdempotent` | cmd/workflow-runner/coordinator/patch_loader.go:64-127 | reloading the same patch list gives the same graph |
| `RunPatches.StepStaysConsistent` | cmd/workflow-runner/coordinator/patch_loader.go:31-214 | an arrival, a fetch or a store keeps the stored IR a compilation of some prefix of the patch log |
| `RunPatches.RunsStayConsistent` | cmd/workflow-runner/coordinator/patch_loader.go:31-214 | so it is one in every state of every interleaving of arrivals and reloads |
| `RunPatches.ReloadCatchesUp` | cmd/workflow-runner/coordinator/patch_loader.go:31-214 | a reload that starts alone reflects every patch that had arrived when it fetched, whatever arrives or is fetched meanwhile |
| `RunPatches.RefetchSucceeds` | cmd/workflow-runner/coordinator/completion_handler.go:139-155 | when reloads store in the order they fetched, nodes read once are still there at every later moment, with extended Dependencies |
| `RunPatches.StoreKeepsNodesIff` | cmd/workflow-runner/coordinator/patch_loader.go:204-214 | a store keeps every node iff it is not overtaken or the patches it missed add only ids it already has |
| `ReloadRaces.OvertakenReloadLosesNode` | cmd/workflow-runner/coordinator/patch_loader.go:204-214 | a complete run from an accepted workflow, with patches that add one node and edge each, in which an overtaken reload removes a node from the stored IR |
| `Resolver.ResolveString` | cmd/workflow-runner/resolver/resolver.go:63-76 | a reference is looked up, a template interpolated, anything else kept; the mutual recursion terminates by length |
| `Resolver.ResolveInterpolation` | cmd/workflow-runner/resolver/resolver.go:141-183 | the loop is sequential first-occurrence replacement of all matches, and fails iff some reference does |
| `Resolver.ReplaceAt` | cmd/workflow-runner/resolver/resolver.go:178-179 | a replacement changes the first occurrence and nothing around it |
| `Resolver.InnerIsPlain` | cmd/workflow-runner/resolver/resolver.go:156-160 | resolving the expression of a match never interpolates again |
| `Resolver.ScanRoundTrip` | cmd/workflow-runner/resolver/resolver.go:143-146 | splitting into matches and plain characters loses nothing, and no plain character starts a match |
| `ResolverMeaning.MatchIff` | cmd/workflow-runner/resolver/resolver.go:143-146 | the pattern matches at the start of a text iff the text starts with a dollar sign and a non-empty expression in braces that holds no closing brace |
| `ResolverMeaning.ScanIsUnique` | cmd/workflow-runner/resolver/resolver.go:143-146 | there is exactly one way to read a template |
| `ResolverMeaning.OnePlaceholder` | cmd/workflow-runner/resolver/resolver.go:141-183 | one placeholder between plain text: a reference becomes the output's text, a string as it is and any other value as printed; another expression becomes itself; an unknown reference is an error |
| `Resolver.SequentialIsOnePass` | cmd/workflow-runner/resolver/resolver.go:148-180 | sequential replacement equals one-pass substitution when no value, alone or after a dollar sign, can make up a placeholder of the template |
| `Resolver.InterpolationIsOnePass` | cmd/agent-runner-py/resolver.py:90-103 | the Go loop computes the one-pass result, errors included, on every template whose placeholders stand for safe text: non-empty, and with no dollar sign in or before it that opens a placeholder |
| `Resolver.InertIsHarmless` | cmd/workflow-runner/resolver/resolver.go:141-183 | one node output that is inert, with all other placeholders safe, never makes a difference |
| `Resolver.LiveValueBreaks` | cmd/workflow-runner/resolver/resolver.go:178-179 | every other node output makes the two substitutions differ in some environment and template whose other placeholders are all safe |
| `Resolver.InertExactly` | cmd/workflow-runner/resolver/resolver.go:141-183 | inert values are exactly the node outputs that no environment and template with otherwise safe placeholders can tell apart from one-pass substitution: no dollar sign in or before them makes up, or could be continued to, a reference or a safe literal in braces |
| `Resolver.SafeIsInert` | cmd/workflow-runner/resolver/resolver.go:141-183 | safe values are inert, and the converse fails: an unsafe value whose only open dollar sign closes around an unsafe literal |

## Left out

- HTTP handlers, middleware, the gateway, the CLI, the frontend, bootstrap, configuration, logging and metrics: plumbing.
- CEL, gjson, JSON encoding, SHA-256, Postgres and Redis internals: they are oracles, partial functions, an injective hash and atomic table operations.
- The content of a reload inside handleCompletion is the subject of `RunPatches`; `Handlers.Runner.HandleCompletion` takes its outcome (kept, replaced or blocked) as a parameter, and failures to store it count as kept.
- TTL expiry, failed writes and lost messages: every write succeeds; redelivered completion signals and failed nodes are modelled.
- Node payloads, result references, retry policies, timeouts and IR metadata: no modelled decision reads them.
- The agent limit of the reload is an arbitrary predicate on the new IR.
- Go matches JSON field names case-insensitively; `RunPatches` reads the exact names nodes and edges.
- Resolution of maps and arrays in configs: element-wise recursion that would only add easy members.
- The Python resolver prints numbers, booleans and nested JSON differently from Go; the comparison takes one text per value.
- The three-second retry of a response whose approval is missing: in the model the response arrives later.
- The legacy DSL compiler, run snapshots, tier inspection, fanout, the rate limiter, supervisors and tag history.
- Absorbers.Streams.HandleAbsorberNode: runs the nested goroutines in place, one schedule of many; `Activations.ScheduleIrrelevant` shows that no schedule changes the activations, and `Handlers.Runner.HandleAbsorberNode` is a single such goroutine with its steps free to interleave.
- HitlWorker.Worker.HandleApprovalResponse: runs the handler from load to mark without interleaving; `Hitl` interleaves its steps.
- PatchService.Service.CreateWorkflow: takes the fresh UUID as a parameter, and node and edge counts are not stored; run snapshots, the only other artifacts with a version hash, are created nowhere in the repository.
- WorkflowPatch.PatcherRefinesStandard: for arrays no longer than the largest Go int, which every Go slice is.
- ReloadRaces.OvertakenReloadLosesNode: its decoder reads id, type, config, from, to and condition; retry and timeout fields are not decoded.
- Completion.CompletedExactlyWhenDrained: for handlers that never interleave; interleaved handlers break it, as `CompletionExact` and `LateTokens` decide exactly.
- CompletionExact.NeverMissedIff: for branch-free, loop-free forests and runs without redelivery or patch, like `CompletionExact.NeverTwiceIff` and `LateTokens.LateTokenIff`; a drained run of a workflow with a join does not end at zero (`CompletionExact.NeverLeaksIff`), and with branches the outcome depends on the evaluation.
