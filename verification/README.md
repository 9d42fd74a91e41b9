# Agent orchestration engine — a Dafny model

This project models the core of a small agent-orchestration engine. The engine:

- keeps a **registry** of agents, indexed by name and by declared capability;
- dispatches prompts to the **first agent registered** for a capability;
- asks a single "planning" agent for a **plan** and rejects plans that use unknown capabilities;
- runs **workflows** of three step kinds: invoke, approval gate and conditional;
- tracks each run in an **execution context**: an append-only step log, an approval ledger keyed by step name, and a resume cursor;
- persists contexts through a **store service** over three keyed repositories;
- maps agent configuration documents to configurations with a **config mapper**.

Everything is modelled functionally:

- The context, ledger and registry are immutable datatypes.
- Every operation returns the new state together with its result.
- The exceptions the engine throws become explicit results. `WorkflowSteps.Outcome` is `Completed`, `Suspended(approval, position)` (approval required), `Rejected(step)` (operation cancelled) or `Failed(error)`. `Types.Error` lists every failure the core raises.
- The model backend behind an agent's kernel is a parameter: `Gateway` maps a kernel and a prompt to text or a failure.
- The JSON planner parser is a parameter (`PlanParser`).
- Timestamps are opaque values supplied by the caller.
- The source hands out an approval *object*, and callers later decide it in place. The model hands out the approval's position in the ledger instead (`ExecutionContext.Handle`). `ExecutionContext.DecideApproval` decides the entry at that position.

Files:

- `wrappers.dfy`: Option and Result.
- `types.dfy`: identifiers, timestamps, the gateway and errors.
- `models.dfy`: agent configuration and planner output.
- `registry.dfy`: the agent registry.
- `approval.dfy`: approvals.
- `context.dfy`: the execution context.
- `orchestrator.dfy`: dispatch and planning.
- `steps.dfy`: the workflow step kinds.
- `workflow.dfy`: the workflow driver.
- `store.dfy`: the context store service and its repositories.
- `mapper.dfy`: the config mapper.
- `resume.dfy`: deciding, saving, reloading and resuming a run, including a concrete gated deployment.
- `seqfacts.dfy`: small sequence lemmas used by the proofs.

Where the source's names and comments promise more than its code does, the model follows the code:

- `CreatePlanAsync` reports "Invalid planner output" only when the reply parses as JSON `null` (Orchestrator.cs:70-73). A reply that is not valid JSON fails with the parser's own error, modelled as `MalformedPlannerJson`.
- `RequestApproval` appends to the ledger without looking up the step name (AgentExecutionContext.cs:43-53). Names stay distinct only because the approval step goes through `GetOrCreateApproval`.
- The store service calls its three writes upserts with a deterministic identity (AgentExecutionContextStoreService.cs:37, 47, 62), but the repository's `UpsertAsync` never replaces a stored row (see Findings).

## Model

| member | source | states |
|---|---|---|
| AgentRegistry.AppendToIndex | src/orchestrator/Cloud.Infra.Core/Agents/AgentRegistry.cs:21-30 | After the loop over the declared capabilities, each capability's list is its old list followed by the agent once per time the capability is declared; other lists are unchanged |
| AgentRegistry.Register | src/orchestrator/Cloud.Infra.Core/Agents/AgentRegistry.cs:11-32 | Looking up the registered name returns the new agent, overwriting any earlier one; lookups of every other name are unchanged; each capability list is extended at its end only, by the agent once per declaration |
| AgentRegistry.EmptyIsValid | src/orchestrator/Cloud.Infra.Core/Agents/AgentRegistry.cs:8-9 | The empty registry satisfies the invariant, has no agents and lists nothing for any capability |
| AgentRegistry.RegisterPreservesValid | src/orchestrator/Cloud.Infra.Core/Agents/AgentRegistry.cs:19-30 | The invariant is preserved: every agent is filed under its own name, and every agent in capability c's list declares c |
| AgentRegistry.AllOnePerName | src/orchestrator/Cloud.Infra.Core/Agents/AgentRegistry.cs:34 | `All` holds exactly one agent per registered name, and each of them is what lookup by its name returns |
| AgentRegistry.RegisterAllSize | src/orchestrator/Cloud.Infra.Core/Agents/AgentRegistry.cs:19 | Re-registering a name does not grow `All`; registering a new name grows it by exactly one |
| AgentRegistry.RegistrationOrder | src/orchestrator/Cloud.Infra.Core/Agents/AgentRegistry.cs:21-30 | After any sequence of registrations, a capability's list is the old list followed by the registrations in order, each repeated once per declaration. Existing entries, including those of overwritten agents, keep their places |
| AgentRegistry.LastRegistrationWins | src/orchestrator/Cloud.Infra.Core/Agents/AgentRegistry.cs:43-52 | After any sequence of registrations, lookup by name yields the last registration with that name; a name never registered fails as before |
| AgentRegistry.UndeclaredCapabilityIsEmpty | src/orchestrator/Cloud.Infra.Core/Agents/AgentRegistry.cs:36-41 | A capability that no registration declares has an empty list |
| AgentRegistry.TwoRegistrationsInOrder | src/orchestrator/Cloud.Infra.Core/Agents/AgentRegistry.cs:21-30 | Two agents that each declare a capability once are listed for it in registration order |
| AgentRegistry.All | src/orchestrator/Cloud.Infra.Core/Agents/AgentRegistry.cs:34 | Every agent filed under a name is in `All`. In a valid registry, each member of `All` is what lookup by its own name returns |
| AgentRegistry.GetByCapability | src/orchestrator/Cloud.Infra.Core/Agents/AgentRegistry.cs:36-41 | A capability with no list gives the empty list |
| AgentRegistry.Get | src/orchestrator/Cloud.Infra.Core/Agents/AgentRegistry.cs:43-52 | Succeeds exactly when the name is registered, and otherwise fails with `AgentNotRegistered` naming it |
| AgentRegistry.ValidLookups | src/orchestrator/Cloud.Infra.Core/Agents/AgentRegistry.cs:19-52 | In a valid registry, lookup by name returns an agent carrying that name, and every agent listed for a capability declares it |
| Approvals.NewApproval | src/orchestrator/Cloud.Infra.Core/Orchestration/Approval.cs:5-10 | A new approval is undecided, with no approver and no decision time, and carries the given step name and summary |
| Approvals.Approve | src/orchestrator/Cloud.Infra.Core/Orchestration/Approval.cs:12-17 | The decision becomes approved, the approver is recorded and the decision time is set; step name and summary are unchanged; there is no guard against an earlier decision |
| Approvals.Reject | src/orchestrator/Cloud.Infra.Core/Orchestration/Approval.cs:19-24 | The decision becomes rejected, the approver is recorded and the decision time is set; step name and summary are unchanged |
| Approvals.LastDecisionWins | src/orchestrator/Cloud.Infra.Core/Orchestration/Approval.cs:12-24 | A second decision completely replaces the first; only the step name and summary survive from the original |
| Approvals.Decide | src/orchestrator/Cloud.Infra.Core/Orchestration/Approval.cs:12-24 | The decision becomes the given verdict, the approver becomes the decider and the decision time becomes the given time; step name and summary are kept |
| ExecutionContext.NewContext | src/orchestrator/Cloud.Infra.Core/Orchestration/AgentExecutionContext.cs:5-17 | A new context has an empty log, an empty ledger and cursor 0, and satisfies the context invariant |
| ExecutionContext.AddStep | src/orchestrator/Cloud.Infra.Core/Orchestration/AgentExecutionContext.cs:19-20 | Exactly one entry is appended; the old log is a prefix of the new one; identity, ledger and cursor are unchanged. An indexed log stays indexed exactly when the new entry's index is the old length |
| ExecutionContext.AddApproval | src/orchestrator/Cloud.Infra.Core/Orchestration/AgentExecutionContext.cs:22-23 | Exactly one ledger entry is appended; the log, identity and cursor are unchanged |
| ExecutionContext.FindApproval | src/orchestrator/Cloud.Infra.Core/Orchestration/AgentExecutionContext.cs:29 | Finds the first ledger entry with the step name, or reports that no entry has it |
| ExecutionContext.GetOrCreateApproval | src/orchestrator/Cloud.Infra.Core/Orchestration/AgentExecutionContext.cs:25-41 | With an entry for the name: returns the first one, ignores the summary and leaves the context unchanged. Without one: appends exactly one undecided approval with that name and summary and returns it. Name uniqueness is preserved |
| ExecutionContext.GetOrCreateIdempotent | src/orchestrator/Cloud.Infra.Core/Orchestration/AgentExecutionContext.cs:25-41 | A second call with the same name returns the same approval at the same position, with the same ledger, whatever summary it passes |
| ExecutionContext.RequestApproval | src/orchestrator/Cloud.Infra.Core/Orchestration/AgentExecutionContext.cs:43-53 | Always appends a fresh undecided approval at the end of the ledger |
| ExecutionContext.RequestApprovalDuplicates | src/orchestrator/Cloud.Infra.Core/Orchestration/AgentExecutionContext.cs:43-53 | On a name the ledger already holds, the result breaks name uniqueness |
| ExecutionContext.GetLastOutputForCapability | src/orchestrator/Cloud.Infra.Core/Orchestration/AgentExecutionContext.cs:55-60 | Returns the output of the last log entry for the capability, with no later entry for it; returns None exactly when no entry has the capability |
| ExecutionContext.DecideApproval | src/orchestrator/Cloud.Infra.Core/Orchestration/Approval.cs:12-24 | The decided entry gets the verdict, the approver and the decision time, and keeps its step name and summary. Every other ledger entry, the log, the cursor, the identity and the start time are unchanged, so the context invariant holds |
| Orchestration.InvokeByCapability | src/orchestrator/Cloud.Infra.Core/Orchestration/Orchestrator.cs:18-45 | Fails with no agent when the capability's list is empty, and the gateway's error propagates. On any failure the context is unchanged. When the first listed agent's gateway answers, the call succeeds with that output; conversely, on success the first listed agent answered, and exactly one entry is logged: capability, that agent's name, the prompt, the output, and the old log length as index |
| Orchestration.FirstUnknownCapability | src/orchestrator/Cloud.Infra.Core/Orchestration/Orchestrator.cs:76-83 | Finds the first plan step whose capability has no agent, or reports that every step's capability resolves |
| Orchestration.PlanPrompt | src/orchestrator/Cloud.Infra.Core/Orchestration/Orchestrator.cs:59-66 | The planner prompt is the fixed instruction, then the goal verbatim, then the demand for JSON; the goal can be read back out of it |
| Orchestration.PlanPromptInjective | src/orchestrator/Cloud.Infra.Core/Orchestration/Orchestrator.cs:59-66 | Different goals give different planner prompts |
| Orchestration.CreatePlan | src/orchestrator/Cloud.Infra.Core/Orchestration/Orchestrator.cs:55-86 | Fails unless exactly one agent is listed for "planning". Gateway failures, malformed JSON and a null result each fail. A parsed plan is accepted, unchanged, exactly when every step's capability resolves; otherwise the error names the first step that does not |
| Orchestration.DispatchPicksEarliestRegistration | src/orchestrator/Cloud.Infra.Core/Orchestration/Orchestrator.cs:31 | On a registry built by a sequence of registrations, dispatch goes to the earliest registration declaring the capability, and is logged under its name |
| Orchestration.RepeatedDispatchSameAgent | src/orchestrator/Cloud.Infra.Core/Orchestration/Orchestrator.cs:31-42 | Two successive successful dispatches on one capability log the same agent, with consecutive indices equal to the prior log lengths |
| Orchestration.DispatchUpdatesLastOutput | src/orchestrator/Cloud.Infra.Core/Orchestration/Orchestrator.cs:35-44 | After a successful dispatch, the last output for that capability is the returned output; other capabilities' last outputs are unchanged |
| WorkflowSteps.Gate | src/orchestrator/Cloud.Infra.Core/Orchestration/ApprovalStep.cs:7-24 | Gets or creates the approval for the step's name. An undecided approval suspends with that same approval and its position; a rejected one ends as rejected with the step's name; an approved one completes. The log is never touched |
| WorkflowSteps.Execute | src/orchestrator/Cloud.Infra.Core/Orchestration/WorkFlowStep.cs:7-9 | Any step only extends the log and the ledger, keeps identity and cursor, and preserves the context invariant. A suspension carries a pending ledger entry at the reported position |
| WorkflowSteps.ConditionalRunsSelectedLeaf | src/orchestrator/Cloud.Infra.Core/Orchestration/ConditionalStep.cs:9-21 | A conditional runs exactly the leaf its conditions select on the entry context and propagates that leaf's outcome unchanged. With no branch selected it completes and leaves the context unchanged |
| WorkflowSteps.InvokeStepDispatches | src/orchestrator/Cloud.Infra.Core/Orchestration/InvokeCapabilityStep.cs:8-16 | Dispatches the step's own capability with the prompt computed on the entry context. On success exactly one entry is logged; dispatch errors become the step's failure with the context unchanged. The step never suspends or rejects, and never touches ledger or cursor |
| WorkflowSteps.GateReentryIdempotent | src/orchestrator/Cloud.Infra.Core/Orchestration/ApprovalStep.cs:11-16 | Re-running a gate that suspended returns the same suspension and does not grow the ledger |
| WorkflowSteps.GateLeavesLogAlone | src/orchestrator/Cloud.Infra.Core/Orchestration/ApprovalStep.cs:7-24 | A gate never modifies the log. It leaves the context as it is when its name has an entry; otherwise it appends exactly one undecided entry and suspends |
| WorkflowSteps.GateSuspendsOnFirstMatch | src/orchestrator/Cloud.Infra.Core/Orchestration/ApprovalStep.cs:11-16 | A suspended gate carries the first ledger entry for its own name |
| Workflows.ExecuteWorkflow | src/orchestrator/Cloud.Infra.Core/Orchestration/Workflow.cs:7-20 | The cursor never decreases. A negative cursor fails as out of range, and a cursor at or past the end completes at once. Completion leaves the cursor at the step count. Any other outcome stops with the cursor on the step that produced it. Identity is kept, log and ledger only grow, and the context invariant is preserved |
| Workflows.IgnoresStepsBeforeCursor | src/orchestrator/Cloud.Infra.Core/Orchestration/Workflow.cs:9-13 | Steps before the cursor are never executed: replacing them does not change the run |
| Workflows.SplitAt | src/orchestrator/Cloud.Infra.Core/Orchestration/Workflow.cs:9-19 | Steps run in index order, each once: running a prefix and then continuing with the whole workflow equals one uninterrupted run |
| Workflows.SuspendedRedriveIsStable | src/orchestrator/Cloud.Infra.Core/Orchestration/Workflow.cs:9-18 | Re-driving a run suspended on a top-level gate, with no decision recorded, suspends again identically and changes nothing |
| Workflows.SuspendedApprovalIsFirstMatch | src/orchestrator/Cloud.Infra.Core/Orchestration/ApprovalStep.cs:11-16 | The approval a suspended run reports belongs to the gate at the cursor and is the first ledger entry for that gate's name |
| Workflows.RejectionStopsRun | src/orchestrator/Cloud.Infra.Core/Orchestration/ApprovalStep.cs:18-20 | After the reported approval is rejected, the next run ends as rejected at the same gate, with no log entry and no cursor move |
| Workflows.ApprovalResumesAfterGate | src/orchestrator/Cloud.Infra.Core/Orchestration/Workflow.cs:13-18 | After the reported approval is approved, the next run passes the gate and continues exactly as a run started at the following step |
| Workflows.ApprovedGateIsPassed | src/orchestrator/Cloud.Infra.Core/Orchestration/Workflow.cs:13-18 | For any context at a gate whose first ledger entry for its name is at position p, approving p and driving equals driving from the following step |
| Workflows.ApprovedGateCompletes | src/orchestrator/Cloud.Infra.Core/Orchestration/ApprovalStep.cs:11-23 | A gate whose first ledger entry for its name is approved completes and leaves the context unchanged |
| Workflows.InvokeOnlyWorkflowCompletes | src/orchestrator/Cloud.Infra.Core/Orchestration/Workflow.cs:9-18 | A workflow of resolvable invoke steps, with an always-answering gateway, completes. The cursor ends at the step count, with one log entry per remaining step and the ledger untouched |
| Workflows.FromPlan | src/orchestrator/Cloud.Infra.Orchestrator/Program.cs:144-157 | The workflow built from a plan has one invoke step per plan step, with the step's name and capability, and with the step's intent as the prompt |
| Workflows.PlannedWorkflowCompletes | src/orchestrator/Cloud.Infra.Orchestrator/Program.cs:132-167 | An accepted plan, run on a new context with an always-answering gateway, completes. The cursor ends at the plan's length, with one log entry per plan step, an empty ledger and the context invariant intact |
| ContextStore.FindKey | src/orchestrator/Cloud.Infra.Infrastructure/Persistence/PersistencePostgreSql.cs:25-30 | Finds the first stored record with the key, or reports that none has it |
| ContextStore.InsertIfAbsent | src/orchestrator/Cloud.Infra.Infrastructure/Persistence/PersistencePostgreSql.cs:61-63 | When the key is already stored the table is unchanged; otherwise the record is appended. Key uniqueness is preserved |
| ContextStore.Filter | src/orchestrator/Cloud.Infra.Infrastructure/Persistence/PersistencePostgreSql.cs:32-37 | Returns only records of the execution, and every record of the table that belongs to it |
| ContextStore.FilterOne | src/orchestrator/Cloud.Infra.Infrastructure/Persistence/PersistencePostgreSql.cs:32-37 | A one-record table gives that record exactly when the execution owns it, and nothing otherwise |
| ContextStore.FilterAppend | src/orchestrator/Cloud.Infra.Infrastructure/Persistence/PersistencePostgreSql.cs:32-37 | Filtering a concatenation gives the concatenation of the filtered parts. With `FilterOne` this fixes the result: the owned records, each once, in table order |
| ContextStore.InsertAllIfAbsent | src/orchestrator/Cloud.Infra.Core/Services/implementation/AgentExecutionContextStoreService.cs:47-74 | The batch of as-written upserts only appends, at most one record per batch record. Every batch key ends up stored. A key stored before keeps its first record. When the batch's keys are distinct, a key new to the table is found at its batch record |
| ContextStore.UpsertAll | src/orchestrator/Cloud.Infra.Core/Services/implementation/AgentExecutionContextStoreService.cs:47-74 | The batch of corrected upserts never shrinks the table and adds at most one record per batch record. Every stored position keeps its key, and a record whose key the batch does not mention stays unchanged. When the batch's keys are distinct, the first record found for each batch key is that batch record |
| ContextStore.InsertAllKeepsEarlier | src/orchestrator/Cloud.Infra.Core/Services/implementation/AgentExecutionContextStoreService.cs:47-74 | Re-saving records, some of whose keys an earlier save stored, keeps the earlier records as they were and appends only the records with new keys |
| ContextStore.Upsert | src/orchestrator/Cloud.Infra.Infrastructure/Persistence/PersistencePostgreSql.cs:44-47 | The corrected upsert replaces the first record with the same key in place, or appends when there is none. Records with other keys are untouched, and every stored position keeps its key |
| ContextStore.UpsertLocates | src/orchestrator/Cloud.Infra.Infrastructure/Persistence/PersistencePostgreSql.cs:44-47 | After the corrected upsert, the first record with the key is the new record |
| ContextStore.UpsertAllReplacesEarlier | src/orchestrator/Cloud.Infra.Core/Services/implementation/AgentExecutionContextStoreService.cs:47-74 | Under the corrected upsert, re-saving records replaces the earlier records with the same keys |
| ContextStore.SortByIndex | src/orchestrator/Cloud.Infra.Core/Services/implementation/AgentExecutionContextStoreService.cs:105 | The result is in ascending step-index order and is a permutation of the input |
| ContextStore.SortKeepsSorted | src/orchestrator/Cloud.Infra.Core/Services/implementation/AgentExecutionContextStoreService.cs:105 | Records already in ascending index order come back unchanged. Stability among equal indices in general is not stated |
| ContextStore.Save | src/orchestrator/Cloud.Infra.Core/Services/implementation/AgentExecutionContextStoreService.cs:31-79 | Every repository only grows, and a save writes only records of the saved run (`ChangesOnlyRun`): every record it adds is owned by `ctx.id`, and every record of another run stays at its position unchanged. An existing root record for the id is kept unchanged; otherwise one root record is appended. At most one step record per log entry and one approval record per ledger entry is added. Every log and ledger entry has a record under its key (`HoldsNewLog`, `HoldsNewLedger`). When the entries' keys are distinct, an entry whose key was not stored before is found at its own record |
| ContextStore.SaveKeepsOtherLoads | src/orchestrator/Cloud.Infra.Core/Services/implementation/AgentExecutionContextStoreService.cs:31-79 | Saving one run leaves what a load returns for every other execution id unchanged: each record is written under `ExecutionId = context.Id` (lines 38-74) |
| ContextStore.Load | src/orchestrator/Cloud.Infra.Core/Services/implementation/AgentExecutionContextStoreService.cs:84-133 | The empty id fails; a missing root record gives None. Otherwise identity, goal, cursor and start time come from the first root record. The log has one entry per step record of the execution, in ascending index order, and the ledger is its approval records in repository order |
| ContextStore.SaveUpsert | src/orchestrator/Cloud.Infra.Core/Services/implementation/AgentExecutionContextStoreService.cs:31-79 | Under the corrected save, the root record found for the id is the one just written. The save writes only records of the saved run (`ChangesOnlyRun`): every added root, step and approval record is owned by `ctx.id`, at most one step record per log entry and one approval record per ledger entry is added, and other runs' records stay at their positions unchanged. Every log and ledger entry has a record under its key, and with distinct keys the first one found is that entry's own record (`HoldsLog`, `HoldsLedger`) |
| ContextStore.SaveUpsertKeepsOtherLoads | src/orchestrator/Cloud.Infra.Core/Services/implementation/AgentExecutionContextStoreService.cs:31-79 | Under the corrected save too, saving one run leaves what a load returns for every other execution id unchanged |
| ContextStore.RootRecord | src/orchestrator/Cloud.Infra.Core/Services/implementation/AgentExecutionContextStoreService.cs:38-45 | The root record is keyed by the run's id and stamped with the save time. The context a load rebuilds from it (lines 95-101), given the same log and ledger, is the saved context |
| ContextStore.StepToRecord | src/orchestrator/Cloud.Infra.Core/Services/implementation/AgentExecutionContextStoreService.cs:50-59 | A step record is keyed by the run's id and the step index, and reading it back as the load does (lines 107-115) gives the step |
| ContextStore.ApprovalToRecord | src/orchestrator/Cloud.Infra.Core/Services/implementation/AgentExecutionContextStoreService.cs:65-73 | An approval record is keyed by the run's id and the step name, and reading it back as the load does (lines 122-129) gives the approval |
| ContextStore.FromRecordRoundTrip | src/orchestrator/Cloud.Infra.Core/Services/implementation/AgentExecutionContextStoreService.cs:105-129 | Rehydrating a stored step or approval record and writing it back under its own run gives the same record: a load drops no stored field |
| ContextStore.WfIsPersistable | src/orchestrator/Cloud.Infra.Core/Orchestration/Orchestrator.cs:39 | Any context the orchestrator and the gates build has distinct step indices and distinct approval names, so its records have distinct keys |
| ContextStore.SaveFresh | src/orchestrator/Cloud.Infra.Core/Services/implementation/AgentExecutionContextStoreService.cs:38-74 | Saving a context the store has never seen appends one root record, one step record per log entry and one approval record per ledger entry. The as-written and the corrected save agree here |
| ContextStore.SaveLoadRoundTrip | src/orchestrator/Cloud.Infra.Core/Services/implementation/AgentExecutionContextStoreService.cs:31-133 | Saving a context into a store without it and loading it gives back exactly that context: identity, goal, start time, cursor, log and ledger |
| ContextStore.ResaveKeepsFirstSave | src/orchestrator/Cloud.Infra.Core/Services/implementation/AgentExecutionContextStoreService.cs:38-74 | As written, after saving an earlier state and then a later state of the same run, a load returns the later log. The cursor and the decisions are the first save's; only newer ledger entries are added. This is the shipped program's re-invocation with the same execution id: it loads the stored run (Program.cs:114-121), drives it further and saves it again (Program.cs:168) |
| ContextStore.ResaveWithUpsertRoundTrip | src/orchestrator/Cloud.Infra.Core/Services/implementation/AgentExecutionContextStoreService.cs:38-74 | With the corrected save, saving an earlier state and then a later one and loading gives back exactly the later state |
| AgentConfigMapper.Map | src/orchestrator/Cloud.Infra.Orchestrator/Mappers/AgentConfigMapper.cs:7-35 | Succeeds exactly when both the apiVersion and the kind are supported; the apiVersion is checked first, and each error names the offending value. On success, name, description, capabilities and model are copied, and a missing behaviour section becomes an empty bag |
| AgentConfigMapper.MapToDtoRoundTrip | src/orchestrator/Cloud.Infra.Orchestrator/Mappers/AgentConfigMapper.cs:11-25 | Every configuration comes back unchanged from mapping a supported document that describes it |
| AgentConfigMapper.MapForgetsOnlyPermissions | src/orchestrator/Cloud.Infra.Orchestrator/Mappers/AgentConfigMapper.cs:11-25 | Two supported documents map to the same configuration exactly when they agree on everything except permissions, and except an absent versus an empty behaviour section |
| AgentConfigMapper.MapThenToDto | src/orchestrator/Cloud.Infra.Orchestrator/Mappers/AgentConfigMapper.cs:11-25 | Writing a mapped configuration back as a document gives a document that maps to the same configuration |
| AgentConfigMapper.ValidateContract | src/orchestrator/Cloud.Infra.Orchestrator/Mappers/AgentConfigMapper.cs:28-35 | Passes exactly when both the apiVersion and the kind are supported. The apiVersion is checked first, and the error names the offending value |
| Resumption.DecideSaveLoadResume | src/orchestrator/Cloud.Infra.Orchestrator/Program.cs:171-195 | A library-level use of the approval loop, since the shipped workflow has only invoke steps (Program.cs:144-157). After a run suspends at a top-level gate, the caller decides the reported approval and saves into a store holding nothing of the run. A load gives back the decided context. Driving it again passes the gate when approved and stops there as rejected when rejected |
| Resumption.GatedDeployRuns | src/orchestrator/Cloud.Infra.Orchestrator/Program.cs:163-188 | A library-level use of the approval loop, since the shipped workflow has only invoke steps (Program.cs:144-157). A concrete workflow, an approval gate then a deploy invocation: it suspends on a new pending approval, and once approved it resumes, logs the deploy once and completes |
| Resumption.ReloadRepeatsFinishedStep | src/orchestrator/Cloud.Infra.Core/Services/implementation/AgentExecutionContextStoreService.cs:38-45 | As written, in that workflow: saving after the approval and again after completion, then loading, gives the finished log with the cursor back at 0, and driving the reloaded run logs the deploy a second time |
| Resumption.ReloadWithUpsertKeepsProgress | src/orchestrator/Cloud.Infra.Core/Services/implementation/AgentExecutionContextStoreService.cs:37-45 | With the corrected save, the same two saves reload the finished run, and driving it again changes nothing |

## Left out

- Program.cs is modelled only through the plan-to-workflow construction, its load-or-create and save (through the store lemmas), and the effect of its approve/reject loop (module `Resumption`). The shipped program builds invoke-only workflows (Program.cs:144-157), so its catch of `ApprovalRequiredException` (Program.cs:171-195) is reached only when the same loop drives a workflow with an approval gate, a library-level use; the gated lemmas in `Resumption` model that use. Console I/O, environment variables and host setup are not modelled.
- The YAML loader, the kernel factory and the Ollama client options are not modelled. They are file reads and HTTP client construction.
- The typed accessors of the agent behaviour bag are not modelled. They use floating point and runtime type tests on boxed values; behaviour values are opaque text here.
- Model invocation (`InvokePromptAsync`) is a deterministic oracle parameter, `Gateway`. The same kernel and prompt always give the same answer within one model instance.
- JSON deserialisation of the plan is an oracle parameter, `PlanParser`. Property-name case-insensitivity lives inside it.
- The SQL text and the reflection over record properties are not modelled. Repositories are sequences of records in insertion order.
- Repository reads return records in insertion order. The database gives no ordering guarantee. The log is sorted on load, so only the ledger order depends on this.
- Logging calls are not modelled.
- Prompt, summary and condition callbacks are pure functions of the context. In the source they are arbitrary delegates that could mutate the context.
- The clock is not modelled as advancing. An `Orchestrator` value carries one timestamp, `now`, so every step of a whole `ExecuteWorkflow` run is logged with the same `executedAt`, where the source stamps each new step with `DateTimeOffset.UtcNow` (ExecutionStep.cs:10, created at Orchestrator.cs:34-41). Approve and Reject take the decision time as a parameter.
- Null-reference failures on missing document fields (`Metadata`, `Spec`, `Model`) are not modelled. Every DTO field other than `behavior` is present in the model.
- A null `Steps` list in a parsed plan is not modelled.
- ContextStore.Load: the ledger is returned in repository order, which the model takes to be insertion order.
- ContextStore.Load: the log's contract states sortedness and length. The permutation is stated on `SortByIndex`, which Load applies.
- ContextStore.SortByIndex: the order among records with equal step indices is not stated (`OrderBy` keeps their repository order). A run's step records have distinct indices, so no load depends on it.
- ContextStore.SaveLoadRoundTrip: assumes a store with no records of the run. It also assumes distinct step indices and distinct approval names, which `WfIsPersistable` shows every context built by the engine has.
- Workflows.ExecuteWorkflow: does not model the 32-bit overflow of `CurrentStepIndex`. The cursor only moves while it is below the step count, so it cannot overflow.

## Findings

| source | as written | input that shows it | evidently intended | confidence | as-written member | corrected member |
|---|---|---|---|---|---|---|
| src/orchestrator/Cloud.Infra.Infrastructure/Persistence/PersistencePostgreSql.cs:61-63 | The store service saves through `UpsertAsync`, but that method issues `INSERT … ON CONFLICT DO NOTHING`. A second save of a run never updates a stored root, step or approval record | On the shipped path: a first invocation runs its plan and saves into a store without the run (Program.cs:168); a second invocation with the same execution id loads it (Program.cs:114-121), runs a longer plan past the stored cursor and saves again. A load still returns the first save's cursor, so a third invocation runs those steps again (ContextStore.ResaveKeepsFirstSave). In a library-level workflow with an approval gate, then a deploy invocation: the run suspends; the user approves; it is saved; it resumes to completion (cursor 2, one deploy logged); it is saved again. A load returns the cursor at 0, and driving the loaded run logs the deploy a second time | A re-save replaces the stored records, as the service's "upsert" and "deterministic identity" comments say (AgentExecutionContextStoreService.cs:37, 47, 62). A load then returns the latest cursor and decisions, and a finished run reloads finished | medium, not executed | ContextStore.ResaveKeepsFirstSave, Resumption.ReloadRepeatsFinishedStep | ContextStore.SaveUpsert, ContextStore.ResaveWithUpsertRoundTrip, Resumption.ReloadWithUpsertKeepsProgress |
