/** Resuming a run across the store: the caller decides a suspended approval,
    saves, and after a restart loads the run and drives it again. */
module Resumption {
  import opened Wrappers
  import opened Types
  import opened Models
  import opened AgentRegistry
  import opened Approvals
  import opened ExecutionContext
  import opened Orchestration
  import opened WorkflowSteps
  import opened Workflows
  import opened ContextStore

  /** The first save of a run: it suspended at a top-level gate, the caller decided
      the reported approval and saved into a store holding nothing of the run. A load
      gives back the decided context, and driving it again passes the gate when it was
      approved and stops there as rejected otherwise. */
  lemma DecideSaveLoadResume(o: Orchestrator, w: Workflow, ctx: Context, store: Store,
                             approve: bool, who: string, now: Timestamp, savedAt: Timestamp)
    requires Wf(ctx) && ctx.id != EmptyGuid && Fresh(store, ctx.id)
    requires 0 <= ctx.cursor < |w.steps|
    requires ExecuteWorkflow(o, w, ctx).outcome.Suspended?
    requires w.steps[ExecuteWorkflow(o, w, ctx).ctx.cursor].ApprovalGate?
    ensures var r := ExecuteWorkflow(o, w, ctx);
            var c := DecideApproval(r.ctx, r.outcome.position, approve, who, now);
            && Load(Save(store, c, savedAt), ctx.id) == Ok(Some(c))
            && (approve ==> PassesGateOnApproval(o, w, r.ctx, r.outcome.position, who, now))
            && (!approve ==> ExecuteWorkflow(o, w, c) == Run(c, Rejected(w.steps[r.ctx.cursor].name)))
  {
    var r := ExecuteWorkflow(o, w, ctx);
    var c := DecideApproval(r.ctx, r.outcome.position, approve, who, now);
    WfIsPersistable(c);
    SaveLoadRoundTrip(store, c, savedAt);
    if approve {
      ApprovalResumesAfterGate(o, w, ctx, who, now);
    } else {
      RejectionStopsRun(o, w, ctx, who, now);
    }
  }

  // ---------------------------------------------------------------------------
  // A gated deployment: one approval gate, then one invocation
  // ---------------------------------------------------------------------------

  function AlwaysAnswers(k: Kernel, prompt: string): Result<string, string>
  {
    Ok("done")
  }

  const Deployer: AgentConfig := AgentConfig("deployer", "deploys", ["deploy"], ModelConfig("ollama", "llama3"), map[])
  const Demo: Orchestrator := Orchestrator(Register(Empty, Deployer, Kernel(0)), AlwaysAnswers, 7)
  const GatedDeploy: Workflow :=
    Workflow("planned-workflow", [ApprovalGate("approve", _ => "deploy?"), InvokeCapability("deploy", "deploy", _ => "go")])

  const Start: Context := NewContext(1, 0, "ship it")
  /** The run as it first suspends: one pending approval, nothing logged. */
  const AtGate: Context := Start.(approvals := [NewApproval("approve", "deploy?")])
  /** The suspended run after the user approved it: what the first save writes. */
  const Approved: Context := DecideApproval(AtGate, 0, true, "local-user", 5)
  const Deployed: ExecutionStep := ExecutionStep("deploy", "deployer", "go", "done", 0, 7)
  /** The run after resuming to completion: what the second save writes. */
  const Finished: Context := Approved.(steps := [Deployed], cursor := 2)

  lemma DeployerIsListed()
    ensures GetByCapability(Demo.registry, "deploy") == [AgentDefinition(Deployer, Kernel(0))]
  {
    assert Count(Deployer.capabilities, "deploy") == 1;
  }

  /** The deploy step, run on any context, logs one invocation of the deployer at
      the end of the log and completes. */
  lemma DeployStepRuns(c: Context)
    ensures Execute(Demo, GatedDeploy.steps[1], c)
         == Run(c.(steps := c.steps + [Deployed.(stepIndex := |c.steps|)]), Completed)
  {
    DeployerIsListed();
    var inv := InvokeByCapability(Demo, c, "deploy", "go");
    assert inv.output == Ok("done");
  }

  /** The gate of the gated deployment passes on any context whose ledger is
      `Approved`'s. */
  lemma GatePassesOnceApproved(c: Context)
    requires c.approvals == Approved.approvals
    ensures Execute(Demo, GatedDeploy.steps[0], c) == Run(c, Completed)
  {
    assert FindApproval(c.approvals, "approve") == Some(0);
    ApprovedGateCompletes(Demo, GatedDeploy.steps[0], c, 0);
  }

  /** From the gate, with the approval granted, the run passes the gate, invokes the
      deployer once more and completes. */
  lemma ApprovedRunDeploys(c: Context)
    requires c.approvals == Approved.approvals && c.cursor == 0
    ensures ExecuteWorkflow(Demo, GatedDeploy, c)
         == Run(c.(steps := c.steps + [Deployed.(stepIndex := |c.steps|)], cursor := 2), Completed)
  {
    GatePassesOnceApproved(c);
    DriverStep(Demo, GatedDeploy, c);
    DeployStepRuns(c.(cursor := 1));
    DriverStep(Demo, GatedDeploy, c.(cursor := 1));
  }

  /** The gated deployment suspends on a new approval; once approved it resumes,
      invokes the deployer once and completes. */
  lemma GatedDeployRuns()
    ensures ExecuteWorkflow(Demo, GatedDeploy, Start) == Run(AtGate, Suspended(NewApproval("approve", "deploy?"), 0))
    ensures ExecuteWorkflow(Demo, GatedDeploy, Approved) == Run(Finished, Completed)
  {
    DriverStep(Demo, GatedDeploy, Start);
    ApprovedRunDeploys(Approved);
    assert [] + [Deployed.(stepIndex := 0)] == [Deployed];
  }

  /** As written: after the second save the run reloads at cursor 0, because the
      first save's root record is never replaced. Driving the reloaded run passes
      the approved gate and invokes the deployer a second time. */
  lemma ReloadRepeatsFinishedStep()
    ensures Load(Save(Save(EmptyStore, Approved, 5), Finished, 6), 1) == Ok(Some(Finished.(cursor := 0)))
    ensures ExecuteWorkflow(Demo, GatedDeploy, Finished.(cursor := 0))
         == Run(Finished.(steps := [Deployed, Deployed.(stepIndex := 1)]), Completed)
  {
    ReloadAtGate();
    RedriveDeploysAgain();
  }

  /** Driving the finished log from cursor 0 logs the deploy a second time. */
  lemma RedriveDeploysAgain()
    ensures ExecuteWorkflow(Demo, GatedDeploy, Finished.(cursor := 0))
         == Run(Finished.(steps := [Deployed, Deployed.(stepIndex := 1)]), Completed)
  {
    ApprovedRunDeploys(Finished.(cursor := 0));
  }

  /** As written, the two saves reload the finished log with the first save's cursor. */
  lemma ReloadAtGate()
    ensures Load(Save(Save(EmptyStore, Approved, 5), Finished, 6), 1) == Ok(Some(Finished.(cursor := 0)))
  {
    assert Persistable(Finished) && EarlierState(Approved, Finished);
    ResaveKeepsFirstSave(EmptyStore, Approved, Finished, 5, 6);
    assert Finished.approvals[|Approved.approvals|..] == [];
    assert Approved.approvals + [] == Finished.approvals;
  }

  /** Corrected: with a true upsert the second save replaces the first, the run
      reloads finished, and driving it again does nothing. */
  lemma ReloadWithUpsertKeepsProgress()
    ensures Load(SaveUpsert(SaveUpsert(EmptyStore, Approved, 5), Finished, 6), 1) == Ok(Some(Finished))
    ensures ExecuteWorkflow(Demo, GatedDeploy, Finished) == Run(Finished, Completed)
  {
    assert Persistable(Finished) && EarlierState(Approved, Finished);
    ResaveWithUpsertRoundTrip(EmptyStore, Approved, Finished, 5, 6);
  }
}
