/** The three kinds of workflow step and what executing one does to a context. */
module WorkflowSteps {
  import opened Wrappers
  import opened Types
  import opened Approvals
  import opened ExecutionContext
  import opened Orchestration

  /** A workflow step. Prompts, summaries and conditions are functions of the
      context as it is when the step starts. A conditional owns its branches. */
  datatype WorkflowStep =
    | InvokeCapability(name: string, capability: string, prompt: Context -> string)
    | ApprovalGate(name: string, summary: Context -> string)
    | Conditional(name: string, condition: Context -> bool, ifTrue: WorkflowStep, ifFalse: Option<WorkflowStep>)

  /** How a step (or a run) ended. `Suspended` is the approval-required signal and
      carries the pending approval with its ledger position; `Rejected` is the
      cancellation raised at a rejected gate; `Failed` is any other error. */
  datatype Outcome =
    | Completed
    | Suspended(approval: Approval, position: nat)
    | Rejected(stepName: string)
    | Failed(error: Error)

  /** The context as left by an execution, whatever its outcome: changes made
      before a step stops are kept. */
  datatype Run = Run(ctx: Context, outcome: Outcome)

  /** The approval gate named `name`: looks up or creates its approval, then
      suspends while undecided, stops as rejected, or passes when approved. */
  function Gate(ctx: Context, name: string, summary: string): (r: Run)
    ensures Extends(ctx, r.ctx) && r.ctx.steps == ctx.steps
    ensures UniqueNames(ctx.approvals) ==> UniqueNames(r.ctx.approvals)
    ensures var h := GetOrCreateApproval(ctx, name, summary);
            && r.ctx == h.ctx
            && (h.approval.approved == None <==> r.outcome == Suspended(h.approval, h.position))
            && (h.approval.approved == Some(false) <==> r.outcome == Rejected(name))
            && (h.approval.approved == Some(true) <==> r.outcome == Completed)
    ensures !r.outcome.Suspended? ==> r.ctx == ctx
  {
    var h := GetOrCreateApproval(ctx, name, summary);
    match h.approval.approved
    case None => Run(h.ctx, Suspended(h.approval, h.position))
    case Some(approved) => if approved then Run(h.ctx, Completed) else Run(h.ctx, Rejected(name))
  }

  /** Executes one step against `ctx`. */
  function Execute(o: Orchestrator, step: WorkflowStep, ctx: Context): (r: Run)
    ensures Extends(ctx, r.ctx)
    ensures Wf(ctx) ==> Wf(r.ctx)
    ensures r.outcome.Suspended? ==>
              && r.outcome.position < |r.ctx.approvals|
              && r.ctx.approvals[r.outcome.position] == r.outcome.approval
              && Pending(r.outcome.approval)
    decreases step
  {
    match step
    case InvokeCapability(_, capability, prompt) =>
      var inv := InvokeByCapability(o, ctx, capability, prompt(ctx));
      Run(inv.ctx, if inv.output.Ok? then Completed else Failed(inv.output.error))
    case ApprovalGate(name, summary) =>
      Gate(ctx, name, summary(ctx))
    case Conditional(_, condition, ifTrue, ifFalse) =>
      if condition(ctx) then Execute(o, ifTrue, ctx)
      else if ifFalse.Some? then Execute(o, ifFalse.value, ctx)
      else Run(ctx, Completed)
  }

  /** The step a (possibly nested) conditional resolves to on `ctx`: every condition
      on the way is evaluated on that same entry context. None means no step runs. */
  function Resolve(step: WorkflowStep, ctx: Context): (leaf: Option<WorkflowStep>)
    ensures leaf.Some? ==> !leaf.value.Conditional?
    decreases step
  {
    match step
    case Conditional(_, condition, ifTrue, ifFalse) =>
      if condition(ctx) then Resolve(ifTrue, ctx)
      else if ifFalse.Some? then Resolve(ifFalse.value, ctx)
      else None
    case _ => Some(step)
  }

  /** A conditional runs exactly the one leaf step its conditions select on the
      entry context, and propagates that step's outcome unchanged; when no branch
      is selected it completes without touching the context. */
  lemma {:induction false} ConditionalRunsSelectedLeaf(o: Orchestrator, step: WorkflowStep, ctx: Context)
    ensures Resolve(step, ctx).None? ==> Execute(o, step, ctx) == Run(ctx, Completed)
    ensures Resolve(step, ctx).Some? ==> Execute(o, step, ctx) == Execute(o, Resolve(step, ctx).value, ctx)
    decreases step
  {
    match step
    case Conditional(_, condition, ifTrue, ifFalse) =>
      if condition(ctx) {
        ConditionalRunsSelectedLeaf(o, ifTrue, ctx);
      } else if ifFalse.Some? {
        ConditionalRunsSelectedLeaf(o, ifFalse.value, ctx);
      }
    case _ =>
  }

  /** An invoke step dispatches its own capability with the prompt computed from the
      entry context: on success exactly one log entry is appended and the ledger and
      cursor are untouched; dispatch errors surface as the step's failure and leave
      the context unchanged. */
  lemma InvokeStepDispatches(o: Orchestrator, name: string, capability: string,
                             prompt: Context -> string, ctx: Context)
    ensures var r := Execute(o, InvokeCapability(name, capability, prompt), ctx);
            var inv := InvokeByCapability(o, ctx, capability, prompt(ctx));
            && r.ctx == inv.ctx
            && r.ctx.approvals == ctx.approvals && r.ctx.cursor == ctx.cursor
            && (r.outcome.Completed? <==> inv.output.Ok?)
            && (r.outcome.Completed? ==> |r.ctx.steps| == |ctx.steps| + 1
                                         && r.ctx.steps[|ctx.steps|].capability == capability
                                         && r.ctx.steps[|ctx.steps|].inputData == prompt(ctx))
            && (!r.outcome.Completed? ==> r.ctx == ctx && r.outcome == Failed(inv.output.error))
            && !r.outcome.Suspended? && !r.outcome.Rejected?
  {
  }

  /** Re-running a gate whose approval is still undecided returns the same approval
      at the same position and leaves the context as it is: no duplicate ledger entry. */
  lemma GateReentryIdempotent(ctx: Context, name: string, summary1: string, summary2: string)
    requires Gate(ctx, name, summary1).outcome.Suspended?
    ensures var r1 := Gate(ctx, name, summary1);
            Gate(r1.ctx, name, summary2) == r1
  {
    GetOrCreateIdempotent(ctx, name, summary1, summary2);
  }

  /** An approval gate never touches the step log, and changes the ledger only by
      appending its own undecided approval when it had none. */
  lemma GateLeavesLogAlone(o: Orchestrator, name: string, summary: Context -> string, ctx: Context)
    ensures var r := Execute(o, ApprovalGate(name, summary), ctx);
            && r.ctx.steps == ctx.steps
            && (HasApproval(ctx.approvals, name) ==> r.ctx == ctx)
            && (!HasApproval(ctx.approvals, name) ==>
                  r.ctx.approvals == ctx.approvals + [NewApproval(name, summary(ctx))]
                  && r.outcome.Suspended?)
  {
  }

  /** A suspended gate hands back the first ledger entry for its own name. */
  lemma GateSuspendsOnFirstMatch(ctx: Context, name: string, summary: string)
    requires Gate(ctx, name, summary).outcome.Suspended?
    ensures var r := Gate(ctx, name, summary);
            && r.outcome.approval.stepName == name
            && FindApproval(r.ctx.approvals, name) == Some(r.outcome.position)
  {
  }
}
