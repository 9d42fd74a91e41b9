/** The resumable workflow driver: runs the top-level steps from the context's
    cursor and advances the cursor only past steps that complete. */
module Workflows {
  import opened Wrappers
  import opened Types
  import opened Models
  import opened Approvals
  import opened AgentRegistry
  import opened ExecutionContext
  import opened Orchestration
  import opened WorkflowSteps

  datatype Workflow = Workflow(name: string, steps: seq<WorkflowStep>)

  /** The run stopped at step `r.ctx.cursor`: running that step on some context
      produced exactly this context and outcome. */
  ghost predicate StoppedAt(o: Orchestrator, w: Workflow, r: Run)
  {
    && 0 <= r.ctx.cursor < |w.steps|
    && exists e :: Execute(o, w.steps[r.ctx.cursor], e) == r
  }

  /** Runs `w` from `ctx.cursor`: each step that completes moves the cursor on by
      one; a step that suspends, is rejected or fails ends the run with the cursor
      still on it. A negative cursor fails as an out-of-range step index. */
  function ExecuteWorkflow(o: Orchestrator, w: Workflow, ctx: Context): (r: Run)
    ensures r.ctx.id == ctx.id && r.ctx.goal == ctx.goal && r.ctx.startedAt == ctx.startedAt
    ensures ctx.steps <= r.ctx.steps && ctx.approvals <= r.ctx.approvals
    ensures Wf(ctx) ==> Wf(r.ctx)
    ensures ctx.cursor < 0 ==> r == Run(ctx, Failed(StepIndexOutOfRange(ctx.cursor)))
    ensures ctx.cursor >= |w.steps| ==> r == Run(ctx, Completed)
    ensures ctx.cursor >= 0 ==> r.ctx.cursor >= ctx.cursor
    ensures 0 <= ctx.cursor <= |w.steps| && r.outcome.Completed? ==> r.ctx.cursor == |w.steps|
    ensures 0 <= ctx.cursor < |w.steps| && !r.outcome.Completed? ==> StoppedAt(o, w, r)
    ensures r.outcome.Suspended? ==>
              && r.outcome.position < |r.ctx.approvals|
              && r.ctx.approvals[r.outcome.position] == r.outcome.approval
              && Pending(r.outcome.approval)
    decreases |w.steps| - ctx.cursor
  {
    if ctx.cursor >= |w.steps| then Run(ctx, Completed)
    else if ctx.cursor < 0 then Run(ctx, Failed(StepIndexOutOfRange(ctx.cursor)))
    else
      var s := Execute(o, w.steps[ctx.cursor], ctx);
      if s.outcome.Completed? then ExecuteWorkflow(o, w, s.ctx.(cursor := s.ctx.cursor + 1))
      else s
  }

  /** One step of the driver: the step at the cursor runs on the context as it is,
      and the run continues from the next index only if it completed. */
  lemma DriverStep(o: Orchestrator, w: Workflow, ctx: Context)
    requires 0 <= ctx.cursor < |w.steps|
    ensures var s := Execute(o, w.steps[ctx.cursor], ctx);
            ExecuteWorkflow(o, w, ctx)
              == if s.outcome.Completed? then ExecuteWorkflow(o, w, s.ctx.(cursor := ctx.cursor + 1)) else s
  {
  }

  /** Steps before the cursor are never executed: replacing them changes nothing. */
  lemma {:induction false} IgnoresStepsBeforeCursor(o: Orchestrator, w: Workflow, w': Workflow, ctx: Context)
    requires |w.steps| == |w'.steps| && 0 <= ctx.cursor
    requires forall i :: ctx.cursor <= i < |w.steps| ==> w.steps[i] == w'.steps[i]
    ensures ExecuteWorkflow(o, w, ctx) == ExecuteWorkflow(o, w', ctx)
    decreases |w.steps| - ctx.cursor
  {
    if ctx.cursor < |w.steps| {
      var s := Execute(o, w.steps[ctx.cursor], ctx);
      DriverStep(o, w, ctx);
      DriverStep(o, w', ctx);
      if s.outcome.Completed? {
        IgnoresStepsBeforeCursor(o, w, w', s.ctx.(cursor := ctx.cursor + 1));
      }
    }
  }

  /** Steps run in index order, each once: running the first `k` steps and then
      continuing with the whole workflow is the same as one uninterrupted run. */
  lemma {:induction false} SplitAt(o: Orchestrator, w: Workflow, k: nat, ctx: Context)
    requires 0 <= ctx.cursor <= k <= |w.steps|
    ensures var first := ExecuteWorkflow(o, Workflow(w.name, w.steps[..k]), ctx);
            ExecuteWorkflow(o, w, ctx)
              == if first.outcome.Completed? then ExecuteWorkflow(o, w, first.ctx) else first
    decreases k - ctx.cursor
  {
    var prefix := Workflow(w.name, w.steps[..k]);
    if ctx.cursor < k {
      assert prefix.steps[ctx.cursor] == w.steps[ctx.cursor];
      var s := Execute(o, w.steps[ctx.cursor], ctx);
      var next := s.ctx.(cursor := ctx.cursor + 1);
      DriverStep(o, prefix, ctx);
      DriverStep(o, w, ctx);
      if s.outcome.Completed? {
        SplitAt(o, w, k, next);
      }
    }
  }

  /** Re-driving a run that is suspended on a top-level approval gate, without a
      decision being recorded, suspends again on the same approval and changes nothing. */
  lemma SuspendedRedriveIsStable(o: Orchestrator, w: Workflow, ctx: Context)
    requires 0 <= ctx.cursor < |w.steps|
    requires ExecuteWorkflow(o, w, ctx).outcome.Suspended?
    requires w.steps[ExecuteWorkflow(o, w, ctx).ctx.cursor].ApprovalGate?
    ensures ExecuteWorkflow(o, w, ExecuteWorkflow(o, w, ctx).ctx) == ExecuteWorkflow(o, w, ctx)
  {
    var r := ExecuteWorkflow(o, w, ctx);
    var gate := w.steps[r.ctx.cursor];
    var e :| Execute(o, gate, e) == r;
    GateReentryIdempotent(e, gate.name, gate.summary(e), gate.summary(r.ctx));
  }

  /** The suspended approval is the first ledger entry for the gate's name. */
  lemma SuspendedApprovalIsFirstMatch(o: Orchestrator, w: Workflow, ctx: Context)
    requires 0 <= ctx.cursor < |w.steps|
    requires ExecuteWorkflow(o, w, ctx).outcome.Suspended?
    requires w.steps[ExecuteWorkflow(o, w, ctx).ctx.cursor].ApprovalGate?
    ensures var r := ExecuteWorkflow(o, w, ctx);
            && r.outcome.approval.stepName == w.steps[r.ctx.cursor].name
            && FindApproval(r.ctx.approvals, w.steps[r.ctx.cursor].name) == Some(r.outcome.position)
  {
    var r := ExecuteWorkflow(o, w, ctx);
    var gate := w.steps[r.ctx.cursor];
    assert StoppedAt(o, w, r);
    var e :| Execute(o, gate, e) == r;
    GateSuspendsOnFirstMatch(e, gate.name, gate.summary(e));
  }

  /** Rejecting the pending approval of a suspended gate ends the next run as
      rejected at that same step, without moving the cursor or logging anything. */
  lemma RejectionStopsRun(o: Orchestrator, w: Workflow, ctx: Context, who: string, now: Timestamp)
    requires 0 <= ctx.cursor < |w.steps|
    requires ExecuteWorkflow(o, w, ctx).outcome.Suspended?
    requires w.steps[ExecuteWorkflow(o, w, ctx).ctx.cursor].ApprovalGate?
    ensures var r := ExecuteWorkflow(o, w, ctx);
            var c := DecideApproval(r.ctx, r.outcome.position, false, who, now);
            ExecuteWorkflow(o, w, c) == Run(c, Rejected(w.steps[r.ctx.cursor].name))
  {
    var r := ExecuteWorkflow(o, w, ctx);
    var c := DecideApproval(r.ctx, r.outcome.position, false, who, now);
    SuspendedApprovalIsFirstMatch(o, w, ctx);
    SameFirstMatch(r.ctx.approvals, c.approvals, w.steps[r.ctx.cursor].name, r.outcome.position);
  }

  /** Approving ledger entry `p` of `s` and driving again gives the same run as
      driving from the step after the cursor. */
  ghost predicate PassesGateOnApproval(o: Orchestrator, w: Workflow, s: Context, p: nat, who: string, now: Timestamp)
    requires p < |s.approvals|
  {
    var c := DecideApproval(s, p, true, who, now);
    ExecuteWorkflow(o, w, c) == ExecuteWorkflow(o, w, c.(cursor := c.cursor + 1))
  }

  /** Approving the pending approval of a suspended gate lets the next run pass that
      gate and carry on from the following step. */
  lemma ApprovalResumesAfterGate(o: Orchestrator, w: Workflow, ctx: Context, who: string, now: Timestamp)
    requires 0 <= ctx.cursor < |w.steps|
    requires ExecuteWorkflow(o, w, ctx).outcome.Suspended?
    requires w.steps[ExecuteWorkflow(o, w, ctx).ctx.cursor].ApprovalGate?
    ensures var r := ExecuteWorkflow(o, w, ctx);
            PassesGateOnApproval(o, w, r.ctx, r.outcome.position, who, now)
  {
    SuspendedApprovalIsFirstMatch(o, w, ctx);
    ApprovedGateIsPassed(o, w, ExecuteWorkflow(o, w, ctx).ctx, ExecuteWorkflow(o, w, ctx).outcome.position, who, now);
  }

  /** Approving the first ledger entry of the gate at the cursor, then driving,
      moves straight past the gate. */
  lemma ApprovedGateIsPassed(o: Orchestrator, w: Workflow, s: Context, p: nat, who: string, now: Timestamp)
    requires 0 <= s.cursor < |w.steps| && w.steps[s.cursor].ApprovalGate?
    requires FindApproval(s.approvals, w.steps[s.cursor].name) == Some(p)
    requires p < |s.approvals|
    ensures PassesGateOnApproval(o, w, s, p, who, now)
  {
    var c := DecideApproval(s, p, true, who, now);
    SameFirstMatch(s.approvals, c.approvals, w.steps[s.cursor].name, p);
    ApprovedGateCompletes(o, w.steps[c.cursor], c, p);
    DriverStep(o, w, c);
  }

  /** A gate whose first ledger entry for its name is approved completes and
      leaves the context as it was. */
  lemma ApprovedGateCompletes(o: Orchestrator, gate: WorkflowStep, c: Context, p: nat)
    requires gate.ApprovalGate?
    requires FindApproval(c.approvals, gate.name) == Some(p)
    requires p < |c.approvals| && c.approvals[p].approved == Some(true)
    ensures Execute(o, gate, c) == Run(c, Completed)
  {
    assert GetOrCreateApproval(c, gate.name, gate.summary(c)) == Handle(c, c.approvals[p], p);
  }


  /** A decision keeps every name in place, so the first entry for a name stays put. */
  lemma SameFirstMatch(before: seq<Approval>, after: seq<Approval>, name: string, p: nat)
    requires |before| == |after|
    requires forall j :: 0 <= j < |before| ==> before[j].stepName == after[j].stepName
    requires FindApproval(before, name) == Some(p)
    ensures FindApproval(after, name) == Some(p)
  {
  }

  /** A workflow of invoke steps whose capabilities all resolve, driven with a
      gateway that always answers, completes with one log entry per remaining step. */
  lemma {:induction false} InvokeOnlyWorkflowCompletes(o: Orchestrator, w: Workflow, ctx: Context)
    requires 0 <= ctx.cursor <= |w.steps|
    requires forall i :: 0 <= i < |w.steps| ==>
               w.steps[i].InvokeCapability? && GetByCapability(o.registry, w.steps[i].capability) != []
    requires forall k, p :: o.gateway(k, p).Ok?
    ensures var r := ExecuteWorkflow(o, w, ctx);
            && r.outcome == Completed
            && r.ctx.cursor == |w.steps|
            && |r.ctx.steps| == |ctx.steps| + |w.steps| - ctx.cursor
            && r.ctx.approvals == ctx.approvals
    decreases |w.steps| - ctx.cursor
  {
    if ctx.cursor < |w.steps| {
      var step := w.steps[ctx.cursor];
      var s := Execute(o, step, ctx);
      assert o.gateway(GetByCapability(o.registry, step.capability)[0].kernel, step.prompt(ctx)).Ok?;
      InvokeOnlyWorkflowCompletes(o, w, s.ctx.(cursor := s.ctx.cursor + 1));
    }
  }

  /** The workflow built from a plan: one invoke step per plan step, named after it,
      dispatching its capability with its intent as the prompt. */
  function FromPlan(name: string, plan: PlannerResult): (w: Workflow)
    ensures |w.steps| == |plan.steps|
    ensures forall i :: 0 <= i < |w.steps| ==>
              && w.steps[i].InvokeCapability?
              && w.steps[i].name == plan.steps[i].stepName
              && w.steps[i].capability == plan.steps[i].capability
              && forall c :: w.steps[i].prompt(c) == plan.steps[i].intent
  {
    Workflow(name, seq(|plan.steps|, i requires 0 <= i < |plan.steps| =>
      var step := plan.steps[i];
      InvokeCapability(step.stepName, step.capability, _ => step.intent)))
  }

  /** Plan, build, run: an accepted plan, driven on a fresh context with a gateway
      that always answers, completes with the cursor at the plan's length and one
      log entry per plan step. */
  lemma PlannedWorkflowCompletes(o: Orchestrator, parse: PlanParser, goal: string, id: Guid, startedAt: Timestamp)
    requires CreatePlan(o, parse, goal).Ok?
    requires forall k, p :: o.gateway(k, p).Ok?
    ensures var plan := CreatePlan(o, parse, goal).value;
            var r := ExecuteWorkflow(o, FromPlan("planned-workflow", plan), NewContext(id, startedAt, goal));
            && r.outcome == Completed
            && r.ctx.cursor == |plan.steps|
            && |r.ctx.steps| == |plan.steps|
            && r.ctx.approvals == []
            && Wf(r.ctx)
  {
    var plan := CreatePlan(o, parse, goal).value;
    InvokeOnlyWorkflowCompletes(o, FromPlan("planned-workflow", plan), NewContext(id, startedAt, goal));
  }
}
