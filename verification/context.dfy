/** The state of one run: goal, append-only step log, approval ledger and the
    resume cursor into the workflow's top-level steps. */
module ExecutionContext {
  import opened Wrappers
  import opened Types
  import opened Approvals

  /** One recorded agent invocation. */
  datatype ExecutionStep = ExecutionStep(
    capability: string,
    agentName: string,
    inputData: string,
    outputData: string,
    stepIndex: int,
    executedAt: Timestamp)

  /** `cursor` is `CurrentStepIndex`: the index of the next top-level workflow step to run. */
  datatype Context = Context(
    id: Guid,
    startedAt: Timestamp,
    goal: string,
    steps: seq<ExecutionStep>,
    approvals: seq<Approval>,
    cursor: int)

  /** Every log entry records its own position in the log as its step index. */
  ghost predicate LogIndexed(steps: seq<ExecutionStep>)
  {
    forall i :: 0 <= i < |steps| ==> steps[i].stepIndex == i
  }

  /** No two ledger entries guard the same step name. */
  ghost predicate UniqueNames(ledger: seq<Approval>)
  {
    forall i, j :: 0 <= i < j < |ledger| ==> ledger[i].stepName != ledger[j].stepName
  }

  /** The invariant the orchestrator and the workflow steps maintain. */
  ghost predicate Wf(ctx: Context)
  {
    LogIndexed(ctx.steps) && UniqueNames(ctx.approvals)
  }

  /** `later` is `earlier` after some operations of a run: identity, goal and cursor
      unchanged, and both the log and the ledger only extended at the end. */
  ghost predicate Extends(earlier: Context, later: Context)
  {
    && later.id == earlier.id
    && later.startedAt == earlier.startedAt
    && later.goal == earlier.goal
    && later.cursor == earlier.cursor
    && earlier.steps <= later.steps
    && earlier.approvals <= later.approvals
  }

  /** A fresh context for `goal`. */
  function NewContext(id: Guid, startedAt: Timestamp, goal: string): (c: Context)
    ensures c.steps == [] && c.approvals == [] && c.cursor == 0
    ensures c.id == id && c.startedAt == startedAt && c.goal == goal
    ensures Wf(c)
  {
    Context(id, startedAt, goal, [], [], 0)
  }

  /** Appends one entry to the step log; nothing else changes. */
  function AddStep(ctx: Context, step: ExecutionStep): (c: Context)
    ensures Extends(ctx, c) && c.approvals == ctx.approvals
    ensures |c.steps| == |ctx.steps| + 1 && c.steps[|ctx.steps|] == step
    ensures UniqueNames(ctx.approvals) ==> UniqueNames(c.approvals)
    ensures LogIndexed(ctx.steps) ==> (LogIndexed(c.steps) <==> step.stepIndex == |ctx.steps|)
  {
    ctx.(steps := ctx.steps + [step])
  }

  /** Appends one entry to the approval ledger; nothing else changes. */
  function AddApproval(ctx: Context, approval: Approval): (c: Context)
    ensures Extends(ctx, c) && c.steps == ctx.steps
    ensures |c.approvals| == |ctx.approvals| + 1 && c.approvals[|ctx.approvals|] == approval
  {
    ctx.(approvals := ctx.approvals + [approval])
  }

  /** Whether the ledger holds an approval for `stepName`. */
  ghost predicate HasApproval(ledger: seq<Approval>, stepName: string)
  {
    exists i :: 0 <= i < |ledger| && ledger[i].stepName == stepName
  }

  /** Position of the first ledger entry for `stepName`, if any. */
  function FindApproval(ledger: seq<Approval>, stepName: string): (pos: Option<nat>)
    ensures pos.Some? ==> && pos.value < |ledger|
                          && ledger[pos.value].stepName == stepName
                          && forall j :: 0 <= j < pos.value ==> ledger[j].stepName != stepName
    ensures pos.None? ==> forall j :: 0 <= j < |ledger| ==> ledger[j].stepName != stepName
    decreases |ledger|
  {
    if ledger == [] then None
    else if ledger[0].stepName == stepName then Some(0)
    else match FindApproval(ledger[1..], stepName)
      case Some(p) => Some(p + 1)
      case None => None
  }

  /** An approval handed back to a caller, with its ledger position. The position
      stands for the object reference the source hands out: deciding the approval
      later means updating the ledger entry at that position. */
  datatype Handle = Handle(ctx: Context, approval: Approval, position: nat)

  /** The first approval for `stepName`, or a new undecided one appended to the
      ledger when there is none. An existing approval is returned as it is: the
      `summary` argument is then ignored. */
  function GetOrCreateApproval(ctx: Context, stepName: string, summary: string): (h: Handle)
    ensures Extends(ctx, h.ctx) && h.ctx.steps == ctx.steps
    ensures h.position < |h.ctx.approvals| && h.ctx.approvals[h.position] == h.approval
    ensures h.approval.stepName == stepName
    ensures forall j :: 0 <= j < h.position ==> h.ctx.approvals[j].stepName != stepName
    ensures HasApproval(ctx.approvals, stepName) ==> h.ctx == ctx
    ensures !HasApproval(ctx.approvals, stepName) ==>
              && h.ctx.approvals == ctx.approvals + [NewApproval(stepName, summary)]
              && h.position == |ctx.approvals|
    ensures UniqueNames(ctx.approvals) ==> UniqueNames(h.ctx.approvals)
  {
    match FindApproval(ctx.approvals, stepName)
    case Some(p) => Handle(ctx, ctx.approvals[p], p)
    case None =>
      var a := NewApproval(stepName, summary);
      Handle(AddApproval(ctx, a), a, |ctx.approvals|)
  }

  /** Always appends a new undecided approval, even when `stepName` already has one. */
  function RequestApproval(ctx: Context, stepName: string, summary: string): (h: Handle)
    ensures Extends(ctx, h.ctx) && h.ctx.steps == ctx.steps
    ensures h.ctx.approvals == ctx.approvals + [h.approval]
    ensures h.position == |ctx.approvals| && h.approval == NewApproval(stepName, summary)
  {
    var a := NewApproval(stepName, summary);
    Handle(AddApproval(ctx, a), a, |ctx.approvals|)
  }

  /** The output of the last log entry for `capability`, or None when there is none. */
  function GetLastOutputForCapability(ctx: Context, capability: string): (r: Option<string>)
    ensures r.Some? ==> exists i :: && 0 <= i < |ctx.steps|
                                    && ctx.steps[i].capability == capability
                                    && ctx.steps[i].outputData == r.value
                                    && forall j :: i < j < |ctx.steps| ==> ctx.steps[j].capability != capability
    ensures r.None? ==> forall i :: 0 <= i < |ctx.steps| ==> ctx.steps[i].capability != capability
  {
    LastOutput(ctx.steps, capability)
  }

  function LastOutput(steps: seq<ExecutionStep>, capability: string): (r: Option<string>)
    ensures r.Some? ==> exists i :: && 0 <= i < |steps|
                                    && steps[i].capability == capability
                                    && steps[i].outputData == r.value
                                    && forall j :: i < j < |steps| ==> steps[j].capability != capability
    ensures r.None? ==> forall i :: 0 <= i < |steps| ==> steps[i].capability != capability
    decreases |steps|
  {
    if steps == [] then None
    else if steps[|steps| - 1].capability == capability then Some(steps[|steps| - 1].outputData)
    else LastOutput(steps[..|steps| - 1], capability)
  }

  /** Records a decision on the approval at `position`, as a caller does on the
      approval object it was handed. Only that entry's decision fields change. */
  function DecideApproval(ctx: Context, position: nat, approve: bool, who: string, now: Timestamp): (c: Context)
    requires position < |ctx.approvals|
    ensures c.steps == ctx.steps && c.cursor == ctx.cursor && c.id == ctx.id && c.goal == ctx.goal
    ensures c.startedAt == ctx.startedAt
    ensures |c.approvals| == |ctx.approvals|
    ensures c.approvals[position].approved == Some(approve)
    ensures c.approvals[position].approvedBy == Some(who) && c.approvals[position].approvedAt == Some(now)
    ensures c.approvals[position].summary == ctx.approvals[position].summary
    ensures forall j :: 0 <= j < |c.approvals| ==> c.approvals[j].stepName == ctx.approvals[j].stepName
    ensures forall j :: 0 <= j < |c.approvals| && j != position ==> c.approvals[j] == ctx.approvals[j]
    ensures Wf(ctx) ==> Wf(c)
  {
    ctx.(approvals := ctx.approvals[position := Decide(ctx.approvals[position], approve, who, now)])
  }

  /** Asking twice for the same step's approval gives the same approval and leaves
      the ledger as the first call left it, whatever summary the second call passes. */
  lemma GetOrCreateIdempotent(ctx: Context, stepName: string, summary1: string, summary2: string)
    ensures var h1 := GetOrCreateApproval(ctx, stepName, summary1);
            var h2 := GetOrCreateApproval(h1.ctx, stepName, summary2);
            h2 == h1 && |h2.ctx.approvals| == |h1.ctx.approvals|
  {
    var h1 := GetOrCreateApproval(ctx, stepName, summary1);
    assert HasApproval(h1.ctx.approvals, stepName) by {
      assert h1.ctx.approvals[h1.position].stepName == stepName;
    }
  }

  /** `RequestApproval` on a name the ledger already holds breaks name uniqueness:
      the uniqueness invariant holds only because callers use `GetOrCreateApproval`. */
  lemma RequestApprovalDuplicates(ctx: Context, stepName: string, summary: string)
    requires HasApproval(ctx.approvals, stepName)
    ensures !UniqueNames(RequestApproval(ctx, stepName, summary).ctx.approvals)
  {
    var i :| 0 <= i < |ctx.approvals| && ctx.approvals[i].stepName == stepName;
    var ledger := RequestApproval(ctx, stepName, summary).ctx.approvals;
    assert ledger[i].stepName == ledger[|ctx.approvals|].stepName;
  }
}
