/** Capability dispatch and plan creation. */
module Orchestration {
  import opened Wrappers
  import opened Types
  import opened Models
  import opened AgentRegistry
  import opened ExecutionContext

  /** The orchestrator: the registry it dispatches over, the behaviour of the model
      backends behind the agents' kernels, and the instant at which it runs. */
  datatype Orchestrator = Orchestrator(registry: Registry, gateway: Gateway, now: Timestamp)

  /** Parses the planner's raw text: Err for malformed JSON, Ok(None) for the
      JSON literal `null`, Ok(Some(plan)) otherwise. */
  type PlanParser = string -> Result<Option<PlannerResult>, string>

  /** The context after a dispatch, with the model's output or the dispatch error. */
  datatype Invocation = Invocation(ctx: Context, output: Result<string, Error>)

  /** Dispatches `prompt` to the first agent registered for `capability`. On success
      exactly one log entry is appended; on any failure the context is unchanged. */
  function InvokeByCapability(o: Orchestrator, ctx: Context, capability: string, prompt: string): (r: Invocation)
    ensures GetByCapability(o.registry, capability) == [] ==>
              r == Invocation(ctx, Err(NoAgentForCapability(capability)))
    ensures r.output.Err? ==> r.ctx == ctx
    ensures r.output.Ok? ==>
              var agent := GetByCapability(o.registry, capability)[0];
              && o.gateway(agent.kernel, prompt) == Ok(r.output.value)
              && r.ctx == AddStep(ctx, ExecutionStep(capability, agent.config.name, prompt,
                                                      r.output.value, |ctx.steps|, o.now))
    ensures GetByCapability(o.registry, capability) != [] ==>
              var agent := GetByCapability(o.registry, capability)[0];
              o.gateway(agent.kernel, prompt).Err? ==>
                r.output == Err(GatewayFailure(o.gateway(agent.kernel, prompt).error))
    ensures GetByCapability(o.registry, capability) != [] ==>
              var agent := GetByCapability(o.registry, capability)[0];
              o.gateway(agent.kernel, prompt).Ok? ==> r.output == Ok(o.gateway(agent.kernel, prompt).value)
    ensures Wf(ctx) ==> Wf(r.ctx)
  {
    var candidates := GetByCapability(o.registry, capability);
    if |candidates| == 0 then Invocation(ctx, Err(NoAgentForCapability(capability)))
    else
      var agent := candidates[0];
      match o.gateway(agent.kernel, prompt)
      case Err(message) => Invocation(ctx, Err(GatewayFailure(message)))
      case Ok(output) =>
        var step := ExecutionStep(capability, agent.config.name, prompt, output, |ctx.steps|, o.now);
        Invocation(AddStep(ctx, step), Ok(output))
  }

  const PlanIntro: string := "Create an execution plan for the following goal:\n\n"
  const PlanOutro: string := "\n\nRespond ONLY with valid JSON."

  /** The prompt sent to the planning agent: the goal, verbatim, between a fixed
      instruction and a demand for JSON. The goal can be read back out of it. */
  function PlanPrompt(goal: string): (prompt: string)
    ensures |prompt| == |PlanIntro| + |goal| + |PlanOutro|
    ensures prompt[..|PlanIntro|] == PlanIntro
    ensures prompt[|PlanIntro|..|prompt| - |PlanOutro|] == goal
    ensures prompt[|prompt| - |PlanOutro|..] == PlanOutro
  {
    PlanIntro + goal + PlanOutro
  }

  /** Different goals give different planner prompts. */
  lemma PlanPromptInjective(g1: string, g2: string)
    ensures PlanPrompt(g1) == PlanPrompt(g2) ==> g1 == g2
  {
    if PlanPrompt(g1) == PlanPrompt(g2) {
      assert |g1| == |g2|;
    }
  }

  /** The capability of the first plan step that no registered agent provides. */
  function FirstUnknownCapability(registry: Registry, steps: seq<PlannerStep>): (r: Option<nat>)
    ensures r.Some? ==> && r.value < |steps|
                        && GetByCapability(registry, steps[r.value].capability) == []
                        && forall j :: 0 <= j < r.value ==> GetByCapability(registry, steps[j].capability) != []
    ensures r.None? ==> forall j :: 0 <= j < |steps| ==> GetByCapability(registry, steps[j].capability) != []
    decreases |steps|
  {
    if steps == [] then None
    else if GetByCapability(registry, steps[0].capability) == [] then Some(0)
    else match FirstUnknownCapability(registry, steps[1..])
      case Some(i) => Some(i + 1)
      case None => None
  }

  /** Asks the single "planning" agent for a plan for `goal` and accepts it only if
      every step's capability is provided by some registered agent. */
  function CreatePlan(o: Orchestrator, parse: PlanParser, goal: string): (r: Result<PlannerResult, Error>)
    ensures |GetByCapability(o.registry, "planning")| != 1 ==>
              r == Err(PlannerNotUnique(|GetByCapability(o.registry, "planning")|))
    ensures r.Ok? ==>
              && |GetByCapability(o.registry, "planning")| == 1
              && var planner := GetByCapability(o.registry, "planning")[0];
                 && o.gateway(planner.kernel, PlanPrompt(goal)).Ok?
                 && parse(o.gateway(planner.kernel, PlanPrompt(goal)).value) == Ok(Some(r.value))
    ensures r.Ok? ==> forall j :: 0 <= j < |r.value.steps| ==>
                        GetByCapability(o.registry, r.value.steps[j].capability) != []
    ensures |GetByCapability(o.registry, "planning")| == 1 ==>
              var planner := GetByCapability(o.registry, "planning")[0];
              var raw := o.gateway(planner.kernel, PlanPrompt(goal));
              && (raw.Err? ==> r == Err(GatewayFailure(raw.error)))
              && (raw.Ok? && parse(raw.value).Err? ==> r == Err(MalformedPlannerJson(parse(raw.value).error)))
              && (raw.Ok? && parse(raw.value) == Ok(None) ==> r == Err(InvalidPlannerOutput))
    ensures |GetByCapability(o.registry, "planning")| == 1 ==>
              var raw := o.gateway(GetByCapability(o.registry, "planning")[0].kernel, PlanPrompt(goal));
              raw.Ok? && parse(raw.value).Ok? && parse(raw.value).value.Some? ==>
                var plan := parse(raw.value).value.value;
                && (r.Ok? <==> forall j :: 0 <= j < |plan.steps| ==>
                                 GetByCapability(o.registry, plan.steps[j].capability) != [])
                && (r.Err? ==> exists i ::
                                 && 0 <= i < |plan.steps|
                                 && r == Err(UnknownCapability(plan.steps[i].capability))
                                 && GetByCapability(o.registry, plan.steps[i].capability) == []
                                 && forall j :: 0 <= j < i ==>
                                      GetByCapability(o.registry, plan.steps[j].capability) != [])
  {
    var planners := GetByCapability(o.registry, "planning");
    if |planners| != 1 then Err(PlannerNotUnique(|planners|))
    else
      match o.gateway(planners[0].kernel, PlanPrompt(goal))
      case Err(message) => Err(GatewayFailure(message))
      case Ok(raw) =>
        match parse(raw)
        case Err(message) => Err(MalformedPlannerJson(message))
        case Ok(None) => Err(InvalidPlannerOutput)
        case Ok(Some(plan)) =>
          match FirstUnknownCapability(o.registry, plan.steps)
          case Some(i) => Err(UnknownCapability(plan.steps[i].capability))
          case None => Ok(plan)
  }

  /** The first registration (in `regs`) that declares a capability heads its list. */
  lemma {:induction false} EarliestHeadsListing(regs: seq<AgentDefinition>, capability: string, k: nat)
    requires k < |regs| && capability in regs[k].config.capabilities
    requires forall j :: 0 <= j < k ==> capability !in regs[j].config.capabilities
    ensures Listing(regs, capability) != [] && Listing(regs, capability)[0] == regs[k]
    decreases k
  {
    if k == 0 {
      CountInPositive(regs[0].config.capabilities, capability);
    } else {
      if Count(regs[0].config.capabilities, capability) > 0 {
        CountPositive(regs[0].config.capabilities, capability);
      }
      EarliestHeadsListing(regs[1..], capability, k - 1);
    }
  }

  lemma {:induction false} CountInPositive(s: seq<string>, x: string)
    requires x in s
    ensures Count(s, x) > 0
    decreases |s|
  {
    if s[0] != x {
      CountInPositive(s[1..], x);
    }
  }

  /** First-registered wins: a successful dispatch on a registry built by `regs` is
      logged under the earliest registration that declares the capability. */
  lemma DispatchPicksEarliestRegistration(
    regs: seq<AgentDefinition>, gateway: Gateway, now: Timestamp,
    ctx: Context, capability: string, prompt: string, k: nat)
    requires k < |regs| && capability in regs[k].config.capabilities
    requires forall j :: 0 <= j < k ==> capability !in regs[j].config.capabilities
    ensures var r := InvokeByCapability(Orchestrator(RegisterAll(Empty, regs), gateway, now), ctx, capability, prompt);
            && (r.output.Ok? <==> gateway(regs[k].kernel, prompt).Ok?)
            && (r.output.Ok? ==> r.ctx.steps[|ctx.steps|].agentName == regs[k].config.name)
  {
    RegistrationOrder(Empty, regs, capability);
    EarliestHeadsListing(regs, capability, k);
  }

  /** Repeated dispatches on one capability select the same agent, and each log
      entry's index is the log length before it. */
  lemma RepeatedDispatchSameAgent(o: Orchestrator, ctx: Context, capability: string, p1: string, p2: string)
    requires InvokeByCapability(o, ctx, capability, p1).output.Ok?
    requires InvokeByCapability(o, InvokeByCapability(o, ctx, capability, p1).ctx, capability, p2).output.Ok?
    ensures var c1 := InvokeByCapability(o, ctx, capability, p1).ctx;
            var c2 := InvokeByCapability(o, c1, capability, p2).ctx;
            && |c2.steps| == |ctx.steps| + 2
            && c2.steps[|ctx.steps|].agentName == c2.steps[|ctx.steps| + 1].agentName
            && c2.steps[|ctx.steps|].stepIndex == |ctx.steps|
            && c2.steps[|ctx.steps| + 1].stepIndex == |ctx.steps| + 1
  {
  }

  /** After a successful dispatch, the context reports its output as the last
      output for that capability, and the last outputs of other capabilities are
      unchanged. */
  lemma DispatchUpdatesLastOutput(o: Orchestrator, ctx: Context, capability: string, prompt: string, other: string)
    requires InvokeByCapability(o, ctx, capability, prompt).output.Ok?
    requires other != capability
    ensures var r := InvokeByCapability(o, ctx, capability, prompt);
            && GetLastOutputForCapability(r.ctx, capability) == Some(r.output.value)
            && GetLastOutputForCapability(r.ctx, other) == GetLastOutputForCapability(ctx, other)
  {
    var r := InvokeByCapability(o, ctx, capability, prompt);
    assert r.ctx.steps[..|r.ctx.steps| - 1] == ctx.steps;
  }
}
