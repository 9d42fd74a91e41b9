/** Agent configuration and planner output, as the engine sees them. */
module Models {

  /** Which model backend an agent uses. */
  datatype ModelConfig = ModelConfig(runtime: string, base: string)

  /** The free-form behaviour settings of an agent, keyed by setting name.
      Values are kept as opaque text. */
  type BehaviorBag = map<string, string>

  /** A validated agent configuration. `capabilities` is a list: a name may repeat. */
  datatype AgentConfig = AgentConfig(
    name: string,
    description: string,
    capabilities: seq<string>,
    model: ModelConfig,
    behavior: BehaviorBag)

  /** One step of a model-generated plan. */
  datatype PlannerStep = PlannerStep(stepName: string, capability: string, intent: string)

  /** A model-generated plan. `confidence` is carried along, never interpreted. */
  datatype PlannerResult = PlannerResult(
    goal: string,
    steps: seq<PlannerStep>,
    assumptions: seq<string>,
    confidence: real)
}
