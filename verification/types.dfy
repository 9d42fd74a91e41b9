/** Basic values shared by every component of the orchestration engine. */
module Types {
  import opened Wrappers

  /** An execution id (a 128-bit GUID in the source); 0 stands for `Guid.Empty`. */
  type Guid = nat

  const EmptyGuid: Guid := 0

  /** A wall-clock instant. The engine only stores and copies these, so they stay opaque. */
  type Timestamp = int

  /** Handle to one agent's language-model backend. */
  datatype Kernel = Kernel(handle: nat)

  /** The language-model gateway: sends a prompt through a kernel and returns
      the model's text, or fails with a transport/model error message. */
  type Gateway = (Kernel, string) -> Result<string, string>

  /** The distinguishable failures of the engine (thrown exceptions in the source). */
  datatype Error =
    | AgentNotRegistered(name: string)
    | NoAgentForCapability(capability: string)
    | GatewayFailure(message: string)
    | PlannerNotUnique(candidates: nat)
    | MalformedPlannerJson(message: string)
    | InvalidPlannerOutput
    | UnknownCapability(capability: string)
    | StepIndexOutOfRange(index: int)
    | EmptyExecutionId
    | UnsupportedApiVersion(apiVersion: string)
    | UnsupportedKind(kind: string)
}
