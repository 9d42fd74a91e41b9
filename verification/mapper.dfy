/** Turning a parsed agent configuration document into an `AgentConfig`. */
module AgentConfigMapper {
  import opened Wrappers
  import opened Types
  import opened Models

  /** The only document version and kind the mapper accepts. */
  const SupportedApiVersion: string := "agent.platform/v1"
  const SupportedKind: string := "Agent"

  datatype ModelDto = ModelDto(runtime: string, base: string)

  /** `behavior` is None when the document has no behaviour section. */
  datatype AgentSpecDto = AgentSpecDto(
    capabilities: seq<string>,
    permissions: seq<string>,
    model: ModelDto,
    behavior: Option<BehaviorBag>)

  datatype MetadataDto = MetadataDto(name: string, description: string)

  datatype AgentConfigDto = AgentConfigDto(
    apiVersion: string,
    kind: string,
    metadata: MetadataDto,
    spec: AgentSpecDto)

  /** The document's contract: supported version and kind. */
  predicate Supported(dto: AgentConfigDto)
  {
    dto.apiVersion == SupportedApiVersion && dto.kind == SupportedKind
  }

  /** The contract check: the version is checked before the kind, and the first
      mismatch is the error. */
  function ValidateContract(dto: AgentConfigDto): (e: Option<Error>)
    ensures e.None? <==> Supported(dto)
    ensures dto.apiVersion != SupportedApiVersion ==> e == Some(UnsupportedApiVersion(dto.apiVersion))
    ensures dto.apiVersion == SupportedApiVersion && dto.kind != SupportedKind ==>
              e == Some(UnsupportedKind(dto.kind))
  {
    if dto.apiVersion != SupportedApiVersion then Some(UnsupportedApiVersion(dto.apiVersion))
    else if dto.kind != SupportedKind then Some(UnsupportedKind(dto.kind))
    else None
  }

  /** Validates the contract, then copies the fields across; a missing behaviour
      section becomes an empty bag. */
  function Map(dto: AgentConfigDto): (r: Result<AgentConfig, Error>)
    ensures r.Ok? <==> Supported(dto)
    ensures dto.apiVersion != SupportedApiVersion ==> r == Err(UnsupportedApiVersion(dto.apiVersion))
    ensures dto.apiVersion == SupportedApiVersion && dto.kind != SupportedKind ==>
              r == Err(UnsupportedKind(dto.kind))
    ensures r.Ok? ==>
              && r.value.name == dto.metadata.name
              && r.value.description == dto.metadata.description
              && r.value.capabilities == dto.spec.capabilities
              && r.value.model == ModelConfig(dto.spec.model.runtime, dto.spec.model.base)
              && (dto.spec.behavior.Some? ==> r.value.behavior == dto.spec.behavior.value)
              && (dto.spec.behavior.None? ==> r.value.behavior == map[])
  {
    match ValidateContract(dto)
    case Some(e) => Err(e)
    case None =>
      Ok(AgentConfig(
        dto.metadata.name,
        dto.metadata.description,
        dto.spec.capabilities,
        ModelConfig(dto.spec.model.runtime, dto.spec.model.base),
        if dto.spec.behavior.Some? then dto.spec.behavior.value else map[]))
  }

  /** A supported document describing `config`, with the given permissions. */
  function ToDto(config: AgentConfig, permissions: seq<string>): (dto: AgentConfigDto)
    ensures Supported(dto)
    ensures dto.spec.permissions == permissions
  {
    AgentConfigDto(
      SupportedApiVersion,
      SupportedKind,
      MetadataDto(config.name, config.description),
      AgentSpecDto(config.capabilities, permissions,
                   ModelDto(config.model.runtime, config.model.base), Some(config.behavior)))
  }

  /** Every configuration is the image of a document: mapping its document gives it back. */
  lemma MapToDtoRoundTrip(config: AgentConfig, permissions: seq<string>)
    ensures Map(ToDto(config, permissions)) == Ok(config)
  {
  }

  /** Documents that differ only in permissions, or in an absent versus an empty
      behaviour section. */
  predicate SameConfig(d1: AgentConfigDto, d2: AgentConfigDto)
  {
    && d1.metadata == d2.metadata
    && d1.spec.capabilities == d2.spec.capabilities
    && d1.spec.model == d2.spec.model
    && BagOf(d1.spec.behavior) == BagOf(d2.spec.behavior)
  }

  function BagOf(b: Option<BehaviorBag>): BehaviorBag
  {
    if b.Some? then b.value else map[]
  }

  /** Two supported documents map to the same configuration exactly when they
      agree on everything but permissions and absent-versus-empty behaviour. */
  lemma MapForgetsOnlyPermissions(d1: AgentConfigDto, d2: AgentConfigDto)
    requires Supported(d1) && Supported(d2)
    ensures Map(d1) == Map(d2) <==> SameConfig(d1, d2)
  {
    if Map(d1) == Map(d2) {
      assert Map(d1).value.model == Map(d2).value.model;
      assert d1.metadata == MetadataDto(Map(d1).value.name, Map(d1).value.description);
      assert d1.spec.model == ModelDto(Map(d1).value.model.runtime, Map(d1).value.model.base);
    }
  }

  /** Mapping a document and writing the result back gives the same configuration
      again, whatever the original's permissions. */
  lemma MapThenToDto(dto: AgentConfigDto)
    requires Supported(dto)
    ensures SameConfig(ToDto(Map(dto).value, dto.spec.permissions), dto)
    ensures ToDto(Map(dto).value, dto.spec.permissions).spec.permissions == dto.spec.permissions
  {
  }
}
