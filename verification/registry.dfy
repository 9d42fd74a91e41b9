/** The agent registry: agents by name, plus an index from each capability to
    the agents that declared it, in registration order. */
module AgentRegistry {
  import opened Wrappers
  import opened Types
  import opened Models
  import opened SeqFacts

  /** A registered agent: its configuration and its model backend. */
  datatype AgentDefinition = AgentDefinition(config: AgentConfig, kernel: Kernel)

  datatype Registry = Registry(
    agents: map<string, AgentDefinition>,
    index: map<string, seq<AgentDefinition>>)

  const Empty: Registry := Registry(map[], map[])

  /** Number of occurrences of `x` in `s`. */
  function Count(s: seq<string>, x: string): nat
  {
    if s == [] then 0 else (if s[0] == x then 1 else 0) + Count(s[1..], x)
  }

  lemma {:induction false} CountPositive(s: seq<string>, x: string)
    requires Count(s, x) > 0
    ensures x in s
    decreases |s|
  {
    if s[0] != x {
      CountPositive(s[1..], x);
    }
  }

  /** `n` copies of `x`. */
  function Repeat<T>(x: T, n: nat): (r: seq<T>)
    ensures |r| == n
    ensures forall i :: 0 <= i < n ==> r[i] == x
  {
    if n == 0 then [] else [x] + Repeat(x, n - 1)
  }

  /** The list stored under `capability`, or the empty list when there is none. */
  function Listed(index: map<string, seq<AgentDefinition>>, capability: string): seq<AgentDefinition>
  {
    if capability in index then index[capability] else []
  }

  /** Appends `agent` to the list of every capability in `caps`, one capability
      at a time and in order, creating a list the first time a capability is seen. */
  function AppendToIndex(
    index: map<string, seq<AgentDefinition>>,
    caps: seq<string>,
    agent: AgentDefinition): (r: map<string, seq<AgentDefinition>>)
    ensures forall c :: Listed(r, c) == Listed(index, c) + Repeat(agent, Count(caps, c))
    decreases |caps|
  {
    if caps == [] then index
    else
      var next := index[caps[0] := Listed(index, caps[0]) + [agent]];
      var r := AppendToIndex(next, caps[1..], agent);
      forall c
        ensures Listed(r, c) == Listed(index, c) + Repeat(agent, Count(caps, c))
      {
        if c == caps[0] {
          assert Repeat(agent, Count(caps, c)) == [agent] + Repeat(agent, Count(caps[1..], c));
          AppendAssoc(Listed(index, c), [agent], Repeat(agent, Count(caps[1..], c)));
        }
      }
      r
  }

  /** Registers (or re-registers) an agent under its name and appends it to the
      list of each capability its configuration declares. */
  function Register(r: Registry, config: AgentConfig, kernel: Kernel): (r': Registry)
    ensures Get(r', config.name) == Ok(AgentDefinition(config, kernel))
    ensures forall n :: n != config.name ==> Get(r', n) == Get(r, n)
    ensures forall c :: GetByCapability(r', c)
                     == GetByCapability(r, c) + Repeat(AgentDefinition(config, kernel), Count(config.capabilities, c))
  {
    var agent := AgentDefinition(config, kernel);
    Registry(r.agents[config.name := agent], AppendToIndex(r.index, config.capabilities, agent))
  }

  /** Every registered agent, one per distinct name. */
  function All(r: Registry): (all: set<AgentDefinition>)
    ensures forall n :: n in r.agents ==> r.agents[n] in all
    ensures Valid(r) ==> forall a :: a in all ==> Get(r, a.config.name) == Ok(a)
  {
    r.agents.Values
  }

  /** The agents that declared `capability`, earliest registration first. */
  function GetByCapability(r: Registry, capability: string): (agents: seq<AgentDefinition>)
    ensures capability !in r.index ==> agents == []
  {
    Listed(r.index, capability)
  }

  /** The agent registered under `name`; fails when there is none. */
  function Get(r: Registry, name: string): (res: Result<AgentDefinition, Error>)
    ensures res.Ok? <==> name in r.agents
    ensures res.Err? ==> res.error == AgentNotRegistered(name)
  {
    if name in r.agents then Ok(r.agents[name]) else Err(AgentNotRegistered(name))
  }

  /** The registry's invariant: each agent is filed under its own name, and an agent
      appears in a capability's list only if its configuration declares that capability. */
  ghost predicate Valid(r: Registry)
  {
    && (forall n | n in r.agents :: r.agents[n].config.name == n)
    && (forall c, a | c in r.index && a in r.index[c] :: c in a.config.capabilities)
  }

  /** In a valid registry, lookup by name returns an agent carrying that name, and
      every agent listed for a capability declares it. */
  lemma ValidLookups(r: Registry, name: string, capability: string)
    requires Valid(r)
    ensures Get(r, name).Ok? ==> Get(r, name).value.config.name == name
    ensures forall a :: a in GetByCapability(r, capability) ==> capability in a.config.capabilities
  {
  }

  lemma EmptyIsValid()
    ensures Valid(Empty)
    ensures forall c :: GetByCapability(Empty, c) == []
    ensures All(Empty) == {}
  {
  }

  lemma RegisterPreservesValid(r: Registry, config: AgentConfig, kernel: Kernel)
    requires Valid(r)
    ensures Valid(Register(r, config, kernel))
  {
    var r' := Register(r, config, kernel);
    var agent := AgentDefinition(config, kernel);
    forall c, a | c in r'.index && a in r'.index[c]
      ensures c in a.config.capabilities
    {
      assert r'.index[c] == GetByCapability(r', c);
      var old_ := GetByCapability(r, c);
      var added := Repeat(agent, Count(config.capabilities, c));
      assert r'.index[c] == old_ + added;
      if a in old_ {
        assert c in r.index;
      } else {
        assert a in added;
        CountPositive(config.capabilities, c);
      }
    }
  }

  lemma {:induction false} ValuesMatchNames(m: map<string, AgentDefinition>)
    requires forall n | n in m :: m[n].config.name == n
    ensures |m.Values| == |m.Keys|
    decreases |m|
  {
    if |m| == 0 {
      assert m.Keys == {};
      assert m.Values == {};
    } else {
      var k :| k in m;
      var m' := m - {k};
      ValuesMatchNames(m');
      assert m.Keys == m'.Keys + {k};
      assert m.Values == m'.Values + {m[k]};
      assert m[k] !in m'.Values;
    }
  }

  /** `All` holds exactly one agent per registered name. */
  lemma AllOnePerName(r: Registry)
    requires Valid(r)
    ensures |All(r)| == |r.agents.Keys|
    ensures forall a | a in All(r) :: Get(r, a.config.name) == Ok(a)
  {
    ValuesMatchNames(r.agents);
  }

  /** Re-registering a name does not grow `All`; a new name grows it by one. */
  lemma RegisterAllSize(r: Registry, config: AgentConfig, kernel: Kernel)
    requires Valid(r)
    ensures |All(Register(r, config, kernel))|
         == |All(r)| + (if config.name in r.agents then 0 else 1)
  {
    var r' := Register(r, config, kernel);
    RegisterPreservesValid(r, config, kernel);
    AllOnePerName(r);
    AllOnePerName(r');
    assert r'.agents.Keys == r.agents.Keys + {config.name};
  }

  /** Registers each agent of `regs` in order. */
  function RegisterAll(r: Registry, regs: seq<AgentDefinition>): Registry
    decreases |regs|
  {
    if regs == [] then r
    else RegisterAll(Register(r, regs[0].config, regs[0].kernel), regs[1..])
  }

  /** The reference order of a capability's list after the registrations `regs`:
      each agent once per time its configuration declares the capability. */
  function Listing(regs: seq<AgentDefinition>, capability: string): seq<AgentDefinition>
    decreases |regs|
  {
    if regs == [] then []
    else Repeat(regs[0], Count(regs[0].config.capabilities, capability)) + Listing(regs[1..], capability)
  }

  /** The last registration in `regs` carrying `name`, if any. */
  function LastNamed(regs: seq<AgentDefinition>, name: string): (a: Option<AgentDefinition>)
    ensures a.Some? ==> a.value in regs && a.value.config.name == name
    ensures a.None? ==> forall i :: 0 <= i < |regs| ==> regs[i].config.name != name
    decreases |regs|
  {
    if regs == [] then None
    else match LastNamed(regs[1..], name)
      case Some(a) => Some(a)
      case None => if regs[0].config.name == name then Some(regs[0]) else None
  }

  /** Registration appends and never reorders: a capability's list is the old list
      followed by the new registrations in order. */
  lemma {:induction false} RegistrationOrder(r: Registry, regs: seq<AgentDefinition>, capability: string)
    ensures GetByCapability(RegisterAll(r, regs), capability)
         == GetByCapability(r, capability) + Listing(regs, capability)
    decreases |regs|
  {
    if regs != [] {
      var next := Register(r, regs[0].config, regs[0].kernel);
      var added := Repeat(regs[0], Count(regs[0].config.capabilities, capability));
      RegistrationOrder(next, regs[1..], capability);
      assert GetByCapability(next, capability) == GetByCapability(r, capability) + added;
      assert Listing(regs, capability) == added + Listing(regs[1..], capability);
      AppendAssoc(GetByCapability(r, capability), added, Listing(regs[1..], capability));
    }
  }

  /** Lookup by name yields the latest registration with that name; a name never
      registered fails. */
  lemma {:induction false} LastRegistrationWins(r: Registry, regs: seq<AgentDefinition>, name: string)
    ensures Get(RegisterAll(r, regs), name)
         == match LastNamed(regs, name)
            case Some(a) => Ok(a)
            case None => Get(r, name)
    decreases |regs|
  {
    if regs != [] {
      LastRegistrationWins(Register(r, regs[0].config, regs[0].kernel), regs[1..], name);
    }
  }

  /** A capability that no registration declares has an empty list. */
  lemma {:induction false} UndeclaredCapabilityIsEmpty(regs: seq<AgentDefinition>, capability: string)
    requires forall i :: 0 <= i < |regs| ==> capability !in regs[i].config.capabilities
    ensures GetByCapability(RegisterAll(Empty, regs), capability) == []
    decreases |regs|
  {
    RegistrationOrder(Empty, regs, capability);
    ListingEmpty(regs, capability);
  }

  lemma {:induction false} ListingEmpty(regs: seq<AgentDefinition>, capability: string)
    requires forall i :: 0 <= i < |regs| ==> capability !in regs[i].config.capabilities
    ensures Listing(regs, capability) == []
    decreases |regs|
  {
    if regs != [] {
      if Count(regs[0].config.capabilities, capability) > 0 {
        CountPositive(regs[0].config.capabilities, capability);
      }
      ListingEmpty(regs[1..], capability);
    }
  }

  /** Two agents declaring a capability once each are listed in registration order. */
  lemma TwoRegistrationsInOrder(a: AgentDefinition, b: AgentDefinition, capability: string)
    requires Count(a.config.capabilities, capability) == 1
    requires Count(b.config.capabilities, capability) == 1
    ensures GetByCapability(RegisterAll(Empty, [a, b]), capability) == [a, b]
  {
    RegistrationOrder(Empty, [a, b], capability);
    assert [a, b][1..] == [b];
    assert Listing([b], capability) == [b] + Listing([], capability);
  }
}
