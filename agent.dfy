/**
 * An agent of the simulation (engine/agent/agent.rs): where it lives, where it
 * works, and where it currently is.
 */
module Agents {
  import opened Wrappers
  import opened Addresses
  import opened AgentDatas

  /** `AgentState`: at a tile, or travelling along a route (the route itself is not modelled). */
  datatype AgentState = AtTile(address: Address) | OnRoute

  /** `Agent`. */
  datatype Agent = Agent(id: nat, data: AgentData, housing: Address, workplace: Option<Address>, state: AgentState)

  /** `Agent::new`: a new agent starts out at its housing tile. */
  function NewAgent(id: nat, data: AgentData, housing: Address, workplace: Option<Address>): Agent {
    Agent(id, data, housing, workplace, AtTile(housing))
  }
}
