/**
 * The engine's consistency check between agents and tiles (engine/consistency.rs).
 *
 * The tile side is `FindAgentVisitor`, which visits every leaf, rejects an
 * overfull housing or workplace tile and records which tile lists each agent,
 * rejecting an agent listed by two tiles of the same kind. The agent side walks
 * the agent map and checks that each agent's key is its id and that its housing
 * (and workplace, if any) is a tile of the right kind that lists it.
 */
module Consistency {
  import opened Wrappers
  import opened Addresses
  import opened Quadtrees
  import opened States
  import opened Agents

  /** `ConsistencyError`, without its messages. */
  datatype ConsistencyError = AgentError | TileError | TrafficError | ParkingError

  /** No id occurs twice. */
  predicate NoDuplicates(s: seq<nat>) {
    forall i, j :: 0 <= i < j < |s| ==> s[i] != s[j]
  }

  /** None of the ids is among the keys. */
  predicate NoneIn(s: seq<nat>, keys: set<nat>) {
    forall i :: 0 <= i < |s| ==> s[i] !in keys
  }

  function Elems(s: seq<nat>): set<nat> {
    set x | x in s
  }

  /** The addresses recorded so far for the agents of housing and of workplace tiles. */
  datatype Found = Found(housing: map<nat, Address>, workplaces: map<nat, Address>)

  const NothingFound := Found(map[], map[])

  /**
   * The loop over a tile's agents in `visit_leaf`: each is recorded at the
   * tile's address, and one that was recorded before is a TileError.
   */
  function InsertAll(m: map<nat, Address>, ids: seq<nat>, a: Address): Result<map<nat, Address>, ConsistencyError>
    decreases |ids|
  {
    if ids == [] then Ok(m)
    else if ids[0] in m then Err(TileError)
    else InsertAll(m[ids[0] := a], ids[1..], a)
  }

  /**
   * Recording a tile's agents succeeds exactly when the list has no repeated id
   * and none was recorded before; the ids are then recorded at the tile's address.
   */
  lemma {:induction false} InsertAllSpec(m: map<nat, Address>, ids: seq<nat>, a: Address)
    ensures InsertAll(m, ids, a).Ok? <==> NoDuplicates(ids) && NoneIn(ids, m.Keys)
    ensures InsertAll(m, ids, a).Err? ==> InsertAll(m, ids, a).error == TileError
    ensures InsertAll(m, ids, a).Ok? ==>
      && InsertAll(m, ids, a).value.Keys == m.Keys + Elems(ids)
      && forall k :: k in InsertAll(m, ids, a).value ==> InsertAll(m, ids, a).value[k] == (if k in m then m[k] else a)
    decreases |ids|
  {
    if ids != [] {
      var rest := ids[1..];
      InsertAllSpec(m[ids[0] := a], rest, a);
      assert ids == [ids[0]] + rest;
      NoDuplicatesJoin([ids[0]], rest, m.Keys);
      assert Elems(ids) == {ids[0]} + Elems(rest);
      if ids[0] in m {
        assert !NoneIn(ids, m.Keys) by { assert ids[0] in m.Keys; }
      }
    }
  }

  /** A list without repeats and outside the keys, split in two. */
  lemma NoDuplicatesJoin(a: seq<nat>, b: seq<nat>, keys: set<nat>)
    ensures (NoDuplicates(a + b) && NoneIn(a + b, keys)) <==>
      (NoDuplicates(a) && NoneIn(a, keys) && NoDuplicates(b) && NoneIn(b, keys + Elems(a)))
  {
    var ab := a + b;
    if NoDuplicates(ab) && NoneIn(ab, keys) {
      assert NoDuplicates(a) by {
        forall i, j | 0 <= i < j < |a| ensures a[i] != a[j] { assert ab[i] == a[i] && ab[j] == a[j]; }
      }
      assert NoDuplicates(b) by {
        forall i, j | 0 <= i < j < |b| ensures b[i] != b[j] { assert ab[|a| + i] == b[i] && ab[|a| + j] == b[j]; }
      }
      assert NoneIn(a, keys) by {
        forall i | 0 <= i < |a| ensures a[i] !in keys { assert ab[i] == a[i]; }
      }
      forall i | 0 <= i < |b| ensures b[i] !in keys + Elems(a) {
        assert ab[|a| + i] == b[i];
        forall j | 0 <= j < |a| ensures a[j] != b[i] { assert ab[j] == a[j]; }
      }
    }
    if NoDuplicates(a) && NoneIn(a, keys) && NoDuplicates(b) && NoneIn(b, keys + Elems(a)) {
      forall i, j | 0 <= i < j < |ab| ensures ab[i] != ab[j] {
        if j >= |a| && i < |a| {
          assert ab[j] == b[j - |a|] && b[j - |a|] !in Elems(a);
          assert ab[i] == a[i] && a[i] in Elems(a);
        } else if i >= |a| {
          assert ab[i] == b[i - |a|] && ab[j] == b[j - |a|];
        }
      }
      forall i | 0 <= i < |ab| ensures ab[i] !in keys {
        if i >= |a| { assert ab[i] == b[i - |a|]; }
      }
    }
  }

  /** The agents a housing tile lists; nothing for any other tile. */
  function HousingAgents(tile: Tile): seq<nat> {
    if tile.HousingTile? then tile.agents else []
  }

  /** The agents a workplace tile lists; nothing for any other tile. */
  function WorkplaceAgents(tile: Tile): seq<nat> {
    if tile.WorkplaceTile? then tile.agents else []
  }

  /** The source's `agents.len() > density` test, for housing and workplace tiles. */
  predicate WithinCapacity(tile: Tile) {
    (tile.HousingTile? || tile.WorkplaceTile?) ==> |tile.agents| <= tile.density
  }

  /** `FindAgentVisitor::visit_leaf`. */
  function FindStep(f: Found, leaf: LeafState, vd: VisitData): Result<Found, ConsistencyError> {
    match leaf.tile
    case HousingTile(density, agents) =>
      if |agents| > density then Err(TileError)
      else (match InsertAll(f.housing, agents, vd.address)
        case Err(e) => Err(e)
        case Ok(h) => Ok(f.(housing := h)))
    case WorkplaceTile(density, agents) =>
      if |agents| > density then Err(TileError)
      else (match InsertAll(f.workplaces, agents, vd.address)
        case Err(e) => Err(e)
        case Ok(w) => Ok(f.(workplaces := w)))
    case _ => Ok(f)
  }

  /** `FindAgentVisitor`: it descends everywhere and does nothing around branches. */
  function FindAgentVisitor(): Visitor<Found, (), LeafState, ConsistencyError> {
    LeafVisitor(FindStep)
  }

  /** One leaf passes exactly when it is within capacity and its agents were not seen before. */
  lemma FindStepSpec(f: Found, leaf: LeafState, vd: VisitData)
    ensures var r := FindStep(f, leaf, vd);
      var h, w := HousingAgents(leaf.tile), WorkplaceAgents(leaf.tile);
      && (r.Ok? <==> WithinCapacity(leaf.tile) && NoDuplicates(h) && NoneIn(h, f.housing.Keys)
                     && NoDuplicates(w) && NoneIn(w, f.workplaces.Keys))
      && (r.Err? ==> r.error == TileError)
      && (r.Ok? ==> r.value.housing.Keys == f.housing.Keys + Elems(h)
                    && r.value.workplaces.Keys == f.workplaces.Keys + Elems(w))
  {
    if leaf.tile.HousingTile? {
      InsertAllSpec(f.housing, leaf.tile.agents, vd.address);
    } else if leaf.tile.WorkplaceTile? {
      InsertAllSpec(f.workplaces, leaf.tile.agents, vd.address);
    }
  }

  /** The ids listed by the tiles of the leaf events of a trace, in order. */
  function TileIds(t: seq<Event<(), LeafState>>, agentsOf: Tile -> seq<nat>): seq<nat> {
    if t == [] then []
    else (if t[0].LeafEvent? then agentsOf(t[0].l.tile) else []) + TileIds(t[1..], agentsOf)
  }

  /** Every tile of the trace is within capacity. */
  predicate WithinDensity(t: seq<Event<(), LeafState>>) {
    forall i :: 0 <= i < |t| && t[i].LeafEvent? ==> WithinCapacity(t[i].l.tile)
  }

  /** What the visitor accepts after having recorded f. */
  predicate FindsAgents(f: Found, t: seq<Event<(), LeafState>>) {
    var h, w := TileIds(t, HousingAgents), TileIds(t, WorkplaceAgents);
    && WithinDensity(t)
    && NoDuplicates(h) && NoneIn(h, f.housing.Keys)
    && NoDuplicates(w) && NoneIn(w, f.workplaces.Keys)
  }

  /**
   * Feeding a trace to the visitor succeeds exactly when every tile is within
   * capacity and no agent is listed twice by housing tiles, nor twice by
   * workplace tiles; every failure is a TileError.
   */
  lemma {:induction false} FindAgentsSpec(f: Found, t: seq<Event<(), LeafState>>)
    ensures ApplyLeaves(FindStep, f, t).Ok? <==> FindsAgents(f, t)
    ensures ApplyLeaves(FindStep, f, t).Err? ==> ApplyLeaves(FindStep, f, t).error == TileError
    decreases |t|
  {
    if t != [] {
      var rest := t[1..];
      WithinDensityStep(t);
      if t[0].LeafEvent? {
        var tile := t[0].l.tile;
        var h, w := HousingAgents(tile), WorkplaceAgents(tile);
        FindStepSpec(f, t[0].l, t[0].vd);
        NoDuplicatesJoin(h, TileIds(rest, HousingAgents), f.housing.Keys);
        NoDuplicatesJoin(w, TileIds(rest, WorkplaceAgents), f.workplaces.Keys);
        var r := FindStep(f, t[0].l, t[0].vd);
        if r.Ok? {
          FindAgentsSpec(r.value, rest);
        }
      } else {
        FindAgentsSpec(f, rest);
        assert TileIds(t, HousingAgents) == TileIds(rest, HousingAgents);
        assert TileIds(t, WorkplaceAgents) == TileIds(rest, WorkplaceAgents);
      }
    }
  }

  lemma WithinDensityStep(t: seq<Event<(), LeafState>>)
    requires t != []
    ensures WithinDensity(t) <==>
      (t[0].LeafEvent? ==> WithinCapacity(t[0].l.tile)) && WithinDensity(t[1..])
  {
    if (t[0].LeafEvent? ==> WithinCapacity(t[0].l.tile)) && WithinDensity(t[1..]) {
      forall i | 0 <= i < |t| && t[i].LeafEvent? ensures WithinCapacity(t[i].l.tile) {
        if i > 0 { assert t[i] == t[1..][i - 1]; }
      }
    }
  }

  /** An id listed by the tile of the i-th event appears among the trace's ids. */
  lemma {:induction false} ListedAmongIds(t: seq<Event<(), LeafState>>, agentsOf: Tile -> seq<nat>, i: nat, id: nat)
    requires i < |t| && t[i].LeafEvent? && id in agentsOf(t[i].l.tile)
    ensures id in TileIds(t, agentsOf)
    decreases |t|
  {
    if i > 0 {
      ListedAmongIds(t[1..], agentsOf, i - 1, id);
    }
  }

  /** The source's "two tiles are housing (or workplace) for agent" error: such a trace is rejected. */
  lemma {:induction false} ListedTwiceRejected(t: seq<Event<(), LeafState>>, agentsOf: Tile -> seq<nat>, i: nat, j: nat, id: nat)
    requires i < j < |t| && t[i].LeafEvent? && t[j].LeafEvent?
    requires id in agentsOf(t[i].l.tile) && id in agentsOf(t[j].l.tile)
    ensures !NoDuplicates(TileIds(t, agentsOf))
    decreases |t|
  {
    var head := if t[0].LeafEvent? then agentsOf(t[0].l.tile) else [];
    var rest := TileIds(t[1..], agentsOf);
    assert t[1..][j - 1] == t[j];
    NoDuplicatesJoin(head, rest, {});
    if i == 0 {
      ListedAmongIds(t[1..], agentsOf, j - 1, id);
      assert id in Elems(head);
    } else {
      assert t[1..][i - 1] == t[i];
      ListedTwiceRejected(t[1..], agentsOf, i - 1, j - 1, id);
    }
  }

  /** What the visitor accepts over the whole tree, starting from nothing recorded. */
  predicate TilesConsistent(root: Node<(), LeafState>, maxDepth: nat)
    requires Shaped(root, 0, maxDepth)
  {
    FindsAgents(NothingFound, Trace(root, RootVisitData(maxDepth)))
  }

  /** Visiting the tree with `FindAgentVisitor` succeeds exactly when its tiles are consistent. */
  lemma FindAgentsTree(root: Node<(), LeafState>, maxDepth: nat)
    requires Shaped(root, 0, maxDepth) && WellFormed(root)
    ensures var r := Visit(root, FindAgentVisitor(), NothingFound, RootVisitData(maxDepth));
      && (r.Ok? <==> TilesConsistent(root, maxDepth))
      && (r.Err? ==> r.error == TileError)
  {
    var vd := RootVisitData(maxDepth);
    LeafVisitorFolds<Found, (), LeafState, ConsistencyError>(root, FindStep, NothingFound, vd);
    FindAgentsSpec(NothingFound, Trace(root, vd));
  }

  /** The address is a housing leaf that lists the agent. */
  predicate HousedAt(root: Node<(), LeafState>, a: Address, id: nat)
    requires WellFormed(root)
  {
    LeafAt(root, a.data).Ok? && LeafAt(root, a.data).value.tile.HousingTile?
    && id in LeafAt(root, a.data).value.tile.agents
  }

  /** The address is a workplace leaf that lists the agent. */
  predicate EmployedAt(root: Node<(), LeafState>, a: Address, id: nat)
    requires WellFormed(root)
  {
    LeafAt(root, a.data).Ok? && LeafAt(root, a.data).value.tile.WorkplaceTile?
    && id in LeafAt(root, a.data).value.tile.agents
  }

  /** An agent stored under key agrees with the tiles. */
  predicate AgentConsistent(root: Node<(), LeafState>, key: nat, a: Agent)
    requires WellFormed(root)
  {
    key == a.id && HousedAt(root, a.housing, a.id)
    && (a.workplace.Some? ==> EmployedAt(root, a.workplace.value, a.id))
  }

  /** Every agent of the map agrees with the tiles. */
  predicate AgentsConsistent(root: Node<(), LeafState>, agents: map<nat, Agent>)
    requires WellFormed(root)
  {
    forall k :: k in agents ==> AgentConsistent(root, k, agents[k])
  }

  /** The checks of one round of the agent loop, in the source's order: the first failure, if any. */
  function AgentMismatch(root: Node<(), LeafState>, key: nat, a: Agent): Option<ConsistencyError>
    requires WellFormed(root)
  {
    if key != a.id then Some(AgentError)
    else match LeafAt(root, a.housing.data)
      case Err(_) => Some(TileError)
      case Ok(h) =>
        if !(h.tile.HousingTile? && a.id in h.tile.agents) then Some(AgentError)
        else match a.workplace
          case None => None
          case Some(w) =>
            match LeafAt(root, w.data)
            case Err(_) => Some(TileError)
            case Ok(l) => if l.tile.WorkplaceTile? && a.id in l.tile.agents then None else Some(AgentError)
  }

  /**
   * An agent passes its round exactly when it agrees with the tiles; a missing
   * leaf is a TileError, and a key other than the id or a tile that is of the
   * wrong kind or does not list the agent is an AgentError.
   */
  lemma AgentMismatchSpec(root: Node<(), LeafState>, key: nat, a: Agent)
    requires WellFormed(root)
    ensures AgentMismatch(root, key, a).None? <==> AgentConsistent(root, key, a)
    ensures AgentMismatch(root, key, a) == Some(TileError) <==>
      key == a.id && (LeafAt(root, a.housing.data).Err? ||
        (HousedAt(root, a.housing, a.id) && a.workplace.Some? && LeafAt(root, a.workplace.value.data).Err?))
  {
  }

  /** The loop over the agent map, which stops at the first agent that fails. */
  method CheckAgents(root: Node<(), LeafState>, agents: map<nat, Agent>) returns (r: Result<(), ConsistencyError>)
    requires WellFormed(root)
    ensures r.Ok? <==> AgentsConsistent(root, agents)
    ensures r.Err? ==> exists k :: k in agents && AgentMismatch(root, k, agents[k]) == Some(r.error)
  {
    var remaining := agents.Keys;
    while remaining != {}
      invariant remaining <= agents.Keys
      invariant forall k :: k in agents && k !in remaining ==> AgentConsistent(root, k, agents[k])
      decreases remaining
    {
      var k :| k in remaining;
      var m := AgentMismatch(root, k, agents[k]);
      AgentMismatchSpec(root, k, agents[k]);
      if m.Some? {
        return Err(m.value);
      }
      remaining := remaining - {k};
    }
    return Ok(());
  }

  /**
   * `agent_housing_workplace_consistency_check`: the tile visit first, whose
   * failure is returned as it is, then the agent loop.
   */
  method AgentHousingWorkplaceConsistencyCheck(qtree: Tree, agents: map<nat, Agent>) returns (r: Result<(), ConsistencyError>)
    requires qtree.Valid()
    ensures r.Ok? <==> TilesConsistent(qtree.root, qtree.maxDepth) && AgentsConsistent(qtree.root, agents)
    ensures !TilesConsistent(qtree.root, qtree.maxDepth) ==> r == Err(TileError)
    ensures TilesConsistent(qtree.root, qtree.maxDepth) && r.Err? ==>
      exists k :: k in agents && AgentMismatch(qtree.root, k, agents[k]) == Some(r.error)
  {
    FindAgentsTree(qtree.root, qtree.maxDepth);
    var found := Visit(qtree.root, FindAgentVisitor(), NothingFound, RootVisitData(qtree.maxDepth));
    if found.Err? {
      return Err(found.error);
    }
    r := CheckAgents(qtree.root, agents);
  }

  /**
   * `consistency_check`: the agent check, then the traffic and parking checks,
   * whose outcomes are given; the first failure is the result.
   */
  method ConsistencyCheck(qtree: Tree, agents: map<nat, Agent>,
                          traffic: Result<(), ConsistencyError>, parking: Result<(), ConsistencyError>)
      returns (r: Result<(), ConsistencyError>)
    requires qtree.Valid()
    ensures r.Ok? <==> TilesConsistent(qtree.root, qtree.maxDepth) && AgentsConsistent(qtree.root, agents)
                       && traffic.Ok? && parking.Ok?
    ensures !TilesConsistent(qtree.root, qtree.maxDepth) ==> r == Err(TileError)
    ensures TilesConsistent(qtree.root, qtree.maxDepth) && AgentsConsistent(qtree.root, agents) ==>
      r == (if traffic.Err? then traffic else parking)
  {
    r := AgentHousingWorkplaceConsistencyCheck(qtree, agents);
    if r.Err? {
      return;
    }
    if traffic.Err? {
      return traffic;
    }
    r := parking;
  }
}
