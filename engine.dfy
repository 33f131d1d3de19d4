/**
 * The simulation engine (engine/engine.rs): agent registration against the
 * housing and workplace tiles, the initial triggers, and the time-step rule that
 * decides how far each update advances the trigger queue.
 */
module Engines {
  import opened Wrappers
  import opened Quadrants
  import opened Addresses
  import opened Quadtrees
  import opened States
  import opened Triggers
  import opened AgentDatas
  import opened Agents
  import opened Consistency

  /** 2^64: agent ids and times are u64 values. */
  const U64: nat := 0x1_0000_0000_0000_0000

  /**
   * The rank of a trigger in the derived order of the `Trigger` enum: by
   * variant, then by the variant's u64 payload (an agent id, or nothing).
   */
  function TriggerRank(variant: nat, payload: nat): nat
    requires payload < U64
  {
    variant * U64 + payload
  }

  /** Ranks compare as the (variant, payload) pairs they stand for. */
  lemma TriggerRankOrder(v1: nat, p1: nat, v2: nat, p2: nat)
    requires p1 < U64 && p2 < U64
    ensures TriggerRank(v1, p1) < TriggerRank(v2, p2) <==> v1 < v2 || (v1 == v2 && p1 < p2)
    ensures TriggerRank(v1, p1) == TriggerRank(v2, p2) <==> v1 == v2 && p1 == p2
  {
    if v1 < v2 {
      assert v1 * U64 + p1 < (v1 + 1) * U64 <= v2 * U64;
    } else if v2 < v1 {
      assert v2 * U64 + p2 < (v2 + 1) * U64 <= v1 * U64;
    }
  }

  /** `Tick`, which `init_trigger_queue` pushes but the `Trigger` enum shown does not list: ranked after all of it. */
  const TickTrigger: nat := TriggerRank(13, 0)

  /** `AgentPlanCommuteToWork { agent }`, the enum's fifth variant. */
  function CommuteToWork(agent: nat): nat
    requires agent < U64
  {
    TriggerRank(4, agent)
  }

  /** `DoublingTrigger`, the enum's thirteenth variant. */
  const DoublingTrigger: nat := TriggerRank(12, 0)

  /** `Time::new::<hour>(8)` in seconds. */
  const EightAm: nat := 8 * 3600

  /**
   * `(x as u64)` for a float x: Rust's cast truncates toward zero and saturates,
   * so anything below 1 gives 0 and anything past the range gives u64::MAX.
   */
  function SaturatingCast(x: real): (r: nat)
    ensures r < U64
    ensures 0.0 <= x < U64 as real ==> r as real <= x < r as real + 1.0
    ensures x < 1.0 ==> r == 0
    ensures x >= U64 as real ==> r == U64 - 1
  {
    if x <= 0.0 then 0 else if x >= U64 as real then U64 - 1 else x.Floor
  }

  /** The playback step `(playback_rate as f64 * elapsed) as u64`, with the product taken exactly. */
  function RateStep(playbackRate: nat, elapsed: real): nat {
    SaturatingCast(playbackRate as real * elapsed)
  }

  /** The catch-up step towards a skip target: how far the target lies ahead, or 0. */
  function TargetStep(targetTime: nat, currentTime: nat): (r: nat)
    ensures r == 0 <==> targetTime <= currentTime
    ensures r > 0 ==> currentTime + r == targetTime
  {
    if targetTime > currentTime then targetTime - currentTime else 0
  }

  /**
   * The time step of `update`: when paused, only the catch-up step; otherwise
   * the largest of the playback step, the catch-up step and one.
   */
  function TimeStep(paused: bool, rateStep: nat, targetStep: nat): (r: nat)
    ensures paused ==> r == targetStep
    ensures !paused ==> r >= 1 && r >= rateStep && r >= targetStep
    ensures !paused ==> r == rateStep || r == targetStep || r == 1
    ensures r == 0 <==> paused && targetStep == 0
  {
    if paused then targetStep
    else
      var m := if rateStep >= targetStep then rateStep else targetStep;
      if m >= 1 then m else 1
  }

  /** The commute triggers pushed for the agents, in the given order. */
  function CommuteEntries(order: seq<nat>): seq<Entry>
    requires forall i :: 0 <= i < |order| ==> order[i] < U64
  {
    if order == [] then []
    else CommuteEntries(order[..|order| - 1]) + [Entry(CommuteToWork(order[|order| - 1]), EightAm)]
  }

  /** One more id pushed: the order stays duplicate-free, covers one more id and yields one more entry. */
  lemma CommuteStep(order: seq<nat>, done: set<nat>, k: nat)
    requires NoDuplicates(order) && |order| == |done| && (forall x :: x in order <==> x in done)
    requires (forall i :: 0 <= i < |order| ==> order[i] < U64) && k < U64 && k !in done
    ensures NoDuplicates(order + [k]) && |order + [k]| == |done + {k}|
    ensures forall x :: x in order + [k] <==> x in done + {k}
    ensures forall i :: 0 <= i < |order + [k]| ==> (order + [k])[i] < U64
    ensures CommuteEntries(order + [k]) == CommuteEntries(order) + [Entry(CommuteToWork(k), EightAm)]
  {
    assert (order + [k])[..|order|] == order;
    NoDuplicatesJoin(order, [k], {});
  }

  lemma AppendAssoc<T>(a: seq<T>, b: seq<T>, c: seq<T>)
    ensures (a + b) + c == a + (b + c)
  {
  }

  /**
   * The loop of `init_trigger_queue`: one `AgentPlanCommuteToWork` at 8 am per
   * agent id, in some order of the ids, which `order` records.
   */
  method PushCommutes(q: TriggerQueue, ids: set<nat>) returns (ghost order: seq<nat>)
    requires q.Valid() && q.currentTime <= EightAm
    requires forall k :: k in ids ==> k < U64
    modifies q
    ensures q.Valid() && q.currentTime == old(q.currentTime)
    ensures NoDuplicates(order) && |order| == |ids|
    ensures forall k :: k in order <==> k in ids
    ensures forall i :: 0 <= i < |order| ==> order[i] < U64
    ensures q.entries == old(q.entries) + CommuteEntries(order)
  {
    order := [];
    ghost var start := q.entries;
    ghost var done: set<nat> := {};
    var remaining := ids;
    while remaining != {}
      invariant forall x :: x in remaining ==> x !in done
      invariant forall x :: x in ids <==> x in remaining || x in done
      invariant q.Valid() && q.currentTime == old(q.currentTime)
      invariant NoDuplicates(order) && |order| == |done|
      invariant forall k :: k in order <==> k in done
      invariant forall i :: 0 <= i < |order| ==> order[i] < U64
      invariant q.entries == start + CommuteEntries(order)
      decreases remaining
    {
      var k :| k in remaining;
      q.Push(CommuteToWork(k), EightAm);
      CommuteStep(order, done, k);
      AppendAssoc(start, CommuteEntries(order), [Entry(CommuteToWork(k), EightAm)]);
      order := order + [k];
      remaining := remaining - {k};
      done := done + {k};
    }
    assert done == ids;
  }

  /** A housing leaf at the address with room for one more agent. */
  predicate HousingVacancy(root: Node<(), LeafState>, a: Address)
    requires WellFormed(root)
  {
    LeafAt(root, a.data).Ok? && IsVacantHousing(LeafAt(root, a.data).value)
  }

  /** A workplace leaf at the address with room for one more agent. */
  predicate WorkplaceVacancy(root: Node<(), LeafState>, a: Address)
    requires WellFormed(root)
  {
    LeafAt(root, a.data).Ok? && IsVacantWorkplace(LeafAt(root, a.data).value)
  }

  /** The leaf with the agent pushed onto its tile's list. */
  function AddId(l: LeafState, id: nat): LeafState {
    match l.tile
    case HousingTile(density, agents) => l.(tile := HousingTile(density, agents + [id]))
    case WorkplaceTile(density, agents) => l.(tile := WorkplaceTile(density, agents + [id]))
    case _ => l
  }

  /** The tree with the agent pushed onto the tile at the path. */
  function Admit(root: Node<(), LeafState>, path: seq<Quadrant>, id: nat): (r: Node<(), LeafState>)
    requires WellFormed(root) && LeafAt(root, path).Ok?
    ensures WellFormed(r)
  {
    ReplaceAt(root, path, Leaf(AddId(LeafAt(root, path).value, id), |path|))
  }

  /** Admitting an agent at one leaf changes that leaf only. */
  lemma AdmitReads(root: Node<(), LeafState>, path: seq<Quadrant>, id: nat, q: seq<Quadrant>)
    requires WellFormed(root) && LeafAt(root, path).Ok? && LeafAt(root, q).Ok?
    ensures LeafAt(Admit(root, path, id), q) ==
      Ok(if q == path then AddId(LeafAt(root, q).value, id) else LeafAt(root, q).value)
  {
    if q != path {
      LeafPathsApart(root, path, q);
      ReplaceAtFrame(root, path, Leaf(AddId(LeafAt(root, path).value, id), |path|), q);
    }
  }

  /** What `add_agent` demands of the tiles. */
  predicate CanRegister(root: Node<(), LeafState>, housing: Address, workplace: Option<Address>)
    requires WellFormed(root)
  {
    HousingVacancy(root, housing) && (workplace.Some? ==> WorkplaceVacancy(root, workplace.value))
  }

  /** The tree after `add_agent`: the id pushed onto the housing tile, then onto the workplace tile. */
  function Registered(root: Node<(), LeafState>, housing: Address, workplace: Option<Address>, id: nat): (r: Node<(), LeafState>)
    requires WellFormed(root) && CanRegister(root, housing, workplace)
    ensures WellFormed(r)
  {
    var r1 := Admit(root, housing.data, id);
    match workplace
    case None => r1
    case Some(w) =>
      AdmitReads(root, housing.data, id, w.data);
      Admit(r1, w.data, id)
  }

  /** The tile updates of `add_agent`: the id pushed onto the housing tile, then onto the workplace tile. */
  method Register(qtree: Quadtree<(), LeafState>, housing: Address, workplace: Option<Address>, id: nat)
    requires qtree.Valid() && CanRegister(qtree.root, housing, workplace)
    modifies qtree
    ensures qtree.Valid() && qtree.root == Registered(old(qtree.root), housing, workplace, id)
  {
    ghost var root := qtree.root;
    var h := qtree.GetLeaf(housing.data);
    var written := qtree.SetLeaf(housing.data, AddId(h.value, id));
    if workplace.Some? {
      AdmitReads(root, housing.data, id, workplace.value.data);
      var w := qtree.GetLeaf(workplace.value.data);
      written := qtree.SetLeaf(workplace.value.data, AddId(w.value, id));
    }
  }

  /**
   * Registration changes exactly the housing and workplace leaves, each of
   * which gains the id at the end of its list; every other leaf is unchanged.
   */
  lemma RegisteredReads(root: Node<(), LeafState>, housing: Address, workplace: Option<Address>, id: nat, q: seq<Quadrant>)
    requires WellFormed(root) && CanRegister(root, housing, workplace) && LeafAt(root, q).Ok?
    ensures LeafAt(Registered(root, housing, workplace, id), q) ==
      Ok(if q == housing.data || (workplace.Some? && q == workplace.value.data)
         then AddId(LeafAt(root, q).value, id) else LeafAt(root, q).value)
  {
    AdmitReads(root, housing.data, id, q);
    if workplace.Some? {
      var w := workplace.value.data;
      AdmitReads(root, housing.data, id, w);
      AdmitReads(Admit(root, housing.data, id), w, id, q);
    }
  }

  /**
   * Registering a fresh id keeps every agent consistent with the tiles, and the
   * new agent is listed by its housing and workplace tiles, which stay within
   * their density.
   */
  lemma RegisteredKeepsConsistent(root: Node<(), LeafState>, agents: map<nat, Agent>, id: nat, data: AgentData,
                                  housing: Address, workplace: Option<Address>)
    requires WellFormed(root) && AgentsConsistent(root, agents) && id !in agents
    requires CanRegister(root, housing, workplace)
    ensures var r := Registered(root, housing, workplace, id);
      && AgentsConsistent(r, agents[id := NewAgent(id, data, housing, workplace)])
      && LeafAt(r, housing.data).Ok? && WithinCapacity(LeafAt(r, housing.data).value.tile)
      && (workplace.Some? ==>
            LeafAt(r, workplace.value.data).Ok? && WithinCapacity(LeafAt(r, workplace.value.data).value.tile))
  {
    var r := Registered(root, housing, workplace, id);
    var agents' := agents[id := NewAgent(id, data, housing, workplace)];
    RegisteredReads(root, housing, workplace, id, housing.data);
    if workplace.Some? {
      RegisteredReads(root, housing, workplace, id, workplace.value.data);
    }
    forall k | k in agents'
      ensures AgentConsistent(r, k, agents'[k])
    {
      if k != id {
        var a := agents[k];
        RegisteredReads(root, housing, workplace, id, a.housing.data);
        if a.workplace.Some? {
          RegisteredReads(root, housing, workplace, id, a.workplace.value.data);
        }
      }
    }
  }

  /**
   * `Engine`, with the engine clock stored in its trigger queue (the two are
   * always set together). Routes, the route graph and the trigger bodies are
   * not modelled.
   */
  class Engine {
    const state: State
    const triggerQueue: TriggerQueue
    var agents: map<nat, Agent>
    var agentCounter: nat
    var playbackRate: nat
    var paused: bool
    var targetTime: nat

    /** Ids stay below the counter, and every agent agrees with the tiles. */
    ghost predicate Valid()
      reads this, state, state.qtree, triggerQueue
    {
      && state.Valid() && triggerQueue.Valid()
      && agentCounter < U64
      && (forall k :: k in agents ==> k < agentCounter)
      && AgentsConsistent(state.qtree.root, agents)
    }

    /** `Engine::new`: a fresh state, no agents, paused at 300 simulated seconds per second. */
    constructor (maxDepth: nat)
      requires maxDepth < 64
      ensures Valid() && fresh(state) && fresh(state.qtree) && fresh(triggerQueue)
      ensures state.qtree.root == Leaf(DefaultLeaf, 0) && state.qtree.maxDepth == maxDepth
      ensures agents == map[] && agentCounter == 0
      ensures triggerQueue.entries == [] && triggerQueue.currentTime == 0
      ensures playbackRate == 300 && paused && targetTime == 0
    {
      state := new State(maxDepth);
      triggerQueue := new TriggerQueue();
      agents := map[];
      agentCounter := 0;
      playbackRate := 300;
      paused := true;
      targetTime := 0;
    }

    /**
     * `add_agent`: takes the counter as the id, pushes it onto the housing tile
     * and the workplace tile, and stores the agent under it. The source panics
     * unless both tiles have room, and when the counter overflows.
     */
    method AddAgent(data: AgentData, housing: Address, workplace: Option<Address>) returns (id: nat)
      requires Valid() && agentCounter + 1 < U64
      requires CanRegister(state.qtree.root, housing, workplace)
      modifies this, state.qtree
      ensures Valid()
      ensures id == old(agentCounter) && agentCounter == id + 1 && id !in old(agents)
      ensures agents == old(agents)[id := NewAgent(id, data, housing, workplace)]
      ensures state.qtree.root == Registered(old(state.qtree.root), housing, workplace, id)
      ensures playbackRate == old(playbackRate) && paused == old(paused) && targetTime == old(targetTime)
    {
      ghost var root := state.qtree.root;
      id := agentCounter;
      agentCounter := agentCounter + 1;
      Register(state.qtree, housing, workplace, id);
      RegisteredKeepsConsistent(root, agents, id, data, housing, workplace);
      agents := agents[id := NewAgent(id, data, housing, workplace)];
    }

    /**
     * `init_trigger_queue`: on a fresh state (clock at 0) pushes a `Tick` at 0 and,
     * for every agent in the map's iteration order, `AgentPlanCommuteToWork` at
     * 8 am; otherwise does nothing. `order` is that iteration order.
     */
    method InitTriggerQueue() returns (ghost order: seq<nat>)
      requires Valid()
      modifies triggerQueue
      ensures Valid() && triggerQueue.currentTime == old(triggerQueue.currentTime)
      ensures old(triggerQueue.currentTime) != 0 ==> triggerQueue.entries == old(triggerQueue.entries)
      ensures old(triggerQueue.currentTime) == 0 ==>
        && NoDuplicates(order) && |order| == |agents|
        && (forall k :: k in order <==> k in agents)
        && (forall i :: 0 <= i < |order| ==> order[i] < U64)
        && triggerQueue.entries == old(triggerQueue.entries) + [Entry(TickTrigger, 0)] + CommuteEntries(order)
    {
      order := [];
      if triggerQueue.currentTime == 0 {
        triggerQueue.Push(TickTrigger, 0);
        order := PushCommutes(triggerQueue, agents.Keys);
      }
    }

    /**
     * `update`: advances the queue by the time step when it is positive, with
     * the wall-clock budget as a number of loop rounds and the playback step
     * computed from `elapsed` as exact reals.
     */
    method Update(elapsed: real, budget: nat, schedule: Schedule, fails: Failure)
        returns (step: nat, executed: seq<Entry>, finished: bool, failed: bool)
      requires Valid()
      modifies triggerQueue
      ensures Valid()
      ensures step == TimeStep(paused, RateStep(playbackRate, elapsed), TargetStep(targetTime, old(triggerQueue.currentTime)))
      ensures step == 0 ==> triggerQueue.entries == old(triggerQueue.entries)
                            && triggerQueue.currentTime == old(triggerQueue.currentTime) && executed == []
      ensures old(triggerQueue.currentTime) <= triggerQueue.currentTime <= old(triggerQueue.currentTime) + step
      ensures forall e :: e in executed ==>
        old(triggerQueue.currentTime) <= e.time <= old(triggerQueue.currentTime) + step
      ensures multiset(triggerQueue.entries) + multiset(executed) ==
        multiset(old(triggerQueue.entries)) + multiset(AllSpawned(executed, schedule))
      ensures step > 0 && finished ==>
        triggerQueue.currentTime == old(triggerQueue.currentTime) + step
        && forall e :: e in triggerQueue.entries ==> e.time > triggerQueue.currentTime
      ensures failed <==> executed != [] && executed[|executed| - 1] in fails
      ensures forall k :: 0 <= k < |executed| - 1 ==> executed[k] !in fails
      ensures step > 0 && !finished && !failed ==> |executed| == budget
    {
      var rateStep := RateStep(playbackRate, elapsed);
      var targetStep := TargetStep(targetTime, triggerQueue.currentTime);
      step := TimeStep(paused, rateStep, targetStep);
      if step > 0 {
        assert state.Valid() && AgentsConsistent(state.qtree.root, agents);
        executed, finished, failed := triggerQueue.AdvanceTriggerQueue(step, budget, schedule, fails);
        assert state.Valid() && AgentsConsistent(state.qtree.root, agents);
      } else {
        executed, finished, failed := [], false, false;
      }
    }
  }

  /**
   * The engine's `doubling_trigger` test: a doubling trigger pushed at time 1,
   * the engine unpaused at one simulated second per second, then six updates of
   * one second each; the queue length after each is returned.
   */
  method DoublingExample() returns (lengths: seq<nat>)
    ensures lengths == [2, 4, 8, 16, 32, 64]
  {
    var engine := new Engine(3);
    engine.triggerQueue.Push(DoublingTrigger, 1);
    engine.playbackRate := 1;
    engine.paused := false;
    var n1 := DoublingUpdate(engine);
    var n2 := DoublingUpdate(engine);
    var n3 := DoublingUpdate(engine);
    var n4 := DoublingUpdate(engine);
    var n5 := DoublingUpdate(engine);
    var n6 := DoublingUpdate(engine);
    lengths := [n1, n2, n3, n4, n5, n6];
  }

  /** One update of one second over a queue of doubling triggers all due in one second. */
  method DoublingUpdate(engine: Engine) returns (n: nat)
    requires engine.Valid() && engine.playbackRate == 1 && !engine.paused
    requires engine.targetTime <= engine.triggerQueue.currentTime
    requires forall e :: e in engine.triggerQueue.entries ==> e == Entry(DoublingTrigger, engine.triggerQueue.currentTime + 1)
    modifies engine.triggerQueue
    ensures engine.Valid() && engine.triggerQueue.currentTime == old(engine.triggerQueue.currentTime) + 1
    ensures forall e :: e in engine.triggerQueue.entries ==> e == Entry(DoublingTrigger, engine.triggerQueue.currentTime + 1)
    ensures n == |engine.triggerQueue.entries| == 2 * old(|engine.triggerQueue.entries|)
  {
    ghost var before := engine.triggerQueue.entries;
    ghost var t := engine.triggerQueue.currentTime;
    var step, executed, finished, failed := engine.Update(1.0, |engine.triggerQueue.entries| + 1, DoublingSchedule, NeverFails);
    assert step == 1;
    DoublingRound(before, engine.triggerQueue.entries, executed, DoublingTrigger, t, finished);
    n := engine.triggerQueue.Len();
  }
}
