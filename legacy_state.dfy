/**
 * The older engine state (engine/state.rs): the same tile tree and agent
 * registration as the engine, metro lines kept by the state itself with a
 * default colour drawn from a fixed palette, and a tile collector that lists
 * only housing and workplaces.
 *
 * The older `LeafState` holds only a tile; it is modelled with the newer leaf
 * type, whose creation time this state never reads.
 */
module LegacyStates {
  import opened Wrappers
  import opened Addresses
  import opened Quadtrees
  import opened States
  import opened AgentDatas
  import opened Agents
  import opened Consistency
  import opened Engines
  import opened Metros

  /** `DEFAULT_COLORS`: red, green, blue, yellow, cyan and magenta. */
  const DefaultColors: seq<Color> := [
    Color(255, 0, 0), Color(0, 255, 0), Color(0, 0, 255),
    Color(255, 255, 0), Color(0, 255, 255), Color(255, 0, 255)]

  /** The colour a line without one gets: the palette entry at its id modulo the palette's length. */
  function DefaultColor(id: nat): (c: Color)
    ensures c in DefaultColors && c == DefaultColors[id % 6]
  {
    DefaultColors[id % |DefaultColors|]
  }

  /** The palette repeats every six lines, and six consecutive lines get six different colours. */
  lemma DefaultColorCycles(a: nat, b: nat)
    ensures DefaultColor(a + 6) == DefaultColor(a)
    ensures DefaultColor(a) == DefaultColor(b) <==> a % 6 == b % 6
  {
    assert (a + 6) % 6 == a % 6;
  }

  /** The colour of a new line: the one given, else the default for its id. */
  function LineColor(color: Option<Color>, id: nat): (c: Color)
    ensures color.Some? ==> c == color.value
    ensures color.None? ==> c == DefaultColors[id % 6]
  {
    match color
    case Some(c) => c
    case None => DefaultColor(id)
  }

  /**
   * The older `metro::MetroLine`, as far as the state sees it: the handle, the
   * colour, the name, the tile size it was built with, and the keys it was given
   * (None leaves the keys `MetroLine::new` sets, which are not part of this model).
   */
  datatype LegacyMetroLine<K> = LegacyMetroLine(id: nat, color: Color, name: string, tileSize: nat, keys: Option<seq<K>>)

  /** The older `CollectTilesVisitor`: the addresses of housing and of workplace tiles. */
  datatype TileLists = TileLists(housing: seq<Address>, workplaces: seq<Address>)

  /** `CollectTilesVisitor::clear` (and `default`). */
  const NoTiles := TileLists([], [])

  /** `visit_leaf`: a housing or workplace tile's address goes onto its list; other tiles are passed over. */
  function ListLeaf(c: TileLists, leaf: LeafState, vd: VisitData): Result<TileLists, Error> {
    match leaf.tile
    case HousingTile(_, _) => Ok(c.(housing := c.housing + [vd.address]))
    case WorkplaceTile(_, _) => Ok(c.(workplaces := c.workplaces + [vd.address]))
    case _ => Ok(c)
  }

  /** The lists after the leaf events of a trace: the matching addresses appended, in order. */
  function ListedFrom(c: TileLists, t: seq<Event<(), LeafState>>): TileLists {
    TileLists(c.housing + AddressesWhere(t, IsHousing), c.workplaces + AddressesWhere(t, IsWorkplace))
  }

  /** Feeding a trace to `visit_leaf` appends exactly the housing and the workplace addresses, in order. */
  lemma {:induction false} ListLeavesSpec(c: TileLists, t: seq<Event<(), LeafState>>)
    ensures ApplyLeaves(ListLeaf, c, t) == Ok(ListedFrom(c, t))
    decreases |t|
  {
    if t == [] {
      assert ListedFrom(c, t) == c;
    } else {
      var c1 := if t[0].LeafEvent? then ListLeaf(c, t[0].l, t[0].vd).value else c;
      ListLeavesSpec(c1, t[1..]);
      AddressesWhereStep(c.housing, t, IsHousing);
      AddressesWhereStep(c.workplaces, t, IsWorkplace);
      assert c.housing + [] == c.housing && c.workplaces + [] == c.workplaces;
    }
  }

  /**
   * Listing over a whole tree: the lists hold, in traversal order, exactly the
   * housing and the workplace leaves: each listed address leads to a leaf of its
   * kind, and every such leaf is listed.
   */
  lemma ListTilesSpec(root: Node<(), LeafState>, maxDepth: nat)
    requires Shaped(root, 0, maxDepth) && WellFormed(root)
    ensures var t := Trace(root, RootVisitData(maxDepth));
      && Visit(root, LeafVisitor(ListLeaf), NoTiles, RootVisitData(maxDepth)) == Ok(ListedFrom(NoTiles, t))
      && (forall a :: a in ListedFrom(NoTiles, t).housing ==> LeafAt(root, a.data).Ok? && IsHousing(LeafAt(root, a.data).value))
      && (forall a :: a in ListedFrom(NoTiles, t).workplaces ==> LeafAt(root, a.data).Ok? && IsWorkplace(LeafAt(root, a.data).value))
      && (forall s :: LeafAt(root, s).Ok? && IsHousing(LeafAt(root, s).value) ==> exists a :: a in ListedFrom(NoTiles, t).housing && a.data == s)
      && (forall s :: LeafAt(root, s).Ok? && IsWorkplace(LeafAt(root, s).value) ==> exists a :: a in ListedFrom(NoTiles, t).workplaces && a.data == s)
  {
    var vd := RootVisitData(maxDepth);
    var t := Trace(root, vd);
    LeafVisitorFolds<TileLists, (), LeafState, Error>(root, ListLeaf, NoTiles, vd);
    ListLeavesSpec(NoTiles, t);
    TraceVisitsEachLeaf(root, root, vd);
    LeavesFound(root, t, IsHousing);
    LeavesFound(root, t, IsWorkplace);
    LeavesListed(root, maxDepth, IsHousing);
    LeavesListed(root, maxDepth, IsWorkplace);
    assert [] + AddressesWhere(t, IsHousing) == AddressesWhere(t, IsHousing);
    assert [] + AddressesWhere(t, IsWorkplace) == AddressesWhere(t, IsWorkplace);
  }

  /** The older `State`: the tile tree, its metro lines, its agents and the tile collector. */
  class LegacyState<K> {
    const qtree: Tree
    const minTileSize: nat
    var metroLines: map<nat, LegacyMetroLine<K>>
    var metroLineCounter: nat
    var agents: map<nat, Agent>
    var agentCounter: nat
    var collectTiles: TileLists

    /** Lines and agents are stored under their own handles, below the counters, and agents agree with the tiles. */
    ghost predicate Valid()
      reads this, qtree
    {
      && qtree.Valid()
      && (forall k :: k in metroLines ==> metroLines[k].id == k && k < metroLineCounter)
      && agentCounter < U64
      && (forall k :: k in agents ==> k < agentCounter)
      && AgentsConsistent(qtree.root, agents)
    }

    /** `State::new`: a single default leaf, no lines, no agents, counters at 0. */
    constructor (maxDepth: nat, minTileSize: nat)
      requires maxDepth < 64
      ensures Valid() && fresh(qtree)
      ensures qtree.maxDepth == maxDepth && qtree.root == Leaf(DefaultLeaf, 0) && this.minTileSize == minTileSize
      ensures metroLines == map[] && metroLineCounter == 0 && agents == map[] && agentCounter == 0
      ensures collectTiles == NoTiles
    {
      qtree := new Quadtree(DefaultLeaf, maxDepth);
      this.minTileSize := minTileSize;
      metroLines := map[];
      metroLineCounter := 0;
      agents := map[];
      agentCounter := 0;
      collectTiles := NoTiles;
    }

    /**
     * `add_metro_line`: takes the counter as the handle, colours the line with
     * the given colour or the palette's, and stores it under the handle.
     */
    method AddMetroLine(name: string, color: Option<Color>, keys: Option<seq<K>>) returns (id: nat)
      requires Valid()
      modifies this
      ensures Valid()
      ensures id == old(metroLineCounter) && metroLineCounter == id + 1 && id !in old(metroLines)
      ensures metroLines == old(metroLines)[id := LegacyMetroLine(id, LineColor(color, id), name, minTileSize, keys)]
      ensures agents == old(agents) && agentCounter == old(agentCounter) && collectTiles == old(collectTiles)
    {
      id := metroLineCounter;
      metroLineCounter := metroLineCounter + 1;
      var c := match color { case Some(c) => c case None => DefaultColors[id % |DefaultColors|] };
      metroLines := metroLines[id := LegacyMetroLine(id, c, name, minTileSize, keys)];
    }

    /**
     * `add_agent`: takes the counter as the id, pushes it onto the housing tile
     * and the workplace tile, and stores the agent under it. The source asserts
     * that both tiles have room and panics when one is missing or of another kind.
     */
    method AddAgent(data: AgentData, housing: Address, workplace: Option<Address>) returns (id: nat)
      requires Valid() && agentCounter + 1 < U64
      requires CanRegister(qtree.root, housing, workplace)
      modifies this, qtree
      ensures Valid()
      ensures id == old(agentCounter) && agentCounter == id + 1 && id !in old(agents)
      ensures agents == old(agents)[id := NewAgent(id, data, housing, workplace)]
      ensures qtree.root == Registered(old(qtree.root), housing, workplace, id)
      ensures metroLines == old(metroLines) && metroLineCounter == old(metroLineCounter)
    {
      ghost var root := qtree.root;
      id := agentCounter;
      agentCounter := agentCounter + 1;
      Register(qtree, housing, workplace, id);
      RegisteredKeepsConsistent(root, agents, id, data, housing, workplace);
      agents := agents[id := NewAgent(id, data, housing, workplace)];
    }

    /** `update_collect_tiles`: clears both lists, then visits the whole tree. */
    method UpdateCollectTiles()
      requires Valid()
      modifies this
      ensures Valid() && metroLines == old(metroLines) && agents == old(agents)
      ensures collectTiles == ListedFrom(NoTiles, Trace(qtree.root, RootVisitData(qtree.maxDepth)))
    {
      collectTiles := NoTiles;
      ListTilesSpec(qtree.root, qtree.maxDepth);
      var visited := Visit(qtree.root, LeafVisitor(ListLeaf), collectTiles, RootVisitData(qtree.maxDepth));
      collectTiles := visited.value;
    }
  }
}
