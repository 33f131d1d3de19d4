/**
 * Routes (engine/route/route.rs): a path of nodes joined by edges, the query it
 * answers, its cost, its bounds and the travel modes at its ends. Joining two
 * routes and moving a tile's references to another address are modelled; the
 * splines built over a route (floating point) are not.
 *
 * The node and edge variants are the ones route.rs and traffic.rs use; their
 * floating-point payloads (positions, times, highway data) are left out.
 */
module Routes {
  import opened Addresses
  import opened Rects
  import opened Railways

  datatype Mode = Walking | Biking | Driving

  datatype Node =
    | MetroStation(station: Station)
    | MetroStop(station: Station, metroLine: nat)
    | RailJunction(junction: nat, address: Address)
    | HighwayJunction(junction: nat, address: Address)
    | HighwayRamp(junction: nat, address: Address)
    | Parking(address: Address)
    | Endpoint(address: Address)

  /** A `ModeSegment`'s end points are the centres of tiles, as reals. */
  datatype Edge =
    | MetroSegment(metroLine: nat, start: Address, stop: Address)
    | MetroEmbark(metroLine: nat, station: Station)
    | MetroDisembark(metroLine: nat, station: Station)
    | Highway(segment: nat)
    | HighwayRampEdge
    | ModeSegment(mode: Mode, distance: real, startPoint: (real, real), stopPoint: (real, real))
    | ModeTransition(from: Mode, to: Mode, address: Address)

  /** The query a route answers; the car configuration is carried along unread. */
  datatype QueryInput<C> = QueryInput(start: Address, end: Address, carConfig: C)

  /** One element of `iter`: an edge with the nodes before and after it. */
  datatype Step = Step(start: Node, end: Node, edge: Edge)

  /** `verify_node_edge_count`: one node more than there are edges. */
  predicate NodeEdgeCount(nodes: seq<Node>, edges: seq<Edge>) {
    |nodes| == |edges| + 1
  }

  /** The steps `iter` yields: consecutive node pairs zipped with the edges. */
  function Steps(nodes: seq<Node>, edges: seq<Edge>): (r: seq<Step>)
    requires NodeEdgeCount(nodes, edges)
    ensures |r| == |edges|
  {
    seq(|edges|, i requires 0 <= i < |edges| => Step(nodes[i], nodes[i + 1], edges[i]))
  }

  /**
   * The steps form a chain: the first starts at the first node, each ends where
   * the next starts, the last ends at the last node, and the edges come in order.
   */
  lemma StepsChain(nodes: seq<Node>, edges: seq<Edge>)
    requires NodeEdgeCount(nodes, edges)
    ensures var s := Steps(nodes, edges);
      && (|s| > 0 ==> s[0].start == nodes[0] && s[|s| - 1].end == nodes[|nodes| - 1])
      && (forall i :: 0 <= i < |s| - 1 ==> s[i].end == s[i + 1].start)
      && (forall i :: 0 <= i < |s| ==> s[i].edge == edges[i])
  {
  }

  /** The centre of a tile as a point, which `to_xy_f64` gives. */
  function Point(a: Address): (real, real) {
    (Center(a).0 as real, Center(a).1 as real)
  }

  /**
   * The edge `join` puts between two routes, with the comparison as written:
   * the first route's end mode against the second route's END mode.
   */
  function ConnectorAsWritten(firstEnd: Address, firstEndMode: Mode, secondStart: Address,
                              secondStartMode: Mode, secondEndMode: Mode): (r: Edge)
    ensures r.ModeSegment? <==> firstEndMode == secondEndMode
    ensures r.ModeSegment? ==> r.mode == firstEndMode
    ensures r.ModeTransition? ==> r.from == firstEndMode && r.to == secondStartMode && r.address == firstEnd
  {
    if firstEndMode == secondEndMode then ModeSegment(firstEndMode, 0.0, Point(firstEnd), Point(secondStart))
    else ModeTransition(firstEndMode, secondStartMode, firstEnd)
  }

  /**
   * As written, a walk that ends at a route starting on foot and ending in a car
   * gets a transition from walking to walking, and a walk that ends at a route
   * starting in a car and ending on foot gets a walking segment into the car.
   */
  lemma ConnectorAsWrittenMismatch(a: Address)
    ensures ConnectorAsWritten(a, Walking, a, Walking, Driving) == ModeTransition(Walking, Walking, a)
    ensures ConnectorAsWritten(a, Walking, a, Driving, Walking).ModeSegment?
  {
  }

  /**
   * The edge between two routes: a zero-length segment in the shared mode when
   * the first route ends in the mode the second starts in, and otherwise a
   * transition from the one mode to the other at the first route's end.
   */
  function Connector(firstEnd: Address, firstEndMode: Mode, secondStart: Address, secondStartMode: Mode): (r: Edge)
    ensures r.ModeSegment? || r.ModeTransition?
    ensures r.ModeSegment? <==> firstEndMode == secondStartMode
    ensures r.ModeSegment? ==>
      (&& r.mode == firstEndMode && r.distance == 0.0
       && r.startPoint == Point(firstEnd) && r.stopPoint == Point(secondStart))
    ensures r.ModeTransition? ==>
      (&& r.from == firstEndMode && r.to == secondStartMode
       && r.from != r.to && r.address == firstEnd)
  {
    if firstEndMode == secondStartMode then ModeSegment(firstEndMode, 0.0, Point(firstEnd), Point(secondStart))
    else ModeTransition(firstEndMode, secondStartMode, firstEnd)
  }

  /**
   * The steps of a joined route: the first route's steps, one step over the
   * connector from the first route's last node to the second's first node, then
   * the second route's steps.
   */
  lemma JoinSteps(n1: seq<Node>, e1: seq<Edge>, c: Edge, n2: seq<Node>, e2: seq<Edge>)
    requires NodeEdgeCount(n1, e1) && NodeEdgeCount(n2, e2)
    ensures NodeEdgeCount(n1 + n2, e1 + [c] + e2)
    ensures Steps(n1 + n2, e1 + [c] + e2) == Steps(n1, e1) + [Step(n1[|n1| - 1], n2[0], c)] + Steps(n2, e2)
  {
    var s := Steps(n1 + n2, e1 + [c] + e2);
    var t := Steps(n1, e1) + [Step(n1[|n1| - 1], n2[0], c)] + Steps(n2, e2);
    assert |s| == |t|;
    forall i | 0 <= i < |s|
      ensures s[i] == t[i]
    {
      if i < |e1| {
      } else if i == |e1| {
      } else {
        var k := i - |e1| - 1;
        assert (n1 + n2)[i] == n2[k] && (n1 + n2)[i + 1] == n2[k + 1];
        assert (e1 + [c] + e2)[i] == e2[k];
      }
    }
  }

  /** An address moves when it is the tile being replaced. */
  function PatchAddress(a: Address, from: Address, to: Address): Address {
    if a == from then to else a
  }

  /** `patch_tile` on one node: only endpoints and parking at the old tile move. */
  function PatchNode(n: Node, from: Address, to: Address): Node {
    match n
    case Endpoint(a) => Endpoint(PatchAddress(a, from, to))
    case Parking(a) => Parking(PatchAddress(a, from, to))
    case _ => n
  }

  /** `patch_tile` on one edge: mode transitions and the stations of boarding and alighting edges move. */
  function PatchEdge(e: Edge, from: Address, to: Address): Edge {
    match e
    case ModeTransition(f, t, a) => ModeTransition(f, t, PatchAddress(a, from, to))
    case MetroEmbark(l, s) => MetroEmbark(l, s.(address := PatchAddress(s.address, from, to)))
    case MetroDisembark(l, s) => MetroDisembark(l, s.(address := PatchAddress(s.address, from, to)))
    case _ => e
  }

  function PatchQuery<C>(q: QueryInput<C>, from: Address, to: Address): QueryInput<C> {
    q.(start := PatchAddress(q.start, from, to), end := PatchAddress(q.end, from, to))
  }

  function PatchNodes(ns: seq<Node>, from: Address, to: Address): (r: seq<Node>)
    ensures |r| == |ns|
  {
    seq(|ns|, i requires 0 <= i < |ns| => PatchNode(ns[i], from, to))
  }

  function PatchEdges(es: seq<Edge>, from: Address, to: Address): (r: seq<Edge>)
    ensures |r| == |es|
  {
    seq(|es|, i requires 0 <= i < |es| => PatchEdge(es[i], from, to))
  }

  /** The addresses `patch_tile` rewrites. */
  predicate PatchableNode(n: Node) {
    n.Endpoint? || n.Parking?
  }

  predicate PatchableEdge(e: Edge) {
    e.ModeTransition? || e.MetroEmbark? || e.MetroDisembark?
  }

  function EdgeAddress(e: Edge): Address
    requires PatchableEdge(e)
  {
    if e.ModeTransition? then e.address else e.station.address
  }

  /**
   * A patched node is the node itself, except that an endpoint or a parking
   * node at the old tile now has the new tile; nothing else about it changes.
   */
  lemma PatchNodeSpec(n: Node, from: Address, to: Address)
    ensures PatchableNode(n) && n.address == from ==> PatchNode(n, from, to) == n.(address := to)
    ensures !(PatchableNode(n) && n.address == from) ==> PatchNode(n, from, to) == n
  {
  }

  /**
   * A patched edge is the edge itself, except that a mode transition, boarding
   * or alighting at the old tile now refers to the new tile with the same
   * modes, line and station name.
   */
  lemma PatchEdgeSpec(e: Edge, from: Address, to: Address)
    ensures PatchableEdge(e) && EdgeAddress(e) == from ==>
      && PatchableEdge(PatchEdge(e, from, to)) && EdgeAddress(PatchEdge(e, from, to)) == to
      && (e.ModeTransition? ==> PatchEdge(e, from, to) == e.(address := to))
      && (!e.ModeTransition? ==> PatchEdge(e, from, to) == e.(station := e.station.(address := to)))
    ensures !(PatchableEdge(e) && EdgeAddress(e) == from) ==> PatchEdge(e, from, to) == e
  {
  }

  /** After patching to a different tile, nothing patchable refers to the old tile. */
  lemma PatchRemovesOldTile<C>(ns: seq<Node>, es: seq<Edge>, q: QueryInput<C>, from: Address, to: Address)
    requires from != to
    ensures forall i :: 0 <= i < |ns| && PatchableNode(PatchNodes(ns, from, to)[i]) ==>
      PatchNodes(ns, from, to)[i].address != from
    ensures forall i :: 0 <= i < |es| && PatchableEdge(PatchEdges(es, from, to)[i]) ==>
      EdgeAddress(PatchEdges(es, from, to)[i]) != from
    ensures PatchQuery(q, from, to).start != from && PatchQuery(q, from, to).end != from
  {
  }

  /** Patching twice with the same tiles is patching once. */
  lemma {:induction false} PatchIdempotent<C>(ns: seq<Node>, es: seq<Edge>, q: QueryInput<C>, from: Address, to: Address)
    ensures PatchNodes(PatchNodes(ns, from, to), from, to) == PatchNodes(ns, from, to)
    ensures PatchEdges(PatchEdges(es, from, to), from, to) == PatchEdges(es, from, to)
    ensures PatchQuery(PatchQuery(q, from, to), from, to) == PatchQuery(q, from, to)
  {
    var pn := PatchNodes(ns, from, to);
    forall i | 0 <= i < |ns|
      ensures PatchNode(pn[i], from, to) == pn[i]
    {
      PatchNodeSpec(ns[i], from, to);
      PatchNodeSpec(pn[i], from, to);
    }
    var pe := PatchEdges(es, from, to);
    forall i | 0 <= i < |es|
      ensures PatchEdge(pe[i], from, to) == pe[i]
    {
      PatchEdgeSpec(es[i], from, to);
      PatchEdgeSpec(pe[i], from, to);
    }
  }

  /** `Route`: nodes, edges, the query, the cost, the bounds and the modes at either end. */
  class Route<C> {
    var nodes: seq<Node>
    var edges: seq<Edge>
    var queryInput: QueryInput<C>
    var cost: real
    var bounds: Rect
    var startMode: Mode
    var endMode: Mode

    /** `Route::new`; the bounds the source computes from the nodes' float locations are given. */
    constructor (nodes: seq<Node>, edges: seq<Edge>, cost: real, queryInput: QueryInput<C>,
                 startMode: Mode, endMode: Mode, bounds: Rect)
      ensures this.nodes == nodes && this.edges == edges && this.cost == cost
      ensures this.queryInput == queryInput && this.startMode == startMode && this.endMode == endMode
      ensures this.bounds == bounds
    {
      this.nodes := nodes;
      this.edges := edges;
      this.cost := cost;
      this.queryInput := queryInput;
      this.startMode := startMode;
      this.endMode := endMode;
      this.bounds := bounds;
    }

    /** `start` and `end`: the query's two addresses. */
    function Start(): Address
      reads this
    {
      queryInput.start
    }

    function End(): Address
      reads this
    {
      queryInput.end
    }

    /**
     * `join`: the source asserts that the first route ends where the second
     * starts. The new route has both routes' nodes, both routes' edges with the
     * connecting edge between them, the first route's start, start mode and car
     * configuration, the second's end and end mode, the summed cost and the
     * combined bounds. Both routes are consumed, so neither is changed here.
     */
    static method Join(first: Route<C>, second: Route<C>) returns (r: Route<C>)
      requires first.End() == second.Start()
      ensures fresh(r)
      ensures r.nodes == first.nodes + second.nodes
      ensures r.edges == first.edges + [Connector(first.End(), first.endMode, second.Start(), second.startMode)] + second.edges
      ensures r.queryInput == QueryInput(first.Start(), second.End(), first.queryInput.carConfig)
      ensures r.cost == first.cost + second.cost && r.bounds == first.bounds.And(second.bounds)
      ensures r.startMode == first.startMode && r.endMode == second.endMode
      ensures NodeEdgeCount(first.nodes, first.edges) && NodeEdgeCount(second.nodes, second.edges) ==>
        NodeEdgeCount(r.nodes, r.edges)
    {
      var connector := if first.endMode == second.startMode
        then ModeSegment(first.endMode, 0.0, Point(first.End()), Point(second.Start()))
        else ModeTransition(first.endMode, second.startMode, first.End());
      var edges := first.edges + [connector];
      var nodes := first.nodes + second.nodes;
      edges := edges + second.edges;
      r := new Route(nodes, edges, first.cost + second.cost,
                     QueryInput(first.queryInput.start, second.queryInput.end, first.queryInput.carConfig),
                     first.startMode, second.endMode, first.bounds.And(second.bounds));
    }

    /**
     * `patch_tile`: every reference to the tile `from` in the endpoint and
     * parking nodes, the mode transitions, the stations of boarding and alighting
     * edges and the query moves to `to`. The source always returns Ok.
     */
    method PatchTile(from: Address, to: Address)
      modifies this
      ensures nodes == PatchNodes(old(nodes), from, to) && edges == PatchEdges(old(edges), from, to)
      ensures queryInput == PatchQuery(old(queryInput), from, to)
      ensures cost == old(cost) && bounds == old(bounds) && startMode == old(startMode) && endMode == old(endMode)
    {
      ghost var startNodes := nodes;
      var i := 0;
      while i < |nodes|
        invariant 0 <= i <= |nodes| == |startNodes|
        invariant forall k :: 0 <= k < i ==> nodes[k] == PatchNode(startNodes[k], from, to)
        invariant forall k :: i <= k < |nodes| ==> nodes[k] == startNodes[k]
        invariant edges == old(edges) && queryInput == old(queryInput)
        invariant cost == old(cost) && bounds == old(bounds) && startMode == old(startMode) && endMode == old(endMode)
        decreases |nodes| - i
      {
        match nodes[i] {
          case Endpoint(a) =>
            if a == from {
              nodes := nodes[i := Endpoint(to)];
            }
          case Parking(a) =>
            if a == from {
              nodes := nodes[i := Parking(to)];
            }
          case _ =>
        }
        i := i + 1;
      }
      assert nodes == PatchNodes(startNodes, from, to);
      ghost var startEdges := edges;
      var j := 0;
      while j < |edges|
        invariant 0 <= j <= |edges| == |startEdges|
        invariant forall k :: 0 <= k < j ==> edges[k] == PatchEdge(startEdges[k], from, to)
        invariant forall k :: j <= k < |edges| ==> edges[k] == startEdges[k]
        invariant nodes == PatchNodes(old(nodes), from, to) && queryInput == old(queryInput)
        invariant cost == old(cost) && bounds == old(bounds) && startMode == old(startMode) && endMode == old(endMode)
        decreases |edges| - j
      {
        match edges[j] {
          case ModeTransition(f, t, a) =>
            if a == from {
              edges := edges[j := ModeTransition(f, t, to)];
            }
          case MetroEmbark(l, s) =>
            if s.address == from {
              edges := edges[j := MetroEmbark(l, s.(address := to))];
            }
          case MetroDisembark(l, s) =>
            if s.address == from {
              edges := edges[j := MetroDisembark(l, s.(address := to))];
            }
          case _ =>
        }
        j := j + 1;
      }
      assert edges == PatchEdges(startEdges, from, to);
      if queryInput.start == from {
        queryInput := queryInput.(start := to);
      }
      if queryInput.end == from {
        queryInput := queryInput.(end := to);
      }
    }
  }
}
