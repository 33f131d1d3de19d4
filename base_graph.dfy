/**
 * The highway half of `construct_base_graph` (engine/route/base_graph.rs): each
 * highway segment becomes one edge between a start and an end junction node,
 * and segments that meet share their junction node through two maps, one from
 * a segment id to the node at its start (`segment_in_map`) and one to the node
 * at its end (`segment_out_map`).
 */
module BaseGraphs {
  import opened Wrappers
  import opened HighwayValidation

  /** A junction node of the graph, at the key point of the segment end that created it. */
  datatype GraphNode = HighwayJunction(position: (real, real))

  /** A highway edge: the node indices it joins and the segment it stands for. */
  datatype GraphEdge = HighwayEdge(start: nat, end: nat, segment: nat)

  /** The graph so far, with the two junction maps. */
  datatype Build = Build(nodes: seq<GraphNode>, edges: seq<GraphEdge>, inMap: map<nat, nat>, outMap: map<nat, nat>)

  /** The nodes and edges `construct_base_graph` returns. */
  datatype Graph = Graph(nodes: seq<GraphNode>, edges: seq<GraphEdge>)

  /** The panics of the highway half: a segment without key points that needs a node, or a failed validation. */
  datatype BuildError = EmptySegment(id: nat) | InvalidHighways(outcome: Outcome)

  const EmptyBuild := Build([], [], map[], map[])

  /** `find_map` over the ids: the node of the first id that has one. */
  function FindMapped(ids: seq<nat>, m: map<nat, nat>): Option<nat>
    decreases |ids|
  {
    if ids == [] then None
    else if ids[0] in m then Some(m[ids[0]])
    else FindMapped(ids[1..], m)
  }

  /** `find_map` finds nothing exactly when no id has a node, and otherwise the node of the first id that has one. */
  lemma {:induction false} FindMappedSpec(ids: seq<nat>, m: map<nat, nat>)
    ensures FindMapped(ids, m).None? <==> forall k :: 0 <= k < |ids| ==> ids[k] !in m
    ensures FindMapped(ids, m).Some? ==>
      exists k :: 0 <= k < |ids| && ids[k] in m && m[ids[k]] == FindMapped(ids, m).value
        && forall j :: 0 <= j < k ==> ids[j] !in m
    decreases |ids|
  {
    if ids != [] {
      FindMappedSpec(ids[1..], m);
      if ids[0] !in m {
        assert forall k :: 1 <= k < |ids| ==> ids[k] == ids[1..][k - 1];
        if FindMapped(ids[1..], m).Some? {
          var k :| 0 <= k < |ids[1..]| && ids[1..][k] in m && m[ids[1..][k]] == FindMapped(ids[1..], m).value
            && forall j :: 0 <= j < k ==> ids[1..][j] !in m;
          assert ids[k + 1] == ids[1..][k];
          assert forall j :: 0 <= j < k + 1 ==> ids[j] !in m by {
            forall j | 0 <= j < k + 1
              ensures ids[j] !in m
            {
              if j > 0 {
                assert ids[j] == ids[1..][j - 1];
              }
            }
          }
        }
      }
    }
  }

  /** The map after registering the node under every id of the list, one after the other. */
  function PutAll(m: map<nat, nat>, ids: seq<nat>, v: nat): (r: map<nat, nat>)
    ensures forall k :: k in r <==> k in m || k in ids
    ensures forall k :: k in r ==> r[k] == if k in ids then v else m[k]
    decreases |ids|
  {
    if ids == [] then m else PutAll(m[ids[0] := v], ids[1..], v)
  }

  /** The `for` loop that registers a new node under each id. */
  method RegisterAll(m: map<nat, nat>, ids: seq<nat>, v: nat) returns (r: map<nat, nat>)
    ensures r == PutAll(m, ids, v)
  {
    r := m;
    var k := 0;
    while k < |ids|
      invariant 0 <= k <= |ids|
      invariant forall x :: x in r <==> x in m || x in ids[..k]
      invariant forall x :: x in r ==> r[x] == if x in ids[..k] then v else m[x]
      decreases |ids| - k
    {
      assert forall x :: x in ids[..k + 1] <==> x in ids[..k] || x == ids[k] by {
        assert ids[..k + 1] == ids[..k] + [ids[k]];
      }
      r := r[ids[k] := v];
      k := k + 1;
    }
    assert ids[..k] == ids;
  }

  /**
   * The end node of a segment: the start node of a successor, when one has
   * been created; otherwise a new node at the segment's last key point,
   * registered as the start of every successor and as this segment's end.
   */
  function EndNode(b: Build, s: HighwaySegment): Result<(Build, nat), BuildError> {
    match FindMapped(s.succ, b.inMap)
    case Some(n) => Ok((b, n))
    case None =>
      if s.keys == [] then Err(EmptySegment(s.id))
      else
        var n := |b.nodes|;
        Ok((b.(nodes := b.nodes + [HighwayJunction(s.keys[|s.keys| - 1])],
               inMap := PutAll(b.inMap, s.succ, n),
               outMap := b.outMap[s.id := n]), n))
  }

  /**
   * The start node of a segment: the end node of a predecessor, when one has
   * been created; otherwise a new node at the segment's first key point,
   * registered as the end of every predecessor and as this segment's start.
   */
  function StartNode(b: Build, s: HighwaySegment): Result<(Build, nat), BuildError> {
    match FindMapped(s.pred, b.outMap)
    case Some(n) => Ok((b, n))
    case None =>
      if s.keys == [] then Err(EmptySegment(s.id))
      else
        var n := |b.nodes|;
        Ok((b.(nodes := b.nodes + [HighwayJunction(s.keys[0])],
               outMap := PutAll(b.outMap, s.pred, n),
               inMap := b.inMap[s.id := n]), n))
  }

  /** Whether the filter lets a segment through. */
  predicate Accepts(filter: Option<set<nat>>, s: HighwaySegment) {
    filter.None? || s.id in filter.value
  }

  /** One turn of the highway loop: skip a filtered segment, else find or make its end and start nodes and add its edge. */
  function AddSegment(b: Build, s: HighwaySegment, filter: Option<set<nat>>): Result<Build, BuildError> {
    if !Accepts(filter, s) then Ok(b)
    else
      match EndNode(b, s)
      case Err(e) => Err(e)
      case Ok(be) =>
        match StartNode(be.0, s)
        case Err(e) => Err(e)
        case Ok(bs) => Ok(bs.0.(edges := bs.0.edges + [HighwayEdge(bs.1, be.1, s.id)]))
  }

  /** The highway loop over the segments, in order. */
  function BuildAll(segs: seq<HighwaySegment>, filter: Option<set<nat>>): Result<Build, BuildError>
    decreases |segs|
  {
    if segs == [] then Ok(EmptyBuild)
    else
      match BuildAll(segs[..|segs| - 1], filter)
      case Err(e) => Err(e)
      case Ok(b) => AddSegment(b, segs[|segs| - 1], filter)
  }

  /** The highway half: the optional validation of all the segments, then the loop. */
  function HighwayGraph(segs: seq<HighwaySegment>, filter: Option<set<nat>>, validate: bool): Result<Build, BuildError> {
    if validate && Validation(segs) != Passed then Err(InvalidHighways(Validation(segs)))
    else BuildAll(segs, filter)
  }

  /** The segments the filter lets through, in order. */
  function Accepted(segs: seq<HighwaySegment>, filter: Option<set<nat>>): seq<HighwaySegment>
    decreases |segs|
  {
    if segs == [] then []
    else
      Accepted(segs[..|segs| - 1], filter)
        + (if Accepts(filter, segs[|segs| - 1]) then [segs[|segs| - 1]] else [])
  }

  /** Every node index the build refers to, in an edge or in either map, is a node. */
  predicate WellFormed(b: Build) {
    && (forall k :: k in b.inMap ==> b.inMap[k] < |b.nodes|)
    && (forall k :: k in b.outMap ==> b.outMap[k] < |b.nodes|)
    && (forall i :: 0 <= i < |b.edges| ==> b.edges[i].start < |b.nodes| && b.edges[i].end < |b.nodes|)
  }

  /**
   * Finding the end node: an existing successor's start node is reused and
   * changes nothing; otherwise the one new node is at the last key point and
   * becomes the start of every successor and this segment's end. Only an empty
   * key list fails, and only when a node is needed.
   */
  lemma EndNodeSpec(b: Build, s: HighwaySegment)
    requires WellFormed(b)
    ensures FindMapped(s.succ, b.inMap).Some? ==> EndNode(b, s) == Ok((b, FindMapped(s.succ, b.inMap).value))
    ensures EndNode(b, s).Err? <==> FindMapped(s.succ, b.inMap).None? && s.keys == []
    ensures EndNode(b, s).Ok? ==>
      var (b1, n) := EndNode(b, s).value;
      && WellFormed(b1) && n < |b1.nodes| && b1.edges == b.edges && b1.nodes[..|b.nodes|] == b.nodes
      && (FindMapped(s.succ, b.inMap).None? ==>
            && b1.nodes == b.nodes + [HighwayJunction(s.keys[|s.keys| - 1])] && n == |b.nodes|
            && (forall k :: k in s.succ ==> k in b1.inMap && b1.inMap[k] == n)
            && s.id in b1.outMap && b1.outMap[s.id] == n)
  {
    FindMappedSpec(s.succ, b.inMap);
  }

  /**
   * Finding the start node: an existing predecessor's end node is reused and
   * changes nothing; otherwise the one new node is at the first key point and
   * becomes the end of every predecessor and this segment's start.
   */
  lemma StartNodeSpec(b: Build, s: HighwaySegment)
    requires WellFormed(b)
    ensures FindMapped(s.pred, b.outMap).Some? ==> StartNode(b, s) == Ok((b, FindMapped(s.pred, b.outMap).value))
    ensures StartNode(b, s).Err? <==> FindMapped(s.pred, b.outMap).None? && s.keys == []
    ensures StartNode(b, s).Ok? ==>
      var (b1, n) := StartNode(b, s).value;
      && WellFormed(b1) && n < |b1.nodes| && b1.edges == b.edges && b1.nodes[..|b.nodes|] == b.nodes
      && (FindMapped(s.pred, b.outMap).None? ==>
            && b1.nodes == b.nodes + [HighwayJunction(s.keys[0])] && n == |b.nodes|
            && (forall k :: k in s.pred ==> k in b1.outMap && b1.outMap[k] == n)
            && s.id in b1.inMap && b1.inMap[s.id] == n)
  {
    FindMappedSpec(s.pred, b.outMap);
  }

  /**
   * One turn of the loop: a filtered segment changes nothing; an accepted one
   * adds exactly one edge, for itself, from its start node to its end node, keeps
   * the earlier nodes and edges, and adds at most two nodes.
   */
  lemma AddSegmentSpec(b: Build, s: HighwaySegment, filter: Option<set<nat>>)
    requires WellFormed(b)
    ensures !Accepts(filter, s) ==> AddSegment(b, s, filter) == Ok(b)
    ensures AddSegment(b, s, filter).Ok? ==>
      var b1 := AddSegment(b, s, filter).value;
      && WellFormed(b1)
      && |b.nodes| <= |b1.nodes| <= |b.nodes| + 2 && b1.nodes[..|b.nodes|] == b.nodes
      && (Accepts(filter, s) ==>
            && |b1.edges| == |b.edges| + 1 && b1.edges[..|b.edges|] == b.edges
            && b1.edges[|b.edges|].segment == s.id)
    ensures AddSegment(b, s, filter).Err? ==> Accepts(filter, s) && s.keys == []
  {
    if Accepts(filter, s) {
      EndNodeSpec(b, s);
      if EndNode(b, s).Ok? {
        var be := EndNode(b, s).value;
        StartNodeSpec(be.0, s);
        if StartNode(be.0, s).Ok? {
          var bs := StartNode(be.0, s).value;
          assert bs.0.nodes[..|b.nodes|] == b.nodes by {
            assert be.0.nodes[..|b.nodes|] == b.nodes;
            assert bs.0.nodes[..|be.0.nodes|] == be.0.nodes;
          }
        }
      }
    }
  }

  /** The loop's result after one more segment. */
  lemma BuildStep(segs: seq<HighwaySegment>, filter: Option<set<nat>>, i: nat)
    requires i < |segs|
    ensures BuildAll(segs[..i], filter).Err? ==> BuildAll(segs[..i + 1], filter) == BuildAll(segs[..i], filter)
    ensures BuildAll(segs[..i], filter).Ok? ==>
      BuildAll(segs[..i + 1], filter) == AddSegment(BuildAll(segs[..i], filter).value, segs[i], filter)
  {
    assert segs[..i + 1][..i] == segs[..i];
  }

  /** Once the loop has panicked, the remaining segments do not matter. */
  lemma {:induction false} BuildPrefix(segs: seq<HighwaySegment>, filter: Option<set<nat>>, n: nat)
    requires n <= |segs| && BuildAll(segs[..n], filter).Err?
    ensures BuildAll(segs, filter) == BuildAll(segs[..n], filter)
    decreases |segs| - n
  {
    if n < |segs| {
      BuildStep(segs, filter, n);
      BuildPrefix(segs, filter, n + 1);
    } else {
      assert segs[..n] == segs;
    }
  }

  /**
   * Over all the segments: every accepted segment adds exactly one edge, in
   * order, so the edges stand for the accepted segments one for one; every
   * node index is a node; there are at most two nodes per accepted segment; and
   * the loop panics only on an accepted segment with no key points.
   */
  lemma {:induction false} BuildAllSpec(segs: seq<HighwaySegment>, filter: Option<set<nat>>)
    ensures BuildAll(segs, filter).Ok? ==>
      var b := BuildAll(segs, filter).value;
      var acc := Accepted(segs, filter);
      && WellFormed(b)
      && |b.edges| == |acc|
      && (forall i :: 0 <= i < |acc| ==> b.edges[i].segment == acc[i].id)
      && |b.nodes| <= 2 * |acc|
    ensures BuildAll(segs, filter).Err? ==>
      exists i :: 0 <= i < |segs| && Accepts(filter, segs[i]) && segs[i].keys == []
    decreases |segs|
  {
    if segs != [] {
      var init := segs[..|segs| - 1];
      var last := segs[|segs| - 1];
      BuildAllSpec(init, filter);
      if BuildAll(init, filter).Ok? {
        var b := BuildAll(init, filter).value;
        AddSegmentSpec(b, last, filter);
        if BuildAll(segs, filter).Ok? {
          var b1 := BuildAll(segs, filter).value;
          var acc := Accepted(segs, filter);
          assert Accepted(init, filter) == acc[..|Accepted(init, filter)|];
          forall i | 0 <= i < |acc|
            ensures b1.edges[i].segment == acc[i].id
          {
            if i < |b.edges| {
              assert b1.edges[i] == b1.edges[..|b.edges|][i];
            }
          }
        }
      } else {
        var i :| 0 <= i < |init| && Accepts(filter, init[i]) && init[i].keys == [];
        assert segs[i] == init[i];
      }
    }
  }

  /** With every accepted segment holding a key point, the loop never panics. */
  lemma {:induction false} BuildAllSucceeds(segs: seq<HighwaySegment>, filter: Option<set<nat>>)
    requires forall i :: 0 <= i < |segs| && Accepts(filter, segs[i]) ==> segs[i].keys != []
    ensures BuildAll(segs, filter).Ok?
  {
    BuildAllSpec(segs, filter);
  }

  /** A filter that lets nothing through builds the empty graph. */
  lemma {:induction false} FilteredOutAddsNothing(segs: seq<HighwaySegment>, filter: Option<set<nat>>)
    requires forall i :: 0 <= i < |segs| ==> !Accepts(filter, segs[i])
    ensures BuildAll(segs, filter) == Ok(EmptyBuild)
    decreases |segs|
  {
    if segs != [] {
      var init := segs[..|segs| - 1];
      assert forall i :: 0 <= i < |init| ==> init[i] == segs[i];
      FilteredOutAddsNothing(init, filter);
    }
  }

  /** The `unwrap_or_else` that finds or makes the end node. */
  method FindOrMakeEnd(b: Build, s: HighwaySegment) returns (r: Result<(Build, nat), BuildError>)
    ensures r == EndNode(b, s)
  {
    var found := FindMapped(s.succ, b.inMap);
    if found.Some? {
      return Ok((b, found.value));
    }
    if s.keys == [] {
      return Err(EmptySegment(s.id));
    }
    var n := |b.nodes|;
    var inMap := RegisterAll(b.inMap, s.succ, n);
    r := Ok((Build(b.nodes + [HighwayJunction(s.keys[|s.keys| - 1])], b.edges, inMap, b.outMap[s.id := n]), n));
  }

  /** The `unwrap_or_else` that finds or makes the start node. */
  method FindOrMakeStart(b: Build, s: HighwaySegment) returns (r: Result<(Build, nat), BuildError>)
    ensures r == StartNode(b, s)
  {
    var found := FindMapped(s.pred, b.outMap);
    if found.Some? {
      return Ok((b, found.value));
    }
    if s.keys == [] {
      return Err(EmptySegment(s.id));
    }
    var n := |b.nodes|;
    var outMap := RegisterAll(b.outMap, s.pred, n);
    r := Ok((Build(b.nodes + [HighwayJunction(s.keys[0])], b.edges, b.inMap[s.id := n], outMap), n));
  }

  /** `construct_base_graph`'s highway half as it runs: validation, then the loop with its two maps. */
  method ConstructHighwayGraph(segs: seq<HighwaySegment>, filter: Option<set<nat>>, validate: bool)
    returns (r: Result<Graph, BuildError>)
    ensures r == match HighwayGraph(segs, filter, validate)
                 case Ok(b) => Ok(Graph(b.nodes, b.edges))
                 case Err(e) => Err(e)
  {
    if validate {
      var outcome := ValidateHighwaySegments(segs);
      if outcome != Passed {
        return Err(InvalidHighways(outcome));
      }
    }
    var b := EmptyBuild;
    var i := 0;
    while i < |segs|
      invariant 0 <= i <= |segs|
      invariant BuildAll(segs[..i], filter) == Ok(b)
      decreases |segs| - i
    {
      BuildStep(segs, filter, i);
      var s := segs[i];
      if Accepts(filter, s) {
        var withEnd := FindOrMakeEnd(b, s);
        if withEnd.Err? {
          BuildPrefix(segs, filter, i + 1);
          return Err(withEnd.error);
        }
        var endId := withEnd.value.1;
        var withStart := FindOrMakeStart(withEnd.value.0, s);
        if withStart.Err? {
          BuildPrefix(segs, filter, i + 1);
          return Err(withStart.error);
        }
        var startId := withStart.value.1;
        b := withStart.value.0;
        b := b.(edges := b.edges + [HighwayEdge(startId, endId, s.id)]);
      }
      i := i + 1;
    }
    assert segs[..i] == segs;
    r := Ok(Graph(b.nodes, b.edges));
  }

  /** What the node counts depend on: how many nodes and edges there are and which ids each map holds. */
  datatype Shape = Shape(nodeCount: nat, edgeCount: nat, inKeys: set<nat>, outKeys: set<nat>)

  function ShapeOf(b: Build): Shape {
    Shape(|b.nodes|, |b.edges|, b.inMap.Keys, b.outMap.Keys)
  }

  function Elems(ids: seq<nat>): set<nat> {
    set k | k in ids
  }

  /**
   * One accepted segment with key points, seen through its shape: a node is
   * made for an end exactly when none of the ids looked up has one yet.
   */
  function ShapeStep(sh: Shape, s: HighwaySegment): Shape {
    var endFound := !(Elems(s.succ) !! sh.inKeys);
    var in1 := if endFound then sh.inKeys else sh.inKeys + Elems(s.succ);
    var out1 := if endFound then sh.outKeys else sh.outKeys + {s.id};
    var startFound := !(Elems(s.pred) !! out1);
    Shape(sh.nodeCount + (if endFound then 0 else 1) + (if startFound then 0 else 1), sh.edgeCount + 1,
          if startFound then in1 else in1 + {s.id},
          if startFound then out1 else out1 + Elems(s.pred))
  }

  lemma FindMappedFound(ids: seq<nat>, m: map<nat, nat>)
    ensures FindMapped(ids, m).Some? <==> !(Elems(ids) !! m.Keys)
  {
    FindMappedSpec(ids, m);
    if !(Elems(ids) !! m.Keys) {
      var x :| x in Elems(ids) && x in m.Keys;
      var k :| 0 <= k < |ids| && ids[k] == x;
    }
  }

  /** The end lookup seen through the shape. */
  lemma EndNodeShape(b: Build, s: HighwaySegment)
    requires s.keys != []
    ensures EndNode(b, s).Ok?
    ensures var b1 := EndNode(b, s).value.0;
      var found := !(Elems(s.succ) !! b.inMap.Keys);
      && |b1.nodes| == |b.nodes| + (if found then 0 else 1) && b1.edges == b.edges
      && b1.inMap.Keys == (if found then b.inMap.Keys else b.inMap.Keys + Elems(s.succ))
      && b1.outMap.Keys == (if found then b.outMap.Keys else b.outMap.Keys + {s.id})
  {
    FindMappedFound(s.succ, b.inMap);
  }

  /** The start lookup seen through the shape. */
  lemma StartNodeShape(b: Build, s: HighwaySegment)
    requires s.keys != []
    ensures StartNode(b, s).Ok?
    ensures var b1 := StartNode(b, s).value.0;
      var found := !(Elems(s.pred) !! b.outMap.Keys);
      && |b1.nodes| == |b.nodes| + (if found then 0 else 1) && b1.edges == b.edges
      && b1.inMap.Keys == (if found then b.inMap.Keys else b.inMap.Keys + {s.id})
      && b1.outMap.Keys == (if found then b.outMap.Keys else b.outMap.Keys + Elems(s.pred))
  {
    FindMappedFound(s.pred, b.outMap);
  }

  /** An accepted segment with key points always gets its edge, and its shape follows the shape step. */
  lemma AddSegmentShape(b: Build, s: HighwaySegment, filter: Option<set<nat>>)
    requires Accepts(filter, s) && s.keys != []
    ensures AddSegment(b, s, filter).Ok? && ShapeOf(AddSegment(b, s, filter).value) == ShapeStep(ShapeOf(b), s)
  {
    EndNodeShape(b, s);
    StartNodeShape(EndNode(b, s).value.0, s);
  }

  /** The shapes after each segment, first to last. */
  function ShapeAll(segs: seq<HighwaySegment>): Shape
    decreases |segs|
  {
    if segs == [] then Shape(0, 0, {}, {}) else ShapeStep(ShapeAll(segs[..|segs| - 1]), segs[|segs| - 1])
  }

  /** Without a filter and with key points everywhere, the graph's shape is the run of shape steps. */
  lemma {:induction false} BuildAllShape(segs: seq<HighwaySegment>)
    requires forall i :: 0 <= i < |segs| ==> segs[i].keys != []
    ensures BuildAll(segs, None).Ok? && ShapeOf(BuildAll(segs, None).value) == ShapeAll(segs)
    decreases |segs|
  {
    if segs != [] {
      var init := segs[..|segs| - 1];
      assert forall i :: 0 <= i < |init| ==> init[i] == segs[i];
      BuildAllShape(init);
      AddSegmentShape(BuildAll(init, None).value, segs[|segs| - 1], None);
    }
  }

  /** A segment of the source's highway tests: two key points and its neighbours. */
  function TestSegment(id: nat, start: (real, real), end: (real, real), pred: seq<nat>, succ: seq<nat>): HighwaySegment {
    HighwaySegment(id, pred, succ, [start, end])
  }

  /** In the tests each segment's id is its position, so the ids are unique and name exactly the positions. */
  lemma IdsArePositions(segs: seq<HighwaySegment>)
    requires forall i :: 0 <= i < |segs| ==> segs[i].id == i
    ensures UniqueIds(segs)
    ensures forall r: nat :: HasId(segs, r) <==> r < |segs|
  {
    forall r: nat | r < |segs|
      ensures HasId(segs, r)
    {
      assert segs[r].id == r;
    }
  }

  /** The tests' segments pass validation when every reference is a position and the lists mirror each other. */
  lemma TestSegmentsValid(segs: seq<HighwaySegment>)
    requires forall i :: 0 <= i < |segs| ==> segs[i].id == i
    requires forall i, r :: 0 <= i < |segs| && (r in segs[i].pred || r in segs[i].succ) ==> r < |segs|
    requires forall i, j :: 0 <= i < |segs| && 0 <= j < |segs| ==>
      (j in segs[i].pred ==> i in segs[j].succ) && (j in segs[i].succ ==> i in segs[j].pred)
    ensures Validation(segs) == Passed
  {
    IdsArePositions(segs);
    ValidationSpec(segs);
  }

  /** One more segment of the shape run. */
  lemma ShapeAllStep(segs: seq<HighwaySegment>, k: nat)
    requires k < |segs|
    ensures ShapeAll(segs[..k + 1]) == ShapeStep(ShapeAll(segs[..k]), segs[k])
  {
    assert segs[..k + 1][..k] == segs[..k];
  }

  /** A test's graph: validation passes, so its counts are those of the shape run. */
  lemma TestGraph(segs: seq<HighwaySegment>)
    requires forall i :: 0 <= i < |segs| ==> segs[i].keys != []
    requires Validation(segs) == Passed
    ensures HighwayGraph(segs, None, true).Ok?
    ensures |HighwayGraph(segs, None, true).value.nodes| == ShapeAll(segs).nodeCount
    ensures |HighwayGraph(segs, None, true).value.edges| == ShapeAll(segs).edgeCount
  {
    BuildAllShape(segs);
  }

  /** The `empty` and `one` tests: no segment gives no nodes and edges, one segment two nodes and one edge. */
  lemma EmptyAndOneExamples()
    ensures HighwayGraph([], None, true) == Ok(EmptyBuild)
    ensures var g := HighwayGraph([TestSegment(0, (0.0, 0.0), (1.0, 0.0), [], [])], None, true);
      g.Ok? && |g.value.nodes| == 2 && |g.value.edges| == 1
  {
    var segs := [TestSegment(0, (0.0, 0.0), (1.0, 0.0), [], [])];
    ValidationSpec(segs);
    assert segs[..0] == [];
  }

  /** The segments of the `simple` test. */
  const SimpleSegments := [TestSegment(0, (0.0, 0.0), (1.0, 0.0), [], [1]),
                           TestSegment(1, (1.0, 0.0), (2.0, 0.0), [0], [])]

  lemma SimpleValid()
    ensures Validation(SimpleSegments) == Passed
  {
    TestSegmentsValid(SimpleSegments);
  }

  lemma SimpleShape()
    ensures ShapeAll(SimpleSegments).nodeCount == 3 && ShapeAll(SimpleSegments).edgeCount == 2
  {
    var segs := SimpleSegments;
    ShapeAllStep(segs, 0);
    ShapeAllStep(segs, 1);
    assert segs[..0] == [] && segs[..2] == segs;
    assert Elems([1]) == {1} && Elems([0]) == {0} && Elems([]) == {};
    assert ShapeAll(segs[..1]) == Shape(2, 1, {1, 0}, {0});
  }

  /** The `simple` test: two segments in a row share their middle node, so three nodes and two edges. */
  lemma SimpleExample()
    ensures var g := HighwayGraph(SimpleSegments, None, true);
      g.Ok? && |g.value.nodes| == 3 && |g.value.edges| == 2
  {
    SimpleValid();
    SimpleShape();
    TestGraph(SimpleSegments);
  }

  /** The segments of the `chain` test: six segments in a row. */
  const ChainSegments := [
    TestSegment(0, (0.0, 0.0), (1.0, 0.0), [], [1]),
    TestSegment(1, (1.0, 0.0), (2.0, 0.0), [0], [2]),
    TestSegment(2, (2.0, 0.0), (3.0, 0.0), [1], [3]),
    TestSegment(3, (3.0, 0.0), (4.0, 0.0), [2], [4]),
    TestSegment(4, (4.0, 0.0), (5.0, 0.0), [3], [5]),
    TestSegment(5, (5.0, 0.0), (6.0, 0.0), [4], [])]

  lemma ChainValid()
    ensures Validation(ChainSegments) == Passed
  {
    TestSegmentsValid(ChainSegments);
  }

  lemma ChainStep0()
    ensures ShapeStep(Shape(0, 0, {}, {}), ChainSegments[0]) == Shape(2, 1, {0, 1}, {0})
  {
    assert Elems([]) == {} && Elems([1]) == {1};
  }

  lemma ChainStep1()
    ensures ShapeStep(Shape(2, 1, {0, 1}, {0}), ChainSegments[1]) == Shape(3, 2, {0, 1, 2}, {0, 1})
  {
    assert Elems([0]) == {0} && Elems([2]) == {2};
  }

  lemma ChainStep2()
    ensures ShapeStep(Shape(3, 2, {0, 1, 2}, {0, 1}), ChainSegments[2]) == Shape(4, 3, {0, 1, 2, 3}, {0, 1, 2})
  {
    assert Elems([1]) == {1} && Elems([3]) == {3};
  }

  lemma ChainStep3()
    ensures ShapeStep(Shape(4, 3, {0, 1, 2, 3}, {0, 1, 2}), ChainSegments[3]) == Shape(5, 4, {0, 1, 2, 3, 4}, {0, 1, 2, 3})
  {
    assert Elems([2]) == {2} && Elems([4]) == {4};
  }

  lemma ChainStep4()
    ensures ShapeStep(Shape(5, 4, {0, 1, 2, 3, 4}, {0, 1, 2, 3}), ChainSegments[4]) == Shape(6, 5, {0, 1, 2, 3, 4, 5}, {0, 1, 2, 3, 4})
  {
    assert Elems([3]) == {3} && Elems([5]) == {5};
  }

  lemma ChainStep5()
    ensures ShapeStep(Shape(6, 5, {0, 1, 2, 3, 4, 5}, {0, 1, 2, 3, 4}), ChainSegments[5]) == Shape(7, 6, {0, 1, 2, 3, 4, 5}, {0, 1, 2, 3, 4, 5})
  {
    assert Elems([4]) == {4} && Elems([]) == {};
  }

  lemma ChainShape()
    ensures ShapeAll(ChainSegments).nodeCount == 7 && ShapeAll(ChainSegments).edgeCount == 6
  {
    var segs := ChainSegments;
    assert segs[..0] == [] && segs[..6] == segs;
    ShapeAllStep(segs, 0);
    ChainStep0();
    ShapeAllStep(segs, 1);
    ChainStep1();
    ShapeAllStep(segs, 2);
    ChainStep2();
    ShapeAllStep(segs, 3);
    ChainStep3();
    ShapeAllStep(segs, 4);
    ChainStep4();
    ShapeAllStep(segs, 5);
    ChainStep5();
  }

  /** The `chain` test: six segments in a row give seven nodes and six edges. */
  lemma ChainExample()
    ensures var g := HighwayGraph(ChainSegments, None, true);
      g.Ok? && |g.value.nodes| == 7 && |g.value.edges| == 6
  {
    ChainValid();
    ChainShape();
    TestGraph(ChainSegments);
  }

  /** The segments of the `branching` test: a road that splits in two and joins again. */
  const BranchingSegments := [
    TestSegment(0, (0.0, 0.0), (1.0, 0.0), [], [1, 3]),
    TestSegment(1, (1.0, 0.0), (2.0, 1.0), [0], [2]),
    TestSegment(2, (2.0, 1.0), (3.0, 0.0), [1], [5]),
    TestSegment(3, (1.0, 0.0), (2.0, -1.0), [0], [4]),
    TestSegment(4, (2.0, -1.0), (3.0, 0.0), [3], [5]),
    TestSegment(5, (3.0, 0.0), (4.0, 0.0), [2, 4], [])]

  lemma BranchingValid()
    ensures Validation(BranchingSegments) == Passed
  {
    TestSegmentsValid(BranchingSegments);
  }

  lemma BranchingStep0()
    ensures ShapeStep(Shape(0, 0, {}, {}), BranchingSegments[0]) == Shape(2, 1, {0, 1, 3}, {0})
  {
    assert Elems([]) == {} && Elems([1, 3]) == {1, 3};
  }

  lemma BranchingStep1()
    ensures ShapeStep(Shape(2, 1, {0, 1, 3}, {0}), BranchingSegments[1]) == Shape(3, 2, {0, 1, 2, 3}, {0, 1})
  {
    assert Elems([0]) == {0} && Elems([2]) == {2};
  }

  lemma BranchingStep2()
    ensures ShapeStep(Shape(3, 2, {0, 1, 2, 3}, {0, 1}), BranchingSegments[2]) == Shape(4, 3, {0, 1, 2, 3, 5}, {0, 1, 2})
  {
    assert Elems([1]) == {1} && Elems([5]) == {5};
  }

  lemma BranchingStep3()
    ensures ShapeStep(Shape(4, 3, {0, 1, 2, 3, 5}, {0, 1, 2}), BranchingSegments[3]) == Shape(5, 4, {0, 1, 2, 3, 4, 5}, {0, 1, 2, 3})
  {
    assert Elems([0]) == {0} && Elems([4]) == {4};
  }

  lemma BranchingStep4()
    ensures ShapeStep(Shape(5, 4, {0, 1, 2, 3, 4, 5}, {0, 1, 2, 3}), BranchingSegments[4]) == Shape(5, 5, {0, 1, 2, 3, 4, 5}, {0, 1, 2, 3})
  {
    assert Elems([3]) == {3} && Elems([5]) == {5};
  }

  lemma BranchingStep5()
    ensures ShapeStep(Shape(5, 5, {0, 1, 2, 3, 4, 5}, {0, 1, 2, 3}), BranchingSegments[5]) == Shape(6, 6, {0, 1, 2, 3, 4, 5}, {0, 1, 2, 3, 5})
  {
    assert Elems([2, 4]) == {2, 4} && Elems([]) == {};
  }

  lemma BranchingShape()
    ensures ShapeAll(BranchingSegments).nodeCount == 6 && ShapeAll(BranchingSegments).edgeCount == 6
  {
    var segs := BranchingSegments;
    assert segs[..0] == [] && segs[..6] == segs;
    ShapeAllStep(segs, 0);
    BranchingStep0();
    ShapeAllStep(segs, 1);
    BranchingStep1();
    ShapeAllStep(segs, 2);
    BranchingStep2();
    ShapeAllStep(segs, 3);
    BranchingStep3();
    ShapeAllStep(segs, 4);
    BranchingStep4();
    ShapeAllStep(segs, 5);
    BranchingStep5();
  }

  /** The `branching` test: the split and the join share their nodes, so six nodes and six edges. */
  lemma BranchingExample()
    ensures var g := HighwayGraph(BranchingSegments, None, true);
      g.Ok? && |g.value.nodes| == 6 && |g.value.edges| == 6
  {
    BranchingValid();
    BranchingShape();
    TestGraph(BranchingSegments);
  }
}
