/**
 * Traveller counts over a set of routes (engine/route/traffic.rs): how many
 * routes use each highway segment, highway junction, metro segment and metro
 * station.
 */
module Traffic {
  import opened Addresses
  import opened Routes

  /** A metro segment is keyed by its line and the addresses of its two stations. */
  type MetroKey = (nat, Address, Address)

  /** `WorldState`: the four tallies. */
  datatype WorldState = WorldState(
    highwaySegments: map<nat, nat>,
    highwayJunctions: map<nat, nat>,
    metroSegments: map<MetroKey, nat>,
    metroStations: map<Address, nat>)

  /** A tally read as the getters read it: 0 for a key never counted. */
  function Get<K>(m: map<K, nat>, k: K): nat {
    if k in m then m[k] else 0
  }

  /** Counting the keys in order: each one adds 1 to its entry, starting from 0. */
  function Tally<K>(m: map<K, nat>, keys: seq<K>): map<K, nat>
    decreases |keys|
  {
    if keys == [] then m
    else
      Bump(Tally(m, keys[..|keys| - 1]), keys[|keys| - 1])
  }

  /** One more of a key. */
  function Bump<K>(m: map<K, nat>, k: K): (r: map<K, nat>)
    ensures Get(r, k) == Get(m, k) + 1
  {
    m[k := Get(m, k) + 1]
  }

  /** A tally holds, for every key, its starting count plus the number of times it occurs. */
  lemma {:induction false} TallyCounts<K>(m: map<K, nat>, keys: seq<K>, k: K)
    ensures Get(Tally(m, keys), k) == Get(m, k) + multiset(keys)[k]
    ensures k in Tally(m, keys) <==> k in m || k in keys
    decreases |keys|
  {
    if keys != [] {
      var init := keys[..|keys| - 1];
      TallyCounts(m, init, k);
      assert keys == init + [keys[|keys| - 1]];
      assert multiset(keys) == multiset(init) + multiset{keys[|keys| - 1]};
    }
  }

  /** Counting one list after another is counting their concatenation. */
  lemma {:induction false} TallyAppend<K>(m: map<K, nat>, a: seq<K>, b: seq<K>)
    ensures Tally(Tally(m, a), b) == Tally(m, a + b)
    decreases |b|
  {
    if b == [] {
      assert a + b == a;
    } else {
      var init := b[..|b| - 1];
      TallyAppend(m, a, init);
      assert (a + b)[..|a + b| - 1] == a + init;
    }
  }

  /** Counting at most one more key. */
  lemma TallyExtend<K>(m: map<K, nat>, keys: seq<K>, extra: seq<K>)
    requires |extra| <= 1
    ensures extra == [] ==> Tally(m, keys + extra) == Tally(m, keys)
    ensures extra != [] ==>
      Tally(m, keys + extra) == Bump(Tally(m, keys), extra[0])
  {
    if extra == [] {
      assert keys + extra == keys;
    } else {
      assert (keys + extra)[..|keys + extra| - 1] == keys;
    }
  }

  /** The highway segments of a route's edges, in order. */
  function HighwayKeys(edges: seq<Edge>): seq<nat>
    decreases |edges|
  {
    if edges == [] then []
    else HighwayKeys(edges[..|edges| - 1]) + EdgeHighwayKey(edges[|edges| - 1])
  }

  function EdgeHighwayKey(e: Edge): seq<nat> {
    if e.Highway? then [e.segment] else []
  }

  /** The metro segments of a route's edges, keyed by line and stations, in order. */
  function MetroKeys(edges: seq<Edge>): seq<MetroKey>
    decreases |edges|
  {
    if edges == [] then []
    else MetroKeys(edges[..|edges| - 1]) + EdgeMetroKey(edges[|edges| - 1])
  }

  function EdgeMetroKey(e: Edge): seq<MetroKey> {
    if e.MetroSegment? then [(e.metroLine, e.start, e.stop)] else []
  }

  /** The junctions of highway junction and ramp nodes, in order. */
  function JunctionKeys(nodes: seq<Node>): seq<nat>
    decreases |nodes|
  {
    if nodes == [] then []
    else JunctionKeys(nodes[..|nodes| - 1]) + NodeJunctionKey(nodes[|nodes| - 1])
  }

  function NodeJunctionKey(n: Node): seq<nat> {
    if n.HighwayJunction? || n.HighwayRamp? then [n.junction] else []
  }

  /** The station addresses of metro station nodes, in order. */
  function StationKeys(nodes: seq<Node>): seq<Address>
    decreases |nodes|
  {
    if nodes == [] then []
    else StationKeys(nodes[..|nodes| - 1]) + NodeStationKey(nodes[|nodes| - 1])
  }

  function NodeStationKey(n: Node): seq<Address> {
    if n.MetroStation? then [n.station.address] else []
  }

  /** What `from_routes` reads of a route: its nodes and its edges. */
  type Path = (seq<Node>, seq<Edge>)

  ghost function Paths<C>(routes: seq<Route<C>>): (r: seq<Path>)
    reads routes
    ensures |r| == |routes|
    ensures forall i :: 0 <= i < |routes| ==> r[i] == (routes[i].nodes, routes[i].edges)
  {
    seq(|routes|, i reads routes requires 0 <= i < |routes| => (routes[i].nodes, routes[i].edges))
  }

  /** The keys of many routes, route after route. */
  function AllHighwayKeys(paths: seq<Path>): seq<nat>
    decreases |paths|
  {
    if paths == [] then []
    else AllHighwayKeys(paths[..|paths| - 1]) + HighwayKeys(paths[|paths| - 1].1)
  }

  function AllMetroKeys(paths: seq<Path>): seq<MetroKey>
    decreases |paths|
  {
    if paths == [] then []
    else AllMetroKeys(paths[..|paths| - 1]) + MetroKeys(paths[|paths| - 1].1)
  }

  function AllJunctionKeys(paths: seq<Path>): seq<nat>
    decreases |paths|
  {
    if paths == [] then []
    else AllJunctionKeys(paths[..|paths| - 1]) + JunctionKeys(paths[|paths| - 1].0)
  }

  function AllStationKeys(paths: seq<Path>): seq<Address>
    decreases |paths|
  {
    if paths == [] then []
    else AllStationKeys(paths[..|paths| - 1]) + StationKeys(paths[|paths| - 1].0)
  }

  /** The counts `from_routes` makes for the routes with these paths. */
  function TrafficOf(paths: seq<Path>): WorldState {
    WorldState(Tally(map[], AllHighwayKeys(paths)), Tally(map[], AllJunctionKeys(paths)),
               Tally(map[], AllMetroKeys(paths)), Tally(map[], AllStationKeys(paths)))
  }

  /** `WorldState::new`: nothing counted. */
  function NewWorldState(): (w: WorldState)
    ensures forall s :: HighwaySegmentTravelers(w, s) == 0 && HighwayJunctionTravelers(w, s) == 0
    ensures forall k :: GetMetroSegment(w, k) == 0
    ensures forall a :: MetroStationTravelers(w, a) == 0
  {
    WorldState(map[], map[], map[], map[])
  }

  /** The four getters: the count, or 0 for a key never counted. */
  function HighwaySegmentTravelers(w: WorldState, segment: nat): nat {
    Get(w.highwaySegments, segment)
  }

  function HighwayJunctionTravelers(w: WorldState, junction: nat): nat {
    Get(w.highwayJunctions, junction)
  }

  function MetroSegmentTravelers(w: WorldState, metroLine: nat, start: Address, end: Address): nat {
    Get(w.metroSegments, (metroLine, start, end))
  }

  function GetMetroSegment(w: WorldState, k: MetroKey): nat {
    Get(w.metroSegments, k)
  }

  function MetroStationTravelers(w: WorldState, station: Address): nat {
    Get(w.metroStations, station)
  }

  /** Each getter of `from_routes` gives the number of times its key occurs over all the routes. */
  lemma TrafficCounts(routes: seq<Path>, s: nat, j: nat, k: MetroKey, a: Address)
    ensures HighwaySegmentTravelers(TrafficOf(routes), s) == multiset(AllHighwayKeys(routes))[s]
    ensures HighwayJunctionTravelers(TrafficOf(routes), j) == multiset(AllJunctionKeys(routes))[j]
    ensures GetMetroSegment(TrafficOf(routes), k) == multiset(AllMetroKeys(routes))[k]
    ensures MetroStationTravelers(TrafficOf(routes), a) == multiset(AllStationKeys(routes))[a]
  {
    TallyCounts(map[], AllHighwayKeys(routes), s);
    TallyCounts(map[], AllJunctionKeys(routes), j);
    TallyCounts(map[], AllMetroKeys(routes), k);
    TallyCounts(map[], AllStationKeys(routes), a);
  }

  /** The keys of two lists of routes are the keys of the first list, then of the second. */
  lemma {:induction false} HighwayKeysAppend(a: seq<Path>, b: seq<Path>)
    ensures AllHighwayKeys(a + b) == AllHighwayKeys(a) + AllHighwayKeys(b)
    decreases |b|
  {
    if b == [] {
      assert a + b == a;
    } else {
      var init := b[..|b| - 1];
      var last := b[|b| - 1];
      assert AllHighwayKeys(a + b) == AllHighwayKeys(a + init) + HighwayKeys(last.1) by {
        assert (a + b)[..|a + b| - 1] == a + init;
        assert (a + b)[|a + b| - 1] == last;
      }
      assert AllHighwayKeys(b) == AllHighwayKeys(init) + HighwayKeys(last.1);
      HighwayKeysAppend(a, init);
    }
  }

  lemma {:induction false} JunctionKeysAppend(a: seq<Path>, b: seq<Path>)
    ensures AllJunctionKeys(a + b) == AllJunctionKeys(a) + AllJunctionKeys(b)
    decreases |b|
  {
    if b == [] {
      assert a + b == a;
    } else {
      var init := b[..|b| - 1];
      var last := b[|b| - 1];
      assert AllJunctionKeys(a + b) == AllJunctionKeys(a + init) + JunctionKeys(last.0) by {
        assert (a + b)[..|a + b| - 1] == a + init;
        assert (a + b)[|a + b| - 1] == last;
      }
      assert AllJunctionKeys(b) == AllJunctionKeys(init) + JunctionKeys(last.0);
      JunctionKeysAppend(a, init);
    }
  }

  lemma {:induction false} MetroKeysAppend(a: seq<Path>, b: seq<Path>)
    ensures AllMetroKeys(a + b) == AllMetroKeys(a) + AllMetroKeys(b)
    decreases |b|
  {
    if b == [] {
      assert a + b == a;
    } else {
      var init := b[..|b| - 1];
      var last := b[|b| - 1];
      assert AllMetroKeys(a + b) == AllMetroKeys(a + init) + MetroKeys(last.1) by {
        assert (a + b)[..|a + b| - 1] == a + init;
        assert (a + b)[|a + b| - 1] == last;
      }
      assert AllMetroKeys(b) == AllMetroKeys(init) + MetroKeys(last.1);
      MetroKeysAppend(a, init);
    }
  }

  lemma {:induction false} StationKeysAppend(a: seq<Path>, b: seq<Path>)
    ensures AllStationKeys(a + b) == AllStationKeys(a) + AllStationKeys(b)
    decreases |b|
  {
    if b == [] {
      assert a + b == a;
    } else {
      var init := b[..|b| - 1];
      var last := b[|b| - 1];
      assert AllStationKeys(a + b) == AllStationKeys(a + init) + StationKeys(last.0) by {
        assert (a + b)[..|a + b| - 1] == a + init;
        assert (a + b)[|a + b| - 1] == last;
      }
      assert AllStationKeys(b) == AllStationKeys(init) + StationKeys(last.0);
      StationKeysAppend(a, init);
    }
  }

  /**
   * Counting two lists of routes together adds their counts key by key, so the
   * counts do not depend on the order of the routes.
   */
  lemma TrafficAdditive(a: seq<Path>, b: seq<Path>, s: nat, j: nat, k: MetroKey, st: Address)
    ensures HighwaySegmentTravelers(TrafficOf(a + b), s)
      == HighwaySegmentTravelers(TrafficOf(a), s) + HighwaySegmentTravelers(TrafficOf(b), s)
    ensures HighwayJunctionTravelers(TrafficOf(a + b), j)
      == HighwayJunctionTravelers(TrafficOf(a), j) + HighwayJunctionTravelers(TrafficOf(b), j)
    ensures GetMetroSegment(TrafficOf(a + b), k) == GetMetroSegment(TrafficOf(a), k) + GetMetroSegment(TrafficOf(b), k)
    ensures MetroStationTravelers(TrafficOf(a + b), st)
      == MetroStationTravelers(TrafficOf(a), st) + MetroStationTravelers(TrafficOf(b), st)
  {
    HighwayKeysAppend(a, b);
    JunctionKeysAppend(a, b);
    MetroKeysAppend(a, b);
    StationKeysAppend(a, b);
    TrafficCounts(a + b, s, j, k, st);
    TrafficCounts(a, s, j, k, st);
    TrafficCounts(b, s, j, k, st);
  }

  lemma EdgeKeysStep(edges: seq<Edge>, e: nat)
    requires e < |edges|
    ensures HighwayKeys(edges[..e + 1]) == HighwayKeys(edges[..e]) + EdgeHighwayKey(edges[e])
    ensures MetroKeys(edges[..e + 1]) == MetroKeys(edges[..e]) + EdgeMetroKey(edges[e])
  {
    assert edges[..e + 1][..e] == edges[..e];
  }

  lemma NodeKeysStep(nodes: seq<Node>, n: nat)
    requires n < |nodes|
    ensures JunctionKeys(nodes[..n + 1]) == JunctionKeys(nodes[..n]) + NodeJunctionKey(nodes[n])
    ensures StationKeys(nodes[..n + 1]) == StationKeys(nodes[..n]) + NodeStationKey(nodes[n])
  {
    assert nodes[..n + 1][..n] == nodes[..n];
  }

  /** A tally of a, continued with b, is the tally of a + b. */
  lemma TallyThen<K>(prev: map<K, nat>, a: seq<K>, b: seq<K>, ab: seq<K>, result: map<K, nat>)
    requires prev == Tally(map[], a) && result == Tally(prev, b) && ab == a + b
    ensures result == Tally(map[], ab)
  {
    TallyAppend(map[], a, b);
  }

  lemma AllKeysStep(paths: seq<Path>, i: nat)
    requires i < |paths|
    ensures AllHighwayKeys(paths[..i + 1]) == AllHighwayKeys(paths[..i]) + HighwayKeys(paths[i].1)
    ensures AllMetroKeys(paths[..i + 1]) == AllMetroKeys(paths[..i]) + MetroKeys(paths[i].1)
    ensures AllJunctionKeys(paths[..i + 1]) == AllJunctionKeys(paths[..i]) + JunctionKeys(paths[i].0)
    ensures AllStationKeys(paths[..i + 1]) == AllStationKeys(paths[..i]) + StationKeys(paths[i].0)
  {
    assert paths[..i + 1][..i] == paths[..i];
  }

  /** The edge loop of `from_routes`: one count per Highway and MetroSegment edge. */
  method CountEdges(edges: seq<Edge>, hs0: map<nat, nat>, ms0: map<MetroKey, nat>)
    returns (hs: map<nat, nat>, ms: map<MetroKey, nat>)
    ensures hs == Tally(hs0, HighwayKeys(edges)) && ms == Tally(ms0, MetroKeys(edges))
  {
    hs, ms := hs0, ms0;
    var e := 0;
    while e < |edges|
      invariant 0 <= e <= |edges|
      invariant hs == Tally(hs0, HighwayKeys(edges[..e]))
      invariant ms == Tally(ms0, MetroKeys(edges[..e]))
      decreases |edges| - e
    {
      EdgeKeysStep(edges, e);
      var hk, mk := EdgeHighwayKey(edges[e]), EdgeMetroKey(edges[e]);
      TallyExtend(hs0, HighwayKeys(edges[..e]), hk);
      TallyExtend(ms0, MetroKeys(edges[..e]), mk);
      if hk != [] {
        hs := Bump(hs, hk[0]);
      }
      if mk != [] {
        ms := Bump(ms, mk[0]);
      }
      e := e + 1;
    }
    assert edges[..e] == edges;
  }

  /** The node loop of `from_routes`: one count per highway junction, ramp and station node. */
  method CountNodes(nodes: seq<Node>, hj0: map<nat, nat>, st0: map<Address, nat>)
    returns (hj: map<nat, nat>, st: map<Address, nat>)
    ensures hj == Tally(hj0, JunctionKeys(nodes)) && st == Tally(st0, StationKeys(nodes))
  {
    hj, st := hj0, st0;
    var n := 0;
    while n < |nodes|
      invariant 0 <= n <= |nodes|
      invariant hj == Tally(hj0, JunctionKeys(nodes[..n]))
      invariant st == Tally(st0, StationKeys(nodes[..n]))
      decreases |nodes| - n
    {
      NodeKeysStep(nodes, n);
      var jk, sk := NodeJunctionKey(nodes[n]), NodeStationKey(nodes[n]);
      TallyExtend(hj0, JunctionKeys(nodes[..n]), jk);
      TallyExtend(st0, StationKeys(nodes[..n]), sk);
      if jk != [] {
        hj := Bump(hj, jk[0]);
      }
      if sk != [] {
        st := Bump(st, sk[0]);
      }
      n := n + 1;
    }
    assert nodes[..n] == nodes;
  }

  /**
   * `from_routes`: for each route, one count per Highway and MetroSegment edge
   * that `iter` yields, then one per highway junction, ramp and station node. The
   * source's `iter` asserts the node and edge counts match.
   */
  method FromRoutes<C>(routes: seq<Route<C>>) returns (w: WorldState)
    requires forall i :: 0 <= i < |routes| ==> NodeEdgeCount(routes[i].nodes, routes[i].edges)
    ensures w == TrafficOf(Paths(routes))
  {
    ghost var paths := Paths(routes);
    var highwaySegments: map<nat, nat> := map[];
    var highwayJunctions: map<nat, nat> := map[];
    var metroSegments: map<MetroKey, nat> := map[];
    var metroStations: map<Address, nat> := map[];
    var i := 0;
    while i < |routes|
      invariant 0 <= i <= |routes|
      invariant highwaySegments == Tally(map[], AllHighwayKeys(paths[..i]))
      invariant highwayJunctions == Tally(map[], AllJunctionKeys(paths[..i]))
      invariant metroSegments == Tally(map[], AllMetroKeys(paths[..i]))
      invariant metroStations == Tally(map[], AllStationKeys(paths[..i]))
      decreases |routes| - i
    {
      var route := routes[i];
      var edges, nodes := route.edges, route.nodes;
      assert paths[i] == (nodes, edges);
      AllKeysStep(paths, i);
      ghost var next := paths[..i + 1];
      ghost var hs, ms, hj, st := highwaySegments, metroSegments, highwayJunctions, metroStations;
      highwaySegments, metroSegments := CountEdges(edges, highwaySegments, metroSegments);
      highwayJunctions, metroStations := CountNodes(nodes, highwayJunctions, metroStations);
      TallyThen(hs, AllHighwayKeys(paths[..i]), HighwayKeys(edges), AllHighwayKeys(next), highwaySegments);
      TallyThen(ms, AllMetroKeys(paths[..i]), MetroKeys(edges), AllMetroKeys(next), metroSegments);
      TallyThen(hj, AllJunctionKeys(paths[..i]), JunctionKeys(nodes), AllJunctionKeys(next), highwayJunctions);
      TallyThen(st, AllStationKeys(paths[..i]), StationKeys(nodes), AllStationKeys(next), metroStations);
      i := i + 1;
    }
    assert paths[..i] == paths;
    w := WorldState(highwaySegments, highwayJunctions, metroSegments, metroStations);
  }
}
