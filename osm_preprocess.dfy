/**
 * The OpenStreetMap extract preprocessor (generate/datasets/osm_preprocess.rs): tag
 * tests sort nodes, ways and relations into the lists the generator reads, a patch
 * removes objects by id, and the lists are sorted by id before they are written.
 */
module OsmPreprocess {
  /** An object's tags: at most one value per key. */
  type Tags = map<string, string>

  datatype OsmId = NodeId(node: int) | WayId(way: int) | RelationId(relation: int)

  /** A node, with its latitude and longitude in units of 10^-7 degrees. */
  datatype Node = Node(id: int, tags: Tags, decimicroLat: int, decimicroLon: int)
  datatype Way = Way(id: int, tags: Tags, nodes: seq<int>)
  datatype Ref = Ref(member: OsmId, role: string)
  datatype Relation = Relation(id: int, tags: Tags, refs: seq<Ref>)

  /** `Tags::contains`: the key is present with exactly this value. */
  predicate Has(tags: Tags, key: string, value: string) {
    key in tags && tags[key] == value
  }

  /** `any_value`: the key has one of the values. */
  function AnyValue(tags: Tags, key: string, values: seq<string>): (r: bool)
    ensures r <==> key in tags && tags[key] in values
  {
    if values == [] then false
    else Has(tags, key, values[0]) || AnyValue(tags, key, values[1..])
  }

  /** `any_key`: one of the keys has the value. */
  function AnyKey(tags: Tags, keys: seq<string>, value: string): (r: bool)
    ensures r <==> exists k :: k in keys && Has(tags, k, value)
  {
    if keys == [] then false
    else Has(tags, keys[0], value) || AnyKey(tags, keys[1..], value)
  }

  /** The value of a key, when it is present, lies in a set. */
  predicate ValueIn(tags: Tags, key: string, values: set<string>) {
    key in tags && tags[key] in values
  }

  /** `is_station`: a railway station for subways, light rail or trains, or one tagged `train=yes`. */
  function IsStation(tags: Tags): (r: bool)
    ensures r <==> Has(tags, "railway", "station") && (ValueIn(tags, "station", {"subway", "light_rail", "train"}) || Has(tags, "train", "yes"))
  {
    (Has(tags, "railway", "station") && AnyValue(tags, "station", ["subway", "light_rail", "train"]))
    || (Has(tags, "railway", "station") && Has(tags, "train", "yes"))
  }

  /** `is_stop`: a railway stop position for subways, light rail or trains. */
  function IsStop(tags: Tags): (r: bool)
    ensures r <==>
      && Has(tags, "railway", "stop") && Has(tags, "public_transport", "stop_position")
      && (Has(tags, "subway", "yes") || Has(tags, "light_rail", "yes") || Has(tags, "train", "yes"))
  {
    && Has(tags, "railway", "stop")
    && Has(tags, "public_transport", "stop_position")
    && AnyKey(tags, ["subway", "light_rail", "train"], "yes")
  }

  /** `is_subway`: a subway, light rail or rail track. */
  function IsSubway(tags: Tags): (r: bool)
    ensures r <==> ValueIn(tags, "railway", {"subway", "light_rail", "rail"})
  {
    AnyValue(tags, "railway", ["subway", "light_rail", "rail"])
  }

  /** `is_highway`: a motorway or trunk road, or a ramp of one. */
  function IsHighway(tags: Tags): (r: bool)
    ensures r <==> ValueIn(tags, "highway", {"motorway", "trunk", "motorway_link", "trunk_link"})
  {
    AnyValue(tags, "highway", ["motorway", "trunk", "motorway_link", "trunk_link"])
  }

  /** `is_subway_route_master`: a route master of subway, light rail or train routes. */
  function IsSubwayRouteMaster(tags: Tags): (r: bool)
    ensures r <==> Has(tags, "type", "route_master") && ValueIn(tags, "route_master", {"subway", "light_rail", "train"})
  {
    Has(tags, "type", "route_master") && AnyValue(tags, "route_master", ["subway", "light_rail", "train"])
  }

  /** `is_subway_route`: a subway or light rail route, or a train route carrying passengers. */
  function IsSubwayRoute(tags: Tags): (r: bool)
    ensures r <==>
      && Has(tags, "type", "route")
      && (ValueIn(tags, "route", {"subway", "light_rail"})
          || (Has(tags, "route", "train") && ValueIn(tags, "passenger", {"yes", "urban", "suburban", "local"})))
  {
    && Has(tags, "type", "route")
    && (AnyValue(tags, "route", ["subway", "light_rail"])
        || (Has(tags, "route", "train") && AnyValue(tags, "passenger", ["yes", "urban", "suburban", "local"])))
  }

  /**
   * No object passes two tests that send it to different lists of its kind, except a
   * way that is both a track and a highway, which `add_way` sends to the subways.
   */
  lemma TestsExclusive(tags: Tags)
    ensures !(IsStation(tags) && IsStop(tags))
    ensures !(IsSubwayRouteMaster(tags) && IsSubwayRoute(tags))
    ensures IsSubway(map["railway" := "subway", "highway" := "motorway"])
    ensures IsHighway(map["railway" := "subway", "highway" := "motorway"])
  {
  }

  /** `retain(|x| x.id != id)`: the list without the entries that have this id, in order. */
  function Without<T>(s: seq<T>, key: T -> int, id: int): (r: seq<T>)
    ensures |r| <= |s|
  {
    if s == [] then []
    else Without(s[..|s| - 1], key, id) + if key(s[|s| - 1]) == id then [] else [s[|s| - 1]]
  }

  /** `Without` keeps exactly the entries whose id differs. */
  lemma {:induction false} WithoutMembers<T>(s: seq<T>, key: T -> int, id: int)
    ensures forall x :: x in Without(s, key, id) <==> x in s && key(x) != id
  {
    if s != [] {
      WithoutMembers(s[..|s| - 1], key, id);
      assert s == s[..|s| - 1] + [s[|s| - 1]];
    }
  }

  /** `Without` works piece by piece, so the entries kept keep their order. */
  lemma {:induction false} WithoutConcat<T>(a: seq<T>, b: seq<T>, key: T -> int, id: int)
    ensures Without(a + b, key, id) == Without(a, key, id) + Without(b, key, id)
    decreases |b|
  {
    if b == [] {
      assert a + b == a;
    } else {
      var init := b[..|b| - 1];
      assert (a + b)[..|a + b| - 1] == a + init;
      WithoutConcat(a, init, key, id);
    }
  }

  /** Removing an id twice is removing it once. */
  lemma {:induction false} WithoutIdempotent<T>(s: seq<T>, key: T -> int, id: int)
    ensures Without(Without(s, key, id), key, id) == Without(s, key, id)
  {
    if s != [] {
      var init := s[..|s| - 1];
      var last := s[|s| - 1];
      WithoutIdempotent(init, key, id);
      var tail := if key(last) == id then [] else [last];
      assert Without(tail, key, id) == tail by {
        if tail != [] {
          assert tail[..0] == [];
        }
      }
      WithoutConcat(Without(init, key, id), tail, key, id);
    }
  }

  /** Whether the list is in ascending order of ids. */
  predicate SortedBy<T>(s: seq<T>, key: T -> int) {
    forall i, j :: 0 <= i < j < |s| ==> key(s[i]) <= key(s[j])
  }

  /** Puts one entry into a sorted list, before every entry with an id as large or larger. */
  function InsertBy<T>(x: T, s: seq<T>, key: T -> int): (r: seq<T>)
    ensures multiset(r) == multiset(s) + multiset{x}
  {
    if s == [] then [x]
    else if key(x) <= key(s[0]) then [x] + s
    else
      assert s == [s[0]] + s[1..];
      [s[0]] + InsertBy(x, s[1..], key)
  }

  /** `sort_by_key(|x| x.id)`: the list in ascending order of ids. */
  function SortBy<T>(s: seq<T>, key: T -> int): (r: seq<T>)
    ensures multiset(r) == multiset(s)
  {
    if s == [] then []
    else
      assert s == [s[0]] + s[1..];
      InsertBy(s[0], SortBy(s[1..], key), key)
  }

  /** An id no larger than the new entry's and than every listed one bounds the result. */
  lemma {:induction false} InsertByBound<T>(x: T, s: seq<T>, key: T -> int, lo: int)
    requires lo <= key(x)
    requires forall i :: 0 <= i < |s| ==> lo <= key(s[i])
    ensures forall i :: 0 <= i < |InsertBy(x, s, key)| ==> lo <= key(InsertBy(x, s, key)[i])
  {
    if s != [] && key(x) > key(s[0]) {
      InsertByBound(x, s[1..], key, lo);
    }
  }

  lemma {:induction false} InsertBySorted<T>(x: T, s: seq<T>, key: T -> int)
    requires SortedBy(s, key)
    ensures SortedBy(InsertBy(x, s, key), key)
  {
    if s != [] && key(x) > key(s[0]) {
      var rest := s[1..];
      InsertBySorted(x, rest, key);
      InsertByBound(x, rest, key, key(s[0]));
    }
  }

  /** The sorted list is in order of ids and holds the same entries. */
  lemma {:induction false} SortBySorted<T>(s: seq<T>, key: T -> int)
    ensures SortedBy(SortBy(s, key), key)
    ensures multiset(SortBy(s, key)) == multiset(s)
  {
    if s != [] {
      SortBySorted(s[1..], key);
      InsertBySorted(s[0], SortBy(s[1..], key), key);
    }
  }

  function NodeKey(n: Node): int { n.id }
  function WayKey(w: Way): int { w.id }
  function RelationKey(r: Relation): int { r.id }

  /** The preprocessor's output: one list per kind of object the generator reads. */
  class Output {
    var subways: seq<Way>
    var stations: seq<Node>
    var stops: seq<Node>
    var subwayRouteMasters: seq<Relation>
    var subwayRoutes: seq<Relation>
    var highways: seq<Way>
    var keypoints: seq<Node>

    /** `Output::default()`: every list empty. */
    constructor ()
      ensures subways == [] && stations == [] && stops == [] && subwayRouteMasters == []
      ensures subwayRoutes == [] && highways == [] && keypoints == []
    {
      subways, stations, stops := [], [], [];
      subwayRouteMasters, subwayRoutes, highways, keypoints := [], [], [], [];
    }

    /** `sort`: every list in ascending order of ids, holding the same objects. */
    method Sort()
      modifies this
      ensures subways == SortBy(old(subways), WayKey) && highways == SortBy(old(highways), WayKey)
      ensures stations == SortBy(old(stations), NodeKey) && stops == SortBy(old(stops), NodeKey)
      ensures keypoints == SortBy(old(keypoints), NodeKey)
      ensures subwayRouteMasters == SortBy(old(subwayRouteMasters), RelationKey)
      ensures subwayRoutes == SortBy(old(subwayRoutes), RelationKey)
    {
      subways := SortBy(subways, WayKey);
      stations := SortBy(stations, NodeKey);
      stops := SortBy(stops, NodeKey);
      subwayRouteMasters := SortBy(subwayRouteMasters, RelationKey);
      subwayRoutes := SortBy(subwayRoutes, RelationKey);
      highways := SortBy(highways, WayKey);
      keypoints := SortBy(keypoints, NodeKey);
    }

    /** `add_node`: a station goes to the stations, otherwise a stop to the stops, otherwise nowhere. */
    method AddNode(node: Node)
      modifies this
      ensures stations == old(stations) + if IsStation(node.tags) then [node] else []
      ensures stops == old(stops) + if !IsStation(node.tags) && IsStop(node.tags) then [node] else []
      ensures subways == old(subways) && highways == old(highways) && keypoints == old(keypoints)
      ensures subwayRouteMasters == old(subwayRouteMasters) && subwayRoutes == old(subwayRoutes)
    {
      if IsStation(node.tags) {
        stations := stations + [node];
      } else if IsStop(node.tags) {
        stops := stops + [node];
      } else {
        assert stations + [] == stations && stops + [] == stops;
      }
    }

    /**
     * `add_way`: a subway track goes to the subways, otherwise a highway to the highways,
     * otherwise nowhere; the nodes of a way that is kept become keypoints.
     */
    method AddWay(way: Way, keypointIds: set<int>) returns (ids: set<int>)
      modifies this
      ensures subways == old(subways) + if IsSubway(way.tags) then [way] else []
      ensures highways == old(highways) + if !IsSubway(way.tags) && IsHighway(way.tags) then [way] else []
      ensures ids == if IsSubway(way.tags) || IsHighway(way.tags) then keypointIds + set n | n in way.nodes else keypointIds
      ensures stations == old(stations) && stops == old(stops) && keypoints == old(keypoints)
      ensures subwayRouteMasters == old(subwayRouteMasters) && subwayRoutes == old(subwayRoutes)
    {
      ids := keypointIds;
      if IsSubway(way.tags) {
        ids := ids + set n | n in way.nodes;
        subways := subways + [way];
      } else if IsHighway(way.tags) {
        ids := ids + set n | n in way.nodes;
        highways := highways + [way];
      } else {
        assert subways + [] == subways && highways + [] == highways;
      }
    }

    /** `add_relation`: a route master goes to the route masters, otherwise a route to the routes. */
    method AddRelation(relation: Relation)
      modifies this
      ensures subwayRouteMasters == old(subwayRouteMasters) + if IsSubwayRouteMaster(relation.tags) then [relation] else []
      ensures subwayRoutes == old(subwayRoutes) + if !IsSubwayRouteMaster(relation.tags) && IsSubwayRoute(relation.tags) then [relation] else []
      ensures subways == old(subways) && highways == old(highways) && keypoints == old(keypoints)
      ensures stations == old(stations) && stops == old(stops)
    {
      if IsSubwayRouteMaster(relation.tags) {
        subwayRouteMasters := subwayRouteMasters + [relation];
      } else if IsSubwayRoute(relation.tags) {
        subwayRoutes := subwayRoutes + [relation];
      } else {
        assert subwayRouteMasters + [] == subwayRouteMasters && subwayRoutes + [] == subwayRoutes;
      }
      assert subwayRoutes + [] == subwayRoutes && subwayRouteMasters + [] == subwayRouteMasters;
    }

    /**
     * `remove`: drops every object with the id from the two lists of its kind; the
     * keypoints are left alone.
     */
    method Remove(id: OsmId)
      modifies this
      ensures id.NodeId? ==> stations == Without(old(stations), NodeKey, id.node) && stops == Without(old(stops), NodeKey, id.node)
      ensures !id.NodeId? ==> stations == old(stations) && stops == old(stops)
      ensures id.WayId? ==> subways == Without(old(subways), WayKey, id.way) && highways == Without(old(highways), WayKey, id.way)
      ensures !id.WayId? ==> subways == old(subways) && highways == old(highways)
      ensures id.RelationId? ==>
        && subwayRouteMasters == Without(old(subwayRouteMasters), RelationKey, id.relation)
        && subwayRoutes == Without(old(subwayRoutes), RelationKey, id.relation)
      ensures !id.RelationId? ==> subwayRouteMasters == old(subwayRouteMasters) && subwayRoutes == old(subwayRoutes)
      ensures keypoints == old(keypoints)
    {
      match id
      case NodeId(n) =>
        stations := Without(stations, NodeKey, n);
        stops := Without(stops, NodeKey, n);
      case WayId(w) =>
        subways := Without(subways, WayKey, w);
        highways := Without(highways, WayKey, w);
      case RelationId(r) =>
        subwayRouteMasters := Without(subwayRouteMasters, RelationKey, r);
        subwayRoutes := Without(subwayRoutes, RelationKey, r);
    }
  }
}
