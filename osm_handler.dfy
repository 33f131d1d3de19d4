/**
 * The older Python extract preprocessor (generate/datasets/open_street_map_preprocess.py):
 * a handler the OSM reader calls once per node, way and relation, appending the objects
 * whose tags match to its lists. Unlike the Rust preprocessor, a way can land in two
 * lists, because its two tests are independent.
 */
module OsmHandlers {
  import opened Wrappers
  import OsmPreprocess

  type Tags = OsmPreprocess.Tags

  /** A keyword test of `matches`: a string means equality, a tuple means membership. */
  datatype Test = Exact(value: string) | OneOf(values: seq<string>)

  /** `tag_matches`: a missing tag never matches. */
  function TagMatches(value: Option<string>, test: Test): (r: bool)
    ensures value.None? ==> !r
    ensures value.Some? && test.Exact? ==> (r <==> value.value == test.value)
    ensures value.Some? && test.OneOf? ==> (r <==> value.value in test.values)
  {
    match value
    case None => false
    case Some(v) =>
      match test
      case Exact(t) => v == t
      case OneOf(ts) => v in ts
  }

  /** `tags.get(k)`. */
  function Get(tags: Tags, key: string): Option<string> {
    if key in tags then Some(tags[key]) else None
  }

  /** `matches`: every keyword's test accepts the tag of that name; true with no keywords. */
  function Matches(tags: Tags, tests: seq<(string, Test)>): (r: bool)
    ensures r <==> forall i :: 0 <= i < |tests| ==> TagMatches(Get(tags, tests[i].0), tests[i].1)
    ensures r ==> forall i :: 0 <= i < |tests| ==> tests[i].0 in tags
  {
    if tests == [] then true
    else TagMatches(Get(tags, tests[0].0), tests[0].1) && Matches(tags, tests[1..])
  }

  // The keyword tests of the handler's callbacks.
  const SubwayTest := [("railway", OneOf(["subway", "light_rail", "rail"]))]
  const HighwayTest := [("highway", OneOf(["motorway", "trunk", "motorway_link", "trunk_link"]))]
  const StationTest := [("railway", Exact("station")), ("station", OneOf(["subway", "light_rail", "train"]))]
  const TrainStationTest := [("railway", Exact("station")), ("train", Exact("yes"))]
  const StopPositionTest := [("railway", Exact("stop")), ("public_transport", Exact("stop_position"))]
  const RouteMasterTest := [("type", Exact("route_master")), ("route_master", OneOf(["subway", "light_rail", "train"]))]
  const RouteTest := [("type", Exact("route")), ("route", OneOf(["subway", "light_rail"]))]
  const TrainRouteTest := [("type", Exact("route")), ("route", Exact("train")), ("passenger", OneOf(["yes", "urban", "suburban", "local"]))]

  predicate WantsStation(tags: Tags) {
    Matches(tags, StationTest) || Matches(tags, TrainStationTest)
  }

  predicate WantsStop(tags: Tags) {
    || Matches(tags, StopPositionTest + [("subway", Exact("yes"))])
    || Matches(tags, StopPositionTest + [("light_rail", Exact("yes"))])
    || Matches(tags, StopPositionTest + [("train", Exact("yes"))])
  }

  predicate WantsRoute(tags: Tags) {
    Matches(tags, RouteTest) || Matches(tags, TrainRouteTest)
  }

  lemma MatchesOne(tags: Tags, a: (string, Test))
    ensures Matches(tags, [a]) <==> TagMatches(Get(tags, a.0), a.1)
  {
    assert [a][1..] == [];
  }

  lemma MatchesTwo(tags: Tags, a: (string, Test), b: (string, Test))
    ensures Matches(tags, [a, b]) <==> TagMatches(Get(tags, a.0), a.1) && TagMatches(Get(tags, b.0), b.1)
  {
    assert [a, b][1..] == [b];
    MatchesOne(tags, b);
  }

  lemma MatchesThree(tags: Tags, a: (string, Test), b: (string, Test), c: (string, Test))
    ensures Matches(tags, [a, b, c]) <==> TagMatches(Get(tags, a.0), a.1) && TagMatches(Get(tags, b.0), b.1) && TagMatches(Get(tags, c.0), c.1)
  {
    assert [a, b, c][1..] == [b, c];
    MatchesTwo(tags, b, c);
  }

  /** The two preprocessors ask the same questions of a way's tags. */
  lemma SameWayTestsAsRust(tags: Tags)
    ensures Matches(tags, SubwayTest) == OsmPreprocess.IsSubway(tags)
    ensures Matches(tags, HighwayTest) == OsmPreprocess.IsHighway(tags)
  {
    MatchesOne(tags, SubwayTest[0]);
    MatchesOne(tags, HighwayTest[0]);
  }

  /** The two preprocessors ask the same questions of a node's tags. */
  lemma SameNodeTestsAsRust(tags: Tags)
    ensures WantsStation(tags) == OsmPreprocess.IsStation(tags)
    ensures WantsStop(tags) == OsmPreprocess.IsStop(tags)
  {
    MatchesTwo(tags, StationTest[0], StationTest[1]);
    MatchesTwo(tags, TrainStationTest[0], TrainStationTest[1]);
    assert StopPositionTest + [("subway", Exact("yes"))] == [StopPositionTest[0], StopPositionTest[1], ("subway", Exact("yes"))];
    assert StopPositionTest + [("light_rail", Exact("yes"))] == [StopPositionTest[0], StopPositionTest[1], ("light_rail", Exact("yes"))];
    assert StopPositionTest + [("train", Exact("yes"))] == [StopPositionTest[0], StopPositionTest[1], ("train", Exact("yes"))];
    MatchesThree(tags, StopPositionTest[0], StopPositionTest[1], ("subway", Exact("yes")));
    MatchesThree(tags, StopPositionTest[0], StopPositionTest[1], ("light_rail", Exact("yes")));
    MatchesThree(tags, StopPositionTest[0], StopPositionTest[1], ("train", Exact("yes")));
  }

  /** The two preprocessors ask the same questions of a relation's tags. */
  lemma SameRelationTestsAsRust(tags: Tags)
    ensures Matches(tags, RouteMasterTest) == OsmPreprocess.IsSubwayRouteMaster(tags)
    ensures WantsRoute(tags) == OsmPreprocess.IsSubwayRoute(tags)
  {
    MatchesTwo(tags, RouteMasterTest[0], RouteMasterTest[1]);
    MatchesTwo(tags, RouteTest[0], RouteTest[1]);
    MatchesThree(tags, TrainRouteTest[0], TrainRouteTest[1], TrainRouteTest[2]);
  }

  /** `make_node`'s record; the location is the reader's (longitude, latitude). */
  datatype NodeRecord = NodeRecord(id: int, tags: Tags, location: (real, real))
  /** `make_way`'s record; the way's shape is not part of this model. */
  datatype WayRecord = WayRecord(id: int, tags: Tags)
  datatype MemberRecord = MemberRecord(ref: int, kind: string, role: string)
  datatype RelationRecord = RelationRecord(id: int, tags: Tags, members: seq<MemberRecord>)

  /** One list of `to_json`'s result. */
  datatype JsonList = Ways(ways: seq<WayRecord>) | Nodes(nodes: seq<NodeRecord>) | Relations(relations: seq<RelationRecord>)

  class Handler {
    var subways: seq<WayRecord>
    var stations: seq<NodeRecord>
    var stops: seq<NodeRecord>
    var subwayRouteMasters: seq<RelationRecord>
    var subwayRoutes: seq<RelationRecord>
    var highways: seq<WayRecord>

    /** `__init__`: one empty list per field. */
    constructor ()
      ensures subways == [] && stations == [] && stops == []
      ensures subwayRouteMasters == [] && subwayRoutes == [] && highways == []
    {
      subways, stations, stops := [], [], [];
      subwayRouteMasters, subwayRoutes, highways := [], [], [];
    }

    /** `way`: a track is appended to the subways and, independently, a highway to the highways. */
    method Way(w: WayRecord)
      modifies this
      ensures subways == old(subways) + if Matches(w.tags, SubwayTest) then [w] else []
      ensures highways == old(highways) + if Matches(w.tags, HighwayTest) then [w] else []
      ensures stations == old(stations) && stops == old(stops)
      ensures subwayRouteMasters == old(subwayRouteMasters) && subwayRoutes == old(subwayRoutes)
    {
      if Matches(w.tags, SubwayTest) {
        subways := subways + [w];
      } else {
        assert subways + [] == subways;
      }
      if Matches(w.tags, HighwayTest) {
        highways := highways + [w];
      } else {
        assert highways + [] == highways;
      }
    }

    /** `node`: a station is appended to the stations and, independently, a stop to the stops. */
    method Node(n: NodeRecord)
      modifies this
      ensures stations == old(stations) + if WantsStation(n.tags) then [n] else []
      ensures stops == old(stops) + if WantsStop(n.tags) then [n] else []
      ensures subways == old(subways) && highways == old(highways)
      ensures subwayRouteMasters == old(subwayRouteMasters) && subwayRoutes == old(subwayRoutes)
    {
      if Matches(n.tags, StationTest) || Matches(n.tags, TrainStationTest) {
        stations := stations + [n];
      } else {
        assert stations + [] == stations;
      }
      if || Matches(n.tags, StopPositionTest + [("subway", Exact("yes"))])
         || Matches(n.tags, StopPositionTest + [("light_rail", Exact("yes"))])
         || Matches(n.tags, StopPositionTest + [("train", Exact("yes"))])
      {
        stops := stops + [n];
      } else {
        assert stops + [] == stops;
      }
    }

    /** `relation`: a route master goes to the route masters, otherwise a route to the routes. */
    method Relation(r: RelationRecord)
      modifies this
      ensures subwayRouteMasters == old(subwayRouteMasters) + if Matches(r.tags, RouteMasterTest) then [r] else []
      ensures subwayRoutes == old(subwayRoutes) + if !Matches(r.tags, RouteMasterTest) && WantsRoute(r.tags) then [r] else []
      ensures subways == old(subways) && highways == old(highways)
      ensures stations == old(stations) && stops == old(stops)
    {
      if Matches(r.tags, RouteMasterTest) {
        subwayRouteMasters := subwayRouteMasters + [r];
        assert subwayRoutes + [] == subwayRoutes;
      } else if Matches(r.tags, RouteTest) || Matches(r.tags, TrainRouteTest) {
        subwayRoutes := subwayRoutes + [r];
        assert subwayRouteMasters + [] == subwayRouteMasters;
      } else {
        assert subwayRouteMasters + [] == subwayRouteMasters && subwayRoutes + [] == subwayRoutes;
      }
    }

    /** `to_json`: one entry per field, holding that list. */
    function ToJson(): (r: map<string, JsonList>)
      reads this
      ensures r.Keys == {"subways", "stations", "stops", "subway_route_masters", "subway_routes", "highways"}
      ensures r["subways"] == Ways(subways) && r["highways"] == Ways(highways)
      ensures r["stations"] == Nodes(stations) && r["stops"] == Nodes(stops)
      ensures r["subway_route_masters"] == Relations(subwayRouteMasters)
      ensures r["subway_routes"] == Relations(subwayRoutes)
    {
      map[
        "subways" := Ways(subways),
        "stations" := Nodes(stations),
        "stops" := Nodes(stops),
        "subway_route_masters" := Relations(subwayRouteMasters),
        "subway_routes" := Relations(subwayRoutes),
        "highways" := Ways(highways)]
    }
  }

  /** A way tagged both as a subway track and as a motorway passes both of `way`'s tests. */
  lemma WayInBoth()
    ensures var tags := map["railway" := "subway", "highway" := "motorway"];
      Matches(tags, SubwayTest) && Matches(tags, HighwayTest)
  {
    var tags := map["railway" := "subway", "highway" := "motorway"];
    MatchesOne(tags, SubwayTest[0]);
    MatchesOne(tags, HighwayTest[0]);
  }

  /**
   * `node`'s two tests are independent too, but they want different `railway` values,
   * so no node is appended to both lists.
   */
  lemma NodeNeverBoth(tags: Tags)
    ensures !(WantsStation(tags) && WantsStop(tags))
  {
    SameNodeTestsAsRust(tags);
  }
}
