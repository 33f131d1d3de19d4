/**
 * The generator's metro layer (generate/metros.py), a network with a way-to-segment map:
 * the colour parser, the strategies for broken lines, the stations, and
 * `post_init_route`, which turns the way members of a route into sets of segments, lays
 * each set out as a chain, stitches the chains into one line and records the line.
 * Segments are named by their positions in the network's segment list.
 */
module GenMetros {
  import opened Wrappers
  import opened Points
  import opened PyText
  import opened Walks
  import OsmHandlers
  import GenHighways
  import opened GenNetworks
  import opened MetroChains

  type Tags = OsmHandlers.Tags

  // ---------------------------------------------------------------------------------------
  // Strategies for broken lines

  /** `HandleBrokenMetroLineStrategy`. */
  datatype Strategy = Fail | Skip

  /** `default()` as written: its body names FAIL but does not return it, so the call gives None. */
  function DefaultAsWritten(): Option<Strategy> {
    None
  }

  /** `default()` as evidently intended. */
  function Default(): Strategy {
    Fail
  }

  /** The strategy map's entry for a network, as written: an unconfigured network gets None. */
  function StrategyForAsWritten(strategies: map<string, Strategy>, network: string): (r: Option<Strategy>)
    ensures network in strategies ==> r == Some(strategies[network])
  {
    if network in strategies then Some(strategies[network]) else DefaultAsWritten()
  }

  /** The same entry with the intended default: an unconfigured network fails. */
  function StrategyFor(strategies: map<string, Strategy>, network: string): (r: Strategy)
    ensures network in strategies ==> r == strategies[network]
    ensures network !in strategies ==> r == Fail
  {
    if network in strategies then strategies[network] else Default()
  }

  /** An unconfigured network gets no strategy at all from the map as written. */
  lemma UnconfiguredGetsNone(strategies: map<string, Strategy>, network: string)
    requires network !in strategies
    ensures StrategyForAsWritten(strategies, network) == None
    ensures StrategyForAsWritten(strategies, network) != Some(Default())
  {
  }

  /** The only use of the entry compares it with SKIP, and there both lookups agree. */
  lemma SkipDecisionAgrees(strategies: map<string, Strategy>, network: string)
    ensures (StrategyForAsWritten(strategies, network) == Some(Skip)) <==> StrategyFor(strategies, network) == Skip
  {
  }

  /** `str.upper()` on one ASCII character. */
  function UpperChar(c: char): char {
    if 'a' <= c <= 'z' then (c as int - 'a' as int + 'A' as int) as char else c
  }

  function Upper(s: string): (r: string)
    ensures |r| == |s| && forall i :: 0 <= i < |s| ==> r[i] == UpperChar(s[i])
  {
    seq(|s|, i requires 0 <= i < |s| => UpperChar(s[i]))
  }

  /** `HandleBrokenMetroLineStrategy[strategy.upper()]`: None where the lookup raises KeyError. */
  function ParseStrategy(s: string): (r: Option<Strategy>)
    ensures r == Some(Fail) <==> Upper(s) == "FAIL"
    ensures r == Some(Skip) <==> Upper(s) == "SKIP"
  {
    if Upper(s) == "FAIL" then Some(Fail) else if Upper(s) == "SKIP" then Some(Skip) else None
  }

  /** Strategy names are read without regard to case. */
  lemma ParseStrategyCaseInsensitive(s: string, t: string)
    requires Upper(s) == Upper(t)
    ensures ParseStrategy(s) == ParseStrategy(t)
  {
  }

  lemma ParseStrategyNames()
    ensures ParseStrategy("skip") == Some(Skip) && ParseStrategy("Fail") == Some(Fail)
  {
    assert Upper("skip") == "SKIP" && Upper("Fail") == "FAIL";
  }

  /** The dataset's strategies, entry by entry; None when some entry names no strategy. */
  function StrategiesOf(entries: seq<(string, string)>): Option<map<string, Strategy>> {
    if entries == [] then Some(map[])
    else
      var last := entries[|entries| - 1];
      match (StrategiesOf(entries[..|entries| - 1]), ParseStrategy(last.1))
      case (Some(m), Some(st)) => Some(m[last.0 := st])
      case _ => None
  }

  /** The map is defined exactly when every entry names a strategy. */
  lemma {:induction false} StrategiesDefined(entries: seq<(string, string)>)
    ensures StrategiesOf(entries).Some? <==> forall i :: 0 <= i < |entries| ==> ParseStrategy(entries[i].1).Some?
  {
    if entries != [] {
      var init := entries[..|entries| - 1];
      StrategiesDefined(init);
      assert forall i :: 0 <= i < |init| ==> init[i] == entries[i];
    }
  }

  /** Its keys are the configured networks. */
  lemma {:induction false} StrategiesKeys(entries: seq<(string, string)>, n: string)
    requires StrategiesOf(entries).Some?
    ensures n in StrategiesOf(entries).value <==> exists i :: 0 <= i < |entries| && entries[i].0 == n
  {
    if entries != [] {
      var init := entries[..|entries| - 1];
      StrategiesKeys(init, n);
      if n in StrategiesOf(entries).value && n != entries[|entries| - 1].0 {
        var i :| 0 <= i < |init| && init[i].0 == n;
        assert entries[i].0 == n;
      }
      if exists i :: 0 <= i < |entries| && entries[i].0 == n {
        var i :| 0 <= i < |entries| && entries[i].0 == n;
        if i < |init| {
          assert init[i].0 == n;
        }
      }
    }
  }

  /** A network's strategy is the one its last entry names. */
  lemma {:induction false} StrategiesLast(entries: seq<(string, string)>, i: nat)
    requires StrategiesOf(entries).Some? && i < |entries|
    requires forall j :: i < j < |entries| ==> entries[j].0 != entries[i].0
    ensures entries[i].0 in StrategiesOf(entries).value
    ensures Some(StrategiesOf(entries).value[entries[i].0]) == ParseStrategy(entries[i].1)
  {
    var init := entries[..|entries| - 1];
    if i < |init| {
      assert init[i] == entries[i];
      StrategiesLast(init, i);
    }
  }

  /** `broken_metro_line_strategies`: the configured strategy of each network. */
  method BrokenMetroLineStrategies(entries: seq<(string, string)>) returns (r: Option<map<string, Strategy>>)
    ensures r == StrategiesOf(entries)
  {
    var m: map<string, Strategy> := map[];
    var i := 0;
    while i < |entries|
      invariant 0 <= i <= |entries|
      invariant StrategiesOf(entries[..i]) == Some(m)
    {
      assert entries[..i + 1][..i] == entries[..i] && entries[..i + 1][i] == entries[i];
      var st := ParseStrategy(entries[i].1);
      if st.None? {
        StrategiesDefined(entries);
        return None;
      }
      m := m[entries[i].0 := st.value];
      i := i + 1;
    }
    assert entries[..i] == entries;
    r := Some(m);
  }

  // ---------------------------------------------------------------------------------------
  // Colours

  type Rgb = (int, int, int)
  type Rgba = (real, real, real, real)

  /** Python's `int(x)` on a float: truncation toward zero. */
  function Truncate(x: real): (n: int)
    ensures x >= 0.0 ==> n as real <= x < n as real + 1.0
  {
    if x >= 0.0 then x.Floor else -((-x).Floor)
  }

  /** Whether the text is an `#rrggbb` colour: a `#` and six characters more. */
  predicate HexForm(color: string) {
    |color| == 7 && color[0] == '#'
  }

  /**
   * `parse_color`: an `#rrggbb` text as three base-16 numbers (a pair that is not a number
   * raises ValueError); any other text through matplotlib's `to_rgba`, scaled to 0..255.
   * None where the source raises.
   */
  function ParseColor(color: string, toRgba: string -> Option<Rgba>): (r: Option<Rgb>)
    ensures HexForm(color) ==>
      (r.Some? <==> ParseInt(color[1..3], 16).Some? && ParseInt(color[3..5], 16).Some? && ParseInt(color[5..7], 16).Some?)
    ensures HexForm(color) && r.Some? ==>
      r.value == (ParseInt(color[1..3], 16).value, ParseInt(color[3..5], 16).value, ParseInt(color[5..7], 16).value)
    ensures !HexForm(color) ==> (r.Some? <==> toRgba(color).Some?)
  {
    if HexForm(color) then
      match (ParseInt(color[1..3], 16), ParseInt(color[3..5], 16), ParseInt(color[5..7], 16))
      case (Some(red), Some(green), Some(blue)) => Some((red, green, blue))
      case _ => None
    else
      match toRgba(color)
      case Some((red, green, blue, _)) => Some((Truncate(red * 255.0), Truncate(green * 255.0), Truncate(blue * 255.0)))
      case None => None
  }

  /** `#rrggbb` written with two hexadecimal digits per channel is read back. */
  lemma ParseColorHex(red: nat, green: nat, blue: nat, toRgba: string -> Option<Rgba>)
    requires red < 256 && green < 256 && blue < 256
    ensures ParseColor("#" + Hex2(red) + Hex2(green) + Hex2(blue), toRgba) == Some((red, green, blue))
  {
    var c := "#" + Hex2(red) + Hex2(green) + Hex2(blue);
    assert c[1..3] == Hex2(red) && c[3..5] == Hex2(green) && c[5..7] == Hex2(blue);
    ParseHex2(red);
    ParseHex2(green);
    ParseHex2(blue);
  }

  /** The colour a line without `colour` gets, `#000000`, is black. */
  lemma DefaultColorIsBlack(toRgba: string -> Option<Rgba>)
    ensures ParseColor("#000000", toRgba) == Some((0, 0, 0))
  {
    var c := "#000000";
    assert c[1..3] == c[3..5] == c[5..7] == "00" == Hex2(0);
    ParseHex2(0);
  }

  /** A named colour whose channels lie in [0, 1], as matplotlib's are, gives channels in 0..255. */
  lemma ParseColorNamedRange(color: string, toRgba: string -> Option<Rgba>)
    requires !HexForm(color) && toRgba(color).Some?
    requires var (r, g, b, _) := toRgba(color).value; 0.0 <= r <= 1.0 && 0.0 <= g <= 1.0 && 0.0 <= b <= 1.0
    ensures var c := ParseColor(color, toRgba).value; 0 <= c.0 <= 255 && 0 <= c.1 <= 255 && 0 <= c.2 <= 255
  {
  }

  // ---------------------------------------------------------------------------------------
  // Stations

  /** `Station`: a name, the location, and the tile it lies in. */
  datatype Station = Station(name: string, location: Point, x: int, y: int)

  /** `round_station_location`: the tile whose unit square holds the location. */
  function RoundStationLocation(loc: Point): (r: (int, int))
    ensures r.0 as real <= loc.0 <= r.0 as real + 1.0
    ensures r.1 as real <= loc.1 <= r.1 as real + 1.0
  {
    (RoundHalfEven(loc.0 - 0.5), RoundHalfEven(loc.1 - 0.5))
  }

  /** The station made from a node: a missing name becomes the empty name. */
  function StationOf(n: OsmHandlers.NodeRecord): Station {
    var (rx, ry) := RoundStationLocation(n.location);
    Station(GenHighways.GetOr(n.tags, "name", ""), n.location, rx, ry)
  }

  /** Whether a station's tile is one of the region's. */
  predicate InGrid(s: Station, maxDim: int) {
    0 <= s.x < maxDim && 0 <= s.y < maxDim
  }

  function StationsOf(nodes: seq<OsmHandlers.NodeRecord>, maxDim: int): seq<Station> {
    if nodes == [] then []
    else
      var s := StationOf(nodes[|nodes| - 1]);
      StationsOf(nodes[..|nodes| - 1], maxDim) + if InGrid(s, maxDim) then [s] else []
  }

  /** The stations are those of the nodes whose tile lies in the region, in order. */
  lemma {:induction false} StationsMembers(nodes: seq<OsmHandlers.NodeRecord>, maxDim: int)
    ensures forall s :: s in StationsOf(nodes, maxDim) <==> InGrid(s, maxDim) && exists i :: 0 <= i < |nodes| && StationOf(nodes[i]) == s
  {
    if nodes != [] {
      var init := nodes[..|nodes| - 1];
      StationsMembers(init, maxDim);
      assert forall i :: 0 <= i < |init| ==> init[i] == nodes[i];
      assert nodes == init + [nodes[|nodes| - 1]];
    }
  }

  /** Each station lies in the region, inside the square of its tile. */
  lemma StationsInGrid(nodes: seq<OsmHandlers.NodeRecord>, maxDim: int, s: Station)
    requires s in StationsOf(nodes, maxDim)
    ensures InGrid(s, maxDim)
    ensures s.x as real <= s.location.0 <= s.x as real + 1.0 && s.y as real <= s.location.1 <= s.y as real + 1.0
  {
    StationsMembers(nodes, maxDim);
  }

  /** `stations`: one station per node of `osm.stations` whose tile is in the region. */
  method Stations(nodes: seq<OsmHandlers.NodeRecord>, maxDim: int) returns (stations: seq<Station>)
    ensures stations == StationsOf(nodes, maxDim)
  {
    stations := [];
    var i := 0;
    while i < |nodes|
      invariant 0 <= i <= |nodes|
      invariant stations == StationsOf(nodes[..i], maxDim)
    {
      assert nodes[..i + 1][..i] == nodes[..i] && nodes[..i + 1][i] == nodes[i];
      var node := nodes[i];
      var name := if "name" in node.tags then node.tags["name"] else "";
      var (rx, ry) := RoundStationLocation(node.location);
      if 0 <= rx < maxDim && 0 <= ry < maxDim {
        stations := stations + [Station(name, node.location, rx, ry)];
      } else {
        assert stations + [] == stations;
      }
      i := i + 1;
    }
    assert nodes[..i] == nodes;
  }

  // ---------------------------------------------------------------------------------------
  // Ways

  /** The metro `SegmentData`: only the speed limit. */
  datatype MetroData =
    | MetroSegmentData(speedLimit: Option<int>)  // `SegmentData`, on segments
    | MetroJunctionData(station: Station)        // `JunctionData`, on nodes

  /** A subway of `osm.subways`: its id, tags and coordinates. */
  datatype Subway = Subway(id: int, tags: Tags, coords: seq<Point>)

  /** `get_ways`: every subway as a one-way input way carrying its parsed speed limit. */
  function MetroWays(subways: seq<Subway>, parseSpeed: string -> Option<int>): (r: seq<InputWay<MetroData>>)
    ensures |r| == |subways|
    ensures forall i :: 0 <= i < |r| ==>
      && r[i].id == subways[i].id && r[i].coords == subways[i].coords && !r[i].bidirectional
      && r[i].data == MetroSegmentData(GenHighways.ParseSpeedLimit(subways[i].tags, parseSpeed))
  {
    seq(|subways|, i requires 0 <= i < |subways| =>
      InputWay(subways[i].id, subways[i].coords, false, MetroSegmentData(GenHighways.ParseSpeedLimit(subways[i].tags, parseSpeed))))
  }

  // ---------------------------------------------------------------------------------------
  // Segment sets

  /** Whether a route member is a known subway way with an empty role whose segments are mapped. */
  predicate Usable(m: OsmHandlers.MemberRecord, subwayIds: set<int>, wsm: WayMap) {
    m.kind == "w" && m.ref in subwayIds && m.role == "" && m.ref in wsm
  }

  /**
   * The segment sets of a route's members: for each usable member the set of its way, unless
   * it equals the set just before.
   */
  function SetsOf(members: seq<OsmHandlers.MemberRecord>, subwayIds: set<int>, wsm: WayMap): seq<set<nat>> {
    if members == [] then []
    else
      var sets := SetsOf(members[..|members| - 1], subwayIds, wsm);
      var m := members[|members| - 1];
      if Usable(m, subwayIds, wsm) && (sets == [] || wsm[m.ref] != sets[|sets| - 1]) then sets + [wsm[m.ref]] else sets
  }

  predicate NoRepeats(sets: seq<set<nat>>) {
    forall k :: 0 <= k < |sets| - 1 ==> sets[k] != sets[k + 1]
  }

  /** No two consecutive sets are equal. */
  lemma {:induction false} SetsNoRepeats(members: seq<OsmHandlers.MemberRecord>, subwayIds: set<int>, wsm: WayMap)
    ensures NoRepeats(SetsOf(members, subwayIds, wsm))
  {
    if members != [] {
      var init := members[..|members| - 1];
      SetsNoRepeats(init, subwayIds, wsm);
      var sets0 := SetsOf(init, subwayIds, wsm);
      var sets := SetsOf(members, subwayIds, wsm);
      forall k | 0 <= k < |sets| - 1
        ensures sets[k] != sets[k + 1]
      {
        if k + 1 < |sets0| {
          assert sets[k] == sets0[k] && sets[k + 1] == sets0[k + 1];
        }
      }
    }
  }

  /** Whether the set is the set of a usable member. */
  predicate FromUsable(s: set<nat>, members: seq<OsmHandlers.MemberRecord>, subwayIds: set<int>, wsm: WayMap) {
    exists i :: 0 <= i < |members| && Usable(members[i], subwayIds, wsm) && s == wsm[members[i].ref]
  }

  /** Every set is the set of some usable member. */
  lemma {:induction false} SetsFromUsable(members: seq<OsmHandlers.MemberRecord>, subwayIds: set<int>, wsm: WayMap)
    ensures forall s :: s in SetsOf(members, subwayIds, wsm) ==> FromUsable(s, members, subwayIds, wsm)
  {
    if members != [] {
      var init := members[..|members| - 1];
      SetsFromUsable(init, subwayIds, wsm);
      forall s | s in SetsOf(members, subwayIds, wsm)
        ensures FromUsable(s, members, subwayIds, wsm)
      {
        if s in SetsOf(init, subwayIds, wsm) {
          var i :| 0 <= i < |init| && Usable(init[i], subwayIds, wsm) && s == wsm[init[i].ref];
          assert init[i] == members[i];
        } else {
          assert Usable(members[|members| - 1], subwayIds, wsm);
        }
      }
    }
  }

  /** A usable member whose set differs from the last set so far is recorded. */
  lemma {:induction false} SetsCoverUsable(members: seq<OsmHandlers.MemberRecord>, subwayIds: set<int>, wsm: WayMap)
    ensures forall i :: 0 <= i < |members| && Usable(members[i], subwayIds, wsm) ==> wsm[members[i].ref] in SetsOf(members, subwayIds, wsm)
  {
    if members != [] {
      var init := members[..|members| - 1];
      SetsCoverUsable(init, subwayIds, wsm);
      assert forall i :: 0 <= i < |init| ==> init[i] == members[i];
      var sets := SetsOf(init, subwayIds, wsm);
      assert forall s :: s in sets ==> s in SetsOf(members, subwayIds, wsm);
    }
  }

  /** When the map has no empty entry, neither do the sets, so the assertion `len(segment_set) > 0` holds. */
  lemma {:induction false} SetsNonEmpty(members: seq<OsmHandlers.MemberRecord>, subwayIds: set<int>, wsm: WayMap)
    requires forall w :: w in wsm ==> wsm[w] != {}
    ensures forall k :: 0 <= k < |SetsOf(members, subwayIds, wsm)| ==> SetsOf(members, subwayIds, wsm)[k] != {}
  {
    if members != [] {
      SetsNonEmpty(members[..|members| - 1], subwayIds, wsm);
    }
  }

  /** The first loop of `post_init_route`: the segment sets of the route's members. */
  method SegmentSets(members: seq<OsmHandlers.MemberRecord>, subwayIds: set<int>, wsm: WayMap) returns (sets: seq<set<nat>>)
    ensures sets == SetsOf(members, subwayIds, wsm)
  {
    sets := [];
    var i := 0;
    while i < |members|
      invariant 0 <= i <= |members|
      invariant sets == SetsOf(members[..i], subwayIds, wsm)
    {
      var m := members[i];
      assert members[..i + 1][..i] == members[..i] && members[..i + 1][i] == m;
      if m.kind == "w" && m.ref in subwayIds && m.role == "" {
        if m.ref in wsm {
          var waySegments := wsm[m.ref];
          if |sets| == 0 || waySegments != sets[|sets| - 1] {
            sets := sets + [waySegments];
          }
        }
      }
      i := i + 1;
    }
    assert members[..i] == members;
  }

  /** The set's segments are unsplit ones of the network. */
  ghost predicate SetUnsplit<D>(segs: seq<Segment<D>>, s: set<nat>) {
    forall x :: x in s ==> x < |segs| && segs[x].split.None?
  }

  /** Every set in the list is the set of some way, so its segments are unsplit ones of the network. */
  lemma SetsLeaves<D>(members: seq<OsmHandlers.MemberRecord>, subwayIds: set<int>, wsm: WayMap, segs: seq<Segment<D>>)
    requires MapExact(wsm, segs)
    ensures forall k :: 0 <= k < |SetsOf(members, subwayIds, wsm)| ==> SetUnsplit(segs, SetsOf(members, subwayIds, wsm)[k])
  {
    var sets := SetsOf(members, subwayIds, wsm);
    SetsFromUsable(members, subwayIds, wsm);
    forall k | 0 <= k < |sets|
      ensures SetUnsplit(segs, sets[k])
    {
      assert sets[k] in sets;
      assert FromUsable(sets[k], members, subwayIds, wsm);
      var i :| 0 <= i < |members| && Usable(members[i], subwayIds, wsm) && sets[k] == wsm[members[i].ref];
      var wid := members[i].ref;
      forall x | x in sets[k]
        ensures x < |segs| && segs[x].split.None?
      {
        assert x in Get(wsm, wid);
      }
    }
  }

  // ---------------------------------------------------------------------------------------
  // Metro lines

  /** `MetroLineData`; the schedule is kept as its fixed frequency, in seconds. */
  datatype MetroLineData = MetroLineData(name: string, color: Rgb, fixedFrequency: int, speedLimit: int)

  /** `MetroLine`: the line's data and its segments, by position in the network's list. */
  datatype MetroLine = MetroLine(data: MetroLineData, segments: seq<nat>)

  /** `Schedule(60 * 15)`: every line departs every fifteen minutes. */
  const LineFrequency: int := 60 * 15

  /** Why `post_init_route` raises. */
  datatype Failure =
    | AssertionFailed    // one of the linearisation's assertions, or the line's name
    | BrokenLine         // `BrokenMetroLineException`
    | MissingNetworkTag  // the route has no "network" tag where it is read
    | UnrecognizedColor  // `parse_color` raises
    | MissingSpeedLimit  // no speed limit is configured for the line's network

  /** How `post_init_route` ends: no sets, the route skipped, a line added, or an exception. */
  datatype RouteOutcome = NoSets | Skipped | LineAdded | Raised(reason: Failure)

  /** `xs` lists the set `s`, once each, in some order: how a Python set is iterated. */
  ghost predicate Lists(xs: seq<nat>, s: set<nat>) {
    Unique(xs) && forall x :: x in xs <==> x in s
  }

  /** The segments of all the sets. */
  function UnionOf(sets: seq<set<nat>>): set<nat> {
    if sets == [] then {} else UnionOf(sets[..|sets| - 1]) + sets[|sets| - 1]
  }

  /** A segment is in the union exactly when it is in one of the sets. */
  lemma {:induction false} UnionMembers(sets: seq<set<nat>>, x: nat)
    ensures x in UnionOf(sets) <==> exists k :: 0 <= k < |sets| && x in sets[k]
  {
    if sets != [] {
      var init := sets[..|sets| - 1];
      UnionMembers(init, x);
      if x in UnionOf(init) {
        var k :| 0 <= k < |init| && x in init[k];
        assert sets[k] == init[k];
      }
      if exists k :: 0 <= k < |sets| && x in sets[k] {
        var k :| 0 <= k < |sets| && x in sets[k];
        if k < |init| {
          assert init[k] == sets[k];
        }
      }
    }
  }

  /** Every segment of the line is unsplit. */
  predicate Unsplit<D>(segs: seq<Segment<D>>, xs: seq<nat>) {
    forall k :: 0 <= k < |xs| ==> xs[k] < |segs| && segs[xs[k]].split.None?
  }

  /** Each line has segments, all of them unsplit, and consecutive ones share an end point. */
  predicate LinesOk<D>(segs: seq<Segment<D>>, lines: seq<MetroLine>) {
    forall l :: l in lines ==> l.segments != [] && Known(segs, l.segments) && Unsplit(segs, l.segments) && Chained(segs, l.segments)
  }

  /**
   * The end of `post_init_route` once the line is stitched: the name is asserted, a
   * missing colour is black, and the network must have a speed limit.
   */
  function LineOutcome(tags: Tags, toRgba: string -> Option<Rgba>, speedLimits: map<string, int>): (r: RouteOutcome)
    ensures r == LineAdded <==>
      "name" in tags && ParseColor(GenHighways.GetOr(tags, "colour", "#000000"), toRgba).Some? &&
      "network" in tags && tags["network"] in speedLimits
    ensures r != LineAdded ==> r.Raised? && r.reason != BrokenLine
  {
    if "name" !in tags then Raised(AssertionFailed)
    else if ParseColor(GenHighways.GetOr(tags, "colour", "#000000"), toRgba).None? then Raised(UnrecognizedColor)
    else if "network" !in tags then Raised(MissingNetworkTag)
    else if tags["network"] !in speedLimits then Raised(MissingSpeedLimit)
    else LineAdded
  }

  /** A route without a colour gets black, as `#000000` reads. */
  lemma MissingColorIsBlack(tags: Tags, toRgba: string -> Option<Rgba>)
    requires "colour" !in tags
    ensures ParseColor(GenHighways.GetOr(tags, "colour", "#000000"), toRgba) == Some((0, 0, 0))
  {
    DefaultColorIsBlack(toRgba);
  }

  /** The data of the line a route adds. */
  function LineData(tags: Tags, toRgba: string -> Option<Rgba>, speedLimits: map<string, int>): MetroLineData
    requires LineOutcome(tags, toRgba, speedLimits) == LineAdded
  {
    MetroLineData(tags["name"], ParseColor(GenHighways.GetOr(tags, "colour", "#000000"), toRgba).value,
                  LineFrequency, speedLimits[tags["network"]])
  }

  /** The network's segment lists differ only in handles, so lines stay valid. */
  lemma LinesReshaped<D>(segs0: seq<Segment<D>>, segs: seq<Segment<D>>, lines: seq<MetroLine>)
    requires HavePoints(segs0) && SameShape(segs0, segs) && LinesOk(segs0, lines)
    ensures HavePoints(segs) && LinesOk(segs, lines)
  {
    assert HavePoints(segs) by {
      forall i | 0 <= i < |segs|
        ensures |segs[i].points| > 0
      {
        assert segs[i].points == segs0[i].points;
      }
    }
    forall l | l in lines
      ensures l.segments != [] && Known(segs, l.segments) && Unsplit(segs, l.segments) && Chained(segs, l.segments)
    {
      var xs := l.segments;
      forall k | 0 <= k < |xs|
        ensures StartOf(segs, xs[k]) == StartOf(segs0, xs[k]) && EndOf(segs, xs[k]) == EndOf(segs0, xs[k])
        ensures segs[xs[k]].split.None?
      {
        assert segs[xs[k]].points == segs0[xs[k]].points && segs[xs[k]].split == segs0[xs[k]].split;
      }
      forall k | 0 <= k < |xs| - 1
        ensures Touch(segs, xs[k], xs[k + 1])
      {
        assert Touch(segs0, xs[k], xs[k + 1]);
      }
    }
  }

  /**
   * The metro layer (`Metros`): a network with a way-to-segment map, the lines made from the
   * subway routes, and the configuration read from the dataset: the strategy per network
   * (`broken_metro_line_strategies`) and the speed limit per network (`speed_limits`).
   */
  /**
   * How the route loop of `post_init` can end: the routes taken are the first of each id,
   * every outcome but the last is not an exception, and it ends early only on one; without a
   * station nothing is taken.
   */
  ghost predicate RoutesEnded(stations: seq<Station>, routes: seq<OsmHandlers.RelationRecord>, ok: bool,
                              handled: seq<nat>, outcomes: seq<RouteOutcome>)
  {
    && |outcomes| == |handled| && handled <= FirstIndices(routes)
    && (forall k :: 0 <= k < |outcomes| - 1 ==> !outcomes[k].Raised?)
    && (ok ==> handled == FirstIndices(routes) && forall k :: 0 <= k < |outcomes| ==> !outcomes[k].Raised?)
    && (!ok ==> handled == [] || outcomes[|outcomes| - 1].Raised?)
    && (stations == [] ==> !ok && handled == [])
  }

  class Metros {
    const network: Network<MetroData>
    var metroLines: seq<MetroLine>
    const strategies: map<string, Strategy>
    const speedLimits: map<string, int>

    ghost predicate Valid()
      reads this, network
    {
      network.Valid() && network.hasWaySegmentMap && LinesOk(network.segments, metroLines)
    }

    /** `__init__`: a network that keeps its way map, and no lines. */
    constructor (maxDim: int, strategies: map<string, Strategy>, speedLimits: map<string, int>)
      ensures Valid() && fresh(network)
      ensures network.segments == [] && network.maxDim == maxDim && metroLines == []
      ensures this.strategies == strategies && this.speedLimits == speedLimits
    {
      network := new Network(true, maxDim);
      metroLines := [];
      this.strategies := strategies;
      this.speedLimits := speedLimits;
    }

    /**
     * `post_init_route`: the route's segment sets are each laid out as a chain and
     * stitched onto the line so far; a set that cannot be joined drops the route under
     * SKIP and raises otherwise; the finished line is recorded with its name, colour,
     * schedule and speed limit. `listing` is the order in which a set is iterated, and
     * `stitched` is the line when every set was joined. How the route ends is what
     * `RouteResult` gives for the stitching `RouteStitching` specifies.
     */
    method PostInitRoute(route: OsmHandlers.RelationRecord, subwayIds: set<int>,
                         listing: set<nat> -> seq<nat>, toRgba: string -> Option<Rgba>)
      returns (outcome: RouteOutcome, ghost stitched: Option<seq<nat>>)
      requires Valid()
      requires forall s :: Lists(listing(s), s)
      modifies this
      ensures Valid()
      ensures outcome == NoSets <==> SetsOf(route.members, subwayIds, network.waySegmentMap) == []
      ensures outcome != LineAdded ==> metroLines == old(metroLines)
      ensures outcome == Skipped ==> "network" in route.tags && StrategyFor(strategies, route.tags["network"]) == Skip
      ensures outcome == Raised(BrokenLine) ==> "network" in route.tags && StrategyFor(strategies, route.tags["network"]) == Fail
      ensures stitched.Some? ==> outcome == LineOutcome(route.tags, toRgba, speedLimits)
      ensures stitched.Some? ==>
        && stitched.value != [] && Chained(network.segments, stitched.value)
        && forall x :: x in stitched.value <==> x in UnionOf(SetsOf(route.members, subwayIds, network.waySegmentMap))
      ensures stitched.None? && outcome != NoSets ==>
        outcome in {Skipped, Raised(BrokenLine), Raised(MissingNetworkTag), Raised(AssertionFailed)}
      ensures outcome == LineAdded ==>
        metroLines == old(metroLines) + [MetroLine(LineData(route.tags, toRgba, speedLimits), stitched.value)]
      ensures var st := RouteStitching(network.segments, network.waySegmentMap, route.members, subwayIds, listing);
        && (outcome != NoSets ==> outcome == RouteResult(st, route.tags, strategies, toRgba, speedLimits))
        && stitched == if outcome != NoSets && st.Stitched? then Some(st.line) else None
    {
      var segs := network.segments;
      var wsm := network.waySegmentMap;
      var sets := SegmentSets(route.members, subwayIds, wsm);
      stitched := None;
      if |sets| == 0 {
        return NoSets, None;
      }
      var joined := StitchSets(segs, wsm, route.members, subwayIds, sets, listing);
      match joined {
        case Unlinearized =>
          return Raised(AssertionFailed), None;
        case Unjoinable =>
          if "network" !in route.tags {
            return Raised(MissingNetworkTag), None;
          }
          if StrategyFor(strategies, route.tags["network"]) == Skip {
            return Skipped, None;
          }
          return Raised(BrokenLine), None;
        case Stitched(_) =>
      }
      var acc := joined.line;
      stitched := Some(acc);
      outcome := RecordLine(route.tags, acc, toRgba);
    }

    /**
     * The end of `post_init_route` for a stitched line: the name is asserted, a missing
     * colour is black, the network's speed limit is looked up, and the line is appended.
     */
    method RecordLine(tags: Tags, line: seq<nat>, toRgba: string -> Option<Rgba>) returns (outcome: RouteOutcome)
      requires Valid() && line != [] && Known(network.segments, line) && Unsplit(network.segments, line)
      requires Chained(network.segments, line)
      modifies this
      ensures Valid() && outcome == LineOutcome(tags, toRgba, speedLimits)
      ensures metroLines == if outcome == LineAdded then old(metroLines) + [MetroLine(LineData(tags, toRgba, speedLimits), line)]
                            else old(metroLines)
    {
      if "name" !in tags {
        return Raised(AssertionFailed);
      }
      var name := tags["name"];
      var color := GenHighways.GetOr(tags, "colour", "#000000");
      var parsedColor := ParseColor(color, toRgba);
      if parsedColor.None? {
        return Raised(UnrecognizedColor);
      }
      if "network" !in tags {
        return Raised(MissingNetworkTag);
      }
      var metroNetwork := tags["network"];
      if metroNetwork !in speedLimits {
        return Raised(MissingSpeedLimit);
      }
      var data := MetroLineData(name, parsedColor.value, LineFrequency, speedLimits[metroNetwork]);
      metroLines := metroLines + [MetroLine(data, line)];
      outcome := LineAdded;
    }

    /**
     * `post_init`: the network is built from the subways and the stop nodes, then every
     * route whose id was not seen before is turned into a line; an exception stops it.
     * `handled` lists the positions of the routes taken and `outcomes` how each ended.
     * The loop over the stations leaves its variables bound only when there is a station,
     * so without one `del station` raises before any route is taken.
     */
    method PostInit(subways: seq<Subway>, parseSpeed: string -> Option<int>, queries: seq<NodeQuery<MetroData>>, steps: nat,
                    stations: seq<Station>, routes: seq<OsmHandlers.RelationRecord>, listing: set<nat> -> seq<nat>,
                    toRgba: string -> Option<Rgba>)
      returns (ok: bool, handled: seq<nat>, outcomes: seq<RouteOutcome>)
      requires Valid() && network.segments == [] && metroLines == []
      requires forall s :: Lists(listing(s), s)
      modifies this, network
      ensures Valid()
      ensures RoutesEnded(stations, routes, ok, handled, outcomes)
      ensures network.Now() == Constructed(true, old(network.Now()), MetroWays(subways, parseSpeed), queries, network.maxDim, steps).1
      ensures ok ==> Constructed(true, old(network.Now()), MetroWays(subways, parseSpeed), queries, network.maxDim, steps).0
    {
      ok := BuildNetwork(MetroWays(subways, parseSpeed), queries, steps);
      ghost var built := network.Now();
      handled, outcomes := [], [];
      if ok {
        ok, handled, outcomes := HandleRoutes(stations, SubwayIds(subways), routes, listing, toRgba);
      }
      assert network.Now() == built;
    }

    /** What `post_init` does once the network is built: nothing without stations, the routes otherwise. */
    method HandleRoutes(stations: seq<Station>, subwayIds: set<int>, routes: seq<OsmHandlers.RelationRecord>,
                        listing: set<nat> -> seq<nat>, toRgba: string -> Option<Rgba>)
      returns (ok: bool, handled: seq<nat>, outcomes: seq<RouteOutcome>)
      requires Valid()
      requires forall s :: Lists(listing(s), s)
      modifies this
      ensures Valid()
      ensures RoutesEnded(stations, routes, ok, handled, outcomes)
    {
      if stations == [] {
        return false, [], [];
      }
      ok, handled, outcomes := PostInitRoutes(subwayIds, routes, listing, toRgba);
    }

    /** The first step of `post_init`: `construct_data` on the subway ways and the stop nodes. */
    method BuildNetwork(ways: seq<InputWay<MetroData>>, queries: seq<NodeQuery<MetroData>>, steps: nat) returns (ok: bool)
      requires Valid() && network.segments == [] && metroLines == []
      modifies network
      ensures Valid() && metroLines == []
      ensures (ok, network.Now()) == Constructed(true, old(network.Now()), ways, queries, network.maxDim, steps)
    {
      ok := network.ConstructData(ways, queries, steps);
    }

    /** The loop of `post_init` over the relations: the first route of each id, until one raises. */
    method PostInitRoutes(subwayIds: set<int>, routes: seq<OsmHandlers.RelationRecord>, listing: set<nat> -> seq<nat>,
                          toRgba: string -> Option<Rgba>)
      returns (ok: bool, handled: seq<nat>, outcomes: seq<RouteOutcome>)
      requires Valid()
      requires forall s :: Lists(listing(s), s)
      modifies this
      ensures Valid()
      ensures |outcomes| == |handled| && handled <= FirstIndices(routes)
      ensures forall k :: 0 <= k < |outcomes| - 1 ==> !outcomes[k].Raised?
      ensures ok ==> handled == FirstIndices(routes) && forall k :: 0 <= k < |outcomes| ==> !outcomes[k].Raised?
      ensures !ok ==> outcomes != [] && outcomes[|outcomes| - 1].Raised?
    {
      handled, outcomes := [], [];
      var seen: set<int> := {};
      var i := 0;
      while i < |routes|
        invariant 0 <= i <= |routes| && Valid()
        invariant seen == IdsOf(routes[..i]) && handled == FirstIndices(routes[..i]) && |outcomes| == |handled|
        invariant forall k :: 0 <= k < |outcomes| ==> !outcomes[k].Raised?
      {
        FirstIndicesStep(routes, i);
        if routes[i].id !in seen {
          seen := seen + {routes[i].id};
          var outcome, _ := PostInitRoute(routes[i], subwayIds, listing, toRgba);
          handled, outcomes := handled + [i], outcomes + [outcome];
          if outcome.Raised? {
            FirstIndicesPrefix(routes, i + 1);
            return false, handled, outcomes;
          }
        }
        i := i + 1;
      }
      assert routes[..i] == routes;
      return true, handled, outcomes;
    }

    /**
     * `modify_state`: the network's junctions and segments are baked, then each line is
     * added with the handles of its segments, which are all present, so the assertion
     * `segment.handle is not None` holds. The engine's `validate_metro_lines` is not
     * part of this model.
     */
    method ModifyState(junctionIds: nat -> int, segmentIds: nat -> int)
      returns (calls: seq<JunctionCall<MetroData>>, bakes: seq<SegmentCall<MetroData>>, ghost memo: map<Point, nat>,
               lineCalls: seq<(MetroLineData, seq<int>)>, ok: bool)
      requires Valid()
      modifies network
      ensures Valid() && SameShape(old(network.segments), network.segments)
      ensures ok <==> forall p :: p in EndpointsOf(old(network.segments)) ==> InBounds(p, network.maxDim)
      ensures ok ==> BakedAll(old(network.segments), network.segments, bakes, memo, junctionIds, segmentIds)
      ensures ok ==> |lineCalls| == |metroLines|
      ensures ok ==> forall k :: 0 <= k < |lineCalls| ==>
        && lineCalls[k].0 == metroLines[k].data
        && HandlesOf(network.segments, metroLines[k].segments, lineCalls[k].1)
      ensures !ok ==> lineCalls == []
    {
      ghost var segs0 := network.segments;
      calls, bakes, memo, ok := network.ModifyState(junctionIds, segmentIds);
      LinesReshaped(segs0, network.segments, metroLines);
      lineCalls := [];
      if !ok {
        return;
      }
      forall k | 0 <= k < |metroLines|
        ensures forall m :: 0 <= m < |metroLines[k].segments| ==>
          metroLines[k].segments[m] < |network.segments| && network.segments[metroLines[k].segments[m]].handle.Some?
      {
        LineHandles(segs0, network.segments, bakes, memo, junctionIds, segmentIds, metroLines[k].segments);
      }
      lineCalls := LineCalls(network.segments, metroLines);
    }
  }

  /** The calls `modify_state` makes to add the lines, one per line with its data and its segments' handles. */
  method LineCalls<D>(segs: seq<Segment<D>>, lines: seq<MetroLine>) returns (lineCalls: seq<(MetroLineData, seq<int>)>)
    requires forall k, m :: 0 <= k < |lines| && 0 <= m < |lines[k].segments| ==>
      lines[k].segments[m] < |segs| && segs[lines[k].segments[m]].handle.Some?
    ensures |lineCalls| == |lines|
    ensures forall k :: 0 <= k < |lineCalls| ==> lineCalls[k].0 == lines[k].data && HandlesOf(segs, lines[k].segments, lineCalls[k].1)
  {
    lineCalls := [];
    var i := 0;
    while i < |lines|
      invariant 0 <= i <= |lines| && |lineCalls| == i
      invariant forall k :: 0 <= k < i ==> lineCalls[k].0 == lines[k].data && HandlesOf(segs, lines[k].segments, lineCalls[k].1)
    {
      var handles := SegmentHandles(segs, lines[i].segments);
      lineCalls := lineCalls + [(lines[i].data, handles)];
      i := i + 1;
    }
  }

  /** `hs` are the handles of the line's segments, in order. */
  predicate HandlesOf<D>(segs: seq<Segment<D>>, xs: seq<nat>, hs: seq<int>) {
    |hs| == |xs| && forall m :: 0 <= m < |xs| ==> xs[m] < |segs| && segs[xs[m]].handle == Some(hs[m])
  }

  /** The inner loop of `modify_state`: the handles of a line's segments, each asserted present. */
  method SegmentHandles<D>(segs: seq<Segment<D>>, xs: seq<nat>) returns (hs: seq<int>)
    requires forall m :: 0 <= m < |xs| ==> xs[m] < |segs| && segs[xs[m]].handle.Some?
    ensures HandlesOf(segs, xs, hs)
  {
    hs := [];
    var m := 0;
    while m < |xs|
      invariant 0 <= m <= |xs| && |hs| == m
      invariant forall k :: 0 <= k < m ==> segs[xs[k]].handle == Some(hs[k])
    {
      hs := hs + [segs[xs[m]].handle.value];
      m := m + 1;
    }
  }

  /** A line's segments are unsplit, so after baking each holds a handle. */
  lemma LineHandles<D>(segs0: seq<Segment<D>>, segs: seq<Segment<D>>, bakes: seq<SegmentCall<D>>, memo: map<Point, nat>,
                       junctionIds: nat -> int, segmentIds: nat -> int, xs: seq<nat>)
    requires HavePoints(segs0) && BakedAll(segs0, segs, bakes, memo, junctionIds, segmentIds) && Unsplit(segs0, xs)
    ensures forall m :: 0 <= m < |xs| ==> xs[m] < |segs| && segs[xs[m]].handle.Some?
  {
    forall m | 0 <= m < |xs|
      ensures xs[m] < |segs| && segs[xs[m]].handle.Some?
    {
      BakedHandles(segs0, segs, bakes, memo, junctionIds, segmentIds, xs[m]);
    }
  }

  /** The ids of `osm.subway_map`. */
  function SubwayIds(subways: seq<Subway>): set<int> {
    set k | 0 <= k < |subways| :: subways[k].id
  }

  /** The ids of the routes. */
  function IdsOf(routes: seq<OsmHandlers.RelationRecord>): set<int> {
    set k | 0 <= k < |routes| :: routes[k].id
  }

  /** The positions of the routes `post_init` takes: each one whose id no earlier route has. */
  function FirstIndices(routes: seq<OsmHandlers.RelationRecord>): seq<nat> {
    if routes == [] then []
    else
      var init := routes[..|routes| - 1];
      FirstIndices(init) + if routes[|routes| - 1].id in IdsOf(init) then [] else [|routes| - 1]
  }

  lemma FirstIndicesStep(routes: seq<OsmHandlers.RelationRecord>, i: nat)
    requires i < |routes|
    ensures FirstIndices(routes[..i + 1]) == FirstIndices(routes[..i]) + if routes[i].id in IdsOf(routes[..i]) then [] else [i]
    ensures IdsOf(routes[..i + 1]) == IdsOf(routes[..i]) + {routes[i].id}
  {
    var r := routes[..i + 1];
    assert r[..i] == routes[..i] && r[i] == routes[i];
    assert forall k :: 0 <= k < i ==> r[k] == routes[k];
  }

  /** The routes taken form a prefix for every prefix of the routes. */
  lemma {:induction false} FirstIndicesPrefix(routes: seq<OsmHandlers.RelationRecord>, n: nat)
    requires n <= |routes|
    ensures FirstIndices(routes[..n]) <= FirstIndices(routes)
    decreases |routes| - n
  {
    if n < |routes| {
      FirstIndicesStep(routes, n);
      FirstIndicesPrefix(routes, n + 1);
    } else {
      assert routes[..n] == routes;
    }
  }

  /** Every id of the routes is taken, at some route that carries it. */
  lemma {:induction false} FirstIndicesCover(routes: seq<OsmHandlers.RelationRecord>, id: int)
    requires id in IdsOf(routes)
    ensures exists j :: 0 <= j < |FirstIndices(routes)| && FirstIndices(routes)[j] < |routes| && routes[FirstIndices(routes)[j]].id == id
  {
    var init := routes[..|routes| - 1];
    var fi := FirstIndices(routes);
    if id in IdsOf(init) {
      FirstIndicesCover(init, id);
      var j :| 0 <= j < |FirstIndices(init)| && FirstIndices(init)[j] < |init| && init[FirstIndices(init)[j]].id == id;
      assert fi[j] == FirstIndices(init)[j];
    } else {
      var k :| 0 <= k < |routes| && routes[k].id == id;
      assert k == |routes| - 1;
      assert fi[|fi| - 1] == |routes| - 1;
    }
  }

  /** Routes taken have ids that no earlier route has, and every id is taken at its first route. */
  lemma {:induction false} FirstIndicesFirst(routes: seq<OsmHandlers.RelationRecord>)
    ensures forall j :: 0 <= j < |FirstIndices(routes)| ==>
      FirstIndices(routes)[j] < |routes| && routes[FirstIndices(routes)[j]].id !in IdsOf(routes[..FirstIndices(routes)[j]])
  {
    if routes != [] {
      var init := routes[..|routes| - 1];
      FirstIndicesFirst(init);
      var fi := FirstIndices(routes);
      forall j | 0 <= j < |fi|
        ensures fi[j] < |routes| && routes[fi[j]].id !in IdsOf(routes[..fi[j]])
      {
        if j < |FirstIndices(init)| {
          var x := fi[j];
          assert x == FirstIndices(init)[j] && x < |init|;
          assert routes[..x] == init[..x] && routes[x] == init[x];
        } else {
          assert routes[..|routes| - 1] == init;
        }
      }
    }
  }

  datatype Stitching = Stitched(line: seq<nat>) | Unlinearized | Unjoinable

  /** Each set is listed by `listing`, and its segments are unsplit ones of the network. */
  ghost predicate SetsReady<D>(segs: seq<Segment<D>>, sets: seq<set<nat>>, listing: set<nat> -> seq<nat>) {
    HavePoints(segs) && forall k :: 0 <= k < |sets| ==> SetReady(segs, sets[k], listing)
  }

  /** The set's segments are unsplit ones of the network, and `listing` lists it. */
  ghost predicate SetReady<D>(segs: seq<Segment<D>>, s: set<nat>, listing: set<nat> -> seq<nat>) {
    SetUnsplit(segs, s) && s != {} && Lists(listing(s), s)
  }

  /** A chain of the segments of the set `s`, each once, as long as the set. */
  ghost predicate LinFits<D>(segs: seq<Segment<D>>, s: set<nat>, lin: seq<nat>) {
    Known(segs, lin) && Chained(segs, lin) && |lin| == |s| && lin != [] && forall x :: x in lin <==> x in s
  }

  /**
   * The loop of `post_init_route` over the segment sets from set `i` on, with the line `acc`
   * so far: each set, in the order `listing` gives, is linearised and its chain joined to
   * the line. It ends at the first set whose linearisation fails or that no rule joins.
   */
  ghost function StitchFrom<D>(segs: seq<Segment<D>>, sets: seq<set<nat>>, listing: set<nat> -> seq<nat>, i: nat, acc: seq<nat>)
    : Stitching
    requires SetsReady(segs, sets, listing) && i <= |sets| && Joinable(segs, sets, i, acc)
    decreases |sets| - i, 3
  {
    if i == |sets| then Stitched(acc)
    else StitchSet(segs, sets, listing, i, acc)
  }

  /** The turn for set `i`, iterated in the order `listing` gives. */
  ghost function StitchSet<D>(segs: seq<Segment<D>>, sets: seq<set<nat>>, listing: set<nat> -> seq<nat>, i: nat, acc: seq<nat>)
    : Stitching
    requires SetsReady(segs, sets, listing) && i < |sets| && Joinable(segs, sets, i, acc)
    decreases |sets| - i, 2
  {
    assert SetReady(segs, sets[i], listing);
    StitchListed(segs, sets, listing, i, acc, listing(sets[i]))
  }

  /** The turn for set `i` listed as `order`: no line if it does not linearise, and its chain joined to the line so far otherwise. */
  ghost function StitchListed<D>(segs: seq<Segment<D>>, sets: seq<set<nat>>, listing: set<nat> -> seq<nat>, i: nat, acc: seq<nat>,
                                 order: seq<nat>): Stitching
    requires SetsReady(segs, sets, listing) && i < |sets| && Joinable(segs, sets, i, acc)
    requires SetUnsplit(segs, sets[i]) && sets[i] != {} && Lists(order, sets[i])
    decreases |sets| - i, 1
  {
    ListedSet(segs, order, sets[i]);
    match Linearized(segs, order)
    case None => Unlinearized
    case Some(lin) => StitchChain(segs, sets, listing, i, acc, lin)
  }

  /** The chain `lin` of set `i` joined to the line so far, after which the loop goes on from the next set; no line if no rule joins it. */
  ghost function StitchChain<D>(segs: seq<Segment<D>>, sets: seq<set<nat>>, listing: set<nat> -> seq<nat>, i: nat, acc: seq<nat>,
                                lin: seq<nat>): Stitching
    requires SetsReady(segs, sets, listing) && i < |sets| && Joinable(segs, sets, i, acc) && LinFits(segs, sets[i], lin)
    decreases |sets| - i, 0
  {
    var st := Joined(segs, sets, i, acc, lin);
    if st.Stitched? then StitchFrom(segs, sets, listing, i + 1, st.line) else st
  }

  /** What a turn of the loop needs of the line so far: known segments, empty before the first set, at least as long as the last set. */
  ghost predicate Joinable<D>(segs: seq<Segment<D>>, sets: seq<set<nat>>, i: nat, acc: seq<nat>)
    requires i <= |sets|
  {
    Known(segs, acc) && (i == 0 ==> acc == []) && (i > 0 ==> 1 <= |sets[i - 1]| <= |acc|)
  }

  /** The chain `lin` of set `i` joined to the line so far by `StitchStep`: a line the next turn can join to, or no line. */
  ghost function Joined<D>(segs: seq<Segment<D>>, sets: seq<set<nat>>, i: nat, acc: seq<nat>, lin: seq<nat>): (r: Stitching)
    requires i < |sets| && Joinable(segs, sets, i, acc) && LinFits(segs, sets[i], lin)
    ensures r.Stitched? ==> Joinable(segs, sets, i + 1, r.line)
    ensures !r.Stitched? ==> r == Unjoinable
  {
    var prevLen := if i == 0 then 0 else |sets[i - 1]|;
    var next := StitchStep(segs, acc, lin, i, prevLen);
    if next.None? then Unjoinable else Stitched(next.value)
  }

  /**
   * One turn of the loop unrolled: where set `i`, listed by `listing`, does not linearise the
   * loop ends with no line; otherwise its chain is joined to the line so far.
   */
  lemma StitchFromTurn<D>(segs: seq<Segment<D>>, sets: seq<set<nat>>, listing: set<nat> -> seq<nat>, i: nat, acc: seq<nat>)
    requires SetsReady(segs, sets, listing) && i < |sets| && Joinable(segs, sets, i, acc)
    ensures Known(segs, listing(sets[i])) && Unique(listing(sets[i]))
    ensures Linearized(segs, listing(sets[i])).None? ==> StitchFrom(segs, sets, listing, i, acc) == Unlinearized
    ensures Linearized(segs, listing(sets[i])).Some? ==> LinFits(segs, sets[i], Linearized(segs, listing(sets[i])).value)
    ensures Linearized(segs, listing(sets[i])).Some? ==>
      StitchFrom(segs, sets, listing, i, acc) == StitchChain(segs, sets, listing, i, acc, Linearized(segs, listing(sets[i])).value)
  {
    assert SetReady(segs, sets[i], listing);
    ListedSet(segs, listing(sets[i]), sets[i]);
    assert StitchFrom(segs, sets, listing, i, acc) == StitchSet(segs, sets, listing, i, acc);
    assert StitchSet(segs, sets, listing, i, acc) == StitchListed(segs, sets, listing, i, acc, listing(sets[i]));
    var lin := Linearized(segs, listing(sets[i]));
    if lin.Some? {
      assert StitchListed(segs, sets, listing, i, acc, listing(sets[i])) == StitchChain(segs, sets, listing, i, acc, lin.value);
    }
  }

  /**
   * The turn for set `i` of a loop that stitches `r`: a line that keeps the line so far and
   * from which the loop goes on to `r`, or the end of the loop, with no line.
   */
  lemma StitchTurn<D>(segs: seq<Segment<D>>, sets: seq<set<nat>>, listing: set<nat> -> seq<nat>, i: nat, acc: seq<nat>, r: Stitching)
    returns (st: Stitching)
    requires SetsReady(segs, sets, listing) && i < |sets| && SoFar(segs, sets, i, acc)
    requires r == StitchFrom(segs, sets, listing, i, acc)
    ensures st.Stitched? ==> SoFar(segs, sets, i + 1, st.line)
    ensures st.Stitched? ==> r == StitchFrom(segs, sets, listing, i + 1, st.line)
    ensures !st.Stitched? ==> !r.Stitched?
  {
    StitchFromTurn(segs, sets, listing, i, acc);
    assert SetReady(segs, sets[i], listing);
    var lin := Linearized(segs, listing(sets[i]));
    if lin.Some? {
      var prevLen := if i == 0 then 0 else |sets[i - 1]|;
      st := Joined(segs, sets, i, acc, lin.value);
      if st.Stitched? {
        JoinKeeps(segs, sets, i, acc, lin.value, prevLen);
      }
    } else {
      st := Unlinearized;
    }
  }

  /** The stitching of one route's segment sets. */
  ghost function RouteStitching<D>(segs: seq<Segment<D>>, wsm: WayMap, members: seq<OsmHandlers.MemberRecord>, subwayIds: set<int>,
                                  listing: set<nat> -> seq<nat>): Stitching
    requires HavePoints(segs) && MapExact(wsm, segs) && forall s :: Lists(listing(s), s)
  {
    var sets := SetsOf(members, subwayIds, wsm);
    SetsNonEmpty(members, subwayIds, wsm);
    SetsLeaves(members, subwayIds, wsm, segs);
    assert SetsReady(segs, sets, listing);
    StitchFrom(segs, sets, listing, 0, [])
  }

  /**
   * How `post_init_route` ends once its sets are stitched: a failed linearisation is a failed
   * assertion; a set no rule joins reads the route's network, which drops the route under
   * SKIP and raises `BrokenMetroLineException` otherwise; a stitched line is recorded.
   */
  function RouteResult(st: Stitching, tags: Tags, strategies: map<string, Strategy>, toRgba: string -> Option<Rgba>,
                       speedLimits: map<string, int>): (r: RouteOutcome)
    ensures r == Skipped ==> st.Unjoinable? && "network" in tags && StrategyFor(strategies, tags["network"]) == Skip
    ensures r == Raised(BrokenLine) ==> st.Unjoinable? && "network" in tags && StrategyFor(strategies, tags["network"]) == Fail
    ensures r == LineAdded <==> st.Stitched? && LineOutcome(tags, toRgba, speedLimits) == LineAdded
    ensures r != NoSets
  {
    match st
    case Unlinearized => Raised(AssertionFailed)
    case Unjoinable =>
      if "network" !in tags then Raised(MissingNetworkTag)
      else if StrategyFor(strategies, tags["network"]) == Skip then Skipped
      else Raised(BrokenLine)
    case Stitched(_) => LineOutcome(tags, toRgba, speedLimits)
  }

  /**
   * The loop of `post_init_route` over the segment sets: each is linearised, in the order
   * `listing` gives, and joined to the line so far. It stops at a set that fails to
   * linearise (an assertion of the source) or that no rule joins.
   */
  method StitchSets<D>(segs: seq<Segment<D>>, wsm: WayMap, members: seq<OsmHandlers.MemberRecord>, subwayIds: set<int>,
                       sets: seq<set<nat>>, listing: set<nat> -> seq<nat>)
    returns (r: Stitching)
    requires HavePoints(segs) && MapExact(wsm, segs) && sets == SetsOf(members, subwayIds, wsm) && sets != []
    requires forall s :: Lists(listing(s), s)
    ensures r == RouteStitching(segs, wsm, members, subwayIds, listing)
    ensures r.Stitched? ==> r.line != [] && Known(segs, r.line) && Unsplit(segs, r.line) && Chained(segs, r.line)
    ensures r.Stitched? ==> forall x :: x in r.line <==> x in UnionOf(sets)
  {
    SetsNonEmpty(members, subwayIds, wsm);
    SetsLeaves(members, subwayIds, wsm, segs);
    assert SetsReady(segs, sets, listing);
    r := StitchLoop(segs, sets, listing);
  }

  /** The stitching loop itself, over sets ready to be linearised. */
  method StitchLoop<D>(segs: seq<Segment<D>>, sets: seq<set<nat>>, listing: set<nat> -> seq<nat>) returns (r: Stitching)
    requires SetsReady(segs, sets, listing)
    ensures r == StitchFrom(segs, sets, listing, 0, [])
    ensures r.Stitched? ==> Known(segs, r.line) && Unsplit(segs, r.line) && Chained(segs, r.line)
    ensures r.Stitched? ==> (r.line == [] <==> sets == []) && forall x :: x in r.line <==> x in UnionOf(sets)
  {
    var acc: seq<nat> := [];
    var i := 0;
    while i < |sets|
      invariant 0 <= i <= |sets| && Joinable(segs, sets, i, acc)
      invariant StitchFrom(segs, sets, listing, i, acc) == StitchFrom(segs, sets, listing, 0, [])
    {
      var step := StitchNext(segs, sets, i, acc, listing);
      if !step.Stitched? {
        return step;
      }
      acc := step.line;
      i := i + 1;
    }
    r := Stitched(acc);
    SoFarStart(segs, sets);
    StitchedLine(segs, sets, listing, 0, [], r);
  }

  /**
   * One pass of the stitching loop: linearises set `i` and joins its chain to the line so far.
   * A line that stitched is where the loop goes on with the next set; no line is where it ends.
   */
  method StitchNext<D>(segs: seq<Segment<D>>, sets: seq<set<nat>>, i: nat, acc: seq<nat>, listing: set<nat> -> seq<nat>)
    returns (r: Stitching)
    requires SetsReady(segs, sets, listing) && i < |sets| && Joinable(segs, sets, i, acc)
    ensures r.Stitched? ==> Joinable(segs, sets, i + 1, r.line)
    ensures r.Stitched? ==> StitchFrom(segs, sets, listing, i, acc) == StitchFrom(segs, sets, listing, i + 1, r.line)
    ensures !r.Stitched? ==> r == StitchFrom(segs, sets, listing, i, acc)
  {
    StitchFromTurn(segs, sets, listing, i, acc);
    var lin := Linearize(segs, listing(sets[i]));
    if lin.None? {
      return Unlinearized;
    }
    var prevLen := if i == 0 then 0 else |sets[i - 1]|;
    var next := StitchStep(segs, acc, lin.value, i, prevLen);
    if next.None? {
      return Unjoinable;
    }
    return Stitched(next.value);
  }

  /** A stitched line is a chain of unsplit segments of the network holding exactly the segments of the sets, empty only when there are none. */
  ghost predicate LineOfSets<D>(segs: seq<Segment<D>>, sets: seq<set<nat>>, r: Stitching) {
    r.Stitched? ==> Known(segs, r.line) && Unsplit(segs, r.line) && Chained(segs, r.line)
                    && (r.line == [] <==> sets == []) && forall x :: x in r.line <==> x in UnionOf(sets)
  }

  /**
   * Whatever line the loop stitches from a line so far is a chain of unsplit segments of the
   * network holding exactly the segments of all the sets, empty only when there are none.
   */
  lemma {:induction false} StitchedLine<D>(segs: seq<Segment<D>>, sets: seq<set<nat>>, listing: set<nat> -> seq<nat>, i: nat, acc: seq<nat>,
                                           r: Stitching)
    requires SetsReady(segs, sets, listing)
    requires i <= |sets| && SoFar(segs, sets, i, acc)
    requires r == StitchFrom(segs, sets, listing, i, acc)
    decreases |sets| - i, 1
    ensures LineOfSets(segs, sets, r)
  {
    if i == |sets| {
      StitchedAll(segs, sets, listing, acc, r);
    } else {
      StitchedOn(segs, sets, listing, i, acc, r);
    }
  }

  /** Once every set is stitched, the line so far is the line. */
  lemma StitchedAll<D>(segs: seq<Segment<D>>, sets: seq<set<nat>>, listing: set<nat> -> seq<nat>, acc: seq<nat>, r: Stitching)
    requires SetsReady(segs, sets, listing) && SoFar(segs, sets, |sets|, acc)
    requires r == StitchFrom(segs, sets, listing, |sets|, acc)
    ensures LineOfSets(segs, sets, r)
  {
    assert sets[..|sets|] == sets;
  }

  /**
   * A turn that stitches keeps the line so far, and the loop goes on with the next set; one
   * that does not is where the loop ends, with no line.
   */
  lemma {:induction false} StitchedOn<D>(segs: seq<Segment<D>>, sets: seq<set<nat>>, listing: set<nat> -> seq<nat>, i: nat, acc: seq<nat>,
                                         r: Stitching)
    requires SetsReady(segs, sets, listing)
    requires i < |sets| && SoFar(segs, sets, i, acc)
    requires r == StitchFrom(segs, sets, listing, i, acc)
    decreases |sets| - i, 0
    ensures LineOfSets(segs, sets, r)
  {
    var st := StitchTurn(segs, sets, listing, i, acc, r);
    if st.Stitched? {
      StitchedLine(segs, sets, listing, i + 1, st.line, r);
    }
  }

  /** The line after `i` sets: a chain of unsplit segments holding just the segments of those sets. */
  ghost predicate SoFar<D>(segs: seq<Segment<D>>, sets: seq<set<nat>>, i: nat, acc: seq<nat>)
    requires i <= |sets|
  {
    && Known(segs, acc) && Unsplit(segs, acc) && Chained(segs, acc)
    && (forall x :: x in acc <==> x in UnionOf(sets[..i]))
    && (i == 0 <==> acc == [])
    && (i > 0 ==> 1 <= |sets[i - 1]| <= |acc|)
  }

  lemma SoFarStart<D>(segs: seq<Segment<D>>, sets: seq<set<nat>>)
    requires HavePoints(segs)
    ensures SoFar(segs, sets, 0, [])
  {
    assert sets[..0] == [];
  }

  /** Joining the chain of set `i` keeps the line so far. */
  lemma JoinKeeps<D>(segs: seq<Segment<D>>, sets: seq<set<nat>>, i: nat, acc: seq<nat>, lin: seq<nat>, prevLen: nat)
    requires i < |sets| && SoFar(segs, sets, i, acc) && SetUnsplit(segs, sets[i])
    requires prevLen == if i == 0 then 0 else |sets[i - 1]|
    requires Known(segs, lin) && Chained(segs, lin) && |lin| == |sets[i]| >= 1
    requires forall x :: x in lin <==> x in sets[i]
    requires StitchStep(segs, acc, lin, i, prevLen).Some?
    ensures SoFar(segs, sets, i + 1, StitchStep(segs, acc, lin, i, prevLen).value)
  {
    var next := StitchStep(segs, acc, lin, i, prevLen).value;
    assert Chained(segs, next) by {
      StitchChained(segs, acc, lin, i, prevLen);
    }
    assert forall x :: x in next <==> x in acc || x in lin;
    StitchExtends(sets, i, acc, lin, next);
    UnsplitJoin(segs, acc, sets[i], next);
  }

  lemma UnsplitJoin<D>(segs: seq<Segment<D>>, acc: seq<nat>, s: set<nat>, next: seq<nat>)
    requires Unsplit(segs, acc) && SetUnsplit(segs, s)
    requires forall x :: x in next ==> x in acc || x in s
    ensures Unsplit(segs, next)
  {
    forall k | 0 <= k < |next|
      ensures next[k] < |segs| && segs[next[k]].split.None?
    {
      assert next[k] in next;
      if next[k] in acc {
        var m :| 0 <= m < |acc| && acc[m] == next[k];
      }
    }
  }

  /** A listing of a non-empty set of unsplit segments can be linearised, and is as long as the set. */
  lemma ListedSet<D>(segs: seq<Segment<D>>, order: seq<nat>, s: set<nat>)
    requires HavePoints(segs) && Lists(order, s) && SetUnsplit(segs, s) && s != {}
    ensures Known(segs, order) && Unique(order) && |order| == |s| >= 1
    ensures forall x :: x in order <==> x in s
  {
    UniqueListing(order, s);
    forall k | 0 <= k < |order|
      ensures order[k] < |segs|
    {
      assert order[k] in s;
    }
  }

  /** The stitched line covers the sets so far when the next chain lists the next set. */
  lemma StitchExtends(sets: seq<set<nat>>, i: nat, acc: seq<nat>, lin: seq<nat>, next: seq<nat>)
    requires i < |sets|
    requires forall x :: x in acc <==> x in UnionOf(sets[..i])
    requires forall x :: x in lin <==> x in sets[i]
    requires forall x :: x in next <==> x in acc || x in lin
    ensures forall x :: x in next <==> x in UnionOf(sets[..i + 1])
  {
    assert sets[..i + 1][..i] == sets[..i];
  }
}
