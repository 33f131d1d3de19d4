/**
 * The generator's highway layer (generate/highways.py): the parsers of a way's OSM tags,
 * and `modify_state`, which indexes the motorways and trunks by their rounded end points,
 * walks from every junction along the ways leaving it, cuts the walks into segments
 * wherever the segment data changes or the line leaves the region, and hands the
 * junctions and segments to the engine's state, one junction per point.
 */
module GenHighways {
  import opened Wrappers
  import opened Points
  import opened PyText
  import opened Walks
  import Layers
  import OsmHandlers
  import GenNetworks

  type Tags = OsmHandlers.Tags

  /** `tags.get(key, default)`. */
  function GetOr(tags: Tags, key: string, default: string): string {
    if key in tags then tags[key] else default
  }

  /** `parse_ref`: None without a `ref` tag, otherwise its `;`-separated parts. */
  function ParseRef(tags: Tags): (r: Option<seq<string>>)
    ensures r.None? <==> "ref" !in tags
    ensures r.Some? ==> |r.value| >= 1 && forall i :: 0 <= i < |r.value| ==> ';' !in r.value[i]
    ensures r.Some? ==> Join(r.value, ';') == tags["ref"]
  {
    if "ref" in tags then
      JoinSplit(tags["ref"], ';');
      Some(Split(tags["ref"], ';'))
    else None
  }

  /** Refs written out joined by `;` are read back one by one. */
  lemma ParseRefJoin(tags: Tags, refs: seq<string>)
    requires |refs| >= 1 && forall i :: 0 <= i < |refs| ==> ';' !in refs[i]
    requires "ref" in tags && tags["ref"] == Join(refs, ';')
    ensures ParseRef(tags) == Some(refs)
  {
    SplitJoin(refs, ';');
  }

  /** The text `parse_lanes` reads: `lanes`, or else `forward;backward` from the two directional tags. */
  function LanesText(tags: Tags): Option<string> {
    if "lanes" in tags then Some(tags["lanes"])
    else if "lanes:forward" in tags && "lanes:backward" in tags then Some(tags["lanes:forward"] + ";" + tags["lanes:backward"])
    else None
  }

  /** `sum([int(s.strip()) for s in parts])`: None when some part is not an integer. */
  function SumParts(parts: seq<string>): (r: Option<int>)
    ensures r.Some? <==> forall i :: 0 <= i < |parts| ==> ParseInt(Strip(parts[i]), 10).Some?
  {
    if parts == [] then Some(0)
    else
      match (ParseInt(Strip(parts[0]), 10), SumParts(parts[1..]))
      case (Some(a), Some(b)) => Some(a + b)
      case (None, _) => None
      case (_, None) =>
        assert forall i :: 1 <= i < |parts| ==> parts[1..][i - 1] == parts[i];
        None
  }

  /**
   * `parse_lanes`: the number of lanes, the sum of the `;`-separated integers of the lane
   * text, when that sum is positive; None without lane tags, on a part that is not an
   * integer, or on a sum that is not positive.
   */
  function ParseLanes(tags: Tags): (r: Option<int>)
    ensures r.Some? ==> r.value > 0
    ensures LanesText(tags).None? ==> r.None?
    ensures r.Some? ==> LanesText(tags).Some? && SumParts(Split(LanesText(tags).value, ';')) == r
  {
    match LanesText(tags)
    case None => None
    case Some(text) =>
      match SumParts(Split(text, ';'))
      case Some(total) => if total > 0 then Some(total) else None
      case None => None
  }

  /** The digits of a number contain no separator and no white space. */
  lemma ShowPlain(n: nat)
    ensures ';' !in Show(n, 10) && Strip(Show(n, 10)) == Show(n, 10)
    ensures ParseInt(Strip(Show(n, 10)), 10) == Some(n)
  {
    var s := Show(n, 10);
    DigitsAreNotMarks(s, 10);
    assert forall k :: 0 <= k < |s| ==> s[k] != ';' by {
      forall k | 0 <= k < |s|
        ensures s[k] != ';'
      {
        assert s[k] in s;
      }
    }
    ParseShow(n, 10);
  }

  /** A positive `lanes` count is read back as written. */
  lemma ParseLanesPlain(tags: Tags, n: nat)
    requires n > 0 && "lanes" in tags && tags["lanes"] == Show(n, 10)
    ensures ParseLanes(tags) == Some(n)
  {
    var s := Show(n, 10);
    ShowPlain(n);
    SplitNoSeparator(s, ';');
    assert [s][1..] == [];
    assert SumParts([s]) == Some(n + 0);
  }

  /** Without `lanes`, the two directional counts are added up. */
  lemma ParseLanesDirectional(tags: Tags, f: nat, b: nat)
    requires "lanes" !in tags && "lanes:forward" in tags && "lanes:backward" in tags
    requires tags["lanes:forward"] == Show(f, 10) && tags["lanes:backward"] == Show(b, 10)
    requires f + b > 0
    ensures ParseLanes(tags) == Some(f + b)
  {
    var sf, sb := Show(f, 10), Show(b, 10);
    ShowPlain(f);
    ShowPlain(b);
    var parts := [sf, sb];
    assert parts[1..] == [sb] && parts[0] == sf;
    assert Join(parts[1..], ';') == sb;
    assert Join(parts, ';') == sf + [';'] + sb;
    SplitJoin(parts, ';');
    assert [sb][1..] == [];
    assert SumParts([sb]) == Some(b + 0);
    assert SumParts([sf, sb]) == Some(f + b);
  }

  /** `parse_speed_limit`: the `maxspeed` tag read by the given `parse_speed`, None without one. */
  function ParseSpeedLimit(tags: Tags, parseSpeed: string -> Option<int>): (r: Option<int>)
    ensures "maxspeed" !in tags ==> r.None?
    ensures "maxspeed" in tags ==> r == parseSpeed(tags["maxspeed"])
  {
    if "maxspeed" in tags then parseSpeed(tags["maxspeed"]) else None
  }

  /** `str.lower()` on ASCII text. */
  function Lower(s: string): (r: string)
    ensures |r| == |s| && forall i :: 0 <= i < |s| ==> r[i] == Layers.LowerChar(s[i])
  {
    seq(|s|, i requires 0 <= i < |s| => Layers.LowerChar(s[i]))
  }

  const NoValues := ["no", "false", "0"]
  const YesValues := ["yes", "true", "1"]

  /** Both directional lane tags are present. */
  predicate HasDirectionalLanes(tags: Tags) {
    "lanes:forward" in tags && "lanes:backward" in tags
  }

  /**
   * `is_oneway`: a motorway is one-way unless `oneway` says no or it has lanes in both
   * directions; any other road is one-way only when `oneway` says yes. None without a
   * `highway` tag, where the source raises KeyError.
   */
  function IsOneway(tags: Tags): (r: Option<bool>)
    ensures r.None? <==> "highway" !in tags
  {
    if "highway" !in tags then None
    else if tags["highway"] == "motorway" then
      Some(Lower(GetOr(tags, "oneway", "yes")) !in NoValues && !HasDirectionalLanes(tags))
    else Some(Lower(GetOr(tags, "oneway", "no")) in YesValues)
  }

  /** The `oneway` value is compared without regard to case. */
  lemma OnewayCaseInsensitive(tags: Tags, s: string, t: string)
    requires "highway" in tags && Lower(s) == Lower(t)
    ensures IsOneway(tags["oneway" := s]) == IsOneway(tags["oneway" := t])
  {
  }

  /** Without a `oneway` tag a motorway is one-way unless it has lanes both ways, and any other road is two-way. */
  lemma OnewayDefaults(tags: Tags)
    requires "highway" in tags && "oneway" !in tags
    ensures IsOneway(tags) == Some(tags["highway"] == "motorway" && !HasDirectionalLanes(tags))
  {
    assert Lower("yes") == "yes" && Lower("no") == "no";
  }

  /** An explicit yes makes any road one-way, except a motorway with lanes in both directions. */
  lemma OnewayWhenYes(tags: Tags, v: string)
    requires "highway" in tags && "oneway" in tags && tags["oneway"] == v && Lower(v) in YesValues
    ensures IsOneway(tags) == Some(!(tags["highway"] == "motorway" && HasDirectionalLanes(tags)))
  {
  }

  /** An explicit no makes any road two-way. */
  lemma OnewayWhenNo(tags: Tags, v: string)
    requires "highway" in tags && "oneway" in tags && tags["oneway"] == v && Lower(v) in NoValues
    ensures IsOneway(tags) == Some(false)
  {
  }

  /** A way of `osm.highways`: its id, tags and coordinates. */
  datatype Highway = Highway(id: int, tags: Tags, coords: seq<Point>)

  /** The highway `SegmentData`: what the engine is told about a stretch of road. */
  datatype SegmentData = SegmentData(name: Option<string>, ref: Option<seq<string>>, lanes: Option<int>, speedLimit: Option<int>)

  /** The segment data a walk computes from a way's tags. */
  function DataOf(tags: Tags, parseSpeed: string -> Option<int>): SegmentData {
    SegmentData(OsmHandlers.Get(tags, "name"), ParseRef(tags), ParseLanes(tags), ParseSpeedLimit(tags, parseSpeed))
  }

  /** How the first loop of `modify_state` treats one highway. */
  datatype Kind =
    | Road(way: InputWay<SegmentData>)   // a motorway or trunk, indexed by its end points
    | Link(first: Point, last: Point)    // a ramp: an off-ramp at its first point, an on-ramp at its last
    | Closed                             // a boundary that is not two points, which is skipped
    | Unrecognized(tag: Option<string>)  // any other `highway` tag, which raises

  function KindOf(h: Highway, parseSpeed: string -> Option<int>): (k: Kind)
    ensures k.Road? ==> k.way.id == h.id && k.way.coords == h.coords && Ends(k.way).Some?
  {
    var way := InputWay(h.id, h.coords, false, DataOf(h.tags, parseSpeed));
    match Ends(way)
    case None => Closed
    case Some(e) =>
      var tag := OsmHandlers.Get(h.tags, "highway");
      if tag == Some("motorway") || tag == Some("trunk") then
        Road(way.(bidirectional := !IsOneway(h.tags).value))
      else if tag == Some("motorway_link") || tag == Some("trunk_link") then Link(e.0, e.1)
      else Unrecognized(tag)
  }

  /** The roads to index, in order, and the two ramp sets. */
  datatype Classes = Classes(roads: seq<InputWay<SegmentData>>, onRamps: set<Point>, offRamps: set<Point>)

  /** The kind of each highway, in order. */
  function KindsOf(hs: seq<Highway>, parseSpeed: string -> Option<int>): seq<Kind> {
    seq(|hs|, i requires 0 <= i < |hs| => KindOf(hs[i], parseSpeed))
  }

  /** What the first loop collects from the kinds; None at a tag it does not recognise. */
  function ClassifyKinds(ks: seq<Kind>): Option<Classes> {
    if ks == [] then Some(Classes([], {}, {}))
    else ClassifyStep(ClassifyKinds(ks[..|ks| - 1]), ks[|ks| - 1])
  }

  /** One pass of the first loop: what one more highway adds to what was collected. */
  function ClassifyStep(so: Option<Classes>, k: Kind): Option<Classes> {
    match so
    case None => None
    case Some(c) =>
      match k
      case Road(w) => Some(c.(roads := c.roads + [w]))
      case Link(first, last) => Some(c.(onRamps := c.onRamps + {last}, offRamps := c.offRamps + {first}))
      case Closed => Some(c)
      case Unrecognized(_) => None
  }

  lemma ClassifyPrefixStep(ks: seq<Kind>, i: nat)
    requires i < |ks|
    ensures ClassifyKinds(ks[..i + 1]) == ClassifyStep(ClassifyKinds(ks[..i]), ks[i])
  {
    assert ks[..i + 1][..i] == ks[..i];
  }

  /** Once a prefix has failed, so has every longer one. */
  lemma {:induction false} ClassifyPrefixNone(ks: seq<Kind>, i: nat)
    requires i <= |ks| && ClassifyKinds(ks[..i]).None?
    ensures ClassifyKinds(ks).None?
    decreases |ks| - i
  {
    if i < |ks| {
      ClassifyPrefixStep(ks, i);
      ClassifyPrefixNone(ks, i + 1);
    } else {
      assert ks[..i] == ks;
    }
  }

  /** What the first loop collects; None when some highway has a tag it does not recognise. */
  function Classify(hs: seq<Highway>, parseSpeed: string -> Option<int>): Option<Classes> {
    ClassifyKinds(KindsOf(hs, parseSpeed))
  }

  lemma {:induction false} KindsDefined(ks: seq<Kind>)
    ensures ClassifyKinds(ks).None? <==> exists k :: k in ks && k.Unrecognized?
  {
    if ks != [] {
      var init := ks[..|ks| - 1];
      KindsDefined(init);
      assert ks == init + [ks[|ks| - 1]];
    }
  }

  /** Classifying fails exactly when some highway's tag is not recognised. */
  lemma ClassifyDefined(hs: seq<Highway>, parseSpeed: string -> Option<int>)
    ensures Classify(hs, parseSpeed).None? <==> exists i :: 0 <= i < |hs| && KindOf(hs[i], parseSpeed).Unrecognized?
  {
    var ks := KindsOf(hs, parseSpeed);
    KindsDefined(ks);
    if exists k :: k in ks && k.Unrecognized? {
      var k :| k in ks && k.Unrecognized?;
      var i :| 0 <= i < |ks| && ks[i] == k;
      assert KindOf(hs[i], parseSpeed).Unrecognized?;
    } else {
      forall i | 0 <= i < |hs|
        ensures !KindOf(hs[i], parseSpeed).Unrecognized?
      {
        assert ks[i] in ks;
      }
    }
  }

  lemma {:induction false} KindsRoads(ks: seq<Kind>)
    requires ClassifyKinds(ks).Some?
    ensures forall w :: w in ClassifyKinds(ks).value.roads <==> Road(w) in ks
  {
    if ks != [] {
      var init := ks[..|ks| - 1];
      KindsRoads(init);
      assert ks == init + [ks[|ks| - 1]];
    }
  }

  lemma {:induction false} KindsRamps(ks: seq<Kind>)
    requires ClassifyKinds(ks).Some?
    ensures forall p :: p in ClassifyKinds(ks).value.onRamps <==> exists k :: k in ks && k.Link? && k.last == p
    ensures forall p :: p in ClassifyKinds(ks).value.offRamps <==> exists k :: k in ks && k.Link? && k.first == p
  {
    if ks != [] {
      var init := ks[..|ks| - 1];
      KindsRamps(init);
      assert ks == init + [ks[|ks| - 1]];
    }
  }

  /** The roads are the motorways and trunks: a way is indexed exactly when some highway is that road. */
  lemma ClassifyRoads(hs: seq<Highway>, parseSpeed: string -> Option<int>)
    requires Classify(hs, parseSpeed).Some?
    ensures forall w :: w in Classify(hs, parseSpeed).value.roads <==> exists i :: 0 <= i < |hs| && KindOf(hs[i], parseSpeed) == Road(w)
  {
    var ks := KindsOf(hs, parseSpeed);
    KindsRoads(ks);
    forall w | Road(w) in ks
      ensures exists i :: 0 <= i < |hs| && KindOf(hs[i], parseSpeed) == Road(w)
    {
      var i :| 0 <= i < |ks| && ks[i] == Road(w);
      assert KindOf(hs[i], parseSpeed) == Road(w);
    }
    forall w, i | 0 <= i < |hs| && KindOf(hs[i], parseSpeed) == Road(w)
      ensures Road(w) in ks
    {
      assert ks[i] == Road(w);
    }
  }

  /** An on-ramp point is the last point of some link and an off-ramp point the first point of some link. */
  lemma ClassifyRamps(hs: seq<Highway>, parseSpeed: string -> Option<int>)
    requires Classify(hs, parseSpeed).Some?
    ensures var c := Classify(hs, parseSpeed).value;
      && (forall p :: p in c.onRamps <==> exists i :: 0 <= i < |hs| && KindOf(hs[i], parseSpeed).Link? && KindOf(hs[i], parseSpeed).last == p)
      && (forall p :: p in c.offRamps <==> exists i :: 0 <= i < |hs| && KindOf(hs[i], parseSpeed).Link? && KindOf(hs[i], parseSpeed).first == p)
  {
    var ks := KindsOf(hs, parseSpeed);
    KindsRamps(ks);
    forall k | k in ks
      ensures exists i :: 0 <= i < |hs| && KindOf(hs[i], parseSpeed) == k
    {
      var i :| 0 <= i < |ks| && ks[i] == k;
      assert KindOf(hs[i], parseSpeed) == k;
    }
    forall i | 0 <= i < |hs|
      ensures KindOf(hs[i], parseSpeed) in ks
    {
      assert ks[i] == KindOf(hs[i], parseSpeed);
    }
  }

  /** `modify_state`'s first loop: sorts the highways into indexed roads and ramp points. */
  method ClassifyHighways(hs: seq<Highway>, parseSpeed: string -> Option<int>) returns (c: Option<Classes>)
    ensures c == Classify(hs, parseSpeed)
  {
    var ks := KindsOf(hs, parseSpeed);
    var roads: seq<InputWay<SegmentData>> := [];
    var onRamps: set<Point> := {};
    var offRamps: set<Point> := {};
    var i := 0;
    while i < |hs|
      invariant 0 <= i <= |hs|
      invariant ClassifyKinds(ks[..i]) == Some(Classes(roads, onRamps, offRamps))
    {
      ClassifyPrefixStep(ks, i);
      match ks[i] {
        case Road(w) =>
          roads := roads + [w];
        case Link(first, last) =>
          offRamps := offRamps + {first};
          onRamps := onRamps + {last};
        case Closed =>
        case Unrecognized(_) =>
          ClassifyPrefixNone(ks, i + 1);
          return None;
      }
      i := i + 1;
    }
    assert ks[..i] == ks;
    c := Some(Classes(roads, onRamps, offRamps));
  }

  /** `(points, start, end, segment_data)`: a stretch of road with its rounded end points. */
  datatype SegmentTuple = SegmentTuple(points: seq<Point>, start: Point, end: Point, data: SegmentData)

  /** What the walks promise of a tuple: points in the region, its ends rounded, and data some road carries. */
  ghost predicate TupleOk(roads: seq<InputWay<SegmentData>>, t: SegmentTuple, maxDim: int) {
    && |t.points| > 0
    && (forall q :: q in t.points ==> InBounds(q, maxDim))
    && t.start == RoundCoords(t.points[0]) && t.end == RoundCoords(t.points[|t.points| - 1])
    && exists id :: Carries(roads, id, t.data)
  }

  /** A tuple's ends are rounded points of the region, so they are in the region too. */
  lemma TupleEndsInBounds(roads: seq<InputWay<SegmentData>>, t: SegmentTuple, maxDim: int)
    requires TupleOk(roads, t, maxDim)
    ensures InBounds(t.start, maxDim) && InBounds(t.end, maxDim)
  {
    assert t.points[0] in t.points && t.points[|t.points| - 1] in t.points;
    RoundCoordsInBounds(t.points[0], maxDim);
    RoundCoordsInBounds(t.points[|t.points| - 1], maxDim);
  }

  /** `add_segment_tuple` on a run with points: its points, rounded ends and data. */
  function TupleOf(r: Run<SegmentData>): (t: SegmentTuple)
    requires |r.points| > 0 && r.data.Some?
    ensures t.points == r.points && t.data == r.data.value
  {
    SegmentTuple(r.points, RoundCoords(r.points[0]), RoundCoords(r.points[|r.points| - 1]), r.data.value)
  }

  /** The tuples of the runs, in order; a run without points adds none. */
  function TuplesOf(runs: seq<Run<SegmentData>>): seq<SegmentTuple>
    requires forall k :: 0 <= k < |runs| ==> HasData(runs[k])
  {
    if runs == [] then []
    else
      var r := runs[|runs| - 1];
      assert HasData(r);
      TuplesOf(runs[..|runs| - 1]) + if |r.points| > 0 then [TupleOf(r)] else []
  }

  /** The points of the tuples, one tuple after the other. */
  function TuplePoints(ts: seq<SegmentTuple>): seq<Point> {
    if ts == [] then [] else TuplePoints(ts[..|ts| - 1]) + ts[|ts| - 1].points
  }

  lemma {:induction false} TuplePointsAppend(ts: seq<SegmentTuple>, us: seq<SegmentTuple>)
    ensures TuplePoints(ts + us) == TuplePoints(ts) + TuplePoints(us)
  {
    if us == [] {
      assert ts + us == ts;
    } else {
      var init := us[..|us| - 1];
      assert (ts + us)[..|ts + us| - 1] == ts + init;
      TuplePointsAppend(ts, init);
    }
  }

  /** The tuples keep every point the runs hold: dropping the runs without points loses none. */
  lemma {:induction false} TuplesKeepPoints(runs: seq<Run<SegmentData>>)
    requires forall k :: 0 <= k < |runs| ==> HasData(runs[k])
    ensures TuplePoints(TuplesOf(runs)) == RunPoints(runs)
  {
    if runs != [] {
      var init := runs[..|runs| - 1];
      var r := runs[|runs| - 1];
      TuplesKeepPoints(init);
      var last := if |r.points| > 0 then [TupleOf(r)] else [];
      TuplePointsAppend(TuplesOf(init), last);
      if |r.points| > 0 {
        assert TuplePoints(last) == TuplePoints([]) + r.points;
      } else {
        assert TuplePoints(last) == [] == r.points;
      }
    }
  }

  /** The tuples of runs a walk made are tuples as the walks promise them. */
  lemma {:induction false} TuplesOfOk(roads: seq<InputWay<SegmentData>>, runs: seq<Run<SegmentData>>, maxDim: int)
    requires forall k :: 0 <= k < |runs| ==> RunOk(roads, runs[k], maxDim)
    ensures forall k :: 0 <= k < |runs| ==> HasData(runs[k])
    ensures forall t :: t in TuplesOf(runs) ==> TupleOk(roads, t, maxDim)
  {
    if runs != [] {
      var init := runs[..|runs| - 1];
      var r := runs[|runs| - 1];
      TuplesOfOk(roads, init, maxDim);
      assert RunOk(roads, r, maxDim);
      if |r.points| > 0 {
        var t := TupleOf(r);
        assert t.points[|t.points| - 1] in t.points;
        assert r.wayIds[0] in r.wayIds;
        assert Carries(roads, r.wayIds[0], t.data);
      }
    }
  }

  /**
   * The tuples of the walks, walk after walk, and how the first walk that did not reach
   * a stopping point ended; the walks after it add nothing.
   */
  function CollectSpec(ws: seq<GenNetworks.WalkResult<SegmentData>>): (seq<SegmentTuple>, Option<WalkEnd>)
    requires GenNetworks.AllHaveData(ws)
  {
    if ws == [] then ([], None)
    else
      var init := ws[..|ws| - 1];
      var w := ws[|ws| - 1];
      assert GenNetworks.AllHaveData(init);
      var (ts, failed) := CollectSpec(init);
      if failed.Some? then (ts, failed)
      else if !w.1.Stopped? then (ts, Some(w.1))
      else
        assert forall j :: 0 <= j < |w.0| ==> HasData(w.0[j]);
        (ts + TuplesOf(w.0), None)
  }

  lemma {:induction false} TuplesOfAppend(runs: seq<Run<SegmentData>>, more: seq<Run<SegmentData>>)
    requires forall k :: 0 <= k < |runs| ==> HasData(runs[k])
    requires forall k :: 0 <= k < |more| ==> HasData(more[k])
    ensures forall k :: 0 <= k < |runs + more| ==> HasData((runs + more)[k])
    ensures TuplesOf(runs + more) == TuplesOf(runs) + TuplesOf(more)
  {
    assert forall k :: 0 <= k < |runs + more| ==> (runs + more)[k] == if k < |runs| then runs[k] else more[k - |runs|];
    if more == [] {
      assert runs + more == runs;
    } else {
      var init := more[..|more| - 1];
      assert (runs + more)[..|runs + more| - 1] == runs + init;
      TuplesOfAppend(runs, init);
    }
  }

  /**
   * The walks fail exactly when one of them did not reach a stopping point, and then with
   * the end of the first such walk.
   */
  lemma {:induction false} CollectFails(ws: seq<GenNetworks.WalkResult<SegmentData>>)
    requires GenNetworks.AllHaveData(ws)
    ensures CollectSpec(ws).1.None? <==> GenNetworks.AllStop(ws)
    ensures CollectSpec(ws).1.Some? ==>
      exists k :: 0 <= k < |ws| && ws[k].1 == CollectSpec(ws).1.value && !ws[k].1.Stopped? && GenNetworks.AllStop(ws[..k])
  {
    if ws != [] {
      var init := ws[..|ws| - 1];
      var w := ws[|ws| - 1];
      assert GenNetworks.AllHaveData(init);
      CollectFails(init);
      assert forall k :: 0 <= k < |init| ==> ws[k] == init[k];
      var failed := CollectSpec(init).1;
      if failed.Some? {
        var k :| 0 <= k < |init| && init[k].1 == failed.value && !init[k].1.Stopped? && GenNetworks.AllStop(init[..k]);
        assert ws[..k] == init[..k];
        assert ws[k].1 == CollectSpec(ws).1.value;
      } else if !w.1.Stopped? {
        assert ws[..|init|] == init;
        assert ws[|init|].1 == CollectSpec(ws).1.value;
      }
    }
  }

  /** When no walk fails, the tuples are those of all the walks' runs, one walk after the other. */
  lemma {:induction false} CollectAllRuns(ws: seq<GenNetworks.WalkResult<SegmentData>>)
    requires GenNetworks.AllHaveData(ws)
    ensures CollectSpec(ws).1.None? ==> CollectSpec(ws).0 == TuplesOf(GenNetworks.AllRuns(ws))
  {
    if ws != [] {
      var init := ws[..|ws| - 1];
      var w := ws[|ws| - 1];
      assert GenNetworks.AllHaveData(init);
      CollectAllRuns(init);
      if CollectSpec(init).1.None? && w.1.Stopped? {
        assert forall j :: 0 <= j < |w.0| ==> HasData(w.0[j]);
        TuplesOfAppend(GenNetworks.AllRuns(init), w.0);
      }
    }
  }

  /** Once a walk failed, the walks after it change nothing. */
  lemma {:induction false} CollectStuck(ws: seq<GenNetworks.WalkResult<SegmentData>>, n: nat)
    requires GenNetworks.AllHaveData(ws) && n <= |ws|
    requires CollectSpec(ws[..n]).1.Some?
    ensures CollectSpec(ws) == CollectSpec(ws[..n])
  {
    if n < |ws| {
      var init := ws[..|ws| - 1];
      assert init[..n] == ws[..n];
      assert GenNetworks.AllHaveData(init);
      CollectStuck(init, n);
    } else {
      assert ws[..n] == ws;
    }
  }

  /** One more walk: its tuples follow the others' unless a walk failed before or it fails. */
  lemma CollectSnoc(ws: seq<GenNetworks.WalkResult<SegmentData>>, w: GenNetworks.WalkResult<SegmentData>)
    requires GenNetworks.AllHaveData(ws + [w])
    ensures GenNetworks.AllHaveData(ws) && forall j :: 0 <= j < |w.0| ==> HasData(w.0[j])
    ensures var p := CollectSpec(ws);
      CollectSpec(ws + [w]) == if p.1.Some? then p else if !w.1.Stopped? then (p.0, Some(w.1)) else (p.0 + TuplesOf(w.0), None)
  {
    assert (ws + [w])[..|ws|] == ws;
    assert forall k :: 0 <= k < |ws| ==> (ws + [w])[k] == ws[k];
    assert (ws + [w])[|ws|] == w;
  }

  /** The walks of `modify_state` over an index: from each origin that has other than two ways, along every way leaving it. */
  function HighwayWalks(cm: CoordMap<SegmentData>, order: seq<Point>, maxDim: int, steps: nat): (r: seq<GenNetworks.WalkResult<SegmentData>>)
    ensures GenNetworks.AllHaveData(r)
  {
    GenNetworks.WalksMade(cm, Starts(cm, OriginsOf(order, cm, NotTwoInAll)), maxDim, steps)
  }

  /** `add_segment_tuple` for each run a walk made: runs with points become tuples. */
  method AddTuples(roads: seq<InputWay<SegmentData>>, runs: seq<Run<SegmentData>>, maxDim: int, tuples: seq<SegmentTuple>)
    returns (tuples': seq<SegmentTuple>)
    requires forall k :: 0 <= k < |runs| ==> RunOk(roads, runs[k], maxDim)
    ensures forall k :: 0 <= k < |runs| ==> HasData(runs[k])
    ensures tuples' == tuples + TuplesOf(runs)
  {
    tuples' := tuples;
    var k := 0;
    while k < |runs|
      invariant 0 <= k <= |runs|
      invariant tuples' == tuples + TuplesOf(runs[..k])
    {
      var r := runs[k];
      assert runs[..k + 1][..k] == runs[..k] && runs[..k + 1][k] == r;
      assert RunOk(roads, r, maxDim);
      if |r.points| > 0 {
        var t := SegmentTuple(r.points, RoundCoords(r.points[0]), RoundCoords(r.points[|r.points| - 1]), r.data.value);
        tuples' := tuples' + [t];
      }
      k := k + 1;
    }
    assert runs[..k] == runs;
  }

  /**
   * The walks of `modify_state`: from every junction or dead end (a point with other than
   * two ways in all) along every way leaving it, in the index's order. `failed` is how
   * the first walk that did not stop at such a point ended.
   */
  method CollectTuples(roads: seq<InputWay<SegmentData>>, cm: CoordMap<SegmentData>, order: seq<Point>, maxDim: int, steps: nat)
    returns (tuples: seq<SegmentTuple>, failed: Option<WalkEnd>)
    requires Listed(cm, roads)
    ensures (tuples, failed) == CollectSpec(HighwayWalks(cm, order, maxDim, steps))
    ensures failed.None? ==> forall t :: t in tuples ==> TupleOk(roads, t, maxDim)
  {
    var origins := FindOrigins(cm, order, NotTwoInAll);
    tuples, failed := [], None;
    var i := 0;
    while i < |origins| && failed.None?
      invariant 0 <= i <= |origins|
      invariant failed.None? ==> (tuples, None) == CollectSpec(GenNetworks.WalksMade(cm, Starts(cm, origins[..i]), maxDim, steps))
      invariant failed.None? ==> forall t :: t in tuples ==> TupleOk(roads, t, maxDim)
      invariant failed.Some? ==> (tuples, failed) == CollectSpec(GenNetworks.WalksMade(cm, Starts(cm, origins), maxDim, steps))
    {
      tuples, failed := CollectOriginAt(roads, cm, origins, i, maxDim, steps, tuples);
      i := i + 1;
    }
    if failed.None? {
      assert origins[..i] == origins;
    }
  }

  /**
   * The walks from the origin at position i, after those of the origins before it; when
   * one fails, the walks from the later origins change nothing.
   */
  method CollectOriginAt(roads: seq<InputWay<SegmentData>>, cm: CoordMap<SegmentData>, origins: seq<Point>, i: nat,
                         maxDim: int, steps: nat, tuples: seq<SegmentTuple>)
    returns (tuples': seq<SegmentTuple>, failed: Option<WalkEnd>)
    requires i < |origins| && Listed(cm, roads)
    requires (tuples, None) == CollectSpec(GenNetworks.WalksMade(cm, Starts(cm, origins[..i]), maxDim, steps))
    requires forall t :: t in tuples ==> TupleOk(roads, t, maxDim)
    ensures failed.None? ==> (tuples', None) == CollectSpec(GenNetworks.WalksMade(cm, Starts(cm, origins[..i + 1]), maxDim, steps))
    ensures failed.None? ==> forall t :: t in tuples' ==> TupleOk(roads, t, maxDim)
    ensures failed.Some? ==> (tuples', failed) == CollectSpec(GenNetworks.WalksMade(cm, Starts(cm, origins), maxDim, steps))
  {
    GenNetworks.StartsStep(cm, origins, i);
    tuples', failed := CollectOrigin(roads, cm, origins[i], maxDim, steps, tuples, Starts(cm, origins[..i]));
    if failed.Some? {
      GenNetworks.StartsPrefix(cm, origins, i + 1);
      CollectsStuck(cm, Starts(cm, origins), Starts(cm, origins[..i + 1]), maxDim, steps);
    }
  }

  /** A walk that failed leaves the tuples and the failure at what they were after that walk. */
  lemma CollectsStuck(cm: CoordMap<SegmentData>, all: seq<(Point, InputWay<SegmentData>)>, done: seq<(Point, InputWay<SegmentData>)>,
                      maxDim: int, steps: nat)
    requires |done| <= |all| && all[..|done|] == done
    requires CollectSpec(GenNetworks.WalksMade(cm, done, maxDim, steps)).1.Some?
    ensures CollectSpec(GenNetworks.WalksMade(cm, all, maxDim, steps)) == CollectSpec(GenNetworks.WalksMade(cm, done, maxDim, steps))
  {
    GenNetworks.WalksPrefix(cm, all, |done|, maxDim, steps);
    CollectStuck(GenNetworks.WalksMade(cm, all, maxDim, steps), |done|);
  }

  /** The walks from one origin, along each way leaving it in turn; a walk that fails stops them. */
  method CollectOrigin(roads: seq<InputWay<SegmentData>>, cm: CoordMap<SegmentData>, o: Point, maxDim: int, steps: nat,
                       tuples: seq<SegmentTuple>, ghost done: seq<(Point, InputWay<SegmentData>)>)
    returns (tuples': seq<SegmentTuple>, failed: Option<WalkEnd>)
    requires Listed(cm, roads)
    requires (tuples, None) == CollectSpec(GenNetworks.WalksMade(cm, done, maxDim, steps))
    requires forall t :: t in tuples ==> TupleOk(roads, t, maxDim)
    ensures (tuples', failed) == CollectSpec(GenNetworks.WalksMade(cm, done + Pairs(o, Lookup(cm, o).1), maxDim, steps))
    ensures forall t :: t in tuples' ==> TupleOk(roads, t, maxDim)
  {
    var outs := Lookup(cm, o).1;
    GenNetworks.PairsStep(done, o, outs, 0);
    tuples' := tuples;
    var j := 0;
    while j < |outs|
      invariant 0 <= j <= |outs|
      invariant (tuples', None) == CollectSpec(GenNetworks.WalksMade(cm, done + Pairs(o, outs[..j]), maxDim, steps))
      invariant forall t :: t in tuples' ==> TupleOk(roads, t, maxDim)
    {
      GenNetworks.PairsStep(done, o, outs, j);
      assert outs[j] in outs;
      tuples', failed := CollectOne(roads, cm, o, outs[j], maxDim, steps, tuples', done + Pairs(o, outs[..j]));
      if failed.Some? {
        GenNetworks.PairsPrefix(done, o, outs, j + 1);
        CollectsStuck(cm, done + Pairs(o, outs), done + Pairs(o, outs[..j + 1]), maxDim, steps);
        return;
      }
      j := j + 1;
    }
    assert outs[..j] == outs;
    failed := None;
  }

  /** One walk of `modify_state`: when it stops, its runs become tuples. */
  method CollectOne(roads: seq<InputWay<SegmentData>>, cm: CoordMap<SegmentData>, o: Point, w: InputWay<SegmentData>, maxDim: int, steps: nat,
                    tuples: seq<SegmentTuple>, ghost starts: seq<(Point, InputWay<SegmentData>)>)
    returns (tuples': seq<SegmentTuple>, failed: Option<WalkEnd>)
    requires w in roads && Listed(cm, roads)
    requires (tuples, None) == CollectSpec(GenNetworks.WalksMade(cm, starts, maxDim, steps))
    requires forall t :: t in tuples ==> TupleOk(roads, t, maxDim)
    ensures (tuples', failed) == CollectSpec(GenNetworks.WalksMade(cm, starts + [(o, w)], maxDim, steps))
    ensures forall t :: t in tuples' ==> TupleOk(roads, t, maxDim)
  {
    GenNetworks.WalksSnoc(cm, starts, (o, w), maxDim, steps);
    CollectSnoc(GenNetworks.WalksMade(cm, starts, maxDim, steps), Walked(cm, o, w, maxDim, steps));
    var runs, end := Walk(roads, cm, o, w, maxDim, steps);
    if !end.Stopped? {
      return tuples, Some(end);
    }
    tuples' := AddTuples(roads, runs, maxDim, tuples);
    TuplesOfOk(roads, runs, maxDim);
    failed := None;
  }

  datatype Ramp = OnRamp | OffRamp

  /** The ramp flag of a new junction: an on-ramp takes precedence over an off-ramp. */
  function RampAt(p: Point, onRamps: set<Point>, offRamps: set<Point>): (r: Option<Ramp>)
    ensures r == Some(OnRamp) <==> p in onRamps
    ensures r == Some(OffRamp) <==> p !in onRamps && p in offRamps
    ensures r.None? <==> p !in onRamps && p !in offRamps
  {
    if p in onRamps then Some(OnRamp) else if p in offRamps then Some(OffRamp) else None
  }

  /** A `state.add_highway_junction(x, y, ramp)` call. */
  datatype JunctionCall = JunctionCall(x: real, y: real, ramp: Option<Ramp>)

  /** `engine.HighwayData(name, ref or [], lanes, speed_limit)`. */
  datatype HighwayData = HighwayData(name: Option<string>, refs: seq<string>, lanes: Option<int>, speedLimit: Option<int>)

  /** A `state.add_highway_segment(data, start_id, end_id, points)` call. */
  datatype SegmentCall = SegmentCall(data: HighwayData, startId: int, endId: int, points: seq<Point>)

  function EngineData(d: SegmentData): HighwayData {
    HighwayData(d.name, if d.ref.Some? then d.ref.value else [], d.lanes, d.speedLimit)
  }

  /** The end points of the tuples, start before end. */
  function EndsOf(tuples: seq<SegmentTuple>): seq<Point> {
    if tuples == [] then []
    else EndsOf(tuples[..|tuples| - 1]) + [tuples[|tuples| - 1].start, tuples[|tuples| - 1].end]
  }

  /**
   * The junctions asked for so far: one per distinct end point, in the order the points
   * first came up, with its coordinates and ramp flag, all in the region; `junction_map`
   * sends each point to the position of its call.
   */
  ghost predicate JunctionsMade(es: seq<Point>, calls: seq<JunctionCall>, memo: map<Point, nat>,
                                onRamps: set<Point>, offRamps: set<Point>, maxDim: int)
  {
    var d := GenNetworks.Distinct(es);
    && |calls| == |d|
    && (forall k :: 0 <= k < |d| ==> calls[k] == JunctionCall(d[k].0, d[k].1, RampAt(d[k], onRamps, offRamps)))
    && (forall p :: p in memo <==> p in d)
    && (forall p :: p in memo ==> memo[p] < |d| && d[memo[p]] == p)
    && (forall p :: p in d ==> InBounds(p, maxDim))
  }

  /**
   * `get_junction_id`: the memoised id of a known point; for a new point, the two range
   * assertions, then a new junction whose id is the state's answer for that call.
   */
  method GetJunctionId(p: Point, junctionIds: nat -> int, onRamps: set<Point>, offRamps: set<Point>, maxDim: int,
                       ghost es: seq<Point>, calls: seq<JunctionCall>, memo: map<Point, nat>)
    returns (calls': seq<JunctionCall>, memo': map<Point, nat>, id: int, ok: bool)
    requires JunctionsMade(es, calls, memo, onRamps, offRamps, maxDim)
    ensures ok <==> p in es || InBounds(p, maxDim)
    ensures ok ==> JunctionsMade(es + [p], calls', memo', onRamps, offRamps, maxDim)
    ensures ok ==> p in memo' && id == junctionIds(memo'[p])
    ensures ok ==> forall x :: x in memo ==> x in memo' && memo'[x] == memo[x]
  {
    GenNetworks.DistinctSpec(es);
    assert (es + [p])[..|es|] == es;
    if p in memo {
      assert GenNetworks.Distinct(es + [p]) == GenNetworks.Distinct(es);
      return calls, memo, junctionIds(memo[p]), true;
    }
    var (x, y) := p;
    if !(0.0 <= x <= maxDim as real) || !(0.0 <= y <= maxDim as real) {
      return calls, memo, 0, false;
    }
    var ramp := if p in onRamps then Some(OnRamp) else if p in offRamps then Some(OffRamp) else None;
    var k := |calls|;
    id := junctionIds(k);
    calls' := calls + [JunctionCall(x, y, ramp)];
    memo' := memo[p := k];
    ok := true;
    ghost var d := GenNetworks.Distinct(es);
    assert GenNetworks.Distinct(es + [p]) == d + [p];
  }

  /** Each segment call so far: its data, the ids of the junctions at its two ends, and its points. */
  ghost predicate SegmentsMade(tuples: seq<SegmentTuple>, scalls: seq<SegmentCall>, memo: map<Point, nat>, junctionIds: nat -> int) {
    && |scalls| == |tuples|
    && forall j :: 0 <= j < |tuples| ==>
         && tuples[j].start in memo && tuples[j].end in memo
         && scalls[j] == SegmentCall(EngineData(tuples[j].data), junctionIds(memo[tuples[j].start]), junctionIds(memo[tuples[j].end]), tuples[j].points)
  }

  /** The record of the segments survives new entries in `junction_map`. */
  lemma SegmentsMadeGrow(tuples: seq<SegmentTuple>, scalls: seq<SegmentCall>, memo: map<Point, nat>, memo': map<Point, nat>, junctionIds: nat -> int)
    requires SegmentsMade(tuples, scalls, memo, junctionIds)
    requires forall x :: x in memo ==> x in memo' && memo'[x] == memo[x]
    ensures SegmentsMade(tuples, scalls, memo', junctionIds)
  {
    forall j | 0 <= j < |tuples|
      ensures tuples[j].start in memo' && tuples[j].end in memo'
    {
      assert tuples[j].start in memo && tuples[j].end in memo;
    }
  }

  /** A new segment call extends the record by its tuple. */
  lemma SegmentsMadeStep(done: seq<SegmentTuple>, t: SegmentTuple, scalls: seq<SegmentCall>, memo: map<Point, nat>, junctionIds: nat -> int)
    requires SegmentsMade(done, scalls, memo, junctionIds)
    requires t.start in memo && t.end in memo
    ensures SegmentsMade(done + [t], scalls + [SegmentCall(EngineData(t.data), junctionIds(memo[t.start]), junctionIds(memo[t.end]), t.points)],
                         memo, junctionIds)
  {
    assert forall j :: 0 <= j < |done| ==> (done + [t])[j] == done[j];
  }

  /** One pass of the last loop: the junctions at the tuple's start and end, then its segment. */
  method BakeOne(t: SegmentTuple, ghost done: seq<SegmentTuple>, ghost roads: seq<InputWay<SegmentData>>,
                 onRamps: set<Point>, offRamps: set<Point>, maxDim: int, junctionIds: nat -> int,
                 calls: seq<JunctionCall>, scalls: seq<SegmentCall>, memo: map<Point, nat>)
    returns (calls': seq<JunctionCall>, scalls': seq<SegmentCall>, memo': map<Point, nat>)
    requires TupleOk(roads, t, maxDim)
    requires JunctionsMade(EndsOf(done), calls, memo, onRamps, offRamps, maxDim)
    requires SegmentsMade(done, scalls, memo, junctionIds)
    ensures JunctionsMade(EndsOf(done + [t]), calls', memo', onRamps, offRamps, maxDim)
    ensures SegmentsMade(done + [t], scalls', memo', junctionIds)
  {
    TupleEndsInBounds(roads, t, maxDim);
    ghost var es := EndsOf(done);
    assert (done + [t])[..|done|] == done;
    assert EndsOf(done + [t]) == es + [t.start] + [t.end];
    var startId, endId, okStart, okEnd;
    calls', memo', startId, okStart := GetJunctionId(t.start, junctionIds, onRamps, offRamps, maxDim, es, calls, memo);
    // the range assertions of `get_junction_id` hold: the tuple's ends are rounded points of the region
    assert okStart;
    ghost var memo1 := memo';
    calls', memo', endId, okEnd := GetJunctionId(t.end, junctionIds, onRamps, offRamps, maxDim, es + [t.start], calls', memo');
    assert okEnd;
    assert memo'[t.start] == memo1[t.start];
    SegmentsMadeGrow(done, scalls, memo, memo', junctionIds);
    SegmentsMadeStep(done, t, scalls, memo', junctionIds);
    scalls' := scalls + [SegmentCall(EngineData(t.data), startId, endId, t.points)];
  }

  /**
   * The last loop of `modify_state`: for each tuple the junctions at its start and end,
   * then the segment. Every tuple lies in the region, so the range assertions of
   * `get_junction_id` always hold.
   */
  method BakeTuples(tuples: seq<SegmentTuple>, ghost roads: seq<InputWay<SegmentData>>, onRamps: set<Point>, offRamps: set<Point>,
                    maxDim: int, junctionIds: nat -> int)
    returns (calls: seq<JunctionCall>, scalls: seq<SegmentCall>, ghost memo: map<Point, nat>)
    requires forall t :: t in tuples ==> TupleOk(roads, t, maxDim)
    ensures JunctionsMade(EndsOf(tuples), calls, memo, onRamps, offRamps, maxDim)
    ensures SegmentsMade(tuples, scalls, memo, junctionIds)
  {
    calls, scalls := [], [];
    var junctionMap: map<Point, nat> := map[];
    var i := 0;
    assert tuples[..0] == [];
    while i < |tuples|
      invariant 0 <= i <= |tuples|
      invariant JunctionsMade(EndsOf(tuples[..i]), calls, junctionMap, onRamps, offRamps, maxDim)
      invariant SegmentsMade(tuples[..i], scalls, junctionMap, junctionIds)
    {
      assert TupleOk(roads, tuples[i], maxDim) by {
        assert tuples[i] in tuples;
      }
      assert tuples[..i + 1] == tuples[..i] + [tuples[i]];
      calls, scalls, junctionMap := BakeOne(tuples[i], tuples[..i], roads, onRamps, offRamps, maxDim, junctionIds, calls, scalls, junctionMap);
      i := i + 1;
    }
    assert tuples[..i] == tuples;
    memo := junctionMap;
  }

  /** How `modify_state` ended. */
  datatype Outcome =
    | Done
    | UnrecognizedTag    // a highway with a `highway` tag it does not know
    | BrokenWalk         // a walk met a way that does not continue from its border point
    | WalkTooLong        // a walk went on for more than the step bound

  /** How `modify_state` ends after its walks: an assertion failed in a walk, or a walk ran out of steps. */
  function WalkOutcome(failed: Option<WalkEnd>): (o: Outcome)
    ensures o != UnrecognizedTag
    ensures o == Done <==> failed.None?
    ensures o == BrokenWalk <==> failed == Some(Broken)
  {
    match failed
    case None => Done
    case Some(Broken) => BrokenWalk
    case Some(_) => WalkTooLong
  }

  /**
   * `Highways.modify_state`: index the roads, walk from every junction, and hand the
   * junctions and segments to the state. The tuples the walks made are returned too.
   */
  method ModifyState(hs: seq<Highway>, parseSpeed: string -> Option<int>, maxDim: int, steps: nat, junctionIds: nat -> int)
    returns (calls: seq<JunctionCall>, scalls: seq<SegmentCall>, outcome: Outcome, tuples: seq<SegmentTuple>, ghost memo: map<Point, nat>)
    ensures outcome == UnrecognizedTag <==> Classify(hs, parseSpeed).None?
    ensures outcome != UnrecognizedTag ==>
      var roads := Classify(hs, parseSpeed).value.roads;
      var r := CollectSpec(HighwayWalks(CoordIndex(roads), KeyOrder(roads), maxDim, steps));
      tuples == r.0 && outcome == WalkOutcome(r.1)
    ensures outcome == Done ==>
      var c := Classify(hs, parseSpeed).value;
      && (forall t :: t in tuples ==> TupleOk(c.roads, t, maxDim))
      && JunctionsMade(EndsOf(tuples), calls, memo, c.onRamps, c.offRamps, maxDim)
      && SegmentsMade(tuples, scalls, memo, junctionIds)
  {
    var c := ClassifyHighways(hs, parseSpeed);
    if c.None? {
      return [], [], UnrecognizedTag, [], map[];
    }
    var roads := c.value.roads;
    var cm, order := BuildCoordMap(roads);
    BuiltListed(cm, roads);
    var failed;
    tuples, failed := CollectTuples(roads, cm, order, maxDim, steps);
    if failed.Some? {
      outcome := WalkOutcome(failed);
      return [], [], outcome, tuples, map[];
    }
    calls, scalls, memo := BakeTuples(tuples, roads, c.value.onRamps, c.value.offRamps, maxDim, junctionIds);
    outcome := Done;
  }
}
