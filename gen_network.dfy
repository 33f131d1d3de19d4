/**
 * The generator's road and rail network builder (generate/network.py): `construct_data`
 * walks the OSM ways into segments, with a map from way ids to the segments holding them,
 * and splits segments where extra junctions are inserted; `modify_state` bakes one
 * junction per distinct end point and one segment per unsplit segment.
 */
module GenNetworks {
  import opened Wrappers
  import opened Points
  import opened Walks

  /** A `Segment`; `split` holds the positions of its two halves in the segment list. */
  datatype Segment<D> = Segment(handle: Option<int>, points: seq<Point>, data: D, split: Option<(nat, nat)>, wayIds: seq<int>)

  /** A `Node`: an extra junction inserted at a point, with its data. */
  datatype Node<D> = Node(handle: Option<int>, location: Point, data: D)

  /** `way_segment_map`: each way id to the positions of the segments holding it. */
  type WayMap = map<int, set<nat>>

  /** `way_segment_map[way_id]` of a `defaultdict(set)`. */
  function Get(m: WayMap, wid: int): set<nat> {
    if wid in m then m[wid] else {}
  }

  /**
   * The map lists, for each way, exactly the unsplit segments that hold it, and it has no
   * empty entry, so a way has a key exactly when some unsplit segment holds it.
   */
  ghost predicate MapExact<D>(m: WayMap, segs: seq<Segment<D>>) {
    && (forall wid :: wid in m ==> m[wid] != {})
    && (forall wid, i: nat {:trigger i in Get(m, wid)} ::
          i in Get(m, wid) <==> i < |segs| && segs[i].split.None? && wid in segs[i].wayIds)
  }

  /** The map has a key for a way exactly when an unsplit segment holds that way. */
  lemma MappedIffHeld<D>(m: WayMap, segs: seq<Segment<D>>, wid: int)
    requires MapExact(m, segs)
    ensures wid in m <==> exists i :: 0 <= i < |segs| && segs[i].split.None? && wid in segs[i].wayIds
  {
    if wid in m {
      var i :| i in m[wid];
      assert i in Get(m, wid);
      assert 0 <= i < |segs| && segs[i].split.None? && wid in segs[i].wayIds;
    } else {
      forall i | 0 <= i < |segs|
        ensures !(segs[i].split.None? && wid in segs[i].wayIds)
      {
        assert i !in Get(m, wid);
      }
    }
  }

  /** The map after `way_segment_map[way_id].add(s)` for each of the ids. */
  function AddIds(m: WayMap, ids: seq<int>, s: nat): WayMap {
    if ids == [] then m
    else
      var r := AddIds(m, ids[..|ids| - 1], s);
      r[ids[|ids| - 1] := Get(r, ids[|ids| - 1]) + {s}]
  }

  /** Adding puts the position into the entry of each id and adds keys for the ids, and nothing else. */
  lemma {:induction false} AddIdsSpec(m: WayMap, ids: seq<int>, s: nat, wid: int)
    ensures Get(AddIds(m, ids, s), wid) == Get(m, wid) + if wid in ids then {s} else {}
    ensures wid in AddIds(m, ids, s) <==> wid in m || wid in ids
  {
    if ids != [] {
      var init := ids[..|ids| - 1];
      AddIdsSpec(m, init, s, wid);
      assert ids == init + [ids[|ids| - 1]];
    }
  }

  /**
   * What stops `add_segment` when the map is kept: one of the run's ways, at its turn, is
   * already a key, because an earlier segment holds it or it came earlier in the same run.
   */
  predicate Clash(m: WayMap, ids: seq<int>) {
    exists k :: 0 <= k < |ids| && (ids[k] in m || ids[k] in ids[..k])
  }

  /** Every segment has at least one point. */
  predicate HavePoints<D>(segs: seq<Segment<D>>) {
    forall i :: 0 <= i < |segs| ==> |segs[i].points| > 0
  }

  /** Every node is stored under its own location, which is a rounded point. */
  predicate NodesAtKeys<D>(nodes: map<Point, Node<D>>) {
    forall q :: q in nodes ==> nodes[q].location == q && RoundCoords(q) == q
  }

  /** A split segment's halves come after it in the list. */
  predicate SplitsForward<D>(segs: seq<Segment<D>>) {
    forall i :: 0 <= i < |segs| && segs[i].split.Some? ==> i < segs[i].split.value.0 < |segs| && i < segs[i].split.value.1 < |segs|
  }

  /**
   * One of `get_nodes`' extra junctions, with what the geometry library answers about it:
   * the segment the search tree finds nearest, whether the node is closer to the first half
   * at each split segment, the nearest point of the leaf found, whether that point is too
   * far away, and whether the points before and after it are closer.
   */
  datatype NodeQuery<D> = NodeQuery(nearest: nat, towardA: nat -> bool, point: Point, tooFar: bool,
                                    prevCloser: bool, nextCloser: bool, data: D)

  /** The unsplit segment the node's descent reaches from segment `i`. */
  function Descend<D>(segs: seq<Segment<D>>, i: nat, towardA: nat -> bool): (leaf: nat)
    requires i < |segs| && SplitsForward(segs)
    ensures i <= leaf < |segs| && segs[leaf].split.None?
    ensures segs[i].split.None? ==> leaf == i
    decreases |segs| - i
  {
    match segs[i].split
    case None => i
    case Some((a, b)) => Descend(segs, if towardA(i) then a else b, towardA)
  }

  /** `point_index_map[q]`: the last position whose point rounds to `q`, since later entries overwrite. */
  function LastIndex(points: seq<Point>, q: Point): (r: Option<nat>)
    ensures r.Some? ==> r.value < |points| && RoundCoords(points[r.value]) == q
    ensures r.Some? ==> forall j :: r.value < j < |points| ==> RoundCoords(points[j]) != q
    ensures r.None? ==> forall j :: 0 <= j < |points| ==> RoundCoords(points[j]) != q
  {
    if points == [] then None
    else if RoundCoords(points[|points| - 1]) == q then Some(|points| - 1)
    else LastIndex(points[..|points| - 1], q)
  }

  /**
   * What inserting a node does: no segments to search (a failure), a node too far from
   * every segment, a nearest point that is not found among the leaf's points (a failure),
   * a node at the leaf's first or last point, a split of the leaf at a position, or an
   * index moved back to zero, whose first half is empty (a failure).
   */
  datatype Placement = NoSegments | TooFar | NotAPoint | AtEnd(leaf: nat) | SplitAt(leaf: nat, index: nat) | EmptyHalf

  predicate Fails(p: Placement) {
    p.NoSegments? || p.NotAPoint? || p.EmptyHalf?
  }

  /**
   * The node insertion of `construct_data`, step by step. A split is always of an unsplit
   * segment, at a position strictly inside its points or at its last point.
   */
  function Place<D>(segs: seq<Segment<D>>, q: NodeQuery<D>): (p: Placement)
    requires SplitsForward(segs)
    ensures p.SplitAt? ==> p.leaf < |segs| && segs[p.leaf].split.None? && 0 < p.index < |segs[p.leaf].points|
    ensures p.AtEnd? ==> p.leaf < |segs| && segs[p.leaf].split.None?
  {
    if q.nearest >= |segs| then NoSegments
    else
      var leaf := Descend(segs, q.nearest, q.towardA);
      var points := segs[leaf].points;
      if q.tooFar then TooFar
      else match LastIndex(points, RoundCoords(q.point))
        case None => NotAPoint
        case Some(i0) =>
          if 0 < i0 < |points| - 1 then
            var i1 := if q.prevCloser then i0 - 1 else i0;
            var i2 := if q.nextCloser then i1 + 1 else i1;
            if i2 == 0 then EmptyHalf else SplitAt(leaf, i2)
          else AtEnd(leaf)
  }

  /**
   * The two halves of a split at `index`: the points before it, closed by the node's
   * point, and the points from it on, opened by the node's point.
   */
  function Halves(points: seq<Point>, index: nat, np: Point): (r: (seq<Point>, seq<Point>))
    requires 0 < index < |points|
    ensures index <= |r.0| <= index + 1 && r.0[|r.0| - 1] == np && r.0[..index] == points[..index]
    ensures |points| - index <= |r.1| <= |points| - index + 1 && r.1[0] == np && r.1[|r.1| - (|points| - index)..] == points[index..]
  {
    var front := points[..index];
    var back := points[index..];
    var a := if points[index - 1] == np then front else front + [np];
    var b := if points[index] == np then back else [np] + back;
    assert a[..index] == front by {
      if points[index - 1] != np {
        assert (front + [np])[..index] == front;
      }
    }
    assert b[|b| - |back|..] == back by {
      if points[index] != np {
        assert ([np] + back)[1..] == back;
      }
    }
    (a, b)
  }

  /**
   * Gluing the halves at their shared point gives the parent's points with the node's point
   * inserted at the split, or the parent's points themselves when one neighbour already
   * is that point.
   */
  lemma HalvesGlue(points: seq<Point>, index: nat, np: Point)
    requires 0 < index < |points|
    ensures var (a, b) := Halves(points, index, np);
      && (points[index - 1] != np && points[index] != np ==> a + b[1..] == points[..index] + [np] + points[index..])
      && ((points[index - 1] == np) != (points[index] == np) ==> a + b[1..] == points)
      && (points[index - 1] == np && points[index] == np ==> a + b[1..] == points[..index] + points[index + 1..])
  {
    var (a, b) := Halves(points, index, np);
    if points[index] == np {
      assert b[1..] == points[index + 1..];
      if points[index - 1] != np {
        assert points == points[..index] + [points[index]] + points[index + 1..];
      }
    } else {
      assert b[1..] == points[index..];
      if points[index - 1] == np {
        assert points == points[..index] + points[index..];
      }
    }
  }

  /** How `add_segment` ended. */
  datatype AddOutcome = Added | Ignored | Abandoned | Failed

  /** Every unsplit segment has a handle and points, and every segment's data came from a way with its ids. */
  predicate SegmentOk<D(==)>(ways: seq<InputWay<D>>, s: Segment<D>) {
    |s.wayIds| > 0 && forall id :: id in s.wayIds ==> Carries(ways, id, s.data)
  }

  /**
   * The split of an unsplit segment at `index`: the halves share its data and way ids and
   * go at the end of the list, and the way map moves each of those ways from the leaf to
   * the halves.
   */
  ghost predicate SplitDone<D>(has: bool, segments: seq<Segment<D>>, waySegmentMap: WayMap,
                               before: seq<Segment<D>>, mapBefore: WayMap, leaf: nat, index: nat, np: Point)
    requires leaf < |before| && 0 < index < |before[leaf].points|
  {
    var parent := before[leaf];
    var n := |before|;
    var (a, b) := Halves(parent.points, index, np);
    && segments == before[leaf := parent.(split := Some((n, n + 1)))]
         + [Segment(None, a, parent.data, None, parent.wayIds), Segment(None, b, parent.data, None, parent.wayIds)]
    && (has ==> forall wid :: wid in waySegmentMap <==> wid in mapBefore || wid in parent.wayIds)
    && (has ==> forall wid ::
          Get(waySegmentMap, wid) == if wid in parent.wayIds then Get(mapBefore, wid) - {leaf} + {n, n + 1} else Get(mapBefore, wid))
    && (!has ==> waySegmentMap == mapBefore)
  }

  /** The segment `add_segment` makes of a run with points. */
  function SegmentOf<D>(r: Run<D>): Segment<D>
    requires r.data.Some?
  {
    Segment(None, r.points, r.data.value, None, r.wayIds)
  }

  /** The segments of the runs with points, in order: new, unsplit segments with points. */
  function SegmentsOf<D>(runs: seq<Run<D>>): (r: seq<Segment<D>>)
    requires forall k :: 0 <= k < |runs| ==> HasData(runs[k])
    ensures forall s :: s in r ==> s.handle.None? && s.split.None? && |s.points| > 0
  {
    if runs == [] then []
    else
      var r := runs[|runs| - 1];
      assert HasData(r);
      SegmentsOf(runs[..|runs| - 1]) + if r.points != [] then [SegmentOf(r)] else []
  }

  /**
   * `add_segment` on the segment list and the way map: an empty run is ignored; when the
   * map is kept, a clash abandons a run of one way and fails the assertion for a longer
   * run; otherwise the segment is appended and, when the map is kept, entered under each
   * of its ways.
   */
  function AddStep<D>(has: bool, segs: seq<Segment<D>>, m: WayMap, r: Run<D>): (AddOutcome, seq<Segment<D>>, WayMap)
    requires HasData(r)
  {
    if r.points == [] then (Ignored, segs, m)
    else if has && Clash(m, r.wayIds) then (if |r.wayIds| == 1 then Abandoned else Failed, segs, m)
    else (Added, segs + [SegmentOf(r)], if has then AddIds(m, r.wayIds, |segs|) else m)
  }

  /** The runs of one walk added in order, up to the first failed assertion; whether none failed. */
  function AddRunsSpec<D>(has: bool, segs: seq<Segment<D>>, m: WayMap, runs: seq<Run<D>>): (bool, seq<Segment<D>>, WayMap)
    requires forall k :: 0 <= k < |runs| ==> HasData(runs[k])
  {
    if runs == [] then (true, segs, m)
    else
      var (ok, s1, m1) := AddRunsSpec(has, segs, m, runs[..|runs| - 1]);
      if !ok then (false, s1, m1)
      else
        var (o, s2, m2) := AddStep(has, s1, m1, runs[|runs| - 1]);
        (o != Failed, s2, m2)
  }

  /** What one walk made: its runs, and how it ended. */
  type WalkResult<D> = (seq<Run<D>>, WalkEnd)

  /** Every run of every walk holds data whenever it has points. */
  predicate AllHaveData<D>(ws: seq<WalkResult<D>>) {
    forall k, j :: 0 <= k < |ws| && 0 <= j < |ws[k].0| ==> HasData(ws[k].0[j])
  }

  /** The walks of `construct_data`, one from each origin along each way leaving it, in order. */
  function WalksMade<D(==)>(cm: CoordMap<D>, starts: seq<(Point, InputWay<D>)>, maxDim: int, steps: nat): (r: seq<WalkResult<D>>)
    ensures |r| == |starts| && forall k :: 0 <= k < |starts| ==> r[k] == Walked(cm, starts[k].0, starts[k].1, maxDim, steps)
    ensures AllHaveData(r)
  {
    var r := seq(|starts|, k requires 0 <= k < |starts| => Walked(cm, starts[k].0, starts[k].1, maxDim, steps));
    WalksHaveData(cm, starts, maxDim, steps, r);
    r
  }

  /** The runs of a walk hold data whenever they have points. */
  lemma WalksHaveData<D>(cm: CoordMap<D>, starts: seq<(Point, InputWay<D>)>, maxDim: int, steps: nat, r: seq<WalkResult<D>>)
    requires |r| == |starts| && forall k :: 0 <= k < |starts| ==> r[k] == Walked(cm, starts[k].0, starts[k].1, maxDim, steps)
    ensures AllHaveData(r)
  {
    forall k | 0 <= k < |r|
      ensures forall j :: 0 <= j < |r[k].0| ==> HasData(r[k].0[j])
    {
      WalkRunsData(cm, starts[k].0, starts[k].1, maxDim, steps, Progress([], [], [], None));
      assert forall j :: 0 <= j < |r[k].0| ==> r[k].0[j] in r[k].0;
    }
  }

  /**
   * The walks' runs added as segments, walk after walk; it stops at the first walk that did
   * not reach a stopping point and at the first failed assertion.
   */
  function WalkAllSpec<D>(has: bool, segs: seq<Segment<D>>, m: WayMap, ws: seq<WalkResult<D>>): (bool, seq<Segment<D>>, WayMap)
    requires AllHaveData(ws)
  {
    if ws == [] then (true, segs, m)
    else
      var init := ws[..|ws| - 1];
      var w := ws[|ws| - 1];
      assert AllHaveData(init);
      var (ok, s1, m1) := WalkAllSpec(has, segs, m, init);
      if !ok || !w.1.Stopped? then (false, s1, m1)
      else
        assert forall j :: 0 <= j < |w.0| ==> HasData(w.0[j]);
        AddRunsSpec(has, s1, m1, w.0)
  }

  /** The runs of all the walks, one walk after the other. */
  function AllRuns<D>(ws: seq<WalkResult<D>>): (r: seq<Run<D>>)
    requires AllHaveData(ws)
    ensures forall k :: 0 <= k < |r| ==> HasData(r[k])
  {
    if ws == [] then []
    else
      var init := ws[..|ws| - 1];
      var w := ws[|ws| - 1];
      assert AllHaveData(init);
      assert forall j :: 0 <= j < |w.0| ==> HasData(w.0[j]);
      var r := AllRuns(init);
      assert forall k :: 0 <= k < |r + w.0| ==> (r + w.0)[k] == if k < |r| then r[k] else w.0[k - |r|];
      r + w.0
  }

  /** Whether every walk reached a stopping point. */
  predicate AllStop<D>(ws: seq<WalkResult<D>>) {
    forall k :: 0 <= k < |ws| ==> ws[k].1.Stopped?
  }

  /** One more walk made: its result follows the others'. */
  lemma WalksSnoc<D>(cm: CoordMap<D>, starts: seq<(Point, InputWay<D>)>, x: (Point, InputWay<D>), maxDim: int, steps: nat)
    ensures WalksMade(cm, starts + [x], maxDim, steps) == WalksMade(cm, starts, maxDim, steps) + [Walked(cm, x.0, x.1, maxDim, steps)]
  {
    var ws := WalksMade(cm, starts + [x], maxDim, steps);
    assert forall k :: 0 <= k < |starts| ==> (starts + [x])[k] == starts[k];
  }

  /** Once a run failed, the runs after it change nothing. */
  lemma {:induction false} AddRunsStuck<D>(has: bool, segs: seq<Segment<D>>, m: WayMap, runs: seq<Run<D>>, n: nat)
    requires forall k :: 0 <= k < |runs| ==> HasData(runs[k])
    requires n <= |runs| && !AddRunsSpec(has, segs, m, runs[..n]).0
    ensures AddRunsSpec(has, segs, m, runs) == AddRunsSpec(has, segs, m, runs[..n])
  {
    if n < |runs| {
      var init := runs[..|runs| - 1];
      assert init[..n] == runs[..n];
      AddRunsStuck(has, segs, m, init, n);
    } else {
      assert runs[..n] == runs;
    }
  }

  /** One more walk: its runs are added unless an earlier walk failed or it did not stop. */
  lemma WalkAllSnoc<D>(has: bool, segs: seq<Segment<D>>, m: WayMap, ws: seq<WalkResult<D>>, w: WalkResult<D>)
    requires AllHaveData(ws + [w])
    ensures AllHaveData(ws) && forall j :: 0 <= j < |w.0| ==> HasData(w.0[j])
    ensures var p := WalkAllSpec(has, segs, m, ws);
      WalkAllSpec(has, segs, m, ws + [w]) == if !p.0 || !w.1.Stopped? then (false, p.1, p.2) else AddRunsSpec(has, p.1, p.2, w.0)
  {
    assert (ws + [w])[..|ws|] == ws;
    assert forall k :: 0 <= k < |ws| ==> (ws + [w])[k] == ws[k];
    assert (ws + [w])[|ws|] == w;
  }

  /** Once a walk failed, the walks after it change nothing. */
  lemma {:induction false} WalkAllStuck<D>(has: bool, segs: seq<Segment<D>>, m: WayMap, ws: seq<WalkResult<D>>, n: nat)
    requires AllHaveData(ws) && n <= |ws|
    requires !WalkAllSpec(has, segs, m, ws[..n]).0
    ensures WalkAllSpec(has, segs, m, ws) == WalkAllSpec(has, segs, m, ws[..n])
  {
    if n < |ws| {
      var init := ws[..|ws| - 1];
      assert init[..n] == ws[..n];
      WalkAllStuck(has, segs, m, init, n);
    } else {
      assert ws[..n] == ws;
    }
  }

  /** The walks made along the first of the starts are the first of the walks made. */
  lemma WalksPrefix<D>(cm: CoordMap<D>, starts: seq<(Point, InputWay<D>)>, n: nat, maxDim: int, steps: nat)
    requires n <= |starts|
    ensures WalksMade(cm, starts, maxDim, steps)[..n] == WalksMade(cm, starts[..n], maxDim, steps)
  {
  }

  /** The walks of the first origins come first among the walks of all the origins. */
  lemma {:induction false} StartsPrefix<D>(cm: CoordMap<D>, origins: seq<Point>, i: nat)
    requires i <= |origins|
    ensures var s := Starts(cm, origins); var t := Starts(cm, origins[..i]); |t| <= |s| && s[..|t|] == t
  {
    if i < |origins| {
      var init := origins[..|origins| - 1];
      assert init[..i] == origins[..i];
      StartsPrefix(cm, init, i);
    } else {
      assert origins[..i] == origins;
    }
  }

  /** A walk from one of the origins that failed leaves the outcome of all the walks at what it was then. */
  lemma OriginsStuck<D>(has: bool, segs: seq<Segment<D>>, m: WayMap, cm: CoordMap<D>, origins: seq<Point>, i: nat, maxDim: int, steps: nat)
    requires i <= |origins|
    requires !WalkAllSpec(has, segs, m, WalksMade(cm, Starts(cm, origins[..i]), maxDim, steps)).0
    ensures WalkAllSpec(has, segs, m, WalksMade(cm, Starts(cm, origins), maxDim, steps))
         == WalkAllSpec(has, segs, m, WalksMade(cm, Starts(cm, origins[..i]), maxDim, steps))
  {
    StartsPrefix(cm, origins, i);
    WalksStuck(has, segs, m, cm, Starts(cm, origins), Starts(cm, origins[..i]), maxDim, steps);
  }

  /** A walk along one of the ways leaving an origin that failed leaves the outcome of the walks from it at what it was then. */
  lemma PairsStuck<D>(has: bool, segs: seq<Segment<D>>, m: WayMap, cm: CoordMap<D>, done: seq<(Point, InputWay<D>)>,
                      o: Point, outs: seq<InputWay<D>>, j: nat, maxDim: int, steps: nat)
    requires j <= |outs|
    requires !WalkAllSpec(has, segs, m, WalksMade(cm, done + Pairs(o, outs[..j]), maxDim, steps)).0
    ensures WalkAllSpec(has, segs, m, WalksMade(cm, done + Pairs(o, outs), maxDim, steps))
         == WalkAllSpec(has, segs, m, WalksMade(cm, done + Pairs(o, outs[..j]), maxDim, steps))
  {
    PairsPrefix(done, o, outs, j);
    WalksStuck(has, segs, m, cm, done + Pairs(o, outs), done + Pairs(o, outs[..j]), maxDim, steps);
  }

  /** The walks of some of the origins are walks of all of them. */
  lemma StartsNonEmpty<D>(cm: CoordMap<D>, origins: seq<Point>, i: nat)
    requires i <= |origins|
    ensures Starts(cm, origins[..i]) != [] ==> Starts(cm, origins) != []
  {
    StartsPrefix(cm, origins, i);
  }

  /** The walks of the inner loop so far come first among the walks from that origin. */
  lemma PairsPrefix<D>(done: seq<(Point, InputWay<D>)>, o: Point, outs: seq<InputWay<D>>, j: nat)
    requires j <= |outs|
    ensures var t := done + Pairs(o, outs[..j]); var s := done + Pairs(o, outs); |t| <= |s| && s[..|t|] == t
  {
  }

  /** The walks of one more origin follow those of the origins before it. */
  lemma StartsStep<D>(cm: CoordMap<D>, origins: seq<Point>, i: nat)
    requires i < |origins|
    ensures Starts(cm, origins[..i + 1]) == Starts(cm, origins[..i]) + Pairs(origins[i], Lookup(cm, origins[i]).1)
  {
    assert origins[..i + 1][..i] == origins[..i] && origins[..i + 1][i] == origins[i];
  }

  /** The walks so far and the next walk of the inner loop. */
  lemma PairsStep<D>(done: seq<(Point, InputWay<D>)>, o: Point, outs: seq<InputWay<D>>, j: nat)
    requires j <= |outs|
    ensures j == 0 ==> done + Pairs(o, outs[..j]) == done
    ensures j < |outs| ==> done + Pairs(o, outs[..j + 1]) == done + Pairs(o, outs[..j]) + [(o, outs[j])]
  {
    if j == 0 {
      assert Pairs(o, outs[..j]) == [];
    }
  }

  /** A walk that failed leaves the outcome of all the walks at what it was after that walk. */
  lemma WalksStuck<D>(has: bool, segs: seq<Segment<D>>, m: WayMap, cm: CoordMap<D>, all: seq<(Point, InputWay<D>)>,
                      done: seq<(Point, InputWay<D>)>, maxDim: int, steps: nat)
    requires |done| <= |all| && all[..|done|] == done
    requires !WalkAllSpec(has, segs, m, WalksMade(cm, done, maxDim, steps)).0
    ensures WalkAllSpec(has, segs, m, WalksMade(cm, all, maxDim, steps)) == WalkAllSpec(has, segs, m, WalksMade(cm, done, maxDim, steps))
  {
    WalksPrefix(cm, all, |done|, maxDim, steps);
    WalkAllStuck(has, segs, m, WalksMade(cm, all, maxDim, steps), |done|);
  }

  /** The contents of a network: its segments, its nodes and its way map. */
  datatype Contents<D> = Contents(segments: seq<Segment<D>>, nodes: map<Point, Node<D>>, waySegmentMap: WayMap)

  /** The way map after a split: each of the parent's ways leaves the parent and enters both halves. */
  function Moved(m: WayMap, ids: seq<int>, parent: nat, a: nat, b: nat): WayMap {
    AddIds(AddIds(RemoveIds(m, ids, parent), ids, a), ids, b)
  }

  /**
   * The split of segment `leaf` at `index`: the halves share its data and way ids and go at
   * the end of the list, the leaf records them, and, when the map is kept, its ways move
   * to the halves.
   */
  function Split<D>(has: bool, segs: seq<Segment<D>>, m: WayMap, leaf: nat, index: nat, np: Point): (seq<Segment<D>>, WayMap)
    requires leaf < |segs| && 0 < index < |segs[leaf].points|
  {
    var parent := segs[leaf];
    var n := |segs|;
    var (a, b) := Halves(parent.points, index, np);
    (segs[leaf := parent.(split := Some((n, n + 1)))]
       + [Segment(None, a, parent.data, None, parent.wayIds), Segment(None, b, parent.data, None, parent.wayIds)],
     if has then Moved(m, parent.wayIds, leaf, n, n + 1) else m)
  }

  /**
   * One node of `construct_data`'s last loop: unless the lookup fails or the node is too far
   * away, the leaf is split when the point is inside it, and a node is recorded at the
   * rounded point.
   */
  function Inserted<D>(has: bool, c: Contents<D>, q: NodeQuery<D>): (Placement, Contents<D>)
    requires SplitsForward(c.segments)
  {
    var p := Place(c.segments, q);
    if Fails(p) || p.TooFar? then (p, c)
    else
      var (segs, m) := if p.SplitAt? then Split(has, c.segments, c.waySegmentMap, p.leaf, p.index, q.point)
                       else (c.segments, c.waySegmentMap);
      var np := RoundCoords(q.point);
      (p, Contents(segs, c.nodes[np := Node(None, np, q.data)], m))
  }

  /** The nodes inserted in order, up to the first failed lookup; whether none failed. */
  function InsertAll<D>(has: bool, c: Contents<D>, qs: seq<NodeQuery<D>>): (r: (bool, Contents<D>))
    requires SplitsForward(c.segments)
    ensures SplitsForward(r.1.segments)
  {
    if qs == [] then (true, c)
    else
      var (ok, c1) := InsertAll(has, c, qs[..|qs| - 1]);
      if !ok then (false, c1)
      else
        InsertedForward(has, c1, qs[|qs| - 1]);
        var (p, c2) := Inserted(has, c1, qs[|qs| - 1]);
        (!Fails(p), c2)
  }

  /** One more node: it is inserted unless an earlier lookup failed. */
  lemma InsertAllSnoc<D>(has: bool, c: Contents<D>, qs: seq<NodeQuery<D>>, n: nat)
    requires SplitsForward(c.segments) && n < |qs|
    ensures var p := InsertAll(has, c, qs[..n]);
      InsertAll(has, c, qs[..n + 1]) == if !p.0 then p else (!Fails(Inserted(has, p.1, qs[n]).0), Inserted(has, p.1, qs[n]).1)
  {
    assert qs[..n + 1][..n] == qs[..n];
  }

  /** Once a lookup failed, the nodes after it change nothing. */
  lemma {:induction false} InsertAllStuck<D>(has: bool, c: Contents<D>, qs: seq<NodeQuery<D>>, n: nat)
    requires SplitsForward(c.segments) && n <= |qs| && !InsertAll(has, c, qs[..n]).0
    ensures InsertAll(has, c, qs) == InsertAll(has, c, qs[..n])
  {
    if n < |qs| {
      var init := qs[..|qs| - 1];
      assert init[..n] == qs[..n];
      InsertAllStuck(has, c, init, n);
    } else {
      assert qs[..n] == qs;
    }
  }

  /** Splitting keeps the halves after the segments they came from. */
  lemma InsertedForward<D>(has: bool, c: Contents<D>, q: NodeQuery<D>)
    requires SplitsForward(c.segments)
    ensures SplitsForward(Inserted(has, c, q).1.segments)
  {
    var p := Place(c.segments, q);
    if p.SplitAt? {
      var segs := Split(has, c.segments, c.waySegmentMap, p.leaf, p.index, q.point).0;
      forall i | 0 <= i < |segs| && segs[i].split.Some?
        ensures i < segs[i].split.value.0 < |segs| && i < segs[i].split.value.1 < |segs|
      {
        if i != p.leaf {
          assert segs[i] == c.segments[i];
        }
      }
    }
  }

  /** The runs' segments are appended after the segments already there, each the segment of one of the runs. */
  lemma {:induction false} AddRunsShape<D>(has: bool, segs: seq<Segment<D>>, m: WayMap, runs: seq<Run<D>>)
    requires forall k :: 0 <= k < |runs| ==> HasData(runs[k])
    ensures var r := AddRunsSpec(has, segs, m, runs);
      && |segs| <= |r.1| && r.1[..|segs|] == segs
      && forall i :: |segs| <= i < |r.1| ==> r.1[i] in SegmentsOf(runs)
  {
    if runs != [] {
      var init := runs[..|runs| - 1];
      var last := runs[|runs| - 1];
      AddRunsShape(has, segs, m, init);
      var s1 := AddRunsSpec(has, segs, m, init).1;
      var r := AddRunsSpec(has, segs, m, runs);
      var tail := if last.points != [] then [SegmentOf(last)] else [];
      assert SegmentsOf(runs) == SegmentsOf(init) + tail;
      if r.1 != s1 {
        assert r.1 == s1 + [SegmentOf(last)];
        assert r.1[|s1|] in SegmentsOf(runs);
      }
    }
  }

  /** The segments of runs then more runs are those of the first runs then those of the others. */
  lemma {:induction false} SegmentsOfAppend<D>(xs: seq<Run<D>>, ys: seq<Run<D>>)
    requires forall k :: 0 <= k < |xs| ==> HasData(xs[k])
    requires forall k :: 0 <= k < |ys| ==> HasData(ys[k])
    ensures SegmentsOf(xs + ys) == SegmentsOf(xs) + SegmentsOf(ys)
    decreases |ys|
  {
    if ys == [] {
      assert xs + ys == xs;
    } else {
      var init := ys[..|ys| - 1];
      SegmentsOfAppend(xs, init);
      assert (xs + ys)[..|xs + ys| - 1] == xs + init;
      var last := ys[|ys| - 1];
      var tail := if last.points != [] then [SegmentOf(last)] else [];
      assert SegmentsOf(xs) + SegmentsOf(init) + tail == SegmentsOf(xs) + (SegmentsOf(init) + tail);
    }
  }

  /**
   * Without a way map nothing clashes: the runs' segments are all appended, in order, and
   * the map stays as it was.
   */
  lemma {:induction false} AddRunsUnmapped<D>(segs: seq<Segment<D>>, m: WayMap, runs: seq<Run<D>>)
    requires forall k :: 0 <= k < |runs| ==> HasData(runs[k])
    ensures AddRunsSpec(false, segs, m, runs) == (true, segs + SegmentsOf(runs), m)
  {
    if runs != [] {
      var init := runs[..|runs| - 1];
      var last := runs[|runs| - 1];
      assert HasData(last);
      AddRunsUnmapped(segs, m, init);
      var tail := if last.points != [] then [SegmentOf(last)] else [];
      assert SegmentsOf(runs) == SegmentsOf(init) + tail;
      assert AddStep(false, segs + SegmentsOf(init), m, last).1 == segs + SegmentsOf(init) + tail;
      assert segs + SegmentsOf(init) + tail == segs + SegmentsOf(runs);
    } else {
      assert segs + [] == segs;
    }
  }

  /**
   * Every walk that added segments reached a stopping point; the segments already there are
   * kept and each new one is the segment of a run of the walks.
   */
  lemma {:induction false} WalkAllShape<D>(has: bool, segs: seq<Segment<D>>, m: WayMap, ws: seq<WalkResult<D>>)
    requires AllHaveData(ws)
    ensures var r := WalkAllSpec(has, segs, m, ws);
      && (r.0 ==> AllStop(ws))
      && |segs| <= |r.1| && r.1[..|segs|] == segs
      && forall i :: |segs| <= i < |r.1| ==> r.1[i] in SegmentsOf(AllRuns(ws))
  {
    if ws == [] {
      assert segs[..|segs|] == segs;
    } else {
      var init := ws[..|ws| - 1];
      var w := ws[|ws| - 1];
      assert AllHaveData(init);
      assert forall j :: 0 <= j < |w.0| ==> HasData(w.0[j]);
      WalkAllShape(has, segs, m, init);
      var p := WalkAllSpec(has, segs, m, init);
      var r := WalkAllSpec(has, segs, m, ws);
      var all := SegmentsOf(AllRuns(ws));
      SegmentsOfAppend(AllRuns(init), w.0);
      assert all == SegmentsOf(AllRuns(init)) + SegmentsOf(w.0);
      if p.0 && w.1.Stopped? {
        AddRunsShape(has, p.1, p.2, w.0);
        assert r == AddRunsSpec(has, p.1, p.2, w.0);
        assert r.1[..|segs|] == p.1[..|segs|];
        forall i | |segs| <= i < |r.1|
          ensures r.1[i] in all
        {
          if i < |p.1| {
            assert r.1[i] == r.1[..|p.1|][i];
          }
        }
        forall k | 0 <= k < |ws|
          ensures ws[k].1.Stopped?
        {
          if k < |init| {
            assert ws[k] == init[k];
          }
        }
      } else {
        assert r.1 == p.1;
      }
    }
  }

  /**
   * Without a way map the walks fail only by not stopping, and when none fails, the
   * segments of all their runs are appended in order.
   */
  lemma {:induction false} WalkAllUnmapped<D>(segs: seq<Segment<D>>, m: WayMap, ws: seq<WalkResult<D>>)
    requires AllHaveData(ws)
    ensures var r := WalkAllSpec(false, segs, m, ws);
      && (r.0 <==> AllStop(ws))
      && (r.0 ==> r.1 == segs + SegmentsOf(AllRuns(ws)) && r.2 == m)
  {
    if ws != [] {
      var init := ws[..|ws| - 1];
      var w := ws[|ws| - 1];
      assert AllHaveData(init);
      assert forall j :: 0 <= j < |w.0| ==> HasData(w.0[j]);
      WalkAllUnmapped(segs, m, init);
      var p := WalkAllSpec(false, segs, m, init);
      var r := WalkAllSpec(false, segs, m, ws);
      assert forall k :: 0 <= k < |init| ==> ws[k] == init[k];
      assert AllStop(ws) <==> AllStop(init) && w.1.Stopped?;
      if p.0 && w.1.Stopped? {
        var before := AllRuns(init);
        assert r == AddRunsSpec(false, p.1, p.2, w.0);
        AddRunsUnmapped(p.1, p.2, w.0);
        assert AllRuns(ws) == before + w.0;
        SegmentsOfAppend(before, w.0);
        assert segs + SegmentsOf(before) + SegmentsOf(w.0) == segs + (SegmentsOf(before) + SegmentsOf(w.0));
      } else {
        assert !r.0;
      }
    } else {
      assert segs + SegmentsOf(AllRuns(ws)) == segs + [];
    }
  }

  /** A segment keeps its points, its data and its ways; only its handle and its split may change. */
  predicate SameRoad<D(==)>(s: Segment<D>, t: Segment<D>) {
    s.points == t.points && s.data == t.data && s.wayIds == t.wayIds
  }

  /**
   * Inserting nodes keeps every segment's points, data and ways, only appending halves,
   * and each new node is at the rounded point of one of the queries.
   */
  lemma {:induction false} InsertAllKeeps<D>(has: bool, c: Contents<D>, qs: seq<NodeQuery<D>>)
    requires SplitsForward(c.segments)
    ensures var r := InsertAll(has, c, qs).1;
      && |c.segments| <= |r.segments|
      && (forall i :: 0 <= i < |c.segments| ==> SameRoad(r.segments[i], c.segments[i]))
      && forall p :: p in r.nodes ==> p in c.nodes || exists k :: 0 <= k < |qs| && p == RoundCoords(qs[k].point)
  {
    if qs != [] {
      var init := qs[..|qs| - 1];
      var q := qs[|qs| - 1];
      InsertAllKeeps(has, c, init);
      var (ok, c1) := InsertAll(has, c, init);
      if ok {
        InsertedKeeps(has, c1, q);
        var c2 := Inserted(has, c1, q).1;
        forall x | x in c2.nodes
          ensures x in c.nodes || exists k :: 0 <= k < |qs| && x == RoundCoords(qs[k].point)
        {
          if x !in c1.nodes {
            assert x == RoundCoords(qs[|qs| - 1].point);
          } else if x !in c.nodes {
            var k :| 0 <= k < |init| && x == RoundCoords(init[k].point);
            assert qs[k] == init[k];
          }
        }
      }
    }
  }

  /** One insertion keeps the segments there were, and adds at most the node at the query's rounded point. */
  lemma InsertedKeeps<D>(has: bool, c: Contents<D>, q: NodeQuery<D>)
    requires SplitsForward(c.segments)
    ensures var r := Inserted(has, c, q).1;
      && |c.segments| <= |r.segments|
      && (forall i :: 0 <= i < |c.segments| ==> SameRoad(r.segments[i], c.segments[i]))
      && forall x :: x in r.nodes ==> x in c.nodes || x == RoundCoords(q.point)
  {
  }

  /**
   * `construct_data` on the network's contents: it fails when there are no ways, when a
   * walk fails, when no walk is made at all, or when there are no segments after the walks
   * (the `del` of a loop variable that was never bound); otherwise the nodes are inserted.
   * A failure leaves the contents as they were at that point.
   */
  function Constructed<D(==)>(has: bool, c: Contents<D>, ways: seq<InputWay<D>>, queries: seq<NodeQuery<D>>,
                              maxDim: int, steps: nat): (bool, Contents<D>)
    requires SplitsForward(c.segments)
  {
    if ways == [] then (false, c)
    else
      var cm := CoordIndex(ways);
      var starts := Starts(cm, OriginsOf(KeyOrder(ways), cm, NotOneEach));
      var (ok, segs, m) := WalkAllSpec(has, c.segments, c.waySegmentMap, WalksMade(cm, starts, maxDim, steps));
      if !ok || starts == [] || segs == [] then (false, Contents(segs, c.nodes, m))
      else
        WalkAllForward(has, c.segments, c.waySegmentMap, WalksMade(cm, starts, maxDim, steps));
        InsertAll(has, Contents(segs, c.nodes, m), queries)
  }

  /** The walks append unsplit segments, so the halves of a split still come after it. */
  lemma WalkAllForward<D>(has: bool, segs: seq<Segment<D>>, m: WayMap, ws: seq<WalkResult<D>>)
    requires SplitsForward(segs) && AllHaveData(ws)
    ensures SplitsForward(WalkAllSpec(has, segs, m, ws).1)
  {
    var r := WalkAllSpec(has, segs, m, ws).1;
    WalkAllShape(has, segs, m, ws);
    forall i | 0 <= i < |r| && r[i].split.Some?
      ensures i < r[i].split.value.0 < |r| && i < r[i].split.value.1 < |r|
    {
      assert r[i] == r[..|segs|][i];
    }
  }

  /**
   * Without a way map, a `construct_data` that succeeds made every walk stop, and its
   * segments begin with the segments already there followed by those of all the walks'
   * runs, in order, each keeping its points, data and ways; the splits only append halves.
   */
  lemma ConstructedUnmapped<D>(c: Contents<D>, ways: seq<InputWay<D>>, queries: seq<NodeQuery<D>>, maxDim: int, steps: nat)
    requires SplitsForward(c.segments)
    ensures var r := Constructed(false, c, ways, queries, maxDim, steps);
      var cm := CoordIndex(ways);
      var ws := WalksMade(cm, Starts(cm, OriginsOf(KeyOrder(ways), cm, NotOneEach)), maxDim, steps);
      var base := c.segments + SegmentsOf(AllRuns(ws));
      r.0 ==>
        && ways != [] && ws != [] && AllStop(ws)
        && |base| <= |r.1.segments|
        && forall i :: 0 <= i < |base| ==> SameRoad(r.1.segments[i], base[i])
  {
    if ways != [] {
      var cm := CoordIndex(ways);
      var ws := WalksMade(cm, Starts(cm, OriginsOf(KeyOrder(ways), cm, NotOneEach)), maxDim, steps);
      WalkAllUnmapped(c.segments, c.waySegmentMap, ws);
      var (ok, segs, m) := WalkAllSpec(false, c.segments, c.waySegmentMap, ws);
      if ok && ws != [] && segs != [] {
        WalkAllForward(false, c.segments, c.waySegmentMap, ws);
        InsertAllKeeps(false, Contents(segs, c.nodes, m), queries);
      }
    }
  }

  /** A `bake_junction(data, state, (x, y))` call: the data of the node at the point, if any. */
  datatype JunctionCall<D> = JunctionCall(data: Option<D>, at: Point)

  /** Two segment lists that differ at most in their handles. */
  predicate SameShape<D>(segs0: seq<Segment<D>>, segs: seq<Segment<D>>) {
    && |segs| == |segs0|
    && forall k :: 0 <= k < |segs| ==> segs[k].points == segs0[k].points && segs[k].split == segs0[k].split
  }

  /** A `bake_segment(data, state, start_id, end_id, points)` call. */
  datatype SegmentCall<D> = SegmentCall(data: D, startId: int, endId: int, points: seq<Point>)

  /** The positions of the unsplit segments, in list order: the segments `modify_state` bakes. */
  function LeafPositions<D>(segs: seq<Segment<D>>): (r: seq<nat>)
    ensures forall j :: 0 <= j < |r| ==> r[j] < |segs| && segs[r[j]].split.None?
  {
    if segs == [] then []
    else LeafPositions(segs[..|segs| - 1]) + if segs[|segs| - 1].split.None? then [|segs| - 1] else []
  }

  /** Every unsplit segment is baked, once, in list order. */
  lemma {:induction false} LeafPositionsAll<D>(segs: seq<Segment<D>>)
    ensures forall i :: 0 <= i < |segs| && segs[i].split.None? ==> i in LeafPositions(segs)
    ensures forall j, k :: 0 <= j < k < |LeafPositions(segs)| ==> LeafPositions(segs)[j] < LeafPositions(segs)[k]
  {
    if segs != [] {
      var init := segs[..|segs| - 1];
      LeafPositionsAll(init);
      assert forall i :: 0 <= i < |init| ==> init[i] == segs[i];
    }
  }

  /** The end points `modify_state` asks junctions for: start then end of each unsplit segment, in order. */
  function EndpointsOf<D>(segs: seq<Segment<D>>): seq<Point>
    requires HavePoints(segs)
  {
    if segs == [] then []
    else
      var last := segs[|segs| - 1];
      EndpointsOf(segs[..|segs| - 1]) + if last.split.None? then [last.points[0], last.points[|last.points| - 1]] else []
  }

  /** The points in order of first appearance, which is the order `junction_map` fills in. */
  function Distinct(ps: seq<Point>): seq<Point> {
    if ps == [] then [] else AddKey(Distinct(ps[..|ps| - 1]), ps[|ps| - 1])
  }

  /** Each point appears once, and exactly the points that appear at all. */
  lemma {:induction false} DistinctSpec(ps: seq<Point>)
    ensures forall p :: p in Distinct(ps) <==> p in ps
    ensures forall i, j :: 0 <= i < j < |Distinct(ps)| ==> Distinct(ps)[i] != Distinct(ps)[j]
  {
    if ps != [] {
      var init := ps[..|ps| - 1];
      DistinctSpec(init);
      assert ps == init + [ps[|ps| - 1]];
    }
  }

  /** `self.nodes.get(round_coords(point))`'s data. */
  function NodeData<D>(nodes: map<Point, Node<D>>, p: Point): Option<D> {
    if RoundCoords(p) in nodes then Some(nodes[RoundCoords(p)].data) else None
  }

  /** The handle of the node at `q` after the junction calls: that of the last call whose point rounds to `q`. */
  function NodeHandle(calls: seq<Point>, q: Point, junctionIds: nat -> int, h: Option<int>): Option<int> {
    if calls == [] then h
    else if RoundCoords(calls[|calls| - 1]) == q then Some(junctionIds(|calls| - 1))
    else NodeHandle(calls[..|calls| - 1], q, junctionIds, h)
  }

  /** A node gets a handle exactly when some junction is made at a point that rounds to it. */
  lemma {:induction false} NodeHandleGiven(calls: seq<Point>, q: Point, junctionIds: nat -> int, h: Option<int>)
    ensures NodeHandle(calls, q, junctionIds, h) != h ==> exists k :: 0 <= k < |calls| && RoundCoords(calls[k]) == q
    ensures (exists k :: 0 <= k < |calls| && RoundCoords(calls[k]) == q) ==>
      exists k :: 0 <= k < |calls| && RoundCoords(calls[k]) == q && NodeHandle(calls, q, junctionIds, h) == Some(junctionIds(k))
  {
    if calls != [] {
      var init := calls[..|calls| - 1];
      NodeHandleGiven(init, q, junctionIds, h);
      if RoundCoords(calls[|calls| - 1]) != q {
        assert forall k :: 0 <= k < |init| ==> init[k] == calls[k];
      }
    }
  }

  /**
   * What `modify_state`'s junction memo holds after the junctions of the points `es`: one
   * call per distinct point, in order of first appearance, each with its node's data; the
   * memo maps each point to its call; each node holds the handle of the last junction at
   * its point; and every point is in the region.
   */
  ghost predicate JunctionsMade<D>(es: seq<Point>, calls: seq<JunctionCall<D>>, memo: map<Point, nat>,
                                   nodes0: map<Point, Node<D>>, nodes: map<Point, Node<D>>, junctionIds: nat -> int, maxDim: int)
  {
    var d := Distinct(es);
    && |calls| == |d|
    && (forall k :: 0 <= k < |d| ==> calls[k] == JunctionCall(NodeData(nodes0, d[k]), d[k]))
    && (forall p :: p in memo <==> p in d)
    && (forall p :: p in memo ==> memo[p] < |d| && d[memo[p]] == p)
    && (forall q :: q in nodes <==> q in nodes0)
    && (forall q :: q in nodes ==> nodes[q] == nodes0[q].(handle := NodeHandle(d, q, junctionIds, nodes0[q].handle)))
    && (forall p :: p in d ==> InBounds(p, maxDim))
  }

  class Network<D(==)> {
    var segments: seq<Segment<D>>
    var nodes: map<Point, Node<D>>
    var waySegmentMap: WayMap
    const hasWaySegmentMap: bool
    /** `max_dim`: the side of the region, in tiles. */
    const maxDim: int

    /**
     * Every segment has points; a split segment's halves come after it in the list; the
     * way map is exact when it is kept and empty when it is not.
     */
    ghost predicate Valid()
      reads this
    {
      && HavePoints(segments)
      && SplitsForward(segments)
      && NodesAtKeys(nodes)
      && (hasWaySegmentMap ==> MapExact(waySegmentMap, segments))
      && (!hasWaySegmentMap ==> waySegmentMap == map[])
    }

    /** A valid network whose every segment comes from the ways. */
    ghost predicate Sound(ways: seq<InputWay<D>>)
      reads this
    {
      Valid() && forall i :: 0 <= i < |segments| ==> SegmentOk(ways, segments[i])
    }

    /** The network's contents. */
    ghost function Now(): Contents<D>
      reads this
    {
      Contents(segments, nodes, waySegmentMap)
    }

    /** `__init__`: no segments, no nodes, an empty way map. */
    constructor (hasWaySegmentMap: bool, maxDim: int)
      ensures this.hasWaySegmentMap == hasWaySegmentMap && this.maxDim == maxDim
      ensures segments == [] && nodes == map[] && waySegmentMap == map[]
      ensures Valid()
    {
      this.hasWaySegmentMap := hasWaySegmentMap;
      this.maxDim := maxDim;
      segments, nodes, waySegmentMap := [], map[], map[];
      assert forall wid :: Get(map[], wid) == {};
    }

    /**
     * `add_segment(points, segment_data, way_ids)`: an empty run is ignored; when the map
     * is kept, a clash abandons a run of one way and fails the assertion for a longer run;
     * otherwise the segment is appended and, when the map is kept, entered under each way.
     */
    method AddSegment(run: Run<D>) returns (outcome: AddOutcome)
      requires Valid()
      requires |run.points| > 0 ==> run.data.Some?
      modifies this
      ensures Valid()
      ensures outcome == Ignored <==> run.points == []
      ensures outcome == Abandoned <==> run.points != [] && hasWaySegmentMap && Clash(old(waySegmentMap), run.wayIds) && |run.wayIds| == 1
      ensures outcome == Failed <==> run.points != [] && hasWaySegmentMap && Clash(old(waySegmentMap), run.wayIds) && |run.wayIds| != 1
      ensures outcome == Added ==> segments == old(segments) + [Segment(None, run.points, run.data.value, None, run.wayIds)]
      ensures outcome == Added ==> waySegmentMap == if hasWaySegmentMap then AddIds(old(waySegmentMap), run.wayIds, |old(segments)|) else old(waySegmentMap)
      ensures outcome != Added ==> segments == old(segments) && waySegmentMap == old(waySegmentMap)
      ensures nodes == old(nodes)
      ensures (outcome, segments, waySegmentMap) == AddStep(hasWaySegmentMap, old(segments), old(waySegmentMap), run)
    {
      if run.points == [] {
        return Ignored;
      }
      var ids := run.wayIds;
      var m := waySegmentMap;
      if hasWaySegmentMap {
        var clash;
        m, clash := EnterRun(waySegmentMap, ids, |segments|);
        if clash {
          if |ids| == 1 {
            return Abandoned;
          }
          return Failed;
        }
        AddKeeps(waySegmentMap, segments, Segment(None, run.points, run.data.value, None, ids));
      }
      segments := segments + [Segment(None, run.points, run.data.value, None, ids)];
      waySegmentMap := m;
      return Added;
    }

    method SplitLeaf(leaf: nat, index: nat, np: Point)
      requires Valid() && leaf < |segments| && segments[leaf].split.None? && 0 < index < |segments[leaf].points|
      modifies this
      ensures Valid() && nodes == old(nodes)
      ensures SplitDone(hasWaySegmentMap, segments, waySegmentMap, old(segments), old(waySegmentMap), leaf, index, np)
      ensures (segments, waySegmentMap) == Split(hasWaySegmentMap, old(segments), old(waySegmentMap), leaf, index, np)
    {
      var parent := segments[leaf];
      var (aPoints, bPoints) := Halves(parent.points, index, np);
      var n := |segments|;
      var a := Segment(None, aPoints, parent.data, None, parent.wayIds);
      var b := Segment(None, bPoints, parent.data, None, parent.wayIds);
      var segs' := segments[leaf := parent.(split := Some((n, n + 1)))] + [a, b];
      if hasWaySegmentMap {
        var m := Reassign(waySegmentMap, parent.wayIds, leaf, n, n + 1);
        SplitKeeps(waySegmentMap, m, segments, leaf, a, b);
        waySegmentMap := m;
      }
      segments := segs';
    }

    /**
     * The `while nearest_segment.split` descent: from a split segment to the half the node
     * is closer to, until an unsplit segment is reached.
     */
    method FindLeaf(start: nat, towardA: nat -> bool) returns (leaf: nat)
      requires Valid() && start < |segments|
      ensures leaf == Descend(segments, start, towardA)
    {
      leaf := start;
      while segments[leaf].split.Some?
        invariant leaf < |segments|
        invariant Descend(segments, leaf, towardA) == Descend(segments, start, towardA)
        decreases |segments| - leaf
      {
        var (a, b) := segments[leaf].split.value;
        leaf := if towardA(leaf) then a else b;
      }
    }

    /**
     * One node of `construct_data`'s last loop: descends to the leaf, and unless the node
     * is too far away or a lookup fails, records the node at its rounded point, splitting
     * the leaf first when the point is inside it. The halves share the leaf's data and way
     * ids and go at the end of the list; the way map moves each of those ways from the leaf
     * to the halves.
     */
    method InsertNode(q: NodeQuery<D>) returns (outcome: Placement)
      requires Valid()
      modifies this
      ensures Valid()
      ensures outcome == Place(old(segments), q)
      ensures Fails(outcome) || outcome.TooFar? ==> segments == old(segments) && nodes == old(nodes) && waySegmentMap == old(waySegmentMap)
      ensures outcome.AtEnd? || outcome.SplitAt? ==> nodes == old(nodes)[RoundCoords(q.point) := Node(None, RoundCoords(q.point), q.data)]
      ensures outcome.AtEnd? ==> segments == old(segments) && waySegmentMap == old(waySegmentMap)
      ensures outcome.SplitAt? ==> SplitDone(hasWaySegmentMap, segments, waySegmentMap, old(segments), old(waySegmentMap), outcome.leaf, outcome.index, q.point)
      ensures (outcome, Now()) == Inserted(hasWaySegmentMap, old(Now()), q)
    {
      outcome := Locate(q);
      if outcome.SplitAt? {
        SplitLeaf(outcome.leaf, outcome.index, q.point);
      }
      if outcome.AtEnd? || outcome.SplitAt? {
        RoundCoordsIdempotent(q.point);
        PutNode(RoundCoords(q.point), q.data);
      }
    }

    /** The lookups of `add_node`: the leaf under the nearest segment, then the position of the point in it. */
    method Locate(q: NodeQuery<D>) returns (outcome: Placement)
      requires Valid()
      ensures outcome == Place(segments, q)
    {
      if q.nearest >= |segments| {
        return NoSegments;
      }
      var leaf := FindLeaf(q.nearest, q.towardA);
      if q.tooFar {
        return TooFar;
      }
      var points := segments[leaf].points;
      var found := LastIndex(points, RoundCoords(q.point));
      if found.None? {
        return NotAPoint;
      }
      var index := found.value;
      if 0 < index < |points| - 1 {
        if q.prevCloser {
          index := index - 1;
        }
        if q.nextCloser {
          index := index + 1;
        }
        if index == 0 {
          return EmptyHalf;
        }
        return SplitAt(leaf, index);
      }
      return AtEnd(leaf);
    }

    /** `self.nodes[coords] = Node(...)`: a node without a handle at a rounded point. */
    method PutNode(p: Point, data: D)
      requires Valid() && RoundCoords(p) == p
      modifies this
      ensures Valid() && nodes == old(nodes)[p := Node(None, p, data)]
      ensures segments == old(segments) && waySegmentMap == old(waySegmentMap)
    {
      nodes := nodes[p := Node(None, p, data)];
    }

    /**
     * `construct_data`: indexes the ways by their end points, walks from every origin
     * along every way leaving it, adds the walks' runs as segments, then inserts the extra
     * junctions. It does what `Constructed` says: it fails when there are no ways, when a
     * walk breaks or runs out of steps, when `add_segment`'s assertion fails, when no walk
     * is made, when no segment is left afterwards, or when a node's lookup fails. Every
     * segment it makes carries the data of the ways it holds.
     */
    method ConstructData(ways: seq<InputWay<D>>, queries: seq<NodeQuery<D>>, steps: nat) returns (ok: bool)
      requires Valid() && forall i :: 0 <= i < |segments| ==> SegmentOk(ways, segments[i])
      modifies this
      ensures Valid()
      ensures (ok, Now()) == Constructed(hasWaySegmentMap, old(Now()), ways, queries, maxDim, steps)
      ensures ok ==> forall i :: 0 <= i < |segments| ==> SegmentOk(ways, segments[i])
    {
      if ways == [] {
        return false;
      }
      ok := AddWalks(ways, steps);
      if !ok {
        return;
      }
      if segments == [] {
        return false;
      }
      ghost var cm := CoordIndex(ways);
      ghost var ws := WalksMade(cm, Starts(cm, OriginsOf(KeyOrder(ways), cm, NotOneEach)), maxDim, steps);
      WalkAllForward(hasWaySegmentMap, old(segments), old(waySegmentMap), ws);
      ok := InsertNodes(ways, queries);
    }

    /**
     * The walks of `construct_data`: from every origin along every way leaving it, each
     * run added as a segment. It fails when a walk does not stop, when `add_segment`'s
     * assertion fails, and when no walk is made at all.
     */
    method AddWalks(ways: seq<InputWay<D>>, steps: nat) returns (ok: bool)
      requires Valid() && forall i :: 0 <= i < |segments| ==> SegmentOk(ways, segments[i])
      modifies this
      ensures Valid()
      ensures var cm := CoordIndex(ways);
        var starts := Starts(cm, OriginsOf(KeyOrder(ways), cm, NotOneEach));
        var r := WalkAllSpec(hasWaySegmentMap, old(segments), old(waySegmentMap), WalksMade(cm, starts, maxDim, steps));
        && ok == (r.0 && starts != [])
        && segments == r.1 && waySegmentMap == r.2 && nodes == old(nodes)
      ensures ok ==> forall i :: 0 <= i < |segments| ==> SegmentOk(ways, segments[i])
    {
      var cm, order := BuildCoordMap(ways);
      BuiltListed(cm, ways);
      var origins := FindOrigins(cm, order, NotOneEach);
      var walked;
      ok, walked := WalkOrigins(ways, cm, origins, steps);
      ok := ok && walked;
    }

    /** The walks of `construct_data` from each origin in turn; `walked` is whether any walk was made. */
    method WalkOrigins(ways: seq<InputWay<D>>, cm: CoordMap<D>, origins: seq<Point>, steps: nat) returns (ok: bool, walked: bool)
      requires Sound(ways)
      requires Listed(cm, ways)
      modifies this
      ensures Sound(ways)
      ensures (ok, segments, waySegmentMap) == WalkAllSpec(hasWaySegmentMap, old(segments), old(waySegmentMap), WalksMade(cm, Starts(cm, origins), maxDim, steps))
      ensures walked <==> Starts(cm, origins) != []
      ensures nodes == old(nodes)
    {
      ghost var s0, m0 := segments, waySegmentMap;
      ok, walked := true, false;
      var i := 0;
      while i < |origins| && ok
        invariant 0 <= i <= |origins|
        invariant Sound(ways) && nodes == old(nodes)
        invariant ok ==> (true, segments, waySegmentMap) == WalkAllSpec(hasWaySegmentMap, s0, m0, WalksMade(cm, Starts(cm, origins[..i]), maxDim, steps))
        invariant ok ==> (walked <==> Starts(cm, origins[..i]) != [])
        invariant !ok ==> (false, segments, waySegmentMap) == WalkAllSpec(hasWaySegmentMap, s0, m0, WalksMade(cm, Starts(cm, origins), maxDim, steps))
        invariant !ok ==> (walked <==> Starts(cm, origins) != [])
      {
        ok := WalkOriginAt(ways, cm, origins, i, steps, s0, m0);
        walked := walked || Lookup(cm, origins[i]).1 != [];
        i := i + 1;
      }
      if ok {
        assert origins[..i] == origins;
      }
    }

    /**
     * The walks from the origin at position i, after those of the origins before it; when
     * one fails, the walks from the later origins change nothing.
     */
    method WalkOriginAt(ways: seq<InputWay<D>>, cm: CoordMap<D>, origins: seq<Point>, i: nat, steps: nat,
                        ghost s0: seq<Segment<D>>, ghost m0: WayMap) returns (ok: bool)
      requires i < |origins| && Sound(ways) && Listed(cm, ways)
      requires (true, segments, waySegmentMap) == WalkAllSpec(hasWaySegmentMap, s0, m0, WalksMade(cm, Starts(cm, origins[..i]), maxDim, steps))
      modifies this
      ensures Sound(ways) && nodes == old(nodes)
      ensures (ok, segments, waySegmentMap) == WalkAllSpec(hasWaySegmentMap, s0, m0, WalksMade(cm, Starts(cm, origins[..i + 1]), maxDim, steps))
      ensures Starts(cm, origins[..i + 1]) != [] <==> Starts(cm, origins[..i]) != [] || Lookup(cm, origins[i]).1 != []
      ensures !ok ==> (false, segments, waySegmentMap) == WalkAllSpec(hasWaySegmentMap, s0, m0, WalksMade(cm, Starts(cm, origins), maxDim, steps))
      ensures !ok ==> (Starts(cm, origins[..i + 1]) != [] ==> Starts(cm, origins) != [])
    {
      StartsStep(cm, origins, i);
      ok := WalkOrigin(ways, cm, origins[i], steps, s0, m0, Starts(cm, origins[..i]));
      if !ok {
        OriginsStuck(hasWaySegmentMap, s0, m0, cm, origins, i + 1, maxDim, steps);
        StartsNonEmpty(cm, origins, i + 1);
      }
    }

    /**
     * The walks of `construct_data` from one origin, along each way leaving it in turn;
     * a walk that fails stops them.
     */
    method WalkOrigin(ways: seq<InputWay<D>>, cm: CoordMap<D>, o: Point, steps: nat,
                      ghost s0: seq<Segment<D>>, ghost m0: WayMap, ghost done: seq<(Point, InputWay<D>)>) returns (ok: bool)
      requires Sound(ways)
      requires Listed(cm, ways) && forall w :: w in Lookup(cm, o).1 ==> w in ways
      requires (true, segments, waySegmentMap) == WalkAllSpec(hasWaySegmentMap, s0, m0, WalksMade(cm, done, maxDim, steps))
      modifies this
      ensures Sound(ways)
      ensures (ok, segments, waySegmentMap) == WalkAllSpec(hasWaySegmentMap, s0, m0, WalksMade(cm, done + Pairs(o, Lookup(cm, o).1), maxDim, steps))
      ensures nodes == old(nodes)
    {
      var outs := Lookup(cm, o).1;
      PairsStep(done, o, outs, 0);
      var j := 0;
      while j < |outs|
        invariant 0 <= j <= |outs|
        invariant Sound(ways)
        invariant nodes == old(nodes)
        invariant (true, segments, waySegmentMap) == WalkAllSpec(hasWaySegmentMap, s0, m0, WalksMade(cm, done + Pairs(o, outs[..j]), maxDim, steps))
      {
        PairsStep(done, o, outs, j);
        ok := AddWalk(ways, cm, o, outs[j], steps, s0, m0, done + Pairs(o, outs[..j]));
        if !ok {
          PairsStuck(hasWaySegmentMap, s0, m0, cm, done, o, outs, j + 1, maxDim, steps);
          return;
        }
        j := j + 1;
      }
      assert outs[..j] == outs;
      ok := true;
    }

    /** One walk of `construct_data`: when it stops, its runs are added as segments. */
    method AddWalk(ways: seq<InputWay<D>>, cm: CoordMap<D>, o: Point, w: InputWay<D>, steps: nat,
                   ghost s0: seq<Segment<D>>, ghost m0: WayMap, ghost starts: seq<(Point, InputWay<D>)>) returns (ok: bool)
      requires Sound(ways)
      requires w in ways && Listed(cm, ways)
      requires (true, segments, waySegmentMap) == WalkAllSpec(hasWaySegmentMap, s0, m0, WalksMade(cm, starts, maxDim, steps))
      modifies this
      ensures Sound(ways)
      ensures (ok, segments, waySegmentMap) == WalkAllSpec(hasWaySegmentMap, s0, m0, WalksMade(cm, starts + [(o, w)], maxDim, steps))
      ensures nodes == old(nodes)
    {
      WalksSnoc(cm, starts, (o, w), maxDim, steps);
      WalkAllSnoc(hasWaySegmentMap, s0, m0, WalksMade(cm, starts, maxDim, steps), Walked(cm, o, w, maxDim, steps));
      var runs, end := Walk(ways, cm, o, w, maxDim, steps);
      if !end.Stopped? {
        return false;
      }
      ok := AddRuns(ways, runs);
    }

    /** The runs of one walk, added in order; `add_segment`'s assertion failing stops it. */
    method AddRuns(ways: seq<InputWay<D>>, runs: seq<Run<D>>) returns (ok: bool)
      requires Sound(ways)
      requires forall k :: 0 <= k < |runs| ==> RunOk(ways, runs[k], maxDim)
      modifies this
      ensures Sound(ways)
      ensures forall k :: 0 <= k < |runs| ==> HasData(runs[k])
      ensures (ok, segments, waySegmentMap) == AddRunsSpec(hasWaySegmentMap, old(segments), old(waySegmentMap), runs)
      ensures nodes == old(nodes)
    {
      var k := 0;
      while k < |runs|
        invariant 0 <= k <= |runs|
        invariant Sound(ways)
        invariant (true, segments, waySegmentMap) == AddRunsSpec(hasWaySegmentMap, old(segments), old(waySegmentMap), runs[..k])
        invariant nodes == old(nodes)
      {
        assert runs[..k + 1][..k] == runs[..k] && runs[..k + 1][k] == runs[k];
        var outcome := AddSegment(runs[k]);
        if outcome == Failed {
          AddRunsStuck(hasWaySegmentMap, old(segments), old(waySegmentMap), runs, k + 1);
          return false;
        }
        k := k + 1;
      }
      assert runs[..k] == runs;
      return true;
    }

    /** The extra junctions of `construct_data`, inserted in order; a failed lookup stops it. */
    method InsertNodes(ways: seq<InputWay<D>>, queries: seq<NodeQuery<D>>) returns (ok: bool)
      requires Valid() && forall i :: 0 <= i < |segments| ==> SegmentOk(ways, segments[i])
      modifies this
      ensures Valid()
      ensures (ok, Now()) == InsertAll(hasWaySegmentMap, old(Now()), queries)
      ensures ok ==> forall i :: 0 <= i < |segments| ==> SegmentOk(ways, segments[i])
    {
      ghost var c0 := Now();
      var n := 0;
      while n < |queries|
        invariant 0 <= n <= |queries|
        invariant Valid() && forall i :: 0 <= i < |segments| ==> SegmentOk(ways, segments[i])
        invariant SplitsForward(c0.segments) && (true, Now()) == InsertAll(hasWaySegmentMap, c0, queries[..n])
      {
        ok := InsertOne(ways, queries[n], c0, queries, n);
        if !ok {
          InsertAllStuck(hasWaySegmentMap, c0, queries, n + 1);
          return false;
        }
        n := n + 1;
      }
      assert queries[..n] == queries;
      return true;
    }

    /** One node of the extra junctions: whether its lookup succeeded. */
    method InsertOne(ways: seq<InputWay<D>>, q: NodeQuery<D>, ghost c0: Contents<D>, ghost qs: seq<NodeQuery<D>>, ghost n: nat) returns (ok: bool)
      requires Valid() && forall i :: 0 <= i < |segments| ==> SegmentOk(ways, segments[i])
      requires n < |qs| && qs[n] == q
      requires SplitsForward(c0.segments) && (true, Now()) == InsertAll(hasWaySegmentMap, c0, qs[..n])
      modifies this
      ensures Valid()
      ensures (ok, Now()) == InsertAll(hasWaySegmentMap, c0, qs[..n + 1])
      ensures ok ==> forall i :: 0 <= i < |segments| ==> SegmentOk(ways, segments[i])
    {
      InsertAllSnoc(hasWaySegmentMap, c0, qs, n);
      ghost var before := segments;
      ghost var mapBefore := waySegmentMap;
      var outcome := InsertNode(q);
      ok := !Fails(outcome);
      if outcome.SplitAt? {
        SplitOk(ways, hasWaySegmentMap, segments, waySegmentMap, before, mapBefore, outcome.leaf, outcome.index, q.point);
      }
    }

    /**
     * `get_junction_id(point)`: the memoised junction when the point has one; otherwise,
     * after asserting the point is in the region, a new junction with the data of the node
     * at the rounded point, which also takes the junction's handle.
     */
    method GetJunctionId(p: Point, junctionIds: nat -> int, ghost es: seq<Point>, ghost nodes0: map<Point, Node<D>>,
                         calls: seq<JunctionCall<D>>, memo: map<Point, nat>)
      returns (calls': seq<JunctionCall<D>>, memo': map<Point, nat>, id: int, ok: bool)
      requires JunctionsMade(es, calls, memo, nodes0, nodes, junctionIds, maxDim)
      requires NodesAtKeys(nodes)
      modifies this
      ensures segments == old(segments) && waySegmentMap == old(waySegmentMap) && NodesAtKeys(nodes)
      ensures ok <==> p in es || InBounds(p, maxDim)
      ensures ok ==> JunctionsMade(es + [p], calls', memo', nodes0, nodes, junctionIds, maxDim)
      ensures ok ==> p in memo' && id == junctionIds(memo'[p])
      ensures ok ==> forall x :: x in memo ==> x in memo' && memo'[x] == memo[x]
    {
      assert (es + [p])[..|es|] == es;
      if p in memo {
        DistinctSpec(es);
        assert Distinct(es + [p]) == Distinct(es);
        return calls, memo, junctionIds(memo[p]), true;
      }
      if !InBounds(p, maxDim) {
        DistinctSpec(es);
        return calls, memo, 0, false;
      }
      var k := |calls|;
      var rounded := RoundCoords(p);
      var node: Option<Node<D>> := if rounded in nodes then Some(nodes[rounded]) else None;
      var data := if node.Some? then Some(node.value.data) else None;
      id := junctionIds(k);
      calls' := calls + [JunctionCall(data, p)];
      memo' := memo[p := k];
      ghost var nodesBefore := nodes;
      if node.Some? {
        nodes := nodes[rounded := node.value.(handle := Some(id))];
      }
      ok := true;
      JunctionStep(es, p, calls, memo, nodes0, nodesBefore, nodes, junctionIds, maxDim);
    }

    /** The junctions at one segment's two ends, start first; it fails at the first new end out of bounds. */
    method EndJunctions(start: Point, end: Point, junctionIds: nat -> int, ghost es: seq<Point>, ghost nodes0: map<Point, Node<D>>,
                        calls: seq<JunctionCall<D>>, memo: map<Point, nat>)
      returns (calls': seq<JunctionCall<D>>, memo': map<Point, nat>, startId: int, endId: int, ok: bool, ghost bad: Point)
      requires JunctionsMade(es, calls, memo, nodes0, nodes, junctionIds, maxDim)
      requires NodesAtKeys(nodes)
      modifies this
      ensures segments == old(segments) && waySegmentMap == old(waySegmentMap) && NodesAtKeys(nodes)
      ensures !ok ==> bad in es + [start] + [end] && !InBounds(bad, maxDim)
      ensures ok ==> JunctionsMade(es + [start] + [end], calls', memo', nodes0, nodes, junctionIds, maxDim)
      ensures ok ==> start in memo' && startId == junctionIds(memo'[start])
      ensures ok ==> end in memo' && endId == junctionIds(memo'[end])
      ensures ok ==> forall x :: x in memo ==> x in memo' && memo'[x] == memo[x]
    {
      var okStart, okEnd;
      calls', memo', startId, okStart := GetJunctionId(start, junctionIds, es, nodes0, calls, memo);
      if !okStart {
        return calls', memo', startId, 0, false, start;
      }
      ghost var memo1 := memo';
      calls', memo', endId, okEnd := GetJunctionId(end, junctionIds, es + [start], nodes0, calls', memo');
      if !okEnd {
        return calls', memo', startId, endId, false, end;
      }
      assert memo'[start] == memo1[start];
      ok, bad := true, start;
    }

    /**
     * One pass of `modify_state`'s loop, for the unsplit segment at `i`: the junctions at
     * its start and end, then the segment itself. On a failed assertion, the segments are
     * as they were and `bad` is the point outside the region.
     */
    method BakeAt(i: nat, junctionIds: nat -> int, segmentIds: nat -> int, ghost segs0: seq<Segment<D>>, ghost nodes0: map<Point, Node<D>>,
                  calls: seq<JunctionCall<D>>, bakes: seq<SegmentCall<D>>, memo: map<Point, nat>)
      returns (calls': seq<JunctionCall<D>>, bakes': seq<SegmentCall<D>>, memo': map<Point, nat>, ok: bool, ghost bad: Point)
      requires i < |segments| == |segs0| && HavePoints(segs0) && NodesAtKeys(nodes) && segs0[i].split.None?
      requires segments[i..] == segs0[i..]
      requires JunctionsMade(EndpointsOf(segs0[..i]), calls, memo, nodes0, nodes, junctionIds, maxDim)
      requires BakedAll(segs0[..i], segments[..i], bakes, memo, junctionIds, segmentIds)
      modifies this
      ensures waySegmentMap == old(waySegmentMap) && |segments| == |segs0| && NodesAtKeys(nodes)
      ensures !ok ==> segments == old(segments) && bad in EndpointsOf(segs0[..i + 1]) && !InBounds(bad, maxDim)
      ensures ok ==> segments[i + 1..] == segs0[i + 1..]
      ensures ok ==> JunctionsMade(EndpointsOf(segs0[..i + 1]), calls', memo', nodes0, nodes, junctionIds, maxDim)
      ensures ok ==> BakedAll(segs0[..i + 1], segments[..i + 1], bakes', memo', junctionIds, segmentIds)
    {
      ghost var es := EndpointsOf(segs0[..i]);
      assert segs0[..i + 1][..i] == segs0[..i];
      var seg := segments[i];
      assert seg == segs0[i] by {
        assert segments[i..][0] == segs0[i..][0];
      }
      var start, end := seg.points[0], seg.points[|seg.points| - 1];
      assert EndpointsOf(segs0[..i + 1]) == es + [start] + [end];
      var startId, endId;
      calls', memo', startId, endId, ok, bad := EndJunctions(start, end, junctionIds, es, nodes0, calls, memo);
      if !ok {
        return calls', bakes, memo', false, bad;
      }
      var h := segmentIds(|bakes|);
      bakes' := bakes + [SegmentCall(seg.data, startId, endId, seg.points)];
      BakeOne(segs0, segments, i, bakes, memo, memo', junctionIds, segmentIds, startId, endId);
      segments := segments[i := seg.(handle := Some(h))];
      ok, bad := true, start;
    }

    /**
     * `modify_state`: for every unsplit segment in list order, the junctions at its start
     * and end, then the segment, whose handle is stored on it. Split segments are skipped.
     * It fails at the first new end point outside the region.
     */
    method ModifyState(junctionIds: nat -> int, segmentIds: nat -> int)
      returns (calls: seq<JunctionCall<D>>, bakes: seq<SegmentCall<D>>, memo: map<Point, nat>, ok: bool)
      requires Valid()
      modifies this
      ensures Valid()
      ensures ok <==> forall p :: p in EndpointsOf(old(segments)) ==> InBounds(p, maxDim)
      ensures ok ==> JunctionsMade(EndpointsOf(old(segments)), calls, memo, old(nodes), nodes, junctionIds, maxDim)
      ensures ok ==> BakedAll(old(segments), segments, bakes, memo, junctionIds, segmentIds)
      ensures waySegmentMap == old(waySegmentMap) && SameShape(old(segments), segments)
    {
      ghost var segs0 := segments;
      ghost var nodes0 := nodes;
      ghost var m0 := waySegmentMap;
      assert HavePoints(segs0) && SplitsForward(segs0);
      assert hasWaySegmentMap ==> MapExact(m0, segs0);
      assert !hasWaySegmentMap ==> m0 == map[];
      calls, bakes, memo := [], [], map[];
      var i := 0;
      assert JunctionsMade(EndpointsOf(segs0[..0]), calls, memo, nodes0, nodes, junctionIds, maxDim);
      while i < |segments|
        invariant 0 <= i <= |segments| == |segs0|
        invariant NodesAtKeys(nodes) && waySegmentMap == m0
        invariant segments[i..] == segs0[i..]
        invariant JunctionsMade(EndpointsOf(segs0[..i]), calls, memo, nodes0, nodes, junctionIds, maxDim)
        invariant BakedAll(segs0[..i], segments[..i], bakes, memo, junctionIds, segmentIds)
      {
        if segments[i].split.Some? {
          SkipStep(segs0, segments, i, bakes, memo, junctionIds, segmentIds);
        } else {
          assert segments[i] == segs0[i] by {
            assert segments[i..][0] == segs0[i..][0];
          }
          var calls', bakes', memo', step;
          ghost var bad;
          calls', bakes', memo', step, bad := BakeAt(i, junctionIds, segmentIds, segs0, nodes0, calls, bakes, memo);
          if !step {
            EndpointsPrefix(segs0, i + 1);
            BakedValid(segs0, segments, i, bakes, memo, junctionIds, segmentIds);
            Reshaped(waySegmentMap, segs0, segments);
            return calls', bakes', memo', false;
          }
          calls, bakes, memo := calls', bakes', memo';
        }
        i := i + 1;
      }
      assert segs0[..i] == segs0 && segments[..i] == segments;
      DistinctSpec(EndpointsOf(segs0));
      BakedValid(segs0, segments, i, bakes, memo, junctionIds, segmentIds);
      Reshaped(waySegmentMap, segs0, segments);
      ok := true;
    }
  }

  /**
   * The loop of `add_segment` over the run's ways: it stops at the first way that is
   * already a key, and otherwise enters the new segment's position under every way.
   */
  method EnterRun(m: WayMap, ids: seq<int>, s: nat) returns (r: WayMap, clash: bool)
    ensures clash <==> Clash(m, ids)
    ensures !clash ==> r == AddIds(m, ids, s)
  {
    r := m;
    var k := 0;
    while k < |ids|
      invariant 0 <= k <= |ids|
      invariant r == AddIds(m, ids[..k], s)
      invariant forall j :: 0 <= j < k ==> ids[j] !in m && ids[j] !in ids[..j]
    {
      assert ids[..k + 1][..k] == ids[..k] && ids[..k + 1][k] == ids[k];
      AddIdsSpec(m, ids[..k], s, ids[k]);
      if ids[k] in r {
        assert ids[k] in m || ids[k] in ids[..k];
        return r, true;
      }
      r := r[ids[k] := Get(r, ids[k]) + {s}];
      k := k + 1;
    }
    assert ids[..k] == ids;
    return r, false;
  }

  /** Entering an unsplit segment under each of its ways keeps the map exact. */
  lemma AddKeeps<D>(m: WayMap, segs: seq<Segment<D>>, s: Segment<D>)
    requires MapExact(m, segs) && s.split.None?
    ensures MapExact(AddIds(m, s.wayIds, |segs|), segs + [s])
  {
    var r := AddIds(m, s.wayIds, |segs|);
    var segs' := segs + [s];
    forall wid | wid in r
      ensures r[wid] != {}
    {
      AddIdsSpec(m, s.wayIds, |segs|, wid);
      assert Get(r, wid) == r[wid];
    }
    forall wid, i: nat
      ensures i in Get(r, wid) <==> i < |segs'| && segs'[i].split.None? && wid in segs'[i].wayIds
    {
      AddIdsSpec(m, s.wayIds, |segs|, wid);
    }
  }

  /** The map after `way_segment_map[way_id]`, dropping `s` where present, for each of the ids. */
  function RemoveIds(m: WayMap, ids: seq<int>, s: nat): WayMap {
    if ids == [] then m
    else
      var r := RemoveIds(m, ids[..|ids| - 1], s);
      r[ids[|ids| - 1] := Get(r, ids[|ids| - 1]) - {s}]
  }

  /** Removing takes the position out of the entry of each id; looking an id up gives it a key. */
  lemma {:induction false} RemoveIdsSpec(m: WayMap, ids: seq<int>, s: nat, wid: int)
    ensures Get(RemoveIds(m, ids, s), wid) == if wid in ids then Get(m, wid) - {s} else Get(m, wid)
    ensures wid in RemoveIds(m, ids, s) <==> wid in m || wid in ids
  {
    if ids != [] {
      var init := ids[..|ids| - 1];
      RemoveIdsSpec(m, init, s, wid);
      assert ids == init + [ids[|ids| - 1]];
    }
  }

  /** The first of the three loops over a split segment's ways: its position leaves each entry. */
  method RemoveAll(m: WayMap, ids: seq<int>, s: nat) returns (r: WayMap)
    ensures r == RemoveIds(m, ids, s)
  {
    r := m;
    var k := 0;
    while k < |ids|
      invariant 0 <= k <= |ids|
      invariant r == RemoveIds(m, ids[..k], s)
    {
      assert ids[..k + 1][..k] == ids[..k] && ids[..k + 1][k] == ids[k];
      var entry := Get(r, ids[k]);
      if s in entry {
        r := r[ids[k] := entry - {s}];
      } else {
        assert entry - {s} == entry;
        r := r[ids[k] := entry];
      }
      k := k + 1;
    }
    assert ids[..k] == ids;
  }

  /** The second and third loops: a half's position enters each entry. */
  method AddAll(m: WayMap, ids: seq<int>, s: nat) returns (r: WayMap)
    ensures r == AddIds(m, ids, s)
  {
    r := m;
    var k := 0;
    while k < |ids|
      invariant 0 <= k <= |ids|
      invariant r == AddIds(m, ids[..k], s)
    {
      assert ids[..k + 1][..k] == ids[..k] && ids[..k + 1][k] == ids[k];
      r := r[ids[k] := Get(r, ids[k]) + {s}];
      k := k + 1;
    }
    assert ids[..k] == ids;
  }

  /** The way map after a split: each of the parent's ways moves from the parent to both halves. */
  method Reassign(m: WayMap, ids: seq<int>, parent: nat, a: nat, b: nat) returns (r: WayMap)
    ensures forall wid :: wid in r <==> wid in m || wid in ids
    ensures forall wid :: Get(r, wid) == if wid in ids then Get(m, wid) - {parent} + {a, b} else Get(m, wid)
    ensures r == Moved(m, ids, parent, a, b)
  {
    var removed := RemoveAll(m, ids, parent);
    var withA := AddAll(removed, ids, a);
    r := AddAll(withA, ids, b);
    forall wid
      ensures wid in r <==> wid in m || wid in ids
      ensures Get(r, wid) == if wid in ids then Get(m, wid) - {parent} + {a, b} else Get(m, wid)
    {
      RemoveIdsSpec(m, ids, parent, wid);
      AddIdsSpec(removed, ids, a, wid);
      AddIdsSpec(withA, ids, b, wid);
    }
  }

  /** Moving a split leaf's ways to its two halves, appended at the end, keeps the map exact. */
  lemma SplitKeeps<D>(m: WayMap, r: WayMap, segs: seq<Segment<D>>, leaf: nat, a: Segment<D>, b: Segment<D>)
    requires MapExact(m, segs) && leaf < |segs| && segs[leaf].split.None?
    requires a.split.None? && b.split.None? && a.wayIds == segs[leaf].wayIds && b.wayIds == segs[leaf].wayIds
    requires forall wid :: wid in r <==> wid in m || wid in segs[leaf].wayIds
    requires forall wid :: Get(r, wid) == if wid in segs[leaf].wayIds then Get(m, wid) - {leaf} + {|segs|, |segs| + 1} else Get(m, wid)
    ensures MapExact(r, segs[leaf := segs[leaf].(split := Some((|segs|, |segs| + 1)))] + [a, b])
  {
    var segs' := segs[leaf := segs[leaf].(split := Some((|segs|, |segs| + 1)))] + [a, b];
    forall wid | wid in r
      ensures r[wid] != {}
    {
      assert Get(r, wid) == r[wid];
    }
    forall wid, i: nat
      ensures i in Get(r, wid) <==> i < |segs'| && segs'[i].split.None? && wid in segs'[i].wayIds
    {
      if i < |segs| && i != leaf {
        assert segs'[i] == segs[i];
      }
    }
  }

  /** The halves of a split carry the parent's data and ways, so every segment still carries its ways' data. */
  lemma SplitOk<D>(ways: seq<InputWay<D>>, has: bool, segs: seq<Segment<D>>, m: WayMap,
                       before: seq<Segment<D>>, mapBefore: WayMap, leaf: nat, index: nat, np: Point)
    requires leaf < |before| && 0 < index < |before[leaf].points|
    requires SplitDone(has, segs, m, before, mapBefore, leaf, index, np)
    requires forall i :: 0 <= i < |before| ==> SegmentOk(ways, before[i])
    ensures forall i :: 0 <= i < |segs| ==> SegmentOk(ways, segs[i])
  {
    forall i | 0 <= i < |segs|
      ensures SegmentOk(ways, segs[i])
    {
      if i >= |before| {
        assert segs[i].data == before[leaf].data && segs[i].wayIds == before[leaf].wayIds;
        assert SegmentOk(ways, before[leaf]);
      } else {
        assert segs[i].data == before[i].data && segs[i].wayIds == before[i].wayIds;
        assert SegmentOk(ways, before[i]);
      }
    }
  }

  /**
   * What `modify_state` did to the segments so far: one `bake_segment` call per unsplit
   * segment, in order, with the memoised junctions of its two end points, and that call's
   * handle stored on the segment; split segments left alone.
   */
  ghost predicate BakedAll<D>(segs0: seq<Segment<D>>, segs: seq<Segment<D>>, bakes: seq<SegmentCall<D>>, memo: map<Point, nat>,
                              junctionIds: nat -> int, segmentIds: nat -> int)
    requires HavePoints(segs0)
  {
    var leaves := LeafPositions(segs0);
    && |segs| == |segs0|
    && |bakes| == |leaves|
    && (forall j :: 0 <= j < |leaves| ==> Baked(segs0[leaves[j]], segs[leaves[j]], bakes[j], memo, junctionIds, segmentIds(j)))
    && (forall i :: 0 <= i < |segs0| && segs0[i].split.Some? ==> segs[i] == segs0[i])
  }

  ghost predicate Baked<D>(s0: Segment<D>, s: Segment<D>, bake: SegmentCall<D>, memo: map<Point, nat>, junctionIds: nat -> int, h: int)
    requires |s0.points| > 0
  {
    var start, end := s0.points[0], s0.points[|s0.points| - 1];
    && start in memo && end in memo
    && bake == SegmentCall(s0.data, junctionIds(memo[start]), junctionIds(memo[end]), s0.points)
    && s == s0.(handle := Some(h))
  }

  /** After baking, every unsplit segment holds a handle, so reading it back never finds None. */
  lemma BakedHandles<D>(segs0: seq<Segment<D>>, segs: seq<Segment<D>>, bakes: seq<SegmentCall<D>>, memo: map<Point, nat>,
                        junctionIds: nat -> int, segmentIds: nat -> int, x: nat)
    requires HavePoints(segs0) && BakedAll(segs0, segs, bakes, memo, junctionIds, segmentIds)
    requires x < |segs0| && segs0[x].split.None?
    ensures x < |segs| && segs[x].handle.Some?
  {
    LeafPositionsAll(segs0);
    var leaves := LeafPositions(segs0);
    var j :| 0 <= j < |leaves| && leaves[j] == x;
    assert Baked(segs0[x], segs[x], bakes[j], memo, junctionIds, segmentIds(j));
  }

  /** The end points of a prefix of the segments are end points of all of them. */
  lemma {:induction false} EndpointsPrefix<D>(segs: seq<Segment<D>>, i: nat)
    requires HavePoints(segs) && i <= |segs|
    ensures forall p :: p in EndpointsOf(segs[..i]) ==> p in EndpointsOf(segs)
    decreases |segs|
  {
    if i < |segs| {
      var init := segs[..|segs| - 1];
      assert segs[..i] == init[..i];
      EndpointsPrefix(init, i);
    } else {
      assert segs[..i] == segs;
    }
  }

  /** Changing only handles keeps every segment's points, splits and way entries. */
  lemma Reshaped<D>(m: WayMap, segs: seq<Segment<D>>, segs': seq<Segment<D>>)
    requires |segs| == |segs'|
    requires forall k :: 0 <= k < |segs| ==> segs'[k].points == segs[k].points && segs'[k].split == segs[k].split && segs'[k].wayIds == segs[k].wayIds
    ensures HavePoints(segs) ==> HavePoints(segs')
    ensures SplitsForward(segs) ==> SplitsForward(segs')
    ensures MapExact(m, segs) ==> MapExact(m, segs')
  {
    if MapExact(m, segs) {
      forall wid, i: nat
        ensures i in Get(m, wid) <==> i < |segs'| && segs'[i].split.None? && wid in segs'[i].wayIds
      {
        assert i in Get(m, wid) <==> i < |segs| && segs[i].split.None? && wid in segs[i].wayIds;
        if i < |segs| {
          assert segs'[i].split == segs[i].split && segs'[i].wayIds == segs[i].wayIds;
        }
      }
    }
  }

  /** One unsplit segment baked: the record of the segments so far grows by that segment. */
  lemma BakeStep<D>(segs0: seq<Segment<D>>, segsBefore: seq<Segment<D>>, segs: seq<Segment<D>>, i: nat, bakes: seq<SegmentCall<D>>,
                    memo0: map<Point, nat>, memo: map<Point, nat>, junctionIds: nat -> int, segmentIds: nat -> int)
    requires HavePoints(segs0) && i < |segs0| == |segsBefore| && segs0[i].split.None?
    requires |bakes| > 0 && BakedAll(segs0[..i], segsBefore[..i], bakes[..|bakes| - 1], memo0, junctionIds, segmentIds)
    requires forall x :: x in memo0 ==> x in memo && memo[x] == memo0[x]
    requires segs == segsBefore[i := segs0[i].(handle := Some(segmentIds(|bakes| - 1)))]
    requires Baked(segs0[i], segs[i], bakes[|bakes| - 1], memo, junctionIds, segmentIds(|bakes| - 1))
    ensures BakedAll(segs0[..i + 1], segs[..i + 1], bakes, memo, junctionIds, segmentIds)
  {
    assert segs0[..i + 1][..i] == segs0[..i];
    var leaves := LeafPositions(segs0[..i]);
    assert LeafPositions(segs0[..i + 1]) == leaves + [i];
    forall j | 0 <= j < |leaves|
      ensures Baked(segs0[..i + 1][leaves[j]], segs[..i + 1][leaves[j]], bakes[j], memo, junctionIds, segmentIds(j))
    {
      assert Baked(segs0[..i][leaves[j]], segsBefore[..i][leaves[j]], bakes[..|bakes| - 1][j], memo0, junctionIds, segmentIds(j));
    }
  }

  /** A new junction at a point not seen before keeps the record of junctions exact. */
  lemma JunctionStep<D>(es: seq<Point>, p: Point, calls: seq<JunctionCall<D>>, memo: map<Point, nat>,
                        nodes0: map<Point, Node<D>>, nodes: map<Point, Node<D>>, nodes': map<Point, Node<D>>, junctionIds: nat -> int, maxDim: int)
    requires JunctionsMade(es, calls, memo, nodes0, nodes, junctionIds, maxDim)
    requires p !in memo && InBounds(p, maxDim)
    requires nodes' == if RoundCoords(p) in nodes then nodes[RoundCoords(p) := nodes[RoundCoords(p)].(handle := Some(junctionIds(|calls|)))] else nodes
    ensures JunctionsMade(es + [p], calls + [JunctionCall(NodeData(nodes, p), p)], memo[p := |calls|], nodes0, nodes', junctionIds, maxDim)
  {
    var d := Distinct(es);
    assert (es + [p])[..|es|] == es;
    assert p !in d;
    var d' := Distinct(es + [p]);
    assert d' == d + [p];
    assert d'[..|d|] == d;
    forall q | q in nodes'
      ensures nodes'[q] == nodes0[q].(handle := NodeHandle(d', q, junctionIds, nodes0[q].handle))
    {
      assert nodes[q] == nodes0[q].(handle := NodeHandle(d, q, junctionIds, nodes0[q].handle));
    }
    forall k | 0 <= k < |d'|
      ensures (calls + [JunctionCall(NodeData(nodes, p), p)])[k] == JunctionCall(NodeData(nodes0, d'[k]), d'[k])
    {
      if k == |d| {
        assert NodeData(nodes, p) == NodeData(nodes0, p);
      }
    }
  }

  /** The segments' record so far fixes their shape, so the network is still valid. */
  lemma BakedValid<D>(segs0: seq<Segment<D>>, segs: seq<Segment<D>>, i: nat, bakes: seq<SegmentCall<D>>, memo: map<Point, nat>,
                      junctionIds: nat -> int, segmentIds: nat -> int)
    requires HavePoints(segs0) && i <= |segs0| == |segs| && segs[i..] == segs0[i..]
    requires BakedAll(segs0[..i], segs[..i], bakes, memo, junctionIds, segmentIds)
    ensures forall k :: 0 <= k < |segs| ==> segs[k].points == segs0[k].points && segs[k].split == segs0[k].split && segs[k].wayIds == segs0[k].wayIds && segs[k].data == segs0[k].data
  {
    var prefix := segs0[..i];
    LeafPositionsAll(prefix);
    forall k | 0 <= k < |segs|
      ensures segs[k].points == segs0[k].points && segs[k].split == segs0[k].split && segs[k].wayIds == segs0[k].wayIds && segs[k].data == segs0[k].data
    {
      if k >= i {
        assert segs[i..][k - i] == segs0[i..][k - i];
      } else if prefix[k].split.None? {
        var j :| 0 <= j < |LeafPositions(prefix)| && LeafPositions(prefix)[j] == k;
        assert Baked(prefix[k], segs[..i][k], bakes[j], memo, junctionIds, segmentIds(j));
      } else {
        assert segs[..i][k] == prefix[k];
      }
    }
  }

  lemma BakedIntro<D>(s0: Segment<D>, s: Segment<D>, bake: SegmentCall<D>, memo: map<Point, nat>, junctionIds: nat -> int, h: int,
                      startId: int, endId: int)
    requires |s0.points| > 0
    requires s0.points[0] in memo && s0.points[|s0.points| - 1] in memo
    requires startId == junctionIds(memo[s0.points[0]]) && endId == junctionIds(memo[s0.points[|s0.points| - 1]])
    requires bake == SegmentCall(s0.data, startId, endId, s0.points) && s == s0.(handle := Some(h))
    ensures Baked(s0, s, bake, memo, junctionIds, h)
  {
  }

  /** Baking unsplit segment `i` with the ids of its end junctions extends the record of the segments so far. */
  lemma BakeOne<D>(segs0: seq<Segment<D>>, segsBefore: seq<Segment<D>>, i: nat, bakes: seq<SegmentCall<D>>,
                   memo0: map<Point, nat>, memo: map<Point, nat>, junctionIds: nat -> int, segmentIds: nat -> int,
                   startId: int, endId: int)
    requires HavePoints(segs0) && i < |segs0| == |segsBefore| && segs0[i].split.None? && segsBefore[i..] == segs0[i..]
    requires BakedAll(segs0[..i], segsBefore[..i], bakes, memo0, junctionIds, segmentIds)
    requires forall x :: x in memo0 ==> x in memo && memo[x] == memo0[x]
    requires segs0[i].points[0] in memo && startId == junctionIds(memo[segs0[i].points[0]])
    requires segs0[i].points[|segs0[i].points| - 1] in memo && endId == junctionIds(memo[segs0[i].points[|segs0[i].points| - 1]])
    ensures var segs := segsBefore[i := segs0[i].(handle := Some(segmentIds(|bakes|)))];
      var bakes' := bakes + [SegmentCall(segs0[i].data, startId, endId, segs0[i].points)];
      && segs[i + 1..] == segs0[i + 1..]
      && BakedAll(segs0[..i + 1], segs[..i + 1], bakes', memo, junctionIds, segmentIds)
  {
    var h := segmentIds(|bakes|);
    var segs := segsBefore[i := segs0[i].(handle := Some(h))];
    var bakes' := bakes + [SegmentCall(segs0[i].data, startId, endId, segs0[i].points)];
    assert bakes'[..|bakes'| - 1] == bakes;
    assert segsBefore[i] == segs0[i] by {
      assert segsBefore[i..][0] == segs0[i..][0];
    }
    assert segs[i + 1..] == segsBefore[i + 1..] == segsBefore[i..][1..];
    assert segs0[i + 1..] == segs0[i..][1..];
    BakedIntro(segs0[i], segs[i], bakes'[|bakes'| - 1], memo, junctionIds, h, startId, endId);
    BakeStep(segs0, segsBefore, segs, i, bakes', memo0, memo, junctionIds, segmentIds);
  }

  /** A split segment is skipped: the record of the segments so far grows by it unchanged. */
  lemma SkipStep<D>(segs0: seq<Segment<D>>, segs: seq<Segment<D>>, i: nat, bakes: seq<SegmentCall<D>>, memo: map<Point, nat>,
                    junctionIds: nat -> int, segmentIds: nat -> int)
    requires HavePoints(segs0) && i < |segs0| == |segs| && segs[i..] == segs0[i..] && segs[i].split.Some?
    requires BakedAll(segs0[..i], segs[..i], bakes, memo, junctionIds, segmentIds)
    ensures segs[i + 1..] == segs0[i + 1..]
    ensures EndpointsOf(segs0[..i + 1]) == EndpointsOf(segs0[..i])
    ensures BakedAll(segs0[..i + 1], segs[..i + 1], bakes, memo, junctionIds, segmentIds)
  {
    assert segs[i] == segs0[i] by {
      assert segs[i..][0] == segs0[i..][0];
    }
    assert segs0[..i + 1][..i] == segs0[..i];
    assert LeafPositions(segs0[..i + 1]) == LeafPositions(segs0[..i]);
    assert segs[..i + 1] == segs[..i] + [segs0[i]];
    assert segs[i + 1..] == segs[i..][1..] && segs0[i + 1..] == segs0[i..][1..];
  }
}
