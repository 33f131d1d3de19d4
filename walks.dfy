/**
 * The walk that turns OSM ways into segments, shared by `Network.construct_data`
 * (generate/network.py) and `Highways.modify_state` (generate/highways.py): an index
 * from each rounded end point to the ways arriving there and leaving from there, the
 * points the walks start from, and one walk from such a point along one way.
 */
module Walks {
  import opened Wrappers
  import opened Points

  /** An `InputWay`: the way's id and coordinates, whether it runs both ways, and its segment data. */
  datatype InputWay<D> = InputWay(id: int, coords: seq<Point>, bidirectional: bool, data: D)

  /**
   * The rounded points of the way's boundary: its two ends, or None when the boundary is
   * not two points, as for a closed way.
   */
  function Ends<D(==)>(w: InputWay<D>): Option<(Point, Point)> {
    if |w.coords| >= 2 && w.coords[0] != w.coords[|w.coords| - 1] then
      Some((RoundCoords(w.coords[0]), RoundCoords(w.coords[|w.coords| - 1])))
    else None
  }

  /** The ways arriving at a point and the ways leaving it. */
  type Entry<D> = (seq<InputWay<D>>, seq<InputWay<D>>)
  type CoordMap<D> = map<Point, Entry<D>>

  /** `coord_map[p]` of a `defaultdict`: a point never registered has no ways. */
  function Lookup<D(==)>(cm: CoordMap<D>, p: Point): Entry<D> {
    if p in cm then cm[p] else ([], [])
  }

  /** Whether the index lists `w` as arriving at `p`: its last point, or its first when it runs both ways. */
  predicate Arrives<D(==)>(w: InputWay<D>, p: Point) {
    Ends(w).Some? && (Ends(w).value.1 == p || (w.bidirectional && Ends(w).value.0 == p))
  }

  /** Whether the index lists `w` as leaving `p`: its first point, or its last when it runs both ways. */
  predicate Leaves<D(==)>(w: InputWay<D>, p: Point) {
    Ends(w).Some? && (Ends(w).value.0 == p || (w.bidirectional && Ends(w).value.1 == p))
  }

  /** What registering one way adds to the arriving list of `p`. */
  function Arriving<D(==)>(w: InputWay<D>, p: Point): seq<InputWay<D>> {
    match Ends(w)
    case None => []
    case Some(e) => (if e.1 == p then [w] else []) + (if w.bidirectional && e.0 == p then [w] else [])
  }

  /** What registering one way adds to the leaving list of `p`. */
  function Leaving<D(==)>(w: InputWay<D>, p: Point): seq<InputWay<D>> {
    match Ends(w)
    case None => []
    case Some(e) => (if e.0 == p then [w] else []) + (if w.bidirectional && e.1 == p then [w] else [])
  }

  /** The ways arriving at `p`, in the order they were registered. */
  function Incoming<D(==)>(ways: seq<InputWay<D>>, p: Point): seq<InputWay<D>> {
    if ways == [] then [] else Incoming(ways[..|ways| - 1], p) + Arriving(ways[|ways| - 1], p)
  }

  /** The ways leaving `p`, in the order they were registered. */
  function Outgoing<D(==)>(ways: seq<InputWay<D>>, p: Point): seq<InputWay<D>> {
    if ways == [] then [] else Outgoing(ways[..|ways| - 1], p) + Leaving(ways[|ways| - 1], p)
  }

  /** A dictionary's key order after touching `p`: new keys go last. */
  function AddKey(order: seq<Point>, p: Point): seq<Point> {
    if p in order then order else order + [p]
  }

  /** The order in which the index's keys were first touched, which is the order it is iterated in. */
  function KeyOrder<D(==)>(ways: seq<InputWay<D>>): seq<Point> {
    if ways == [] then []
    else
      var order := KeyOrder(ways[..|ways| - 1]);
      match Ends(ways[|ways| - 1])
      case None => order
      case Some(e) => AddKey(AddKey(order, e.0), e.1)
  }

  /** A way is listed as leaving `p` exactly when it is one of the ways and leaves `p`. */
  lemma {:induction false} OutgoingMembers<D>(ways: seq<InputWay<D>>, p: Point, w: InputWay<D>)
    ensures w in Outgoing(ways, p) <==> w in ways && Leaves(w, p)
  {
    if ways != [] {
      var init := ways[..|ways| - 1];
      OutgoingMembers(init, p, w);
      assert ways == init + [ways[|ways| - 1]];
    }
  }

  /** A way is listed as arriving at `p` exactly when it is one of the ways and arrives at `p`. */
  lemma {:induction false} IncomingMembers<D>(ways: seq<InputWay<D>>, p: Point, w: InputWay<D>)
    ensures w in Incoming(ways, p) <==> w in ways && Arrives(w, p)
  {
    if ways != [] {
      var init := ways[..|ways| - 1];
      IncomingMembers(init, p, w);
      assert ways == init + [ways[|ways| - 1]];
    }
  }

  /** Each key is touched first once only. */
  lemma {:induction false} KeyOrderDistinct<D>(ways: seq<InputWay<D>>)
    ensures forall i, j :: 0 <= i < j < |KeyOrder(ways)| ==> KeyOrder(ways)[i] != KeyOrder(ways)[j]
  {
    if ways != [] {
      KeyOrderDistinct(ways[..|ways| - 1]);
    }
  }

  /** The index has a key for a point exactly when some way arrives there or leaves from there. */
  lemma {:induction false} KeyOrderMembers<D>(ways: seq<InputWay<D>>, p: Point)
    ensures p in KeyOrder(ways) <==> Incoming(ways, p) != [] || Outgoing(ways, p) != []
  {
    if ways != [] {
      var init := ways[..|ways| - 1];
      KeyOrderMembers(init, p);
    }
  }

  /** `coord_map[p][0].append(w)` on the `defaultdict`. */
  function AddIn<D(==)>(cm: CoordMap<D>, p: Point, w: InputWay<D>): (r: CoordMap<D>)
    ensures forall q :: Lookup(r, q) == if q == p then (Lookup(cm, q).0 + [w], Lookup(cm, q).1) else Lookup(cm, q)
    ensures forall q :: q in r <==> q in cm || q == p
  {
    cm[p := (Lookup(cm, p).0 + [w], Lookup(cm, p).1)]
  }

  /** `coord_map[p][1].append(w)` on the `defaultdict`. */
  function AddOut<D(==)>(cm: CoordMap<D>, p: Point, w: InputWay<D>): (r: CoordMap<D>)
    ensures forall q :: Lookup(r, q) == if q == p then (Lookup(cm, q).0, Lookup(cm, q).1 + [w]) else Lookup(cm, q)
    ensures forall q :: q in r <==> q in cm || q == p
  {
    cm[p := (Lookup(cm, p).0, Lookup(cm, p).1 + [w])]
  }

  /** What the four appends of one way leave at `p`, point by point. */
  lemma RegisteredAt<D>(w: InputWay<D>, first: Point, last: Point, p: Point, i0: seq<InputWay<D>>, o0: seq<InputWay<D>>)
    requires Ends(w) == Some((first, last))
    ensures (i0 + (if p == last then [w] else []) + (if w.bidirectional && p == first then [w] else []),
             o0 + (if p == first then [w] else []) + (if w.bidirectional && p == last then [w] else []))
         == (i0 + Arriving(w, p), o0 + Leaving(w, p))
  {
    var x := if p == last then [w] else [];
    var y := if w.bidirectional && p == first then [w] else [];
    var u := if p == first then [w] else [];
    var v := if w.bidirectional && p == last then [w] else [];
    assert Arriving(w, p) == x + y && Leaving(w, p) == u + v;
    assert i0 + x + y == i0 + (x + y) && o0 + u + v == o0 + (u + v);
  }

  /**
   * Registering one way, as one pass of `construct_data`'s first loop does: the way leaves its
   * first point and arrives at its last, and the reverse as well when it runs both ways.
   */
  function Registered<D(==)>(cm: CoordMap<D>, w: InputWay<D>): CoordMap<D> {
    match Ends(w)
    case None => cm
    case Some(e) =>
      var n := AddIn(AddOut(cm, e.0, w), e.1, w);
      if w.bidirectional then AddOut(AddIn(n, e.0, w), e.1, w) else n
  }

  /** Registering a way appends it to the lists of the points it arrives at and leaves, and adds its end points as keys. */
  lemma RegisteredLookup<D>(cm: CoordMap<D>, w: InputWay<D>, p: Point)
    ensures Lookup(Registered(cm, w), p) == (Lookup(cm, p).0 + Arriving(w, p), Lookup(cm, p).1 + Leaving(w, p))
    ensures p in Registered(cm, w) <==> p in cm || (Ends(w).Some? && (p == Ends(w).value.0 || p == Ends(w).value.1))
  {
    var (i0, o0) := Lookup(cm, p);
    match Ends(w) {
      case None =>
        assert i0 + [] == i0 && o0 + [] == o0;
      case Some(e) =>
        var (first, last) := e;
        var n1 := AddOut(cm, first, w);
        var n2 := AddIn(n1, last, w);
        var x := if p == last then [w] else [];
        var u := if p == first then [w] else [];
        assert i0 + [] == i0 && o0 + [] == o0;
        assert Lookup(n1, p) == (i0, o0 + u);
        assert Lookup(n2, p) == (i0 + x, o0 + u);
        RegisteredAt(w, first, last, p, i0, o0);
        assert i0 + x + [] == i0 + x && o0 + u + [] == o0 + u;
    }
  }

  /** One pass of `construct_data`'s first loop: appends the way to the lists of its two end points. */
  method Register<D(==)>(cm: CoordMap<D>, w: InputWay<D>) returns (next: CoordMap<D>)
    ensures next == Registered(cm, w)
    ensures forall p :: Lookup(next, p) == (Lookup(cm, p).0 + Arriving(w, p), Lookup(cm, p).1 + Leaving(w, p))
    ensures forall p :: p in next <==> p in cm || (Ends(w).Some? && (p == Ends(w).value.0 || p == Ends(w).value.1))
  {
    next := cm;
    match Ends(w) {
      case None =>
      case Some(e) =>
        var (first, last) := e;
        next := AddOut(next, first, w);
        next := AddIn(next, last, w);
        if w.bidirectional {
          next := AddIn(next, first, w);
          next := AddOut(next, last, w);
        }
    }
    forall p
      ensures Lookup(next, p) == (Lookup(cm, p).0 + Arriving(w, p), Lookup(cm, p).1 + Leaving(w, p))
      ensures p in next <==> p in cm || (Ends(w).Some? && (p == Ends(w).value.0 || p == Ends(w).value.1))
    {
      RegisteredLookup(cm, w, p);
    }
  }

  /** The index of the ways: every way registered in turn, starting from the empty `defaultdict`. */
  function CoordIndex<D(==)>(ways: seq<InputWay<D>>): CoordMap<D> {
    if ways == [] then map[] else Registered(CoordIndex(ways[..|ways| - 1]), ways[|ways| - 1])
  }

  /**
   * Looking a point up in the index gives the ways arriving there and the ways leaving it,
   * and the index has a key for just the points of the key order.
   */
  lemma {:induction false} CoordIndexLookup<D>(ways: seq<InputWay<D>>, p: Point)
    ensures Lookup(CoordIndex(ways), p) == (Incoming(ways, p), Outgoing(ways, p))
    ensures p in CoordIndex(ways) <==> p in KeyOrder(ways)
  {
    if ways != [] {
      var init := ways[..|ways| - 1];
      CoordIndexLookup(init, p);
      RegisteredLookup(CoordIndex(init), ways[|ways| - 1], p);
    }
  }

  /** `construct_data`'s first loop: registers every way with a two-point boundary. */
  method BuildCoordMap<D(==)>(ways: seq<InputWay<D>>) returns (cm: CoordMap<D>, order: seq<Point>)
    ensures forall p :: Lookup(cm, p) == (Incoming(ways, p), Outgoing(ways, p))
    ensures order == KeyOrder(ways)
    ensures forall p :: p in cm <==> p in order
    ensures cm == CoordIndex(ways)
  {
    cm, order := map[], [];
    var i := 0;
    while i < |ways|
      invariant 0 <= i <= |ways|
      invariant order == KeyOrder(ways[..i])
      invariant cm == CoordIndex(ways[..i])
    {
      var w := ways[i];
      assert ways[..i + 1][..i] == ways[..i] && ways[..i + 1][i] == w;
      cm := Register(cm, w);
      if Ends(w).Some? {
        order := AddKey(AddKey(order, Ends(w).value.0), Ends(w).value.1);
      }
      i := i + 1;
    }
    assert ways[..i] == ways;
    forall p
      ensures Lookup(cm, p) == (Incoming(ways, p), Outgoing(ways, p))
      ensures p in cm <==> p in order
    {
      CoordIndexLookup(ways, p);
    }
  }

  /** Which points the walks start from. */
  datatype OriginRule =
    | NotOneEach   // network.py: intersections and dead ends, not exactly one way in and one out
    | NotTwoInAll  // highways.py: junctions and dead ends, not two ways in all

  predicate IsOrigin<D(==)>(rule: OriginRule, e: Entry<D>) {
    match rule
    case NotOneEach => |e.0| != 1 || |e.1| != 1
    case NotTwoInAll => |e.0| + |e.1| != 2
  }

  /** The points the walks start from, in the index's order. */
  function OriginsOf<D(==)>(order: seq<Point>, cm: CoordMap<D>, rule: OriginRule): seq<Point> {
    if order == [] then []
    else
      var p := order[|order| - 1];
      OriginsOf(order[..|order| - 1], cm, rule) + if IsOrigin(rule, Lookup(cm, p)) then [p] else []
  }

  /** A point is an origin exactly when it is a key and passes the rule. */
  lemma {:induction false} OriginsMembers<D>(order: seq<Point>, cm: CoordMap<D>, rule: OriginRule, p: Point)
    ensures p in OriginsOf(order, cm, rule) <==> p in order && IsOrigin(rule, Lookup(cm, p))
  {
    if order != [] {
      var init := order[..|order| - 1];
      OriginsMembers(init, cm, rule, p);
      assert order == init + [order[|order| - 1]];
    }
  }

  /** `construct_data`'s second loop: collects the origins in the index's order. */
  method FindOrigins<D(==)>(cm: CoordMap<D>, order: seq<Point>, rule: OriginRule) returns (origins: seq<Point>)
    ensures origins == OriginsOf(order, cm, rule)
  {
    origins := [];
    var i := 0;
    while i < |order|
      invariant 0 <= i <= |order|
      invariant origins == OriginsOf(order[..i], cm, rule)
    {
      assert order[..i + 1][..i] == order[..i] && order[..i + 1][i] == order[i];
      if IsOrigin(rule, Lookup(cm, order[i])) {
        origins := origins + [order[i]];
      } else {
        assert origins + [] == origins;
      }
      i := i + 1;
    }
    assert order[..i] == order;
  }

  /** The walks from one origin: one along each of the ways leaving it, in order. */
  function Pairs<D>(o: Point, outs: seq<InputWay<D>>): (r: seq<(Point, InputWay<D>)>)
    ensures |r| == |outs| && forall k :: 0 <= k < |outs| ==> r[k] == (o, outs[k])
  {
    seq(|outs|, k requires 0 <= k < |outs| => (o, outs[k]))
  }

  /** The walks of the nested loops over the origins and the ways leaving each, in the order they are made. */
  function Starts<D(==)>(cm: CoordMap<D>, origins: seq<Point>): seq<(Point, InputWay<D>)> {
    if origins == [] then []
    else Starts(cm, origins[..|origins| - 1]) + Pairs(origins[|origins| - 1], Lookup(cm, origins[|origins| - 1]).1)
  }

  /** A walk is made from a point along a way exactly when the point is an origin and the way leaves it. */
  lemma {:induction false} StartsMembers<D>(cm: CoordMap<D>, origins: seq<Point>, o: Point, w: InputWay<D>)
    ensures (o, w) in Starts(cm, origins) <==> o in origins && w in Lookup(cm, o).1
  {
    if origins != [] {
      var init := origins[..|origins| - 1];
      var last := origins[|origins| - 1];
      StartsMembers(cm, init, o, w);
      assert origins == init + [last];
      if o == last && w in Lookup(cm, o).1 {
        var k :| 0 <= k < |Lookup(cm, o).1| && Lookup(cm, o).1[k] == w;
        assert Pairs(last, Lookup(cm, last).1)[k] == (o, w);
      }
    }
  }

  /** One call of `add_segment(points, prev_segment_data, way_ids)` made by a walk. */
  datatype Run<D> = Run(points: seq<Point>, data: Option<D>, wayIds: seq<int>)

  /** How a walk ended: at a point where the line does not simply go on, at a failed assertion, or out of steps. */
  datatype WalkEnd = Stopped(at: Point) | Broken | OutOfSteps

  /** Some way with this id carries this data. */
  predicate Carries<D(==)>(ways: seq<InputWay<D>>, id: int, d: D) {
    exists w :: w in ways && w.id == id && w.data == d
  }

  /** A run holds data whenever it has points, as every run of a walk does. */
  predicate HasData<D>(r: Run<D>) {
    |r.points| > 0 ==> r.data.Some?
  }

  /**
   * What a walk promises of each run: every point in the region, data whenever there are
   * points, and every way id the run absorbed belonging to a way with the run's data.
   */
  predicate RunOk<D(==)>(ways: seq<InputWay<D>>, r: Run<D>, maxDim: int) {
    && (forall q :: q in r.points ==> InBounds(q, maxDim))
    && HasData(r) && (|r.points| > 0 ==> |r.wayIds| > 0)
    && (r.data.Some? ==> forall id :: id in r.wayIds ==> Carries(ways, id, r.data.value))
  }

  /** Every way listed as leaving a point is one of the ways. */
  predicate Listed<D(==)>(cm: CoordMap<D>, ways: seq<InputWay<D>>) {
    forall p, w :: p in cm && w in cm[p].1 ==> w in ways
  }

  /** The index built from the ways lists only those ways. */
  lemma BuiltListed<D>(cm: CoordMap<D>, ways: seq<InputWay<D>>)
    requires forall p :: Lookup(cm, p) == (Incoming(ways, p), Outgoing(ways, p))
    ensures Listed(cm, ways)
  {
    forall p, w | p in cm && w in cm[p].1
      ensures w in ways
    {
      assert Lookup(cm, p).1 == Outgoing(ways, p);
      OutgoingMembers(ways, p, w);
    }
  }

  /** `reversed(coords)`. */
  function Reverse<T>(s: seq<T>): (r: seq<T>)
    ensures |r| == |s| && forall i :: 0 <= i < |s| ==> r[i] == s[|s| - 1 - i]
  {
    seq(|s|, i requires 0 <= i < |s| => s[|s| - 1 - i])
  }

  /** The `for ... else` over a way's coordinates: whether none leaves the region. */
  method CheckBounds(coords: seq<Point>, maxDim: int) returns (inside: bool)
    ensures inside <==> forall q :: q in coords ==> InBounds(q, maxDim)
  {
    var i := 0;
    while i < |coords|
      invariant 0 <= i <= |coords|
      invariant forall k :: 0 <= k < i ==> InBounds(coords[k], maxDim)
    {
      if !InBounds(coords[i], maxDim) {
        return false;
      }
      i := i + 1;
    }
    return true;
  }

  /** Every point of the coordinates lies in the region. */
  predicate AllIn(coords: seq<Point>, maxDim: int) {
    forall q :: q in coords ==> InBounds(q, maxDim)
  }

  /**
   * The way's coordinates in the direction that goes on from `border`, with the border point
   * after it: as they are when the way starts at `border`, reversed when it ends there. None
   * where the boundary is not two points, or where neither end is `border`, which is the
   * walk's `assert False`.
   */
  function Orient<D(==)>(w: InputWay<D>, border: Point): (r: Option<(seq<Point>, Point)>)
    ensures r.None? <==> Ends(w).None? || (Ends(w).value.0 != border && Ends(w).value.1 != border)
    ensures r.Some? ==> r.value.0 == w.coords || r.value.0 == Reverse(w.coords)
    ensures r.Some? ==> |r.value.0| >= 2 && RoundCoords(r.value.0[0]) == border
    ensures r.Some? ==> RoundCoords(r.value.0[|r.value.0| - 1]) == r.value.1
  {
    match Ends(w)
    case None => None
    case Some((first, last)) =>
      if first == border then Some((w.coords, last))
      else if last == border then Some((Reverse(w.coords), first))
      else None
  }

  /**
   * The state of a walk between two ways: the runs flushed so far, the points and way ids of
   * the current run, and the data of the last way absorbed (`prev_segment_data`).
   */
  datatype Progress<D> = Progress(runs: seq<Run<D>>, points: seq<Point>, wayIds: seq<int>, prev: Option<D>)

  /** The current run is empty until a way has been absorbed. */
  predicate Fresh<D>(pr: Progress<D>) {
    pr.prev.None? ==> pr.points == [] && pr.wayIds == []
  }

  /** `add_segment(points, prev_segment_data, way_ids)` followed by emptying the current run. */
  function Flush<D>(pr: Progress<D>): Progress<D> {
    Progress(pr.runs + [Run(pr.points, pr.prev, pr.wayIds)], [], [], pr.prev)
  }

  /**
   * One way of the walk, in the orientation `coords`: a way leaving the region flushes the
   * current run; otherwise a change of data flushes it first, and the way's points and id
   * extend the current run, whose data becomes the way's.
   */
  function Absorb<D(==)>(pr: Progress<D>, w: InputWay<D>, coords: seq<Point>, maxDim: int): Progress<D> {
    if !AllIn(coords, maxDim) then Flush(pr)
    else
      var pr' := if pr.prev.Some? && pr.prev.value != w.data then Flush(pr) else pr;
      Progress(pr'.runs, pr'.points + coords, pr'.wayIds + [w.id], Some(w.data))
  }

  /** The runs once the walk stops: the current run is flushed when a way was absorbed. */
  function Finish<D>(pr: Progress<D>): seq<Run<D>> {
    if pr.prev.Some? then pr.runs + [Run(pr.points, pr.prev, pr.wayIds)] else pr.runs
  }

  /**
   * The walk from `border` along `way`, with the progress `pr` so far and at most `steps`
   * more ways: each way is oriented and absorbed, and the walk goes on through the one way
   * leaving the point ahead while that point has exactly one way in and one way out.
   */
  function WalkFrom<D(==)>(cm: CoordMap<D>, border: Point, way: InputWay<D>, maxDim: int, steps: nat, pr: Progress<D>)
    : (r: (seq<Run<D>>, WalkEnd))
    ensures r.1.Stopped? ==> |Lookup(cm, r.1.at).0| != 1 || |Lookup(cm, r.1.at).1| != 1
    decreases steps
  {
    if steps == 0 then (pr.runs, OutOfSteps)
    else
      match Orient(way, border)
      case None => (pr.runs, Broken)
      case Some((coords, next)) =>
        var pr' := Absorb(pr, way, coords, maxDim);
        var e := Lookup(cm, next);
        if |e.0| != 1 || |e.1| != 1 then (Finish(pr'), Stopped(next))
        else WalkFrom(cm, next, e.1[0], maxDim, steps - 1, pr')
  }

  /** The runs and the end of the walk from `origin` along `start`. */
  function Walked<D(==)>(cm: CoordMap<D>, origin: Point, start: InputWay<D>, maxDim: int, steps: nat): (seq<Run<D>>, WalkEnd) {
    WalkFrom(cm, origin, start, maxDim, steps, Progress([], [], [], None))
  }

  /** A way the walk took, with its coordinates in the direction it was taken. */
  datatype Step<D> = Step(way: InputWay<D>, coords: seq<Point>)

  /** The ways the walk from `border` along `way` takes, in order, each with the coordinates it was taken in. */
  function Taken<D(==)>(cm: CoordMap<D>, border: Point, way: InputWay<D>, steps: nat): seq<Step<D>>
    decreases steps
  {
    if steps == 0 then []
    else
      match Orient(way, border)
      case None => []
      case Some((coords, next)) =>
        var e := Lookup(cm, next);
        [Step(way, coords)] + if |e.0| != 1 || |e.1| != 1 then [] else Taken(cm, next, e.1[0], steps - 1)
  }

  /** Whether the walk stops at the point `next`: it goes on only through one way in and one way out. */
  predicate StopsAt<D(==)>(cm: CoordMap<D>, next: Point) {
    |Lookup(cm, next).0| != 1 || |Lookup(cm, next).1| != 1
  }

  /** One way of the walk: the walk and the ways it takes, unfolded once. */
  lemma WalkStep<D>(cm: CoordMap<D>, border: Point, way: InputWay<D>, maxDim: int, steps: nat, pr: Progress<D>)
    requires steps > 0 && Orient(way, border).Some?
    ensures var (coords, next) := Orient(way, border).value;
      var pr' := Absorb(pr, way, coords, maxDim);
      && (StopsAt(cm, next) ==> WalkFrom(cm, border, way, maxDim, steps, pr) == (Finish(pr'), Stopped(next)))
      && (StopsAt(cm, next) ==> Taken(cm, border, way, steps) == [Step(way, coords)])
      && (!StopsAt(cm, next) ==>
            WalkFrom(cm, border, way, maxDim, steps, pr) == WalkFrom(cm, next, Lookup(cm, next).1[0], maxDim, steps - 1, pr'))
      && (!StopsAt(cm, next) ==>
            Taken(cm, border, way, steps) == [Step(way, coords)] + Taken(cm, next, Lookup(cm, next).1[0], steps - 1))
  {
    var (coords, next) := Orient(way, border).value;
    assert [Step(way, coords)] + [] == [Step(way, coords)];
  }

  /** The ways a walk takes, unfolded once. */
  lemma TakenUnfold<D>(cm: CoordMap<D>, border: Point, way: InputWay<D>, steps: nat)
    requires steps > 0 && Orient(way, border).Some?
    ensures var (coords, next) := Orient(way, border).value;
      Taken(cm, border, way, steps)
        == [Step(way, coords)] + if StopsAt(cm, next) then [] else Taken(cm, next, Lookup(cm, next).1[0], steps - 1)
  {
  }

  /**
   * The ways a walk takes are each taken as they are or reversed, with at least two points,
   * and the first is `way` itself, starting at `border`.
   */
  lemma TakenShape<D>(cm: CoordMap<D>, border: Point, way: InputWay<D>, steps: nat)
    ensures var ts := Taken(cm, border, way, steps);
      && (forall k :: 0 <= k < |ts| ==> ts[k].coords == ts[k].way.coords || ts[k].coords == Reverse(ts[k].way.coords))
      && (forall k :: 0 <= k < |ts| ==> |ts[k].coords| >= 2)
      && (ts != [] ==> ts[0].way == way && RoundCoords(ts[0].coords[0]) == border)
  {
    var ts := Taken(cm, border, way, steps);
    forall k | 0 <= k < |ts|
      ensures ts[k].coords == ts[k].way.coords || ts[k].coords == Reverse(ts[k].way.coords)
      ensures |ts[k].coords| >= 2
    {
      TakenStepShape(cm, border, way, steps, k);
    }
    if ts != [] {
      TakenStepShape(cm, border, way, steps, 0);
    }
  }

  /** The `k`-th way taken is taken as it is or reversed, and the first is `way`, starting at `border`. */
  lemma {:induction false} TakenStepShape<D>(cm: CoordMap<D>, border: Point, way: InputWay<D>, steps: nat, k: nat)
    requires k < |Taken(cm, border, way, steps)|
    ensures var s := Taken(cm, border, way, steps)[k];
      && (s.coords == s.way.coords || s.coords == Reverse(s.way.coords)) && |s.coords| >= 2
      && (k == 0 ==> s.way == way && RoundCoords(s.coords[0]) == border)
    decreases steps
  {
    assert steps > 0 && Orient(way, border).Some?;
    var (coords, next) := Orient(way, border).value;
    TakenUnfold(cm, border, way, steps);
    if k > 0 {
      var w' := Lookup(cm, next).1[0];
      var rest := Taken(cm, next, w', steps - 1);
      assert Taken(cm, border, way, steps) == [Step(way, coords)] + rest;
      TakenStepShape(cm, next, w', steps - 1, k - 1);
    }
  }

  /** Way `b` is taken after way `a`: it starts where `a` ends, and is the only way leaving that point, which has one way in. */
  predicate Linked<D(==)>(cm: CoordMap<D>, a: Step<D>, b: Step<D>) {
    && |a.coords| >= 1 && |b.coords| >= 1
    && var p := RoundCoords(a.coords[|a.coords| - 1]);
      RoundCoords(b.coords[0]) == p && Lookup(cm, p).1 == [b.way] && |Lookup(cm, p).0| == 1
  }

  lemma LinkedAt<D>(cm: CoordMap<D>, a: Step<D>, b: Step<D>, p: Point)
    requires |a.coords| >= 1 && |b.coords| >= 1
    requires RoundCoords(a.coords[|a.coords| - 1]) == p && RoundCoords(b.coords[0]) == p
    requires Lookup(cm, p).1 == [b.way] && |Lookup(cm, p).0| == 1
    ensures Linked(cm, a, b)
  {
  }

  /** Each way a walk takes after the first is linked to the one before it. */
  lemma TakenChained<D>(cm: CoordMap<D>, border: Point, way: InputWay<D>, steps: nat)
    ensures var ts := Taken(cm, border, way, steps);
      forall k :: 0 <= k < |ts| - 1 ==> Linked(cm, ts[k], ts[k + 1])
  {
    var ts := Taken(cm, border, way, steps);
    forall k | 0 <= k < |ts| - 1
      ensures Linked(cm, ts[k], ts[k + 1])
    {
      TakenLinked(cm, border, way, steps, k);
    }
  }

  /** The way taken after the `k`-th one is linked to it. */
  lemma {:induction false} TakenLinked<D>(cm: CoordMap<D>, border: Point, way: InputWay<D>, steps: nat, k: nat)
    requires k + 1 < |Taken(cm, border, way, steps)|
    ensures var ts := Taken(cm, border, way, steps); Linked(cm, ts[k], ts[k + 1])
    decreases steps, 1
  {
    if k == 0 {
      TakenLinkedHead(cm, border, way, steps);
    } else {
      TakenLinkedTail(cm, border, way, steps, k);
    }
  }

  /** The second way taken is linked to the first. */
  lemma TakenLinkedHead<D>(cm: CoordMap<D>, border: Point, way: InputWay<D>, steps: nat)
    requires 1 < |Taken(cm, border, way, steps)|
    ensures var ts := Taken(cm, border, way, steps); Linked(cm, ts[0], ts[1])
  {
    assert steps > 0 && Orient(way, border).Some?;
    var (coords, next) := Orient(way, border).value;
    TakenUnfold(cm, border, way, steps);
    assert !StopsAt(cm, next);
    var w' := Lookup(cm, next).1[0];
    var rest := Taken(cm, next, w', steps - 1);
    TakenStepShape(cm, next, w', steps - 1, 0);
    assert Lookup(cm, next).1 == [w'];
    LinkedAt(cm, Step(way, coords), rest[0], next);
    LinkedCons(cm, Step(way, coords), rest, 0);
  }

  /** A later link of a walk is a link of the walk from the point after its first way. */
  lemma {:induction false} TakenLinkedTail<D>(cm: CoordMap<D>, border: Point, way: InputWay<D>, steps: nat, k: nat)
    requires 0 < k && k + 1 < |Taken(cm, border, way, steps)|
    ensures var ts := Taken(cm, border, way, steps); Linked(cm, ts[k], ts[k + 1])
    decreases steps, 0
  {
    assert steps > 0 && Orient(way, border).Some?;
    var (coords, next) := Orient(way, border).value;
    TakenUnfold(cm, border, way, steps);
    var w' := Lookup(cm, next).1[0];
    TakenLinked(cm, next, w', steps - 1, k - 1);
    LinkedCons(cm, Step(way, coords), Taken(cm, next, w', steps - 1), k);
  }

  /** Links in `[s] + rest`: the first is that of `s` to the head of `rest`, the others those of `rest`. */
  lemma LinkedCons<D>(cm: CoordMap<D>, s: Step<D>, rest: seq<Step<D>>, k: nat)
    requires k < |rest|
    requires k == 0 ==> Linked(cm, s, rest[0])
    requires k > 0 ==> Linked(cm, rest[k - 1], rest[k])
    ensures Linked(cm, ([s] + rest)[k], ([s] + rest)[k + 1])
  {
    var ts := [s] + rest;
    assert ts[k + 1] == rest[k];
    if k > 0 {
      assert ts[k] == rest[k - 1];
    }
  }

  /** The ids of the ways taken that lie in the region, in order. */
  function InsideIds<D>(ts: seq<Step<D>>, maxDim: int): seq<int> {
    if ts == [] then [] else (if AllIn(ts[0].coords, maxDim) then [ts[0].way.id] else []) + InsideIds(ts[1..], maxDim)
  }

  /** The coordinates of the ways taken that lie in the region, in order. */
  function InsidePoints<D>(ts: seq<Step<D>>, maxDim: int): seq<Point> {
    if ts == [] then [] else (if AllIn(ts[0].coords, maxDim) then ts[0].coords else []) + InsidePoints(ts[1..], maxDim)
  }

  /** The way ids of the runs, one run after the other. */
  function RunIds<D>(runs: seq<Run<D>>): seq<int> {
    if runs == [] then [] else RunIds(runs[..|runs| - 1]) + runs[|runs| - 1].wayIds
  }

  /** The points of the runs, one run after the other. */
  function RunPoints<D>(runs: seq<Run<D>>): seq<Point> {
    if runs == [] then [] else RunPoints(runs[..|runs| - 1]) + runs[|runs| - 1].points
  }

  lemma RunsAppend<D>(runs: seq<Run<D>>, r: Run<D>)
    ensures RunIds(runs + [r]) == RunIds(runs) + r.wayIds && RunPoints(runs + [r]) == RunPoints(runs) + r.points
  {
    assert (runs + [r])[..|runs|] == runs;
  }

  /** Absorbing a way loses no point and no id: the way's own are added when it lies in the region. */
  lemma AbsorbConserves<D>(pr: Progress<D>, w: InputWay<D>, coords: seq<Point>, maxDim: int)
    requires Fresh(pr)
    ensures var pr' := Absorb(pr, w, coords, maxDim);
      && Fresh(pr')
      && RunIds(pr'.runs) + pr'.wayIds == RunIds(pr.runs) + pr.wayIds + (if AllIn(coords, maxDim) then [w.id] else [])
      && RunPoints(pr'.runs) + pr'.points == RunPoints(pr.runs) + pr.points + (if AllIn(coords, maxDim) then coords else [])
  {
    RunsAppend(pr.runs, Run(pr.points, pr.prev, pr.wayIds));
  }

  lemma InsideCons<D>(t: Step<D>, rest: seq<Step<D>>, maxDim: int)
    ensures InsideIds([t] + rest, maxDim) == (if AllIn(t.coords, maxDim) then [t.way.id] else []) + InsideIds(rest, maxDim)
    ensures InsidePoints([t] + rest, maxDim) == (if AllIn(t.coords, maxDim) then t.coords else []) + InsidePoints(rest, maxDim)
  {
    assert ([t] + rest)[1..] == rest;
  }

  /** A walk that stops after absorbing one more way keeps, in its finished runs, the ids and points it had plus that way's. */
  lemma StopConserves<D>(pr: Progress<D>, w: InputWay<D>, coords: seq<Point>, maxDim: int)
    requires Fresh(pr)
    ensures var pr' := Absorb(pr, w, coords, maxDim);
      && RunIds(Finish(pr')) == RunIds(pr.runs) + pr.wayIds + InsideIds([Step(w, coords)], maxDim)
      && RunPoints(Finish(pr')) == RunPoints(pr.runs) + pr.points + InsidePoints([Step(w, coords)], maxDim)
  {
    var pr' := Absorb(pr, w, coords, maxDim);
    AbsorbConserves(pr, w, coords, maxDim);
    InsideCons(Step(w, coords), [], maxDim);
    if pr'.prev.Some? {
      RunsAppend(pr'.runs, Run(pr'.points, pr'.prev, pr'.wayIds));
    }
    var ids := if AllIn(coords, maxDim) then [w.id] else [];
    var pts := if AllIn(coords, maxDim) then coords else [];
    assert ids + [] == ids && pts + [] == pts;
  }

  /** A walk that goes on after absorbing one more way owes the ways still to come what it owed that way and them. */
  lemma GoConserves<D>(pr: Progress<D>, w: InputWay<D>, coords: seq<Point>, maxDim: int, rest: seq<Step<D>>)
    requires Fresh(pr)
    ensures var pr' := Absorb(pr, w, coords, maxDim);
      && Fresh(pr')
      && RunIds(pr'.runs) + pr'.wayIds + InsideIds(rest, maxDim)
         == RunIds(pr.runs) + pr.wayIds + InsideIds([Step(w, coords)] + rest, maxDim)
      && RunPoints(pr'.runs) + pr'.points + InsidePoints(rest, maxDim)
         == RunPoints(pr.runs) + pr.points + InsidePoints([Step(w, coords)] + rest, maxDim)
  {
    AbsorbConserves(pr, w, coords, maxDim);
    InsideCons(Step(w, coords), rest, maxDim);
    var ids := if AllIn(coords, maxDim) then [w.id] else [];
    var pts := if AllIn(coords, maxDim) then coords else [];
    assert RunIds(pr.runs) + pr.wayIds + ids + InsideIds(rest, maxDim) == RunIds(pr.runs) + pr.wayIds + (ids + InsideIds(rest, maxDim));
    assert RunPoints(pr.runs) + pr.points + pts + InsidePoints(rest, maxDim) == RunPoints(pr.runs) + pr.points + (pts + InsidePoints(rest, maxDim));
  }

  /**
   * The runs of a walk that stops hold, one after the other, exactly the ids of the ways it
   * took that lie in the region, in the order it took them.
   */
  lemma {:induction false} WalkKeepsIds<D>(cm: CoordMap<D>, border: Point, way: InputWay<D>, maxDim: int, steps: nat, pr: Progress<D>)
    requires Fresh(pr)
    ensures var r := WalkFrom(cm, border, way, maxDim, steps, pr);
      r.1.Stopped? ==> RunIds(r.0) == RunIds(pr.runs) + pr.wayIds + InsideIds(Taken(cm, border, way, steps), maxDim)
    decreases steps
  {
    if steps > 0 && Orient(way, border).Some? {
      var (coords, next) := Orient(way, border).value;
      WalkStep(cm, border, way, maxDim, steps, pr);
      if StopsAt(cm, next) {
        StopConserves(pr, way, coords, maxDim);
      } else {
        var w' := Lookup(cm, next).1[0];
        GoConserves(pr, way, coords, maxDim, Taken(cm, next, w', steps - 1));
        WalkKeepsIds(cm, next, w', maxDim, steps - 1, Absorb(pr, way, coords, maxDim));
      }
    }
  }

  /**
   * The runs of a walk that stops hold, one after the other, exactly the coordinates of the
   * ways it took that lie in the region, each in the direction it was taken.
   */
  lemma {:induction false} WalkKeepsPoints<D>(cm: CoordMap<D>, border: Point, way: InputWay<D>, maxDim: int, steps: nat, pr: Progress<D>)
    requires Fresh(pr)
    ensures var r := WalkFrom(cm, border, way, maxDim, steps, pr);
      r.1.Stopped? ==> RunPoints(r.0) == RunPoints(pr.runs) + pr.points + InsidePoints(Taken(cm, border, way, steps), maxDim)
    decreases steps
  {
    if steps > 0 && Orient(way, border).Some? {
      var (coords, next) := Orient(way, border).value;
      WalkStep(cm, border, way, maxDim, steps, pr);
      if StopsAt(cm, next) {
        StopConserves(pr, way, coords, maxDim);
      } else {
        var w' := Lookup(cm, next).1[0];
        GoConserves(pr, way, coords, maxDim, Taken(cm, next, w', steps - 1));
        WalkKeepsPoints(cm, next, w', maxDim, steps - 1, Absorb(pr, way, coords, maxDim));
      }
    }
  }

  /**
   * Every run of a walk from one of the ways keeps `RunOk`: its points lie in the region, it
   * has data and ids once it has points, and each of its ids is of a way with its data.
   */
  lemma {:induction false} WalkRunsOk<D>(ways: seq<InputWay<D>>, cm: CoordMap<D>, border: Point, way: InputWay<D>, maxDim: int,
                                         steps: nat, pr: Progress<D>)
    requires way in ways && Listed(cm, ways) && Fresh(pr)
    requires forall r :: r in pr.runs ==> RunOk(ways, r, maxDim)
    requires RunOk(ways, Run(pr.points, pr.prev, pr.wayIds), maxDim)
    ensures forall r :: r in WalkFrom(cm, border, way, maxDim, steps, pr).0 ==> RunOk(ways, r, maxDim)
    decreases steps
  {
    if steps > 0 && Orient(way, border).Some? {
      var (coords, next) := Orient(way, border).value;
      assert Carries(ways, way.id, way.data);
      var pr' := Absorb(pr, way, coords, maxDim);
      var e := Lookup(cm, next);
      if |e.0| == 1 && |e.1| == 1 {
        assert next in cm && e.1[0] in cm[next].1;
        WalkRunsOk(ways, cm, next, e.1[0], maxDim, steps - 1, pr');
      }
    }
  }

  /** Every run of a walk that has points has data, whatever the ways. */
  lemma {:induction false} WalkRunsData<D>(cm: CoordMap<D>, border: Point, way: InputWay<D>, maxDim: int, steps: nat, pr: Progress<D>)
    requires Fresh(pr) && forall r :: r in pr.runs ==> |r.points| > 0 ==> r.data.Some?
    ensures forall r :: r in WalkFrom(cm, border, way, maxDim, steps, pr).0 ==> |r.points| > 0 ==> r.data.Some?
    decreases steps
  {
    if steps > 0 && Orient(way, border).Some? {
      var (coords, next) := Orient(way, border).value;
      var e := Lookup(cm, next);
      if |e.0| == 1 && |e.1| == 1 {
        WalkRunsData(cm, next, e.1[0], maxDim, steps - 1, Absorb(pr, way, coords, maxDim));
      }
    }
  }

  /** One way absorbed into the walk's current run: the loop body of `Walk` that `Absorb` specifies. */
  method AbsorbWay<D(==)>(runs: seq<Run<D>>, points: seq<Point>, wayIds: seq<int>, prev: Option<D>, way: InputWay<D>, coords: seq<Point>, maxDim: int)
    returns (runs': seq<Run<D>>, points': seq<Point>, wayIds': seq<int>, prev': Option<D>)
    ensures Progress(runs', points', wayIds', prev') == Absorb(Progress(runs, points, wayIds, prev), way, coords, maxDim)
  {
    runs', points', wayIds', prev' := runs, points, wayIds, prev;
    var inside := CheckBounds(coords, maxDim);
    if !inside {
      runs' := runs' + [Run(points', prev', wayIds')];
      points', wayIds' := [], [];
    } else {
      if prev'.Some? && prev'.value != way.data {
        runs' := runs' + [Run(points', prev', wayIds')];
        points', wayIds' := [], [];
      }
      points' := points' + coords;
      wayIds' := wayIds' + [way.id];
      prev' := Some(way.data);
    }
  }

  /**
   * The `while True` walk from `origin` along `start`: each way is taken in the direction
   * that continues from the border point, its coordinates extend the current run, and the
   * run is flushed when the data changes or a way leaves the region. The walk goes on only
   * through points with exactly one way in and one way out. It is cut after `steps` ways.
   * It returns what `Walked` specifies; when it stops, its runs hold exactly the ids and the
   * points of the ways taken inside the region.
   */
  method Walk<D(==)>(ways: seq<InputWay<D>>, cm: CoordMap<D>, origin: Point, start: InputWay<D>, maxDim: int, steps: nat)
    returns (runs: seq<Run<D>>, end: WalkEnd)
    requires start in ways && Listed(cm, ways)
    ensures (runs, end) == Walked(cm, origin, start, maxDim, steps)
    ensures forall r :: r in runs ==> RunOk(ways, r, maxDim)
    ensures end.Stopped? ==> |Lookup(cm, end.at).0| != 1 || |Lookup(cm, end.at).1| != 1
    ensures end.Stopped? ==> RunIds(runs) == InsideIds(Taken(cm, origin, start, steps), maxDim)
    ensures end.Stopped? ==> RunPoints(runs) == InsidePoints(Taken(cm, origin, start, steps), maxDim)
  {
    WalkRunsOk(ways, cm, origin, start, maxDim, steps, Progress([], [], [], None));
    WalkKeepsIds(cm, origin, start, maxDim, steps, Progress([], [], [], None));
    WalkKeepsPoints(cm, origin, start, maxDim, steps, Progress([], [], [], None));
    var points: seq<Point> := [];
    var wayIds: seq<int> := [];
    var prev: Option<D> := None;
    var way := start;
    var border := origin;
    var left := steps;
    runs := [];
    while true
      invariant WalkFrom(cm, border, way, maxDim, left, Progress(runs, points, wayIds, prev)) == Walked(cm, origin, start, maxDim, steps)
      decreases left
    {
      if left == 0 {
        return runs, OutOfSteps;
      }
      var ends := Ends(way);
      if ends.None? {
        return runs, Broken;
      }
      var (first, last) := ends.value;
      var coords: seq<Point>;
      var next: Point;
      if first == border {
        next, coords := last, way.coords;
      } else if last == border {
        next, coords := first, Reverse(way.coords);
      } else {
        return runs, Broken;
      }
      assert Orient(way, border) == Some((coords, next));
      ghost var pr := Progress(runs, points, wayIds, prev);
      WalkStep(cm, border, way, maxDim, left, pr);
      runs, points, wayIds, prev := AbsorbWay(runs, points, wayIds, prev, way, coords, maxDim);
      assert Progress(runs, points, wayIds, prev) == Absorb(pr, way, coords, maxDim);
      border := next;
      left := left - 1;
      var e := Lookup(cm, border);
      if |e.0| != 1 || |e.1| != 1 {
        break;
      }
      way := e.1[0];
    }
    if prev.Some? {
      runs := runs + [Run(points, prev, wayIds)];
    }
    end := Stopped(border);
  }
}
