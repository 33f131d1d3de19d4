/**
 * Laying out a set of segments as a chain, and stitching chains into one line, as
 * `post_init_route` in generate/metros.py does: the segments meeting at each end point, the
 * end points met by one segment only, the walk from the first of them along the segments,
 * and the orientation rules that join each new chain to the line built so far.
 * A segment is named by its position in the network's segment list.
 */
module MetroChains {
  import opened Wrappers
  import opened Points
  import opened GenNetworks
  import Walks

  /** `segment.start`; the origin stands in for positions that name no segment with points. */
  function StartOf<D>(segs: seq<Segment<D>>, x: nat): Point {
    if x < |segs| && |segs[x].points| > 0 then segs[x].points[0] else (0.0, 0.0)
  }

  /** `segment.end`. */
  function EndOf<D>(segs: seq<Segment<D>>, x: nat): Point {
    if x < |segs| && |segs[x].points| > 0 then segs[x].points[|segs[x].points| - 1] else (0.0, 0.0)
  }

  /** `has_endpoint`. */
  predicate IsEnd<D>(segs: seq<Segment<D>>, x: nat, p: Point) {
    StartOf(segs, x) == p || EndOf(segs, x) == p
  }

  /** Positions of segments that have points. */
  predicate Known<D>(segs: seq<Segment<D>>, xs: seq<nat>) {
    HavePoints(segs) && forall k :: 0 <= k < |xs| ==> xs[k] < |segs|
  }

  predicate Unique(xs: seq<nat>) {
    forall i, j :: 0 <= i < j < |xs| ==> xs[i] != xs[j]
  }

  function Hit(b: bool): nat {
    if b then 1 else 0
  }

  // ---------------------------------------------------------------------------------------
  // Counting

  lemma {:induction false} CountPair(s: seq<nat>, x: nat, y: nat)
    requires x != y
    ensures multiset(s)[x] + multiset(s)[y] <= |s|
  {
    if s != [] {
      CountPair(s[..|s| - 1], x, y);
      assert s == s[..|s| - 1] + [s[|s| - 1]];
    }
  }

  lemma {:induction false} CountAll(s: seq<nat>, x: nat)
    requires forall y :: y in s ==> y == x
    ensures multiset(s)[x] == |s|
  {
    if s != [] {
      var init := s[..|s| - 1];
      assert s == init + [s[|s| - 1]];
      forall y | y in init
        ensures y == x
      {
        assert y in s;
      }
      CountAll(init, x);
      assert s[|s| - 1] in s;
    }
  }

  /** A list of at most two elements does not hold three different ones. */
  lemma NoThree(s: seq<nat>, x: nat, y: nat, z: nat)
    requires |s| <= 2 && x != y && y != z && x != z
    ensures !(x in s && y in s && z in s)
  {
    if |s| == 2 {
      assert s == [s[0], s[1]];
    }
  }

  /** A list of at most one element does not hold two different ones. */
  lemma NoTwo(s: seq<nat>, x: nat, y: nat)
    requires |s| <= 1 && x != y
    ensures !(x in s && y in s)
  {
    CountPair(s, x, y);
  }

  /** The elements of a list. */
  function Elements(xs: seq<nat>): (r: set<nat>)
    ensures forall x :: x in r <==> x in xs
  {
    if xs == [] then {} else Elements(xs[..|xs| - 1]) + {xs[|xs| - 1]}
  }

  lemma {:induction false} UniqueCard(xs: seq<nat>)
    requires Unique(xs)
    ensures |Elements(xs)| == |xs|
  {
    if xs != [] {
      UniqueCard(xs[..|xs| - 1]);
    }
  }

  /** A list holding no element twice is no longer than a list holding all its elements. */
  lemma UniqueWithin(xs: seq<nat>, ys: seq<nat>)
    requires Unique(xs) && Unique(ys) && forall x :: x in xs ==> x in ys
    ensures |xs| <= |ys|
  {
    UniqueCard(xs);
    UniqueCard(ys);
    var a, b := Elements(xs), Elements(ys);
    assert b == a + (b - a);
  }

  /** Two such lists of one length hold the same elements. */
  lemma UniqueCovers(xs: seq<nat>, ys: seq<nat>)
    requires Unique(xs) && Unique(ys) && |xs| == |ys| && forall x :: x in xs ==> x in ys
    ensures forall y :: y in ys ==> y in xs
  {
    UniqueCard(xs);
    UniqueCard(ys);
    var a, b := Elements(xs), Elements(ys);
    assert b == a + (b - a);
    assert |b - a| == 0;
  }

  /** A list of a set's elements without repeats is as long as the set is large. */
  lemma UniqueListing(xs: seq<nat>, s: set<nat>)
    requires Unique(xs) && forall x :: x in xs <==> x in s
    ensures |xs| == |s|
  {
    UniqueCard(xs);
    assert Elements(xs) == s;
  }

  // ---------------------------------------------------------------------------------------
  // Junctions

  /** `junctions[p]`: the segments with an end at `p`; one that starts and ends there, twice. */
  function Incident<D>(segs: seq<Segment<D>>, order: seq<nat>, p: Point): seq<nat>
  {
    if order == [] then []
    else
      var x := order[|order| - 1];
      Incident(segs, order[..|order| - 1], p) + (if StartOf(segs, x) == p then [x] else []) + (if EndOf(segs, x) == p then [x] else [])
  }

  /** A segment is listed at a point once for each of its ends there. */
  lemma {:induction false} IncidentCount<D>(segs: seq<Segment<D>>, order: seq<nat>, p: Point, x: nat)
    requires Known(segs, order) && Unique(order)
    ensures multiset(Incident(segs, order, p))[x] ==
      if x in order then Hit(StartOf(segs, x) == p) + Hit(EndOf(segs, x) == p) else 0
  {
    if order != [] {
      var init := order[..|order| - 1];
      var last := order[|order| - 1];
      IncidentCount(segs, init, p, x);
      IncidentLast(segs, order, p, x);
      assert order == init + [last];
      assert x in order <==> x in init || x == last;
      assert x == last ==> x !in init;
    }
  }

  /** The last segment of the order adds its ends at `p` to the count of the ones before it. */
  lemma IncidentLast<D>(segs: seq<Segment<D>>, order: seq<nat>, p: Point, x: nat)
    requires Known(segs, order) && order != []
    ensures var last := order[|order| - 1];
      multiset(Incident(segs, order, p))[x] == multiset(Incident(segs, order[..|order| - 1], p))[x]
        + (if x == last then Hit(StartOf(segs, x) == p) + Hit(EndOf(segs, x) == p) else 0)
  {
  }

  lemma IncidentMembers<D>(segs: seq<Segment<D>>, order: seq<nat>, p: Point, x: nat)
    requires Known(segs, order) && Unique(order)
    ensures x in Incident(segs, order, p) <==> x in order && IsEnd(segs, x, p)
  {
    IncidentCount(segs, order, p, x);
  }

  /** The keys of `junctions`, in the order they were first touched. */
  function KeysOf<D>(segs: seq<Segment<D>>, order: seq<nat>): seq<Point>
  {
    if order == [] then []
    else
      var x := order[|order| - 1];
      Walks.AddKey(Walks.AddKey(KeysOf(segs, order[..|order| - 1]), StartOf(segs, x)), EndOf(segs, x))
  }

  /** The keys are the end points of the set's segments. */
  lemma {:induction false} KeysMembers<D>(segs: seq<Segment<D>>, order: seq<nat>, p: Point)
    requires Known(segs, order)
    ensures p in KeysOf(segs, order) <==> EndIn(segs, order, p)
  {
    if order != [] {
      KeysMembers(segs, order[..|order| - 1], p);
      KeysLast(segs, order, p);
      EndInLast(segs, order, p);
    }
  }

  /** Some segment of `order` has `p` as an end point. */
  predicate EndIn<D>(segs: seq<Segment<D>>, order: seq<nat>, p: Point) {
    exists k :: 0 <= k < |order| && IsEnd(segs, order[k], p)
  }

  lemma KeysLast<D>(segs: seq<Segment<D>>, order: seq<nat>, p: Point)
    requires order != []
    ensures p in KeysOf(segs, order) <==> p in KeysOf(segs, order[..|order| - 1]) || IsEnd(segs, order[|order| - 1], p)
  {
  }

  lemma EndInLast<D>(segs: seq<Segment<D>>, order: seq<nat>, p: Point)
    requires order != []
    ensures EndIn(segs, order, p) <==> EndIn(segs, order[..|order| - 1], p) || IsEnd(segs, order[|order| - 1], p)
  {
    var init := order[..|order| - 1];
    if EndIn(segs, order, p) {
      var k :| 0 <= k < |order| && IsEnd(segs, order[k], p);
      if k < |init| {
        assert init[k] == order[k];
      }
    }
    if EndIn(segs, init, p) {
      var k :| 0 <= k < |init| && IsEnd(segs, init[k], p);
      assert order[k] == init[k];
    }
  }

  /** The assertion over `junctions.items()`: every end point is met by one or two segments. */
  predicate DegreesOk<D>(segs: seq<Segment<D>>, order: seq<nat>)
  {
    forall p :: p in KeysOf(segs, order) ==> |Incident(segs, order, p)| == 1 || |Incident(segs, order, p)| == 2
  }

  /** `endpoints`: the points met by one segment only, in the order of `ps`. */
  function Terminals<D>(segs: seq<Segment<D>>, order: seq<nat>, ps: seq<Point>): seq<Point>
  {
    if ps == [] then []
    else
      var p := ps[|ps| - 1];
      Terminals(segs, order, ps[..|ps| - 1]) + if |Incident(segs, order, p)| == 1 then [p] else []
  }

  lemma {:induction false} TerminalsMembers<D>(segs: seq<Segment<D>>, order: seq<nat>, ps: seq<Point>, p: Point)
    requires Known(segs, order)
    ensures p in Terminals(segs, order, ps) <==> p in ps && |Incident(segs, order, p)| == 1
  {
    if ps != [] {
      TerminalsMembers(segs, order, ps[..|ps| - 1], p);
      assert ps == ps[..|ps| - 1] + [ps[|ps| - 1]];
    }
  }

  function Look(j: map<Point, seq<nat>>, p: Point): seq<nat> {
    if p in j then j[p] else []
  }

  /** `junctions[s].append(x)` and `junctions[e].append(x)`, with the keys in the order first touched. */
  method AttachBoth(j: map<Point, seq<nat>>, keys: seq<Point>, s: Point, e: Point, x: nat)
    returns (j': map<Point, seq<nat>>, keys': seq<Point>)
    ensures forall q :: Look(j', q) == Look(j, q) + (if q == s then [x] else []) + (if q == e then [x] else [])
    ensures forall q :: q in j' <==> q in j || q == s || q == e
    ensures keys' == Walks.AddKey(Walks.AddKey(keys, s), e)
    ensures forall q :: q in keys' <==> q in keys || q == s || q == e
  {
    j' := j[s := Look(j, s) + [x]];
    j' := j'[e := Look(j', e) + [x]];
    keys' := Walks.AddKey(Walks.AddKey(keys, s), e);
  }

  lemma IncidentStep<D>(segs: seq<Segment<D>>, order: seq<nat>, i: nat, p: Point)
    requires Known(segs, order) && i < |order|
    ensures Incident(segs, order[..i + 1], p) == Incident(segs, order[..i], p)
      + (if StartOf(segs, order[i]) == p then [order[i]] else []) + (if EndOf(segs, order[i]) == p then [order[i]] else [])
  {
    assert order[..i + 1][..i] == order[..i];
  }

  lemma KeysStep<D>(segs: seq<Segment<D>>, order: seq<nat>, i: nat)
    requires Known(segs, order) && i < |order|
    ensures KeysOf(segs, order[..i + 1]) == Walks.AddKey(Walks.AddKey(KeysOf(segs, order[..i]), StartOf(segs, order[i])), EndOf(segs, order[i]))
  {
    assert order[..i + 1][..i] == order[..i];
  }

  /** The first loop of the linearisation: `junctions` and the order of its keys. */
  method JunctionMap<D>(segs: seq<Segment<D>>, order: seq<nat>) returns (j: map<Point, seq<nat>>, keys: seq<Point>)
    requires Known(segs, order)
    ensures forall p :: Look(j, p) == Incident(segs, order, p)
    ensures keys == KeysOf(segs, order)
    ensures forall p :: p in j <==> p in keys
  {
    j, keys := map[], [];
    var i := 0;
    while i < |order|
      invariant 0 <= i <= |order|
      invariant forall p :: Look(j, p) == Incident(segs, order[..i], p)
      invariant keys == KeysOf(segs, order[..i])
      invariant forall p :: p in j <==> p in keys
    {
      var x := order[i];
      var s, e := StartOf(segs, x), EndOf(segs, x);
      j, keys := AttachBoth(j, keys, s, e, x);
      forall p
        ensures Look(j, p) == Incident(segs, order[..i + 1], p)
      {
        IncidentStep(segs, order, i, p);
      }
      KeysStep(segs, order, i);
      i := i + 1;
    }
    assert order[..i] == order;
  }

  /** The junction seen at each key has one or two segments. */
  predicate DegreesIn(j: map<Point, seq<nat>>, keys: seq<Point>) {
    forall k :: 0 <= k < |keys| ==> |Look(j, keys[k])| == 1 || |Look(j, keys[k])| == 2
  }

  /** The keys whose junction has one segment, in order. */
  function OnesIn(j: map<Point, seq<nat>>, keys: seq<Point>): seq<Point> {
    if keys == [] then []
    else OnesIn(j, keys[..|keys| - 1]) + if |Look(j, keys[|keys| - 1])| == 1 then [keys[|keys| - 1]] else []
  }

  /** The second loop: the degree assertion and the end points; None where the assertion fails. */
  method Endpoints(j: map<Point, seq<nat>>, keys: seq<Point>) returns (endpoints: Option<seq<Point>>)
    ensures endpoints.Some? <==> DegreesIn(j, keys)
    ensures endpoints.Some? ==> endpoints.value == OnesIn(j, keys)
  {
    var ends := [];
    var i := 0;
    while i < |keys|
      invariant 0 <= i <= |keys|
      invariant forall k :: 0 <= k < i ==> |Look(j, keys[k])| == 1 || |Look(j, keys[k])| == 2
      invariant ends == OnesIn(j, keys[..i])
    {
      var p := keys[i];
      assert keys[..i + 1][..i] == keys[..i] && keys[..i + 1][i] == p;
      var at := Look(j, p);
      if |at| != 1 && |at| != 2 {
        return None;
      }
      if |at| == 1 {
        ends := ends + [p];
      } else {
        assert ends + [] == ends;
      }
      i := i + 1;
    }
    assert keys[..i] == keys;
    endpoints := Some(ends);
  }

  /** Read through a map that holds `junctions`, the checks above are those on the segments. */
  lemma {:induction false} MapTerminals<D>(segs: seq<Segment<D>>, order: seq<nat>, j: map<Point, seq<nat>>, ps: seq<Point>)
    requires Known(segs, order) && forall p :: Look(j, p) == Incident(segs, order, p)
    ensures OnesIn(j, ps) == Terminals(segs, order, ps)
  {
    if ps != [] {
      MapTerminals(segs, order, j, ps[..|ps| - 1]);
    }
  }

  lemma MapDegrees<D>(segs: seq<Segment<D>>, order: seq<nat>, j: map<Point, seq<nat>>)
    requires Known(segs, order) && forall p :: Look(j, p) == Incident(segs, order, p)
    ensures DegreesIn(j, KeysOf(segs, order)) <==> DegreesOk(segs, order)
  {
    var keys := KeysOf(segs, order);
    if DegreesIn(j, keys) {
      forall p | p in keys
        ensures |Incident(segs, order, p)| == 1 || |Incident(segs, order, p)| == 2
      {
        var k :| 0 <= k < |keys| && keys[k] == p;
      }
    }
  }

  // ---------------------------------------------------------------------------------------
  // The walk

  /** `[seg for seg in ss if seg != x]`. */
  function Others(ss: seq<nat>, x: nat): (r: seq<nat>)
    ensures forall y :: y in r <==> y in ss && y != x
  {
    if ss == [] then []
    else Others(ss[..|ss| - 1], x) + if ss[|ss| - 1] != x then [ss[|ss| - 1]] else []
  }

  /**
   * The state of the walk: `lin[k]` was entered at `pts[k]`, left at `pts[k + 1]`, which is
   * another point; no segment is a loop and none is taken twice; the walk began at a point
   * met by one segment only.
   */
  ghost predicate Walked<D>(segs: seq<Segment<D>>, order: seq<nat>, lin: seq<nat>, pts: seq<Point>) {
    && Known(segs, order) && Unique(order) && Known(segs, lin)
    && 1 <= |lin| == |pts|
    && Entered(segs, order, lin, pts)
    && Links(segs, lin, pts)
    && NoLoops(segs, lin)
    && Unique(lin)
    && |Incident(segs, order, pts[0])| == 1
  }

  predicate Entered<D>(segs: seq<Segment<D>>, order: seq<nat>, lin: seq<nat>, pts: seq<Point>) {
    forall k :: 0 <= k < |lin| && k < |pts| ==> lin[k] in order && IsEnd(segs, lin[k], pts[k])
  }

  predicate Links<D>(segs: seq<Segment<D>>, lin: seq<nat>, pts: seq<Point>) {
    forall k :: 0 <= k < |lin| - 1 && k + 1 < |pts| ==> IsEnd(segs, lin[k], pts[k + 1]) && pts[k] != pts[k + 1]
  }

  predicate NoLoops<D>(segs: seq<Segment<D>>, lin: seq<nat>) {
    forall k :: 0 <= k < |lin| ==> StartOf(segs, lin[k]) != EndOf(segs, lin[k])
  }

  /** Every segment of a walk belongs to the set. */
  lemma WalkedIn<D>(segs: seq<Segment<D>>, order: seq<nat>, lin: seq<nat>, pts: seq<Point>)
    requires Walked(segs, order, lin, pts)
    ensures forall k :: 0 <= k < |lin| ==> lin[k] in order
  {
    forall k | 0 <= k < |lin|
      ensures lin[k] in order
    {
      assert k < |pts|;
    }
  }

  lemma EnteredAppend<D>(segs: seq<Segment<D>>, order: seq<nat>, lin: seq<nat>, pts: seq<Point>, next: nat, np: Point)
    requires |lin| == |pts| && Entered(segs, order, lin, pts) && next in order && IsEnd(segs, next, np)
    ensures Entered(segs, order, lin + [next], pts + [np])
  {
    var lin', pts' := lin + [next], pts + [np];
    forall k | 0 <= k < |lin'| && k < |pts'|
      ensures lin'[k] in order && IsEnd(segs, lin'[k], pts'[k])
    {
      if k < |lin| {
        assert lin'[k] == lin[k] && pts'[k] == pts[k];
      }
    }
  }

  lemma LinksAppend<D>(segs: seq<Segment<D>>, lin: seq<nat>, pts: seq<Point>, next: nat, np: Point)
    requires 1 <= |lin| == |pts| && Links(segs, lin, pts)
    requires IsEnd(segs, lin[|lin| - 1], np) && pts[|lin| - 1] != np
    ensures Links(segs, lin + [next], pts + [np])
  {
    var n := |lin|;
    var lin', pts' := lin + [next], pts + [np];
    forall k | 0 <= k < |lin'| - 1 && k + 1 < |pts'|
      ensures IsEnd(segs, lin'[k], pts'[k + 1]) && pts'[k] != pts'[k + 1]
    {
      if k < n - 1 {
        assert lin'[k] == lin[k] && pts'[k] == pts[k] && pts'[k + 1] == pts[k + 1];
      } else {
        assert lin'[k] == lin[n - 1] && pts'[k] == pts[n - 1] && pts'[k + 1] == np;
      }
    }
  }

  lemma NoLoopsAppend<D>(segs: seq<Segment<D>>, lin: seq<nat>, next: nat)
    requires NoLoops(segs, lin) && StartOf(segs, next) != EndOf(segs, next)
    ensures NoLoops(segs, lin + [next])
  {
    var lin' := lin + [next];
    forall k | 0 <= k < |lin'|
      ensures StartOf(segs, lin'[k]) != EndOf(segs, lin'[k])
    {
      if k < |lin| {
        assert lin'[k] == lin[k];
      }
    }
  }

  lemma UniqueAppend(xs: seq<nat>, x: nat)
    requires Unique(xs) && x !in xs
    ensures Unique(xs + [x])
  {
    var r := xs + [x];
    forall i, j | 0 <= i < j < |r|
      ensures r[i] != r[j]
    {
      if j < |xs| {
        assert r[i] == xs[i] && r[j] == xs[j];
      } else {
        assert r[i] == xs[i];
      }
    }
  }

  lemma ChainedAppend<D>(segs: seq<Segment<D>>, xs: seq<nat>, x: nat)
    requires Chained(segs, xs) && (xs != [] ==> Touch(segs, xs[|xs| - 1], x))
    ensures Chained(segs, xs + [x])
  {
    var r := xs + [x];
    forall k | 0 <= k < |r| - 1
      ensures Touch(segs, r[k], r[k + 1])
    {
      if k < |xs| - 1 {
        assert r[k] == xs[k] && r[k + 1] == xs[k + 1];
      }
    }
  }

  /** The end point of the last segment that the walk is heading to is a key of the map. */
  lemma AheadIsKey<D>(segs: seq<Segment<D>>, order: seq<nat>, last: nat, np: Point)
    requires Known(segs, order) && Unique(order) && last in order && last < |segs| && IsEnd(segs, last, np)
    ensures np in KeysOf(segs, order)
    ensures last in Incident(segs, order, np)
  {
    var k :| 0 <= k < |order| && order[k] == last;
    KeysMembers(segs, order, np);
    IncidentMembers(segs, order, np, last);
  }

  /**
   * The segment taken next is not a loop and has not been taken before: otherwise three
   * different segments would meet at one point, or two at the starting point.
   */
  lemma NextIsFresh<D>(segs: seq<Segment<D>>, order: seq<nat>, lin: seq<nat>, pts: seq<Point>, np: Point, next: nat)
    requires Walked(segs, order, lin, pts) && DegreesOk(segs, order)
    requires IsEnd(segs, lin[|lin| - 1], np) && np != pts[|lin| - 1]
    requires next in Incident(segs, order, np) && next != lin[|lin| - 1]
    ensures next in order && next < |segs| && IsEnd(segs, next, np)
    ensures StartOf(segs, next) != EndOf(segs, next)
    ensures next !in lin
  {
    var n := |lin|;
    var last := lin[n - 1];
    var at := Incident(segs, order, np);
    IncidentMembers(segs, order, np, next);
    AheadIsKey(segs, order, last, np);
    assert |at| <= 2;
    if StartOf(segs, next) == EndOf(segs, next) {
      IncidentCount(segs, order, np, next);
      CountPair(at, next, last);
      assert false;
    }
    if next in lin {
      var a :| 0 <= a < n && lin[a] == next;
      assert a < n - 1;
      assert np == pts[a] || np == pts[a + 1];
      if np == pts[a + 1] {
        assert a + 1 < n - 1;
        IncidentMembers(segs, order, np, lin[a + 1]);
        NoThree(at, lin[a], lin[a + 1], last);
        assert false;
      } else if a == 0 {
        NoTwo(at, lin[0], last);
        assert false;
      } else {
        IncidentMembers(segs, order, np, lin[a - 1]);
        NoThree(at, lin[a - 1], lin[a], last);
        assert false;
      }
    }
  }

  /** The walk begins with the one segment at a point met by one segment only. */
  lemma WalkBegins<D>(segs: seq<Segment<D>>, order: seq<nat>, e0: Point, first: nat)
    requires Known(segs, order) && Unique(order) && |Incident(segs, order, e0)| == 1
    requires first == Incident(segs, order, e0)[0]
    ensures Walked(segs, order, [first], [e0]) && Chained(segs, [first]) && 1 <= |order|
  {
    IncidentMembers(segs, order, e0, first);
    IncidentCount(segs, order, e0, first);
    UniqueWithin([first], order);
  }

  /** Taking the next segment keeps the state of the walk and the chain. */
  lemma WalkOn<D>(segs: seq<Segment<D>>, order: seq<nat>, lin: seq<nat>, pts: seq<Point>, np: Point, next: nat)
    requires Walked(segs, order, lin, pts) && DegreesOk(segs, order) && Chained(segs, lin)
    requires IsEnd(segs, lin[|lin| - 1], np) && np != pts[|lin| - 1]
    requires next in Incident(segs, order, np) && next != lin[|lin| - 1]
    ensures Walked(segs, order, lin + [next], pts + [np]) && Chained(segs, lin + [next])
    ensures |lin| + 1 <= |order|
  {
    NextIsFresh(segs, order, lin, pts, np, next);
    EnteredAppend(segs, order, lin, pts, next, np);
    LinksAppend(segs, lin, pts, next, np);
    NoLoopsAppend(segs, lin, next);
    UniqueAppend(lin, next);
    assert Touch(segs, lin[|lin| - 1], next);
    ChainedAppend(segs, lin, next);
    assert (pts + [np])[0] == pts[0];
    assert Known(segs, lin + [next]);
    UniqueWithin(lin + [next], order);
  }

  /** When no other segment meets the point ahead, that point is met by one segment only. */
  lemma AtTheEnd<D>(segs: seq<Segment<D>>, order: seq<nat>, lin: seq<nat>, pts: seq<Point>, np: Point)
    requires Walked(segs, order, lin, pts) && DegreesOk(segs, order)
    requires IsEnd(segs, lin[|lin| - 1], np) && np != pts[|lin| - 1]
    requires Others(Incident(segs, order, np), lin[|lin| - 1]) == []
    ensures |Incident(segs, order, np)| == 1 && np in KeysOf(segs, order)
    ensures np != pts[0]
  {
    var last := lin[|lin| - 1];
    LastOfWalk(segs, order, lin, pts);
    OnlyOneAhead(segs, order, last, np);
    if |lin| > 1 {
      FirstOfWalk(segs, order, lin, pts);
      SharedEnd(segs, order, lin[0], last, np);
    }
  }

  lemma FirstOfWalk<D>(segs: seq<Segment<D>>, order: seq<nat>, lin: seq<nat>, pts: seq<Point>)
    requires Walked(segs, order, lin, pts) && |lin| > 1
    ensures lin[0] in order && IsEnd(segs, lin[0], pts[0]) && lin[0] != lin[|lin| - 1]
  {
    assert 0 < |pts|;
  }

  /** Two segments of the set with a common end point make it a junction of two. */
  lemma SharedEnd<D>(segs: seq<Segment<D>>, order: seq<nat>, a: nat, b: nat, p: Point)
    requires Known(segs, order) && Unique(order) && a in order && b in order && a != b && IsEnd(segs, b, p)
    ensures IsEnd(segs, a, p) ==> |Incident(segs, order, p)| >= 2
  {
    IncidentMembers(segs, order, p, a);
    IncidentMembers(segs, order, p, b);
    if |Incident(segs, order, p)| <= 1 {
      NoTwo(Incident(segs, order, p), a, b);
    }
  }

  lemma OnlyOneAhead<D>(segs: seq<Segment<D>>, order: seq<nat>, last: nat, np: Point)
    requires Known(segs, order) && Unique(order) && last in order && last < |segs|
    requires IsEnd(segs, last, np) && StartOf(segs, last) != EndOf(segs, last)
    requires Others(Incident(segs, order, np), last) == []
    ensures |Incident(segs, order, np)| == 1 && np in KeysOf(segs, order)
  {
    var at := Incident(segs, order, np);
    AheadIsKey(segs, order, last, np);
    assert forall y :: y in at ==> y == last;
    CountAll(at, last);
    IncidentCount(segs, order, np, last);
  }

  /** The last segment's end point ahead, and the other segments met there. */
  method StepAhead<D>(segs: seq<Segment<D>>, order: seq<nat>, j: map<Point, seq<nat>>, ghost endpoints: seq<Point>,
                      lin: seq<nat>, ghost pts: seq<Point>, current: Point)
    returns (np: Point, nextSegments: seq<nat>)
    requires Walked(segs, order, lin, pts) && current == pts[|pts| - 1] && DegreesOk(segs, order)
    requires forall p :: Look(j, p) == Incident(segs, order, p)
    requires endpoints == Terminals(segs, order, KeysOf(segs, order)) && |endpoints| == 2
    requires pts[0] == endpoints[0] && Chained(segs, lin)
    ensures IsEnd(segs, lin[|lin| - 1], np) && np != current && np == Ahead(segs, lin[|lin| - 1], current)
    ensures nextSegments == Others(Incident(segs, order, np), lin[|lin| - 1])
    ensures nextSegments == [] ==> np in endpoints && np != endpoints[0]
    ensures nextSegments == [] ==> Known(segs, lin) && Unique(lin) && forall k :: 0 <= k < |lin| ==> lin[k] in order
    ensures nextSegments == [] ==> IsEnd(segs, lin[0], endpoints[0])
    ensures nextSegments != [] ==> Walked(segs, order, lin + [nextSegments[0]], pts + [np])
    ensures nextSegments != [] ==> Chained(segs, lin + [nextSegments[0]]) && |lin| + 1 <= |order|
  {
    var last := lin[|lin| - 1];
    LastOfWalk(segs, order, lin, pts);
    var s, e := StartOf(segs, last), EndOf(segs, last);
    var nextPoints := (if s != current then [s] else []) + (if e != current then [e] else []);
    assert |nextPoints| == 1;
    np := nextPoints[0];
    var nextJunction := Look(j, np);
    AheadIsKey(segs, order, last, np);
    assert |nextJunction| == 1 || |nextJunction| == 2;
    nextSegments := Others(nextJunction, last);
    StepFacts(segs, order, endpoints, lin, pts, np);
  }

  /** The end of segment `x` other than `current`. */
  function Ahead<D>(segs: seq<Segment<D>>, x: nat, current: Point): Point {
    if StartOf(segs, x) != current then StartOf(segs, x) else EndOf(segs, x)
  }

  /**
   * The walk of the linearisation from the segments `lin`, the last one entered at `current`:
   * the segment met at the point ahead other than the last one is taken next, until there is
   * none. A walk never outgrows the set (`ChainOnStep`), so the bound on its length only
   * makes the recursion visibly finite.
   */
  function ChainOn<D>(segs: seq<Segment<D>>, order: seq<nat>, lin: seq<nat>, current: Point): seq<nat>
    requires lin != []
    decreases |order| - |lin|
  {
    var last := lin[|lin| - 1];
    var np := Ahead(segs, last, current);
    var nexts := Others(Incident(segs, order, np), last);
    if nexts == [] || |lin| >= |order| then lin else ChainOn(segs, order, lin + [nexts[0]], np)
  }

  /** The walk is a chain of distinct segments of the set, from the first end point to the other one. */
  lemma {:induction false} ChainOnFacts<D>(segs: seq<Segment<D>>, order: seq<nat>, endpoints: seq<Point>, lin: seq<nat>, pts: seq<Point>)
    requires Walked(segs, order, lin, pts) && DegreesOk(segs, order)
    requires endpoints == Terminals(segs, order, KeysOf(segs, order)) && |endpoints| == 2
    requires pts[0] == endpoints[0] && Chained(segs, lin)
    ensures var r := ChainOn(segs, order, lin, pts[|pts| - 1]);
      && 1 <= |r| <= |order| && Known(segs, r) && Unique(r) && Chained(segs, r)
      && (forall k :: 0 <= k < |r| ==> r[k] in order)
      && IsEnd(segs, r[0], endpoints[0]) && IsEnd(segs, r[|r| - 1], endpoints[1])
      && endpoints[1] != endpoints[0]
    decreases |order| - |lin|
  {
    var np := Ahead(segs, lin[|lin| - 1], pts[|pts| - 1]);
    var nexts := Others(Incident(segs, order, np), lin[|lin| - 1]);
    ChainOnStep(segs, order, endpoints, lin, pts);
    if nexts == [] {
      WalkDone(segs, order, endpoints, lin, pts, np);
    } else {
      ChainOnFacts(segs, order, endpoints, lin + [nexts[0]], pts + [np]);
      assert (pts + [np])[|pts + [np]| - 1] == np;
    }
  }

  /** A walk that stops at `np` is a chain of distinct segments of the set between the two end points. */
  lemma WalkDone<D>(segs: seq<Segment<D>>, order: seq<nat>, endpoints: seq<Point>, lin: seq<nat>, pts: seq<Point>, np: Point)
    requires Walked(segs, order, lin, pts) && Chained(segs, lin) && |endpoints| == 2
    requires np == Ahead(segs, lin[|lin| - 1], pts[|pts| - 1])
    requires np in endpoints && np != endpoints[0] && IsEnd(segs, lin[0], endpoints[0])
    ensures 1 <= |lin| <= |order| && Known(segs, lin) && Unique(lin) && Chained(segs, lin)
    ensures forall k :: 0 <= k < |lin| ==> lin[k] in order
    ensures IsEnd(segs, lin[0], endpoints[0]) && IsEnd(segs, lin[|lin| - 1], endpoints[1])
    ensures endpoints[1] != endpoints[0]
  {
    WalkedIn(segs, order, lin, pts);
    UniqueWithin(lin, order);
    assert endpoints == [endpoints[0], endpoints[1]];
  }

  /** One step of the walk: it stops at the point ahead, or goes on with the next segment there. */
  lemma ChainOnStep<D>(segs: seq<Segment<D>>, order: seq<nat>, endpoints: seq<Point>, lin: seq<nat>, pts: seq<Point>)
    requires Walked(segs, order, lin, pts) && DegreesOk(segs, order)
    requires endpoints == Terminals(segs, order, KeysOf(segs, order)) && |endpoints| == 2
    requires pts[0] == endpoints[0] && Chained(segs, lin)
    ensures var np := Ahead(segs, lin[|lin| - 1], pts[|pts| - 1]);
      var nexts := Others(Incident(segs, order, np), lin[|lin| - 1]);
      && (nexts == [] ==> ChainOn(segs, order, lin, pts[|pts| - 1]) == lin)
      && (nexts == [] ==> np in endpoints && np != endpoints[0] && IsEnd(segs, lin[0], endpoints[0]))
      && (nexts != [] ==> Walked(segs, order, lin + [nexts[0]], pts + [np]) && Chained(segs, lin + [nexts[0]]))
      && (nexts != [] ==> (pts + [np])[0] == endpoints[0] && (pts + [np])[|pts|] == np)
      && (nexts != [] ==> ChainOn(segs, order, lin, pts[|pts| - 1]) == ChainOn(segs, order, lin + [nexts[0]], np))
  {
    var last, current := lin[|lin| - 1], pts[|pts| - 1];
    LastOfWalk(segs, order, lin, pts);
    var np := Ahead(segs, last, current);
    StepFacts(segs, order, endpoints, lin, pts, np);
  }

  /** The whole walk, from the one segment at the first end point. */
  function Chain<D>(segs: seq<Segment<D>>, order: seq<nat>, endpoints: seq<Point>): (r: seq<nat>)
    requires Known(segs, order) && Unique(order) && DegreesOk(segs, order)
    requires endpoints == Terminals(segs, order, KeysOf(segs, order)) && |endpoints| == 2
  {
    TerminalsMembers(segs, order, KeysOf(segs, order), endpoints[0]);
    var first := Incident(segs, order, endpoints[0])[0];
    WalkBegins(segs, order, endpoints[0], first);
    ChainOn(segs, order, [first], endpoints[0])
  }

  lemma ChainFacts<D>(segs: seq<Segment<D>>, order: seq<nat>, endpoints: seq<Point>)
    requires Known(segs, order) && Unique(order) && DegreesOk(segs, order)
    requires endpoints == Terminals(segs, order, KeysOf(segs, order)) && |endpoints| == 2
    ensures var r := Chain(segs, order, endpoints);
      && 1 <= |r| <= |order| && Known(segs, r) && Unique(r) && Chained(segs, r)
      && (forall k :: 0 <= k < |r| ==> r[k] in order)
      && IsEnd(segs, r[0], endpoints[0]) && IsEnd(segs, r[|r| - 1], endpoints[1])
      && endpoints[1] != endpoints[0]
  {
    TerminalsMembers(segs, order, KeysOf(segs, order), endpoints[0]);
    var first := Incident(segs, order, endpoints[0])[0];
    WalkBegins(segs, order, endpoints[0], first);
    ChainOnFacts(segs, order, endpoints, [first], [endpoints[0]]);
  }

  /**
   * What `linearize` gives for one listing of a set: None where the junctions are not of one
   * or two segments, where there are not exactly two end points, or where the walk between
   * them leaves segments out; otherwise the walk, which holds each segment of the set once,
   * is a chain and runs from one end point to the other.
   */
  ghost function Linearized<D>(segs: seq<Segment<D>>, order: seq<nat>): (r: Option<seq<nat>>)
    requires Known(segs, order) && Unique(order)
    ensures r.Some? ==> Known(segs, r.value) && Unique(r.value) && |r.value| == |order|
    ensures r.Some? ==> forall x :: x in r.value <==> x in order
    ensures r.Some? ==> Chained(segs, r.value) && r.value != []
    ensures r.Some? ==> DegreesOk(segs, order) && var ends := Terminals(segs, order, KeysOf(segs, order));
      |ends| == 2 && IsEnd(segs, r.value[0], ends[0]) && IsEnd(segs, r.value[|r.value| - 1], ends[1])
  {
    if !DegreesOk(segs, order) then None
    else
      var ends := Terminals(segs, order, KeysOf(segs, order));
      if |ends| != 2 then None
      else
        var lin := Chain(segs, order, ends);
        ChainFacts(segs, order, ends);
        if |lin| != |order| then None
        else
          WalkCovers(segs, order, lin, ends, ends[1]);
          Some(lin)
  }

  /** Where the walk goes from the point ahead: it ends there, or it goes on with a fresh segment. */
  lemma StepFacts<D>(segs: seq<Segment<D>>, order: seq<nat>, endpoints: seq<Point>, lin: seq<nat>, pts: seq<Point>, np: Point)
    requires Walked(segs, order, lin, pts) && DegreesOk(segs, order)
    requires endpoints == Terminals(segs, order, KeysOf(segs, order)) && |endpoints| == 2
    requires pts[0] == endpoints[0] && Chained(segs, lin)
    requires IsEnd(segs, lin[|lin| - 1], np) && np != pts[|pts| - 1]
    ensures var nexts := Others(Incident(segs, order, np), lin[|lin| - 1]);
      && (nexts == [] ==> np in endpoints && np != endpoints[0])
      && (nexts == [] ==> Known(segs, lin) && Unique(lin) && forall k :: 0 <= k < |lin| ==> lin[k] in order)
      && (nexts == [] ==> IsEnd(segs, lin[0], endpoints[0]))
      && (nexts != [] ==> Walked(segs, order, lin + [nexts[0]], pts + [np]))
      && (nexts != [] ==> Chained(segs, lin + [nexts[0]]) && |lin| + 1 <= |order|)
  {
    var nexts := Others(Incident(segs, order, np), lin[|lin| - 1]);
    if nexts == [] {
      WalkEnds(segs, order, endpoints, lin, pts, np);
    } else {
      WalkOn(segs, order, lin, pts, np, nexts[0]);
    }
  }

  lemma LastOfWalk<D>(segs: seq<Segment<D>>, order: seq<nat>, lin: seq<nat>, pts: seq<Point>)
    requires Walked(segs, order, lin, pts)
    ensures lin[|lin| - 1] in order && IsEnd(segs, lin[|lin| - 1], pts[|pts| - 1])
    ensures StartOf(segs, lin[|lin| - 1]) != EndOf(segs, lin[|lin| - 1])
  {
    assert |lin| - 1 < |pts|;
  }

  /** A walk that cannot go on ends at the other end point. */
  lemma WalkEnds<D>(segs: seq<Segment<D>>, order: seq<nat>, endpoints: seq<Point>, lin: seq<nat>, pts: seq<Point>, np: Point)
    requires Walked(segs, order, lin, pts) && DegreesOk(segs, order)
    requires endpoints == Terminals(segs, order, KeysOf(segs, order)) && |endpoints| == 2
    requires pts[0] == endpoints[0]
    requires IsEnd(segs, lin[|lin| - 1], np) && np != pts[|lin| - 1]
    requires Others(Incident(segs, order, np), lin[|lin| - 1]) == []
    ensures Known(segs, lin) && Unique(lin)
    ensures forall k :: 0 <= k < |lin| ==> lin[k] in order
    ensures IsEnd(segs, lin[0], endpoints[0])
    ensures np in endpoints && np != endpoints[0]
  {
    AtTheEnd(segs, order, lin, pts, np);
    WalkedIn(segs, order, lin, pts);
    TerminalsMembers(segs, order, KeysOf(segs, order), np);
    assert 0 < |pts|;
  }

  /** One turn of the walk: it ends at the point ahead, or goes on there with the one other segment met. */
  method WalkStep<D>(segs: seq<Segment<D>>, order: seq<nat>, j: map<Point, seq<nat>>, ghost endpoints: seq<Point>,
                     lin: seq<nat>, ghost pts: seq<Point>, current: Point)
    returns (lin': seq<nat>, ghost pts': seq<Point>, current': Point, done: bool)
    requires endpoints == Terminals(segs, order, KeysOf(segs, order)) && |endpoints| == 2
    requires Walked(segs, order, lin, pts) && current == pts[|pts| - 1] && pts[0] == endpoints[0] && DegreesOk(segs, order)
    requires forall p :: Look(j, p) == Incident(segs, order, p)
    requires |lin| <= |order| && Chained(segs, lin)
    ensures Walked(segs, order, lin', pts') && current' == pts'[|pts'| - 1] && pts'[0] == endpoints[0]
    ensures |lin'| <= |order| && Chained(segs, lin')
    ensures ChainOn(segs, order, lin', current') == ChainOn(segs, order, lin, current)
    ensures done ==> lin' == lin && ChainOn(segs, order, lin', current') == lin'
    ensures !done ==> |lin'| == |lin| + 1
  {
    var np, nextSegments := StepAhead(segs, order, j, endpoints, lin, pts, current);
    ChainOnStep(segs, order, endpoints, lin, pts);
    if |nextSegments| == 0 {
      return lin, pts, current, true;
    }
    lin', pts', current', done := lin + [nextSegments[0]], pts + [np], np, false;
  }

  /**
   * The walk of the linearisation, from the first end point along the segments until none
   * is left at the point ahead. Every assertion the source makes inside the walk holds here:
   * the last segment always has one end other than the current point, the junction ahead
   * has one or two segments, and a walk that stops does so at an end point.
   */
  method WalkChain<D>(segs: seq<Segment<D>>, order: seq<nat>, j: map<Point, seq<nat>>, endpoints: seq<Point>)
    returns (lin: seq<nat>, ghost finish: Point)
    requires Known(segs, order) && Unique(order) && DegreesOk(segs, order)
    requires forall p :: Look(j, p) == Incident(segs, order, p)
    requires endpoints == Terminals(segs, order, KeysOf(segs, order)) && |endpoints| == 2
    ensures 1 <= |lin| <= |order| && Known(segs, lin) && Unique(lin)
    ensures forall k :: 0 <= k < |lin| ==> lin[k] in order
    ensures IsEnd(segs, lin[0], endpoints[0])
    ensures finish in endpoints
    ensures finish != endpoints[0]
    ensures IsEnd(segs, lin[|lin| - 1], finish)
    ensures Chained(segs, lin)
    ensures lin == Chain(segs, order, endpoints)
  {
    lin := WalkLoop(segs, order, j, endpoints);
    ChainFacts(segs, order, endpoints);
    finish := endpoints[1];
  }

  /** The `while` loop of `walk`: step from the first end point until the walk is done. */
  method WalkLoop<D>(segs: seq<Segment<D>>, order: seq<nat>, j: map<Point, seq<nat>>, endpoints: seq<Point>)
    returns (lin: seq<nat>)
    requires Known(segs, order) && Unique(order) && DegreesOk(segs, order)
    requires forall p :: Look(j, p) == Incident(segs, order, p)
    requires endpoints == Terminals(segs, order, KeysOf(segs, order)) && |endpoints| == 2
    ensures lin == Chain(segs, order, endpoints)
  {
    var current := endpoints[0];
    TerminalsMembers(segs, order, KeysOf(segs, order), current);
    var first := Look(j, current)[0];
    lin := [first];
    ghost var pts := [current];
    WalkBegins(segs, order, current, first);
    var done := false;
    while !done
      invariant Walked(segs, order, lin, pts) && current == pts[|pts| - 1] && pts[0] == endpoints[0]
      invariant |lin| <= |order| && Chained(segs, lin)
      invariant ChainOn(segs, order, lin, current) == Chain(segs, order, endpoints)
      invariant done ==> ChainOn(segs, order, lin, current) == lin
      decreases |order| - |lin|, !done
    {
      lin, pts, current, done := WalkStep(segs, order, j, endpoints, lin, pts, current);
    }
  }

  // ---------------------------------------------------------------------------------------
  // Chains

  /** `check`: the segment has an end point of the other one. */
  predicate Touch<D>(segs: seq<Segment<D>>, a: nat, b: nat) {
    IsEnd(segs, a, StartOf(segs, b)) || IsEnd(segs, a, EndOf(segs, b))
  }

  /** Consecutive segments share an end point. */
  predicate Chained<D>(segs: seq<Segment<D>>, line: seq<nat>) {
    forall k :: 0 <= k < |line| - 1 ==> Touch(segs, line[k], line[k + 1])
  }

  /** A walk as long as the set takes every segment of it, and ends at the other end point. */
  lemma WalkCovers<D>(segs: seq<Segment<D>>, order: seq<nat>, lin: seq<nat>, ends: seq<Point>, finish: Point)
    requires Unique(order) && Unique(lin) && |lin| == |order| && forall k :: 0 <= k < |lin| ==> lin[k] in order
    requires |ends| == 2 && finish in ends && finish != ends[0]
    ensures forall x :: x in lin <==> x in order
    ensures finish == ends[1]
  {
    UniqueCovers(lin, order);
    assert ends == [ends[0], ends[1]];
  }

  /**
   * The linearisation of one segment set, listed in its iteration order: None where one of
   * its assertions fails. The chain it gives holds every segment of the set once, consecutive
   * segments share an end point, and it runs from one end point of the set to the other.
   */
  method Linearize<D>(segs: seq<Segment<D>>, order: seq<nat>) returns (r: Option<seq<nat>>)
    requires Known(segs, order) && Unique(order)
    ensures !DegreesOk(segs, order) ==> r.None?
    ensures DegreesOk(segs, order) && |Terminals(segs, order, KeysOf(segs, order))| != 2 ==> r.None?
    ensures r.Some? ==> Known(segs, r.value) && Unique(r.value) && |r.value| == |order|
    ensures r.Some? ==> forall x :: x in r.value <==> x in order
    ensures r.Some? ==> Chained(segs, r.value)
    ensures r.Some? ==> DegreesOk(segs, order) && var ends := Terminals(segs, order, KeysOf(segs, order));
      |ends| == 2 && IsEnd(segs, r.value[0], ends[0]) && IsEnd(segs, r.value[|r.value| - 1], ends[1])
    ensures r == Linearized(segs, order)
  {
    var j, keys := JunctionMap(segs, order);
    var endpoints := Endpoints(j, keys);
    assert endpoints.Some? <==> DegreesOk(segs, order) by {
      MapDegrees(segs, order, j);
    }
    assert endpoints.Some? ==> endpoints.value == Terminals(segs, order, KeysOf(segs, order)) by {
      MapTerminals(segs, order, j, keys);
    }
    if endpoints.None? || |endpoints.value| != 2 {
      return None;
    }
    var lin;
    ghost var finish;
    lin, finish := WalkChain(segs, order, j, endpoints.value);
    if |lin| != |order| {
      return None;
    }
    WalkCovers(segs, order, lin, endpoints.value, finish);
    r := Some(lin);
  }

  // ---------------------------------------------------------------------------------------
  // Stitching

  function Reverse(xs: seq<nat>): (r: seq<nat>)
    ensures |r| == |xs| && forall k :: 0 <= k < |xs| ==> r[k] == xs[|xs| - 1 - k]
    ensures forall x :: x in r <==> x in xs
  {
    var r := seq(|xs|, k requires 0 <= k < |xs| => xs[|xs| - 1 - k]);
    assert forall k :: 0 <= k < |xs| ==> xs[k] == r[|xs| - 1 - k];
    r
  }

  /**
   * One turn of the stitching loop for set `i`, whose predecessor had `prevLen` segments: the
   * chain joins the line at its end, reversed if need be; for the second set the line so far
   * may be turned round first; at a turnaround the line goes back over the previous set.
   * None where no rule applies.
   */
  function StitchStep<D>(segs: seq<Segment<D>>, acc: seq<nat>, lin: seq<nat>, i: nat, prevLen: nat): (r: Option<seq<nat>>)
    requires Known(segs, acc) && Known(segs, lin) && lin != []
    requires acc != [] ==> 1 <= prevLen <= |acc|
    ensures acc == [] ==> r == Some(lin)
    ensures r.Some? ==> Known(segs, r.value) && forall x :: x in r.value <==> x in acc || x in lin
    ensures r.Some? ==> |r.value| >= |lin| && var tail := r.value[|r.value| - |lin|..]; tail == lin || tail == Reverse(lin)
  {
    if acc == [] then Some(lin)
    else match StitchParts(segs, acc, lin, i, prevLen)
      case None => None
      case Some((front, reversed)) =>
        var tail := if reversed then Reverse(lin) else lin;
        JoinFacts(segs, front, tail);
        Some(front + tail)
  }

  /**
   * The rule that applies: what comes before the joined set (the line so far, turned round, or
   * followed by the way back over the previous set), and whether the set is joined reversed.
   */
  function StitchParts<D>(segs: seq<Segment<D>>, acc: seq<nat>, lin: seq<nat>, i: nat, prevLen: nat): (r: Option<(seq<nat>, bool)>)
    requires Known(segs, acc) && lin != [] && 1 <= prevLen <= |acc|
    ensures r.Some? ==> Known(segs, r.value.0) && forall x :: x in r.value.0 <==> x in acc
  {
    var a, f, l := acc[|acc| - 1], lin[0], lin[|lin| - 1];
    var back := Reverse(acc[|acc| - prevLen..|acc| - 1]);
    assert forall x :: x in back ==> x in acc;
    if Touch(segs, a, f) then Some((acc, false))
    else if Touch(segs, a, l) then Some((acc, true))
    else if i == 1 && Touch(segs, acc[0], f) then Some((Reverse(acc), false))
    else if i == 1 && Touch(segs, acc[0], l) then Some((Reverse(acc), true))
    else if i >= 1 && Touch(segs, acc[|acc| - prevLen], f) then Some((acc + back, false))
    else if i >= 1 && Touch(segs, acc[|acc| - prevLen], l) then Some((acc + back, true))
    else None
  }

  lemma JoinFacts<D>(segs: seq<Segment<D>>, xs: seq<nat>, ys: seq<nat>)
    requires Known(segs, xs) && Known(segs, ys)
    ensures Known(segs, xs + ys) && (xs + ys)[|xs|..] == ys
    ensures forall x :: x in xs + ys <==> x in xs || x in ys
  {
    assert (xs + ys)[|xs|..] == ys;
  }

  lemma TouchSymmetric<D>(segs: seq<Segment<D>>, a: nat, b: nat)
    requires HavePoints(segs) && a < |segs| && b < |segs|
    ensures Touch(segs, a, b) <==> Touch(segs, b, a)
  {
  }

  lemma ChainedReverse<D>(segs: seq<Segment<D>>, xs: seq<nat>)
    requires Known(segs, xs) && Chained(segs, xs)
    ensures Known(segs, Reverse(xs)) && Chained(segs, Reverse(xs))
  {
    var r := Reverse(xs);
    forall k | 0 <= k < |r| - 1
      ensures Touch(segs, r[k], r[k + 1])
    {
      var m := |xs| - 2 - k;
      assert r[k] == xs[m + 1] && r[k + 1] == xs[m];
      TouchSymmetric(segs, xs[m], xs[m + 1]);
    }
  }

  lemma ChainedJoin<D>(segs: seq<Segment<D>>, xs: seq<nat>, ys: seq<nat>)
    requires Known(segs, xs) && Known(segs, ys) && Chained(segs, xs) && Chained(segs, ys)
    requires xs != [] && ys != [] && Touch(segs, xs[|xs| - 1], ys[0])
    ensures Known(segs, xs + ys) && Chained(segs, xs + ys)
  {
    var r := xs + ys;
    forall k | 0 <= k < |r| - 1
      ensures Touch(segs, r[k], r[k + 1])
    {
      if k < |xs| - 1 {
        assert r[k] == xs[k] && r[k + 1] == xs[k + 1];
      } else if k >= |xs| {
        assert r[k] == ys[k - |xs|] && r[k + 1] == ys[k - |xs| + 1];
      }
    }
  }

  lemma ChainedSlice<D>(segs: seq<Segment<D>>, xs: seq<nat>, lo: nat, hi: nat)
    requires Known(segs, xs) && Chained(segs, xs) && lo <= hi <= |xs|
    ensures Known(segs, xs[lo..hi]) && Chained(segs, xs[lo..hi])
  {
    var r := xs[lo..hi];
    forall k | 0 <= k < |r| - 1
      ensures Touch(segs, r[k], r[k + 1])
    {
      assert r[k] == xs[lo + k] && r[k + 1] == xs[lo + k + 1];
    }
  }

  /** Going back over the previous set at a turnaround still gives a chain. */
  lemma ChainedTurnaround<D>(segs: seq<Segment<D>>, acc: seq<nat>, prevLen: nat, lin: seq<nat>)
    requires Known(segs, acc) && Known(segs, lin) && Chained(segs, acc) && Chained(segs, lin)
    requires lin != [] && 1 <= prevLen <= |acc| && Touch(segs, acc[|acc| - prevLen], lin[0])
    ensures Known(segs, acc + Reverse(acc[|acc| - prevLen..|acc| - 1]) + lin)
    ensures Chained(segs, acc + Reverse(acc[|acc| - prevLen..|acc| - 1]) + lin)
  {
    var m := |acc| - prevLen;
    var back := Reverse(acc[m..|acc| - 1]);
    if back == [] {
      assert acc + back == acc;
      ChainedJoin(segs, acc, lin);
    } else {
      ChainedSlice(segs, acc, m, |acc| - 1);
      ChainedReverse(segs, acc[m..|acc| - 1]);
      assert back[0] == acc[|acc| - 2] && back[|back| - 1] == acc[m];
      TouchSymmetric(segs, acc[|acc| - 2], acc[|acc| - 1]);
      ChainedJoin(segs, acc, back);
      ChainedJoin(segs, acc + back, lin);
    }
  }

  /** Every rule of the stitching keeps the line a chain. */
  lemma StitchChained<D>(segs: seq<Segment<D>>, acc: seq<nat>, lin: seq<nat>, i: nat, prevLen: nat)
    requires Known(segs, acc) && Known(segs, lin) && lin != []
    requires acc != [] ==> 1 <= prevLen <= |acc|
    requires Chained(segs, acc) && Chained(segs, lin)
    requires StitchStep(segs, acc, lin, i, prevLen).Some?
    ensures Chained(segs, StitchStep(segs, acc, lin, i, prevLen).value)
  {
    if acc != [] {
      var a, f, l := acc[|acc| - 1], lin[0], lin[|lin| - 1];
      ChainedReverse(segs, lin);
      ChainedReverse(segs, acc);
      var rl, ra := Reverse(lin), Reverse(acc);
      assert rl[0] == l && ra[|ra| - 1] == acc[0];
      if Touch(segs, a, f) {
        ChainedJoin(segs, acc, lin);
      } else if Touch(segs, a, l) {
        ChainedJoin(segs, acc, rl);
      } else if i == 1 && Touch(segs, acc[0], f) {
        ChainedJoin(segs, ra, lin);
      } else if i == 1 && Touch(segs, acc[0], l) {
        ChainedJoin(segs, ra, rl);
      } else if Touch(segs, acc[|acc| - prevLen], f) {
        ChainedTurnaround(segs, acc, prevLen, lin);
      } else {
        ChainedTurnaround(segs, acc, prevLen, rl);
      }
    }
  }
}
