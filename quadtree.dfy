/**
 * The engine's generic quadtree (engine/quadtree/quadtree.rs): branches carry data of
 * type B and exactly four children, leaves carry data of type L. Nodes are values; the
 * tree object owns its root and replaces nodes in place when it splits a leaf.
 */
module Quadtrees {
  import opened Wrappers
  import opened IntMath
  import opened Quadrants
  import opened Addresses
  import opened Rects

  /** `quadtree::Error`; the f64 variant is raised only by code outside this model. */
  datatype Error = ExpectedBranch | ExpectedLeaf | MaxDepthExceeded(maxDepth: nat) | CoordsOutOfBounds(x: nat, y: nat)

  /** What a traversal knows about the node it is at. */
  datatype VisitData = VisitData(address: Address, depth: nat, x: nat, y: nat, width: nat) {

    /** `in_bounds`: the node's square overlaps the open interior of the rectangle. */
    predicate InBounds(bounds: Rect) {
      x < bounds.maxX && x + width > bounds.minX && y < bounds.maxY && y + width > bounds.minY
    }

    /** `get_bounds`. */
    function GetBounds(): Rect {
      Xywh(x, y, width, width)
    }

    /** `child`: one level down into quadrant q. */
    function Child(q: Quadrant): (r: VisitData)
      requires address.Depth() < address.maxDepth
      ensures r.address == address.Child(q) && r.depth == depth + 1 && r.width == width / 2
      ensures r.x == x + (if IsRight(q) then width / 2 else 0)
      ensures r.y == y + (if IsBottom(q) then width / 2 else 0)
    {
      var cx := match q { case NW => x case SW => x case NE => x + width / 2 case SE => x + width / 2 };
      var cy := match q { case NW => y case NE => y case SW => y + width / 2 case SE => y + width / 2 };
      VisitData(address.Child(q), depth + 1, cx, cy, width / 2)
    }

    /**
     * `quadrant_for_coords`: an error outside the closed square, otherwise the quadrant,
     * with points on the centre lines going to the left and top halves.
     */
    function QuadrantForCoords(px: nat, py: nat): (r: Result<Quadrant, Error>)
      ensures r.Err? <==> !(x <= px <= x + width && y <= py <= y + width)
      ensures r.Err? ==> r.error == CoordsOutOfBounds(px, py)
      ensures r.Ok? ==> (IsRight(r.value) <==> px > x + width / 2) && (IsBottom(r.value) <==> py > y + width / 2)
    {
      if px < x || px > x + width || py < y || py > y + width then Err(CoordsOutOfBounds(px, py))
      else Ok(FromSides(px > x + width / 2, py > y + width / 2))
    }

    /** The visit data agrees with its address: depth, corner and width as the address places them. */
    predicate Consistent() {
      && address.Valid()
      && depth == address.Depth()
      && (x, y, width) == Corner(address.data, Pow2(address.maxDepth))
    }
  }

  /** `Quadtree::root_visit_data` for a tree of the given maximum depth. */
  function RootVisitData(maxDepth: nat): (vd: VisitData)
    ensures vd.Consistent() && vd.width == Pow2(maxDepth)
  {
    VisitData(Address([], maxDepth), 0, 0, 0, Pow2(maxDepth))
  }

  /** Descending from consistent visit data gives consistent visit data. */
  lemma ChildConsistent(vd: VisitData, q: Quadrant)
    requires vd.Consistent() && vd.address.Depth() < vd.address.maxDepth
    ensures vd.Child(q).Consistent()
  {
    var s := vd.address.data + [q];
    assert s[..|s| - 1] == vd.address.data;
  }

  /** Above the maximum depth a tile's width is even, so the midpoint of its bounds is its centre line. */
  lemma Midpoints(vd: VisitData)
    requires vd.Consistent() && vd.address.Depth() < vd.address.maxDepth
    ensures vd.width % 2 == 0
    ensures (vd.x + vd.width + vd.x) / 2 == vd.x + vd.width / 2
    ensures (vd.y + vd.width + vd.y) / 2 == vd.y + vd.width / 2
  {
    CornerInGrid(vd.address.data, vd.address.maxDepth);
    Pow2Halves(vd.address.maxDepth - vd.address.Depth());
  }

  /**
   * A node. `depth` is the number of branches above the node; `childCount` and
   * `childDepth` are the bookkeeping fields a branch is created with.
   */
  datatype Node<B, L> =
    | Branch(bdata: B, children: QuadMap<Node<B, L>>, depth: nat, childCount: nat, childDepth: nat)
    | Leaf(ldata: L, depth: nat)

  /** Every branch has a map of exactly four children. */
  predicate WellFormed<B, L>(n: Node<B, L>) {
    n.Branch? ==> n.children.Valid() && forall i :: 0 <= i < 4 ==> WellFormed(n.children.data[i])
  }

  /**
   * The tree invariant below a node at depth d: each node's depth field is its depth,
   * and branches occur only above the maximum depth, so no node is nested deeper.
   */
  predicate Shaped<B, L>(n: Node<B, L>, d: nat, maxDepth: nat) {
    && n.depth == d
    && d <= maxDepth
    && (n.Branch? ==>
          && d < maxDepth
          && n.children.Valid()
          && forall i :: 0 <= i < 4 ==> Shaped(n.children.data[i], d + 1, maxDepth))
  }

  lemma {:induction false} ShapedWellFormed<B, L>(n: Node<B, L>, d: nat, maxDepth: nat)
    requires Shaped(n, d, maxDepth)
    ensures WellFormed(n)
  {
    if n.Branch? {
      forall i | 0 <= i < 4 ensures WellFormed(n.children.data[i]) {
        ShapedWellFormed(n.children.data[i], d + 1, maxDepth);
      }
    }
  }

  /** `Node::get`: the child in quadrant q, or ExpectedBranch on a leaf. */
  function GetChild<B, L>(n: Node<B, L>, q: Quadrant): (r: Result<Node<B, L>, Error>)
    requires WellFormed(n)
    ensures r.Err? <==> n.Leaf?
    ensures r.Err? ==> r.error == ExpectedBranch
    ensures r.Ok? ==> r.value == n.children.Get(q) && WellFormed(r.value)
  {
    match n
    case Branch(_, children, _, _, _) => Ok(children.data[Index(q)])
    case Leaf(_, _) => Err(ExpectedBranch)
  }

  /** The node reached by following a path, as `Quadtree::get` walks it. */
  function NodeAt<B, L>(n: Node<B, L>, path: seq<Quadrant>): (r: Result<Node<B, L>, Error>)
    requires WellFormed(n)
    ensures r.Ok? ==> WellFormed(r.value)
    ensures r.Err? ==> r.error == ExpectedBranch
    decreases |path|
  {
    if path == [] then Ok(n)
    else match GetChild(n, path[0])
      case Err(e) => Err(e)
      case Ok(c) => NodeAt(c, path[1..])
  }

  /** `get_branch`: the data of the branch at the path. */
  function BranchAt<B, L>(n: Node<B, L>, path: seq<Quadrant>): (r: Result<B, Error>)
    requires WellFormed(n)
    ensures r.Ok? <==> NodeAt(n, path).Ok? && NodeAt(n, path).value.Branch?
    ensures r.Ok? ==> r.value == NodeAt(n, path).value.bdata
    ensures r.Err? ==> r.error == ExpectedBranch
  {
    match NodeAt(n, path)
    case Err(e) => Err(e)
    case Ok(m) => if m.Branch? then Ok(m.bdata) else Err(ExpectedBranch)
  }

  /** `get_leaf`: the data of the leaf at the path. */
  function LeafAt<B, L>(n: Node<B, L>, path: seq<Quadrant>): (r: Result<L, Error>)
    requires WellFormed(n)
    ensures r.Ok? <==> NodeAt(n, path).Ok? && NodeAt(n, path).value.Leaf?
    ensures r.Ok? ==> r.value == NodeAt(n, path).value.ldata
    ensures r.Err? ==> r.error == (if NodeAt(n, path).Ok? then ExpectedLeaf else ExpectedBranch)
  {
    match NodeAt(n, path)
    case Err(e) => Err(e)
    case Ok(m) => if m.Leaf? then Ok(m.ldata) else Err(ExpectedLeaf)
  }

  /** Walking a path in two steps reaches the same node as walking it at once. */
  lemma {:induction false} NodeAtAppend<B, L>(n: Node<B, L>, p: seq<Quadrant>, s: seq<Quadrant>)
    requires WellFormed(n) && NodeAt(n, p).Ok?
    ensures NodeAt(n, p + s) == NodeAt(NodeAt(n, p).value, s)
    decreases |p|
  {
    if p == [] {
      assert p + s == s;
    } else {
      assert (p + s)[0] == p[0] && (p + s)[1..] == p[1..] + s;
      var c := GetChild(n, p[0]).value;
      assert NodeAt(n, p) == NodeAt(c, p[1..]);
      NodeAtAppend(c, p[1..], s);
    }
  }

  /** A node reached from a shaped node is shaped at the depth of its path. */
  lemma {:induction false} NodeAtShaped<B, L>(n: Node<B, L>, p: seq<Quadrant>, d: nat, maxDepth: nat)
    requires Shaped(n, d, maxDepth) && WellFormed(n) && NodeAt(n, p).Ok?
    ensures Shaped(NodeAt(n, p).value, d + |p|, maxDepth)
    decreases |p|
  {
    if p != [] {
      ShapedWellFormed(n, d, maxDepth);
      NodeAtShaped(GetChild(n, p[0]).value, p[1..], d + 1, maxDepth);
    }
  }

  /** The tree with the node at an existing path replaced by m. */
  function ReplaceAt<B, L>(n: Node<B, L>, path: seq<Quadrant>, m: Node<B, L>): (r: Node<B, L>)
    requires WellFormed(n) && WellFormed(m) && NodeAt(n, path).Ok?
    ensures WellFormed(r)
    ensures NodeAt(r, path) == Ok(m)
    ensures path != [] ==> r.Branch? && n.Branch? && r.bdata == n.bdata && r.depth == n.depth
    decreases |path|
  {
    if path == [] then m
    else
      var c := n.children.Get(path[0]);
      var c' := ReplaceAt(c, path[1..], m);
      var r := n.(children := n.children.Set(path[0], c'));
      assert GetChild(r, path[0]) == Ok(c');
      r
  }

  /** Replacing one node leaves every node off its path, and not below it, as it was. */
  lemma {:induction false} ReplaceAtFrame<B, L>(n: Node<B, L>, path: seq<Quadrant>, m: Node<B, L>, other: seq<Quadrant>)
    requires WellFormed(n) && WellFormed(m) && NodeAt(n, path).Ok?
    requires !(path <= other) && !(other <= path)
    ensures NodeAt(ReplaceAt(n, path, m), other) == NodeAt(n, other)
    decreases |path|
  {
    var r := ReplaceAt(n, path, m);
    assert path != [] && other != [];
    if other[0] == path[0] {
      assert !(path[1..] <= other[1..]) && !(other[1..] <= path[1..]);
      ReplaceAtFrame(n.children.Get(path[0]), path[1..], m, other[1..]);
    }
  }

  /** Nothing lies below a leaf: a path that strictly extends a leaf's path reaches no node. */
  lemma NothingBelowLeaf<B, L>(n: Node<B, L>, p: seq<Quadrant>, q: seq<Quadrant>)
    requires WellFormed(n) && LeafAt(n, p).Ok? && p <= q && p != q
    ensures NodeAt(n, q).Err?
  {
    assert q == p + q[|p|..];
    NodeAtAppend(n, p, q[|p|..]);
  }

  /** Two different leaves are never on one path: neither path extends the other. */
  lemma LeafPathsApart<B, L>(n: Node<B, L>, p: seq<Quadrant>, q: seq<Quadrant>)
    requires WellFormed(n) && LeafAt(n, p).Ok? && LeafAt(n, q).Ok? && p != q
    ensures !(p <= q) && !(q <= p)
  {
    if p <= q {
      NothingBelowLeaf(n, p, q);
    }
    if q <= p {
      NothingBelowLeaf(n, q, p);
    }
  }

  /** Replacing a node by one shaped for its depth keeps the whole tree shaped. */
  lemma {:induction false} ReplaceAtShaped<B, L>(n: Node<B, L>, path: seq<Quadrant>, m: Node<B, L>, d: nat, maxDepth: nat)
    requires WellFormed(n) && WellFormed(m) && NodeAt(n, path).Ok?
    requires Shaped(n, d, maxDepth) && Shaped(m, d + |path|, maxDepth)
    ensures Shaped(ReplaceAt(n, path, m), d, maxDepth)
    decreases |path|
  {
    if path != [] {
      var c := n.children.Get(path[0]);
      ReplaceAtShaped(c, path[1..], m, d + 1, maxDepth);
      var r := ReplaceAt(n, path, m);
      forall i | 0 <= i < 4 ensures Shaped(r.children.data[i], d + 1, maxDepth) {
        if i != Index(path[0]) {
          assert TryFrom(i).Some? && Index(TryFrom(i).value) == i;
          assert r.children.data[i] == n.children.data[i];
        }
      }
    }
  }

  /** The branch `split` puts in place of a leaf: the children are new leaves one level down. */
  function SplitBranch<B, L>(data: B, childData: QuadMap<L>, depth: nat): (r: Node<B, L>)
    requires childData.Valid()
    ensures r.Branch? && r.bdata == data && r.depth == depth && r.children.Valid()
    ensures forall q :: r.children.Get(q) == Leaf(childData.Get(q), depth + 1)
    ensures WellFormed(r)
  {
    Branch(data, childData.MapInto((l: L) => Leaf(l, depth + 1)), depth, 4, 1)
  }

  /** After a split at p, p holds the branch and each p + [q] the q-th child leaf. */
  lemma SplitReads<B, L>(n: Node<B, L>, p: seq<Quadrant>, data: B, childData: QuadMap<L>, q: Quadrant, q2: Quadrant)
    requires WellFormed(n) && childData.Valid() && NodeAt(n, p).Ok?
    ensures var r := ReplaceAt(n, p, SplitBranch(data, childData, |p|));
      && BranchAt(r, p) == Ok(data)
      && LeafAt(r, p) == Err(ExpectedLeaf)
      && LeafAt(r, p + [q]) == Ok(childData.Get(q))
      && BranchAt(r, p + [q]) == Err(ExpectedBranch)
      && NodeAt(r, p + [q, q2]) == Err(ExpectedBranch)
  {
    var m := SplitBranch(data, childData, |p|);
    var r := ReplaceAt(n, p, m);
    NodeAtAppend(r, p, [q]);
    NodeAtAppend(r, p, [q, q2]);
    assert [q, q2][1..] == [q2];
  }

  /** The visit data `get_visit_data` returns for (x, y), starting from node n with visit data vd. */
  function Locate<B, L>(n: Node<B, L>, vd: VisitData, x: nat, y: nat): (r: VisitData)
    requires Shaped(n, vd.address.Depth(), vd.address.maxDepth) && vd.address.Valid()
    decreases n
  {
    match n
    case Leaf(_, _) => vd
    case Branch(_, children, _, _, _) =>
      var q := FromSides(x >= vd.x + vd.width / 2, y >= vd.y + vd.width / 2);
      Locate(children.data[Index(q)], vd.Child(q), x, y)
  }

  /**
   * The located tile is a leaf of the tree, it is reached by its address, and its
   * square [x0, x0 + w) x [y0, y0 + w) contains the point.
   */
  lemma {:induction false} LocateFindsLeaf<B, L>(root: Node<B, L>, n: Node<B, L>, vd: VisitData, x: nat, y: nat)
    requires vd.Consistent() && Shaped(n, vd.address.Depth(), vd.address.maxDepth)
    requires WellFormed(root) && NodeAt(root, vd.address.data) == Ok(n)
    requires vd.x <= x < vd.x + vd.width && vd.y <= y < vd.y + vd.width
    ensures var r := Locate(n, vd, x, y);
      && r.Consistent() && r.address.maxDepth == vd.address.maxDepth
      && vd.address.data <= r.address.data
      && NodeAt(root, r.address.data).Ok? && NodeAt(root, r.address.data).value.Leaf?
      && r.x <= x < r.x + r.width && r.y <= y < r.y + r.width
    decreases n
  {
    if n.Branch? {
      var q := FromSides(x >= vd.x + vd.width / 2, y >= vd.y + vd.width / 2);
      var c := n.children.data[Index(q)];
      var cvd := vd.Child(q);
      ChildConsistent(vd, q);
      CornerInGrid(vd.address.data, vd.address.maxDepth);
      Pow2Halves(vd.address.maxDepth - vd.address.Depth());
      ShapedWellFormed(n, vd.address.Depth(), vd.address.maxDepth);
      NodeAtAppend(root, vd.address.data, [q]);
      LocateFindsLeaf(root, c, cvd, x, y);
    }
  }

  /** One event of a traversal, as the recording visitor of the source's tests keeps it. */
  datatype Event<B, L> = Pre(b: B, vd: VisitData) | LeafEvent(l: L, vd: VisitData) | Post(b: B, vd: VisitData)

  /**
   * A visitor with state S: `pre` also answers whether to descend; any callback may fail
   * with an error E, which stops the traversal.
   */
  datatype Visitor<!S, !B, !L, E> = Visitor(
    pre: (S, B, VisitData) -> Result<(S, bool), E>,
    leaf: (S, L, VisitData) -> Result<S, E>,
    post: (S, B, VisitData) -> Result<S, E>)

  /** The exact sequence of callbacks a traversal with `pre` always true performs. */
  function Trace<B, L>(n: Node<B, L>, vd: VisitData): seq<Event<B, L>>
    requires Shaped(n, vd.address.Depth(), vd.address.maxDepth) && vd.address.Valid()
    decreases n, 1
  {
    match n
    case Leaf(l, _) => [LeafEvent(l, vd)]
    case Branch(b, c, _, _, _) => [Pre(b, vd)] + ChildTraces(c, vd, 0) + [Post(b, vd)]
  }

  /** The traces of the children from quadrant index i on, in QUADRANTS order. */
  function ChildTraces<B, L>(c: QuadMap<Node<B, L>>, vd: VisitData, i: nat): seq<Event<B, L>>
    requires i <= 4 && c.Valid() && vd.address.Valid() && vd.address.Depth() < vd.address.maxDepth
    requires forall j :: 0 <= j < 4 ==> Shaped(c.data[j], vd.address.Depth() + 1, vd.address.maxDepth)
    decreases c, 4 - i
  {
    if i == 4 then [] else Trace(c.data[i], vd.Child(AllQuadrants[i])) + ChildTraces(c, vd, i + 1)
  }

  /** `Node::visit`: pre, then the children in NW, NE, SW, SE order if pre said so, then post. */
  function Visit<S, B, L, E>(n: Node<B, L>, v: Visitor<S, B, L, E>, s: S, vd: VisitData): Result<S, E>
    requires Shaped(n, vd.address.Depth(), vd.address.maxDepth) && vd.address.Valid()
    decreases n, 1
  {
    match n
    case Leaf(l, _) => v.leaf(s, l, vd)
    case Branch(b, c, _, _, _) =>
      match v.pre(s, b, vd)
      case Err(e) => Err(e)
      case Ok((s1, descend)) =>
        var s2 := if descend then VisitChildren(c, v, s1, vd, 0) else Ok(s1);
        match s2
        case Err(e) => Err(e)
        case Ok(s3) => v.post(s3, b, vd)
  }

  /** The loop over QUADRANTS from index i on, stopping at the first error. */
  function VisitChildren<S, B, L, E>(c: QuadMap<Node<B, L>>, v: Visitor<S, B, L, E>, s: S, vd: VisitData, i: nat): Result<S, E>
    requires i <= 4 && c.Valid() && vd.address.Valid() && vd.address.Depth() < vd.address.maxDepth
    requires forall j :: 0 <= j < 4 ==> Shaped(c.data[j], vd.address.Depth() + 1, vd.address.maxDepth)
    decreases c, 4 - i
  {
    if i == 4 then Ok(s)
    else
      match Visit(c.data[i], v, s, vd.Child(AllQuadrants[i]))
      case Err(e) => Err(e)
      case Ok(s1) => VisitChildren(c, v, s1, vd, i + 1)
  }

  /** The visitor of the source's tests: records every callback and always descends. */
  function Recorder<B, L>(): Visitor<seq<Event<B, L>>, B, L, ()> {
    Visitor(
      (s: seq<Event<B, L>>, b: B, vd: VisitData) => Ok((s + [Pre(b, vd)], true)),
      (s: seq<Event<B, L>>, l: L, vd: VisitData) => Ok(s + [LeafEvent(l, vd)]),
      (s: seq<Event<B, L>>, b: B, vd: VisitData) => Ok(s + [Post(b, vd)]))
  }

  /** Visiting with the recorder appends exactly the traversal order `Trace` describes. */
  lemma {:induction false} RecorderSeesTrace<B, L>(n: Node<B, L>, s: seq<Event<B, L>>, vd: VisitData)
    requires Shaped(n, vd.address.Depth(), vd.address.maxDepth) && vd.address.Valid()
    ensures Visit(n, Recorder(), s, vd) == Ok(s + Trace(n, vd))
    decreases n, 1
  {
    if n.Branch? {
      var c := n.children;
      var s1 := s + [Pre(n.bdata, vd)];
      RecorderSeesChildTraces(c, s1, vd, 0);
      assert s1 + ChildTraces(c, vd, 0) + [Post(n.bdata, vd)] == s + Trace(n, vd);
    }
  }

  lemma {:induction false} RecorderSeesChildTraces<B, L>(c: QuadMap<Node<B, L>>, s: seq<Event<B, L>>, vd: VisitData, i: nat)
    requires i <= 4 && c.Valid() && vd.address.Valid() && vd.address.Depth() < vd.address.maxDepth
    requires forall j :: 0 <= j < 4 ==> Shaped(c.data[j], vd.address.Depth() + 1, vd.address.maxDepth)
    ensures VisitChildren(c, Recorder(), s, vd, i) == Ok(s + ChildTraces(c, vd, i))
    decreases c, 4 - i
  {
    if i == 4 {
      assert s + [] == s;
    } else {
      var t := Trace(c.data[i], vd.Child(AllQuadrants[i]));
      RecorderSeesTrace(c.data[i], s, vd.Child(AllQuadrants[i]));
      RecorderSeesChildTraces(c, s + t, vd, i + 1);
      assert s + t + ChildTraces(c, vd, i + 1) == s + ChildTraces(c, vd, i);
    }
  }

  /** Number of leaves below a node. */
  function LeafCount<B, L>(n: Node<B, L>): nat
    requires WellFormed(n)
    decreases n, 1
  {
    match n
    case Leaf(_, _) => 1
    case Branch(_, c, _, _, _) => ChildLeafCount(c, 0)
  }

  /** Number of leaves below the children from quadrant index i on. */
  function ChildLeafCount<B, L>(c: QuadMap<Node<B, L>>, i: nat): nat
    requires i <= 4 && c.Valid() && forall j :: 0 <= j < 4 ==> WellFormed(c.data[j])
    decreases c, 4 - i
  {
    if i == 4 then 0 else LeafCount(c.data[i]) + ChildLeafCount(c, i + 1)
  }

  /** The leaf events of a trace. */
  function LeafEvents<B, L>(t: seq<Event<B, L>>): (r: seq<Event<B, L>>)
    ensures forall e :: e in r ==> e in t && e.LeafEvent?
    ensures |r| <= |t|
  {
    if t == [] then []
    else (if t[0].LeafEvent? then [t[0]] else []) + LeafEvents(t[1..])
  }

  lemma {:induction false} LeafEventsAppend<B, L>(a: seq<Event<B, L>>, b: seq<Event<B, L>>)
    ensures LeafEvents(a + b) == LeafEvents(a) + LeafEvents(b)
  {
    if a == [] {
      assert a + b == b;
    } else {
      assert (a + b)[0] == a[0] && (a + b)[1..] == a[1..] + b;
      LeafEventsAppend(a[1..], b);
    }
  }

  /** A leaf event that carries the data of the leaf found at its own address. */
  ghost predicate LeafEventAt<B, L>(root: Node<B, L>, e: Event<B, L>)
    requires WellFormed(root)
  {
    e.LeafEvent? && e.vd.Consistent() && NodeAt(root, e.vd.address.data) == Ok(Leaf(e.l, e.vd.depth))
  }

  /** Stepping into child q of a node found at consistent visit data. */
  lemma ChildStep<B, L>(root: Node<B, L>, n: Node<B, L>, vd: VisitData, q: Quadrant)
    requires vd.Consistent() && Shaped(n, vd.address.Depth(), vd.address.maxDepth) && n.Branch?
    requires WellFormed(root) && NodeAt(root, vd.address.data) == Ok(n)
    ensures vd.Child(q).Consistent()
    ensures Shaped(n.children.data[Index(q)], vd.Child(q).address.Depth(), vd.address.maxDepth)
    ensures NodeAt(root, vd.Child(q).address.data) == Ok(n.children.data[Index(q)])
  {
    ChildConsistent(vd, q);
    NodeAtAppend(root, vd.address.data, [q]);
  }

  /**
   * A traversal calls `visit_leaf` once per leaf, and every leaf event carries the data of
   * the leaf found at its address.
   */
  lemma {:induction false} TraceVisitsEachLeaf<B, L>(root: Node<B, L>, n: Node<B, L>, vd: VisitData)
    requires vd.Consistent() && Shaped(n, vd.address.Depth(), vd.address.maxDepth)
    requires WellFormed(root) && NodeAt(root, vd.address.data) == Ok(n)
    ensures WellFormed(n) && |LeafEvents(Trace(n, vd))| == LeafCount(n)
    ensures forall e :: e in LeafEvents(Trace(n, vd)) ==> LeafEventAt(root, e)
    decreases n, 1
  {
    ShapedWellFormed(n, vd.address.Depth(), vd.address.maxDepth);
    if n.Branch? {
      var pre: seq<Event<B, L>> := [Pre(n.bdata, vd)];
      var post: seq<Event<B, L>> := [Post(n.bdata, vd)];
      var t := ChildTraces(n.children, vd, 0);
      ChildTracesVisitEachLeaf(root, n, vd, 0);
      LeafEventsAppend(pre + t, post);
      LeafEventsAppend(pre, t);
      assert LeafEvents(post) == [] && LeafEvents(pre) == [];
      assert LeafEvents(Trace(n, vd)) == LeafEvents(t);
    } else {
      assert LeafEvents(Trace(n, vd)) == [LeafEvent(n.ldata, vd)];
      assert n == Leaf(n.ldata, vd.depth);
    }
  }

  lemma {:induction false} ChildTracesVisitEachLeaf<B, L>(root: Node<B, L>, n: Node<B, L>, vd: VisitData, i: nat)
    requires vd.Consistent() && Shaped(n, vd.address.Depth(), vd.address.maxDepth) && n.Branch? && i <= 4
    requires WellFormed(root) && NodeAt(root, vd.address.data) == Ok(n)
    ensures WellFormed(n)
    ensures |LeafEvents(ChildTraces(n.children, vd, i))| == ChildLeafCount(n.children, i)
    ensures forall e :: e in LeafEvents(ChildTraces(n.children, vd, i)) ==> LeafEventAt(root, e)
    decreases n, 0, 4 - i
  {
    ShapedWellFormed(n, vd.address.Depth(), vd.address.maxDepth);
    if i < 4 {
      var q := AllQuadrants[i];
      assert Index(q) == i;
      var c := n.children.data[i];
      ChildStep(root, n, vd, q);
      TraceVisitsEachLeaf(root, c, vd.Child(q));
      ChildTracesVisitEachLeaf(root, n, vd, i + 1);
      LeafEventsAppend(Trace(c, vd.Child(q)), ChildTraces(n.children, vd, i + 1));
    }
  }

  /** Every leaf below a node is visited: its trace has an event with that leaf's data at the leaf's address. */
  lemma {:induction false} TraceReachesLeaf<B, L>(n: Node<B, L>, vd: VisitData, s: seq<Quadrant>)
    requires Shaped(n, vd.address.Depth(), vd.address.maxDepth) && vd.address.Valid()
    requires WellFormed(n) && NodeAt(n, s).Ok? && NodeAt(n, s).value.Leaf?
    ensures exists e :: e in LeafEvents(Trace(n, vd)) && e.l == NodeAt(n, s).value.ldata && e.vd.address.data == vd.address.data + s
    decreases |s|
  {
    if s == [] {
      var e := LeafEvent(n.ldata, vd);
      assert LeafEvents(Trace(n, vd)) == [e];
      assert e.vd.address.data == vd.address.data + s;
    } else {
      var q := s[0];
      var c := n.children.data[Index(q)];
      assert NodeAt(n, s) == NodeAt(c, s[1..]);
      var cvd := vd.Child(q);
      ShapedWellFormed(c, cvd.address.Depth(), cvd.address.maxDepth);
      TraceReachesLeaf(c, cvd, s[1..]);
      var e :| e in LeafEvents(Trace(c, cvd)) && e.l == NodeAt(c, s[1..]).value.ldata && e.vd.address.data == cvd.address.data + s[1..];
      PathStep(vd.address.data, s);
      ChildLeafInTrace(n, vd, q, e);
    }
  }

  /** Stepping to the first quadrant of a path and then following the rest follows the whole path. */
  lemma PathStep(a: seq<Quadrant>, s: seq<Quadrant>)
    requires s != []
    ensures (a + [s[0]]) + s[1..] == a + s
  {
    assert s == [s[0]] + s[1..];
  }

  /** A leaf event of a child's trace is a leaf event of its parent's trace. */
  lemma ChildLeafInTrace<B, L>(n: Node<B, L>, vd: VisitData, q: Quadrant, e: Event<B, L>)
    requires Shaped(n, vd.address.Depth(), vd.address.maxDepth) && vd.address.Valid() && n.Branch?
    requires e in LeafEvents(Trace(n.children.data[Index(q)], vd.Child(q)))
    ensures e in LeafEvents(Trace(n, vd))
  {
    assert AllQuadrants[Index(q)] == q;
    ChildTracesContain(n.children, vd, 0, Index(q));
    var pre: seq<Event<B, L>> := [Pre(n.bdata, vd)];
    var post: seq<Event<B, L>> := [Post(n.bdata, vd)];
    LeafEventsAppend(pre + ChildTraces(n.children, vd, 0), post);
    LeafEventsAppend(pre, ChildTraces(n.children, vd, 0));
  }

  /** The leaf events of each child's trace are among those of the children's traces from an earlier quadrant on. */
  lemma {:induction false} ChildTracesContain<B, L>(c: QuadMap<Node<B, L>>, vd: VisitData, i: nat, j: nat)
    requires i <= j < 4 && c.Valid() && vd.address.Valid() && vd.address.Depth() < vd.address.maxDepth
    requires forall k :: 0 <= k < 4 ==> Shaped(c.data[k], vd.address.Depth() + 1, vd.address.maxDepth)
    ensures forall e :: e in LeafEvents(Trace(c.data[j], vd.Child(AllQuadrants[j]))) ==> e in LeafEvents(ChildTraces(c, vd, i))
    decreases 4 - i
  {
    LeafEventsAppend(Trace(c.data[i], vd.Child(AllQuadrants[i])), ChildTraces(c, vd, i + 1));
    if i < j {
      ChildTracesContain(c, vd, i + 1, j);
    }
  }

  /**
   * A visitor that always descends and does nothing around branches, so that it is
   * described by what it does on each leaf; the first failing leaf stops the visit.
   */
  function LeafVisitor<S, B, L, E>(g: (S, L, VisitData) -> Result<S, E>): Visitor<S, B, L, E> {
    Visitor(
      (s: S, b: B, vd: VisitData) => Ok((s, true)),
      g,
      (s: S, b: B, vd: VisitData) => Ok(s))
  }

  /** Feeding the leaf events of a trace to g, in order, up to the first error. */
  function ApplyLeaves<S, B, L, E>(g: (S, L, VisitData) -> Result<S, E>, s: S, t: seq<Event<B, L>>): Result<S, E>
    decreases |t|
  {
    if t == [] then Ok(s)
    else if t[0].LeafEvent? then
      match g(s, t[0].l, t[0].vd)
      case Err(e) => Err(e)
      case Ok(s1) => ApplyLeaves(g, s1, t[1..])
    else ApplyLeaves(g, s, t[1..])
  }

  /** Feeding a trace in two parts: the second part starts from where the first ended. */
  function ThenApply<S, B, L, E>(g: (S, L, VisitData) -> Result<S, E>, r: Result<S, E>, t: seq<Event<B, L>>): Result<S, E> {
    match r
    case Err(e) => Err(e)
    case Ok(s) => ApplyLeaves(g, s, t)
  }

  lemma {:induction false} ApplyLeavesAppend<S, B, L, E>(g: (S, L, VisitData) -> Result<S, E>, s: S, a: seq<Event<B, L>>, b: seq<Event<B, L>>)
    ensures ApplyLeaves(g, s, a + b) == ThenApply(g, ApplyLeaves(g, s, a), b)
    decreases |a|
  {
    if a == [] {
      assert a + b == b;
    } else {
      assert (a + b)[0] == a[0] && (a + b)[1..] == a[1..] + b;
      if a[0].LeafEvent? {
        match g(s, a[0].l, a[0].vd)
        case Err(e) =>
        case Ok(s1) => ApplyLeavesAppend(g, s1, a[1..], b);
      } else {
        ApplyLeavesAppend(g, s, a[1..], b);
      }
    }
  }

  /** Visiting with a leaf visitor applies it to the leaves in traversal order. */
  lemma {:induction false} LeafVisitorFolds<S, B, L, E>(n: Node<B, L>, g: (S, L, VisitData) -> Result<S, E>, s: S, vd: VisitData)
    requires Shaped(n, vd.address.Depth(), vd.address.maxDepth) && vd.address.Valid()
    ensures Visit(n, LeafVisitor<S, B, L, E>(g), s, vd) == ApplyLeaves(g, s, Trace(n, vd))
    decreases n, 1
  {
    if n.Branch? {
      var c := n.children;
      var pre: seq<Event<B, L>> := [Pre(n.bdata, vd)];
      var post: seq<Event<B, L>> := [Post(n.bdata, vd)];
      LeafVisitorFoldsChildren<S, B, L, E>(c, g, s, vd, 0);
      ApplyLeavesAppend(g, s, pre + ChildTraces(c, vd, 0), post);
      ApplyLeavesAppend(g, s, pre, ChildTraces(c, vd, 0));
      assert ApplyLeaves(g, s, pre) == Ok(s);
      match ApplyLeaves(g, s, ChildTraces(c, vd, 0))
      case Err(e) =>
      case Ok(s1) => assert ApplyLeaves(g, s1, post) == Ok(s1);
    }
  }

  lemma {:induction false} LeafVisitorFoldsChildren<S, B, L, E>(c: QuadMap<Node<B, L>>, g: (S, L, VisitData) -> Result<S, E>, s: S, vd: VisitData, i: nat)
    requires i <= 4 && c.Valid() && vd.address.Valid() && vd.address.Depth() < vd.address.maxDepth
    requires forall j :: 0 <= j < 4 ==> Shaped(c.data[j], vd.address.Depth() + 1, vd.address.maxDepth)
    ensures VisitChildren(c, LeafVisitor<S, B, L, E>(g), s, vd, i) == ApplyLeaves(g, s, ChildTraces(c, vd, i))
    decreases c, 4 - i
  {
    if i < 4 {
      var t := Trace(c.data[i], vd.Child(AllQuadrants[i]));
      LeafVisitorFolds<S, B, L, E>(c.data[i], g, s, vd.Child(AllQuadrants[i]));
      ApplyLeavesAppend(g, s, t, ChildTraces(c, vd, i + 1));
      match ApplyLeaves(g, s, t)
      case Err(e) =>
      case Ok(s1) => LeafVisitorFoldsChildren<S, B, L, E>(c, g, s1, vd, i + 1);
    }
  }

  /** When `pre` declines, no node below the branch is visited: pre is followed directly by post. */
  lemma PreFalsePrunes<S, B, L, E>(n: Node<B, L>, v: Visitor<S, B, L, E>, s: S, vd: VisitData, s1: S)
    requires Shaped(n, vd.address.Depth(), vd.address.maxDepth) && vd.address.Valid()
    requires n.Branch? && v.pre(s, n.bdata, vd) == Ok((s1, false))
    ensures Visit(n, v, s, vd) == v.post(s1, n.bdata, vd)
  {
  }

  /** `RectVisitor`: hides leaves outside the bounds and descends only into branches inside them. */
  function RectVisitor<S, B, L, E>(inner: Visitor<S, B, L, E>, bounds: Rect): Visitor<S, B, L, E> {
    Visitor(
      (s: S, b: B, vd: VisitData) =>
        match inner.pre(s, b, vd)
        case Err(e) => Err(e)
        case Ok((s1, descend)) => Ok((s1, descend && vd.InBounds(bounds))),
      (s: S, l: L, vd: VisitData) => if vd.InBounds(bounds) then inner.leaf(s, l, vd) else Ok(s),
      (s: S, b: B, vd: VisitData) => inner.post(s, b, vd))
  }

  /** True when every leaf event of a trace lies in the bounds. */
  predicate LeavesInBounds<B, L>(t: seq<Event<B, L>>, bounds: Rect) {
    forall i :: 0 <= i < |t| && t[i].LeafEvent? ==> t[i].vd.InBounds(bounds)
  }

  /**
   * `visit_rect` with the recording visitor: only leaves satisfying `in_bounds` reach the
   * inner visitor, starting from any recorded history.
   */
  lemma {:induction false} RectVisitorOnlyInBounds<B, L>(n: Node<B, L>, s: seq<Event<B, L>>, vd: VisitData, bounds: Rect)
    requires Shaped(n, vd.address.Depth(), vd.address.maxDepth) && vd.address.Valid()
    ensures var r := Visit(n, RectVisitor(Recorder(), bounds), s, vd);
      r.Ok? && |s| <= |r.value| && r.value[..|s|] == s && LeavesInBounds(r.value[|s|..], bounds)
    decreases n
  {
    var v := RectVisitor(Recorder(), bounds);
    if n.Branch? {
      var c := n.children;
      var descend := vd.InBounds(bounds);
      var s1 := s + [Pre(n.bdata, vd)];
      assert v.pre(s, n.bdata, vd) == Ok((s1, descend));
      if descend {
        RectChildrenOnlyInBounds(c, s1, vd, bounds, 0);
      }
      var s3 := (if descend then VisitChildren(c, v, s1, vd, 0) else Ok(s1)).value;
      assert s3[..|s1|] == s1;
      assert s1[..|s|] == s;
      var r := s3 + [Post(n.bdata, vd)];
      assert r[|s|..] == [Pre(n.bdata, vd)] + s3[|s1|..] + [Post(n.bdata, vd)];
    }
  }

  lemma {:induction false} RectChildrenOnlyInBounds<B, L>(c: QuadMap<Node<B, L>>, s: seq<Event<B, L>>, vd: VisitData, bounds: Rect, i: nat)
    requires i <= 4 && c.Valid() && vd.address.Valid() && vd.address.Depth() < vd.address.maxDepth
    requires forall j :: 0 <= j < 4 ==> Shaped(c.data[j], vd.address.Depth() + 1, vd.address.maxDepth)
    ensures var r := VisitChildren(c, RectVisitor(Recorder(), bounds), s, vd, i);
      r.Ok? && |s| <= |r.value| && r.value[..|s|] == s && LeavesInBounds(r.value[|s|..], bounds)
    decreases c, 4 - i
  {
    if i < 4 {
      var v := RectVisitor(Recorder(), bounds);
      RectVisitorOnlyInBounds(c.data[i], s, vd.Child(AllQuadrants[i]), bounds);
      var s1 := Visit(c.data[i], v, s, vd.Child(AllQuadrants[i])).value;
      RectChildrenOnlyInBounds(c, s1, vd, bounds, i + 1);
      var r := VisitChildren(c, v, s1, vd, i + 1).value;
      assert r[..|s|] == s1[..|s|];
      assert r[|s|..] == s1[|s|..] + r[|s1|..];
    }
  }

  /** A fold: leaves give a value, branches combine their four children's values. */
  datatype Fold<!S, !B, !L, !T, E> = Fold(
    foldLeaf: (S, L, VisitData) -> Result<(S, T), E>,
    foldBranch: (S, B, QuadMap<T>, VisitData) -> Result<(S, T), E>)

  /** `Node::fold`: a leaf is folded directly; a branch folds its children, then itself. */
  function FoldNode<S, B, L, T, E>(n: Node<B, L>, f: Fold<S, B, L, T, E>, s: S, vd: VisitData): Result<(S, T), E>
    requires Shaped(n, vd.address.Depth(), vd.address.maxDepth) && vd.address.Valid()
    decreases n, 1
  {
    match n
    case Leaf(l, _) => f.foldLeaf(s, l, vd)
    case Branch(_, _, _, _, _) => FoldChildren(n, f, s, vd, 0, [])
  }

  /**
   * The children of a branch from quadrant index i on, in NW, NE, SW, SE order, each
   * starting from the state the previous one left; `acc` holds the earlier children's
   * values. The first error stops the fold; after the last child comes `fold_branch`.
   */
  function FoldChildren<S, B, L, T, E>(n: Node<B, L>, f: Fold<S, B, L, T, E>, s: S, vd: VisitData, i: nat, acc: seq<T>)
    : Result<(S, T), E>
    requires Shaped(n, vd.address.Depth(), vd.address.maxDepth) && vd.address.Valid() && n.Branch?
    requires i <= 4 && |acc| == i
    decreases n, 0, 4 - i
  {
    if i == 4 then f.foldBranch(s, n.bdata, QuadMap(acc), vd)
    else
      match FoldNode(n.children.data[i], f, s, vd.Child(AllQuadrants[i]))
      case Err(e) => Err(e)
      case Ok(r) => FoldChildren(n, f, r.0, vd, i + 1, acc + [r.1])
  }

  /** A child that folds without error hands its state and value on to the next one. */
  lemma FoldChildStep<S, B, L, T, E>(n: Node<B, L>, f: Fold<S, B, L, T, E>, s: S, vd: VisitData, i: nat, acc: seq<T>,
                                     s': S, t: T)
    requires Shaped(n, vd.address.Depth(), vd.address.maxDepth) && vd.address.Valid() && n.Branch?
    requires i < 4 && |acc| == i
    requires FoldNode(n.children.data[i], f, s, vd.Child(AllQuadrants[i])) == Ok((s', t))
    ensures FoldChildren(n, f, s, vd, i, acc) == FoldChildren(n, f, s', vd, i + 1, acc + [t])
  {
  }

  /** When every child folds without error, a branch folds to `fold_branch` of their results. */
  lemma FoldBranch<S, B, L, T, E>(n: Node<B, L>, f: Fold<S, B, L, T, E>, s: S, vd: VisitData,
                                  s0: S, t0: T, s1: S, t1: T, s2: S, t2: T, s3: S, t3: T)
    requires Shaped(n, vd.address.Depth(), vd.address.maxDepth) && vd.address.Valid() && n.Branch?
    requires FoldNode(n.children.data[0], f, s, vd.Child(NW)) == Ok((s0, t0))
    requires FoldNode(n.children.data[1], f, s0, vd.Child(NE)) == Ok((s1, t1))
    requires FoldNode(n.children.data[2], f, s1, vd.Child(SW)) == Ok((s2, t2))
    requires FoldNode(n.children.data[3], f, s2, vd.Child(SE)) == Ok((s3, t3))
    ensures FoldNode(n, f, s, vd) == f.foldBranch(s3, n.bdata, NewQuadMap(t0, t1, t2, t3), vd)
  {
    assert AllQuadrants == [NW, NE, SW, SE];
    FoldChildStep(n, f, s, vd, 0, [], s0, t0);
    assert [] + [t0] == [t0];
    FoldChildStep(n, f, s0, vd, 1, [t0], s1, t1);
    assert [t0] + [t1] == [t0, t1];
    FoldChildStep(n, f, s1, vd, 2, [t0, t1], s2, t2);
    assert [t0, t1] + [t2] == [t0, t1, t2];
    FoldChildStep(n, f, s2, vd, 3, [t0, t1, t2], s3, t3);
    assert [t0, t1, t2] + [t3] == [t0, t1, t2, t3];
  }

  /** A fold that fails in a child fails the whole branch with that error. */
  lemma FoldChildError<S, B, L, T, E>(n: Node<B, L>, f: Fold<S, B, L, T, E>, s: S, vd: VisitData, i: nat, acc: seq<T>)
    requires Shaped(n, vd.address.Depth(), vd.address.maxDepth) && vd.address.Valid() && n.Branch?
    requires i < 4 && |acc| == i
    requires FoldNode(n.children.data[i], f, s, vd.Child(AllQuadrants[i])).Err?
    ensures FoldChildren(n, f, s, vd, i, acc) == FoldNode(n.children.data[i], f, s, vd.Child(AllQuadrants[i]))
  {
  }

  /** The fold that counts leaves: the state counts the leaves seen so far, the value those below a node. */
  function LeafCounter<B, L>(): Fold<nat, B, L, nat, ()> {
    Fold(
      (s: nat, l: L, vd: VisitData) => Ok((s + 1, 1)),
      (s: nat, b: B, m: QuadMap<nat>, vd: VisitData) => Ok((s, QuadSum(m))))
  }

  /** The sum of the four counts of a map. */
  function QuadSum(m: QuadMap<nat>): nat {
    if m.Valid() then m.Get(NW) + m.Get(NE) + m.Get(SW) + m.Get(SE) else 0
  }

  /**
   * Folding combines every child's result: the leaf-counting fold yields the number of
   * leaves, and its state has advanced by as many.
   */
  lemma {:induction false} FoldCountsLeaves<B, L>(n: Node<B, L>, vd: VisitData, s: nat)
    requires Shaped(n, vd.address.Depth(), vd.address.maxDepth) && vd.address.Valid()
    ensures WellFormed(n) && FoldNode(n, LeafCounter(), s, vd) == Ok((s + LeafCount(n), LeafCount(n)))
    decreases n, 1
  {
    ShapedWellFormed(n, vd.address.Depth(), vd.address.maxDepth);
    if n.Branch? {
      CountChildren(n, vd, s, 0, []);
    }
  }

  /** The counting fold over the children from index i on, the earlier children already counted. */
  lemma {:induction false} CountChildren<B, L>(n: Node<B, L>, vd: VisitData, s: nat, i: nat, acc: seq<nat>)
    requires Shaped(n, vd.address.Depth(), vd.address.maxDepth) && vd.address.Valid() && n.Branch?
    requires WellFormed(n) && i <= 4 && |acc| == i
    requires forall j :: 0 <= j < i ==> acc[j] == LeafCount(n.children.data[j])
    ensures FoldChildren(n, LeafCounter(), s, vd, i, acc) == Ok((s + ChildLeafCount(n.children, i), LeafCount(n)))
    decreases n, 0, 4 - i
  {
    var c := n.children;
    if i == 4 {
      LeafCountBranch(n);
      assert QuadSum(QuadMap(acc)) == acc[0] + acc[1] + acc[2] + acc[3];
    } else {
      var child := c.data[i];
      FoldCountsLeaves(child, vd.Child(AllQuadrants[i]), s);
      FoldChildStep(n, LeafCounter(), s, vd, i, acc, s + LeafCount(child), LeafCount(child));
      CountChildren(n, vd, s + LeafCount(child), i + 1, acc + [LeafCount(child)]);
    }
  }

  /** A branch has as many leaves as its four children together. */
  lemma LeafCountBranch<B, L>(n: Node<B, L>)
    requires WellFormed(n) && n.Branch?
    ensures LeafCount(n) == LeafCount(n.children.data[0]) + LeafCount(n.children.data[1])
      + LeafCount(n.children.data[2]) + LeafCount(n.children.data[3])
  {
    var c := n.children;
    assert ChildLeafCount(c, 3) == LeafCount(c.data[3]) + ChildLeafCount(c, 4);
    assert ChildLeafCount(c, 2) == LeafCount(c.data[2]) + ChildLeafCount(c, 3);
    assert ChildLeafCount(c, 1) == LeafCount(c.data[1]) + ChildLeafCount(c, 2);
  }

  /** A visitor that may rewrite the data of the nodes it visits (`MutVisitor`). */
  datatype MutVisitor<!S, !B, !L, E> = MutVisitor(
    pre: (S, B, VisitData) -> Result<(S, B, bool), E>,
    leaf: (S, L, VisitData) -> Result<(S, L), E>,
    post: (S, B, VisitData) -> Result<(S, B), E>)

  /** True when two nodes have the same branches and leaves in the same places. */
  predicate SameShape<B, L>(a: Node<B, L>, b: Node<B, L>)
    decreases a
  {
    match a
    case Leaf(_, d) => b.Leaf? && b.depth == d
    case Branch(_, c, d, cc, cd) =>
      && b.Branch? && b.depth == d && b.childCount == cc && b.childDepth == cd
      && c.Valid() && b.children.Valid()
      && forall i :: 0 <= i < 4 ==> SameShape(c.data[i], b.children.data[i])
  }

  /**
   * `Node::visit_mut`, in the same order as `visit`; the rewritten node is returned with
   * the state, and an error abandons the traversal (the source's partial writes are not
   * modelled).
   */
  function VisitMut<S, B, L, E>(n: Node<B, L>, v: MutVisitor<S, B, L, E>, s: S, vd: VisitData): (r: Result<(S, Node<B, L>), E>)
    requires Shaped(n, vd.address.Depth(), vd.address.maxDepth) && vd.address.Valid()
    ensures r.Ok? ==> SameShape(n, r.value.1) && Shaped(r.value.1, vd.address.Depth(), vd.address.maxDepth)
    decreases n, 1
  {
    match n
    case Leaf(l, d) =>
      (match v.leaf(s, l, vd)
       case Err(e) => Err(e)
       case Ok((s1, l1)) => Ok((s1, Leaf(l1, d))))
    case Branch(b, c, d, cc, cd) =>
      match v.pre(s, b, vd)
      case Err(e) => Err(e)
      case Ok((s1, b1, descend)) =>
        var r2 := if descend then VisitMutChildren(c, v, s1, vd, 0) else Ok((s1, c.data));
        match r2
        case Err(e) => Err(e)
        case Ok((s3, c3)) =>
          match v.post(s3, b1, vd)
          case Err(e) => Err(e)
          case Ok((s4, b4)) =>
            assert forall i :: 0 <= i < 4 ==> SameShape(c.data[i], c3[i]) by {
              if !descend {
                forall i | 0 <= i < 4 ensures SameShape(c.data[i], c3[i]) {
                  SameShapeRefl(c.data[i], d + 1, vd.address.maxDepth);
                }
              }
            }
            Ok((s4, Branch(b4, QuadMap(c3), d, cc, cd)))
  }

  lemma {:induction false} SameShapeRefl<B, L>(n: Node<B, L>, d: nat, md: nat)
    requires Shaped(n, d, md)
    ensures SameShape(n, n)
    decreases n
  {
    if n.Branch? {
      forall i | 0 <= i < 4 ensures SameShape(n.children.data[i], n.children.data[i]) {
        SameShapeRefl(n.children.data[i], d + 1, md);
      }
    }
  }

  /**
   * The loop over QUADRANTS from index i on for `visit_mut`: the rewritten children from i
   * on, the earlier ones kept as they are.
   */
  function VisitMutChildren<S, B, L, E>(c: QuadMap<Node<B, L>>, v: MutVisitor<S, B, L, E>, s: S, vd: VisitData, i: nat): (r: Result<(S, seq<Node<B, L>>), E>)
    requires i <= 4 && c.Valid() && vd.address.Valid() && vd.address.Depth() < vd.address.maxDepth
    requires forall j :: 0 <= j < 4 ==> Shaped(c.data[j], vd.address.Depth() + 1, vd.address.maxDepth)
    ensures r.Ok? ==> |r.value.1| == 4
    ensures r.Ok? ==> forall j :: 0 <= j < 4 ==>
      SameShape(c.data[j], r.value.1[j]) && Shaped(r.value.1[j], vd.address.Depth() + 1, vd.address.maxDepth)
    decreases c, 4 - i
  {
    if i == 4 then
      assert forall j :: 0 <= j < 4 ==> SameShape(c.data[j], c.data[j]) by {
        forall j | 0 <= j < 4 ensures SameShape(c.data[j], c.data[j]) {
          SameShapeRefl(c.data[j], vd.address.Depth() + 1, vd.address.maxDepth);
        }
      }
      Ok((s, c.data))
    else
      match VisitMut(c.data[i], v, s, vd.Child(AllQuadrants[i]))
      case Err(e) => Err(e)
      case Ok((s1, n1)) =>
        match VisitMutChildren(c, v, s1, vd, i + 1)
        case Err(e) => Err(e)
        case Ok((s2, rest)) => Ok((s2, rest[i := n1]))
  }

  /** The quadtree object: its root node, maximum depth and grid width 2^max_depth. */
  class Quadtree<B, L> {
    var root: Node<B, L>
    const maxDepth: nat
    const width: nat

    ghost predicate Valid()
      reads this
    {
      width == Pow2(maxDepth) && Shaped(root, 0, maxDepth) && WellFormed(root)
    }

    /** `Quadtree::new`: one leaf root; the source panics when 2^max_depth overflows a u64. */
    constructor (data: L, maxDepth: nat)
      requires maxDepth < 64
      ensures Valid()
      ensures this.maxDepth == maxDepth && width == Pow2(maxDepth)
      ensures root == Leaf(data, 0)
    {
      this.maxDepth := maxDepth;
      width := Pow2(maxDepth);
      root := Leaf(data, 0);
    }

    /** `Quadtree::get`: walks a node reference down the address, one quadrant per step. */
    method Get(path: seq<Quadrant>) returns (r: Result<Node<B, L>, Error>)
      requires Valid()
      ensures r == NodeAt(root, path)
    {
      var node := root;
      var k := 0;
      while k < |path|
        invariant 0 <= k <= |path|
        invariant WellFormed(node)
        invariant NodeAt(root, path) == NodeAt(node, path[k..])
      {
        assert path[k..][1..] == path[k + 1..];
        var next := GetChild(node, path[k]);
        if next.Err? {
          return Err(next.error);
        }
        node := next.value;
        k := k + 1;
      }
      assert path[k..] == [];
      r := Ok(node);
    }

    /** `get_branch`. */
    method GetBranch(path: seq<Quadrant>) returns (r: Result<B, Error>)
      requires Valid()
      ensures r == BranchAt(root, path)
    {
      var n := Get(path);
      r := match n
        case Err(e) => Err(e)
        case Ok(m) => if m.Branch? then Ok(m.bdata) else Err(ExpectedBranch);
    }

    /** `get_leaf`. */
    method GetLeaf(path: seq<Quadrant>) returns (r: Result<L, Error>)
      requires Valid()
      ensures r == LeafAt(root, path)
    {
      var n := Get(path);
      r := match n
        case Err(e) => Err(e)
        case Ok(m) => if m.Leaf? then Ok(m.ldata) else Err(ExpectedLeaf);
    }

    /**
     * `get_leaf_mut` followed by an assignment through the reference: the leaf at the
     * path gets new data; a missing leaf is reported as `get_leaf` reports it.
     */
    method SetLeaf(path: seq<Quadrant>, data: L) returns (r: Result<(), Error>)
      requires Valid()
      modifies this
      ensures Valid()
      ensures r.Err? <==> LeafAt(old(root), path).Err?
      ensures r.Err? ==> r.error == LeafAt(old(root), path).error && root == old(root)
      ensures r.Ok? ==> root == ReplaceAt(old(root), path, Leaf(data, |path|))
    {
      var n := Get(path);
      if n.Err? {
        return Err(n.error);
      }
      if n.value.Branch? {
        return Err(ExpectedLeaf);
      }
      NodeAtShaped(root, path, 0, maxDepth);
      ReplaceAtShaped(root, path, Leaf(data, |path|), 0, maxDepth);
      root := ReplaceAt(root, path, Leaf(data, |path|));
      r := Ok(());
    }

    /**
     * `split`: turns the leaf at the path into a branch holding `data` whose four children
     * are new leaves holding `childData`. Fails, leaving the tree unchanged, with
     * MaxDepthExceeded when the children would be too deep, ExpectedBranch when the path
     * runs through a leaf, and ExpectedLeaf when a branch is already there.
     */
    method Split(path: seq<Quadrant>, data: B, childData: QuadMap<L>) returns (r: Result<(), Error>)
      requires Valid() && childData.Valid()
      modifies this
      ensures Valid()
      ensures |path| + 1 > maxDepth ==> r == Err(MaxDepthExceeded(maxDepth))
      ensures |path| + 1 <= maxDepth && NodeAt(old(root), path).Err? ==> r == Err(ExpectedBranch)
      ensures |path| + 1 <= maxDepth && NodeAt(old(root), path).Ok? && NodeAt(old(root), path).value.Branch? ==> r == Err(ExpectedLeaf)
      ensures r.Err? ==> root == old(root)
      ensures r.Ok? <==> |path| < maxDepth && NodeAt(old(root), path).Ok? && NodeAt(old(root), path).value.Leaf?
      ensures r.Ok? ==> root == ReplaceAt(old(root), path, SplitBranch(data, childData, |path|))
    {
      var newDepth := |path| + 1;
      if newDepth > maxDepth {
        return Err(MaxDepthExceeded(maxDepth));
      }
      var existing := Get(path);
      if existing.Err? {
        return Err(existing.error);
      }
      match existing.value
      case Branch(_, _, _, _, _) =>
        return Err(ExpectedLeaf);
      case Leaf(_, existingDepth) =>
        NodeAtShaped(root, path, 0, maxDepth);
        var b := SplitBranch(data, childData, existingDepth);
        assert existingDepth == |path|;
        ReplaceAtShaped(root, path, b, 0, maxDepth);
        root := ReplaceAt(root, path, b);
        // The source's loop over the parents updates copies of their counters only.
        return Ok(());
    }

    /**
     * `get_visit_data`: the leaf containing (x, y), found by halving the bounds on each
     * axis from the root down. The source's loop is bounded by max_depth + 1 rounds and
     * panics after them; the tree invariant makes that unreachable.
     */
    method GetVisitData(x: nat, y: nat) returns (r: Result<VisitData, Error>)
      requires Valid()
      ensures x >= width || y >= width ==> r == Err(CoordsOutOfBounds(x, y))
      ensures x < width && y < width ==> r == Ok(Locate(root, RootVisitData(maxDepth), x, y))
    {
      if x >= width || y >= width {
        return Err(CoordsOutOfBounds(x, y));
      }
      var address: seq<Quadrant> := [];
      var node := root;
      var minX, maxX, minY, maxY := 0, width, 0, width;
      ghost var vd := RootVisitData(maxDepth);
      var k := 0;
      while k <= maxDepth
        invariant k == |address| <= maxDepth
        invariant vd.Consistent() && vd.address == Address(address, maxDepth)
        invariant Shaped(node, k, maxDepth)
        invariant minX == vd.x && minY == vd.y && maxX == vd.x + vd.width && maxY == vd.y + vd.width
        invariant Locate(root, RootVisitData(maxDepth), x, y) == Locate(node, vd, x, y)
        decreases maxDepth - k
      {
        match node
        case Leaf(_, _) =>
          return Ok(VisitData(Address(address, maxDepth), |address|, minX, minY, maxX - minX));
        case Branch(_, children, _, _, _) =>
          Midpoints(vd);
          var centerX := (maxX + minX) / 2;
          var centerY := (maxY + minY) / 2;
          var right := x >= centerX;
          var bottom := y >= centerY;
          if right { minX := centerX; } else { maxX := centerX; }
          if bottom { minY := centerY; } else { maxY := centerY; }
          var q := FromSides(right, bottom);
          ChildConsistent(vd, q);
          vd := vd.Child(q);
          address := address + [q];
          node := children.data[Index(q)];
          k := k + 1;
      }
    }
  }

  /** The trees of the source's tests `visit2` and `visit3`. */
  function Visit2Tree(): Node<int, int> {
    Branch(0, NewQuadMap(Leaf(1, 1), Leaf(2, 1), Leaf(3, 1), Leaf(4, 1)), 0, 4, 1)
  }

  /** Test `visit2`: the root branch first, then the four leaves with their corners and widths. */
  lemma Visit2Example()
    ensures Shaped(Visit2Tree(), 0, 1)
    ensures Trace(Visit2Tree(), RootVisitData(1)) == [
      Pre(0, VisitData(Address([], 1), 0, 0, 0, 2)),
      LeafEvent(1, VisitData(Address([NW], 1), 1, 0, 0, 1)),
      LeafEvent(2, VisitData(Address([NE], 1), 1, 1, 0, 1)),
      LeafEvent(3, VisitData(Address([SW], 1), 1, 0, 1, 1)),
      LeafEvent(4, VisitData(Address([SE], 1), 1, 1, 1, 1)),
      Post(0, VisitData(Address([], 1), 0, 0, 0, 2))]
  {
  }

  /** Test `get_address`: splitting the root and then SE, (3, 2) lies in SE then NE. */
  lemma GetAddressExample()
    ensures var t := Branch(0, NewQuadMap(Leaf(1, 1), Leaf(2, 1), Leaf(3, 1),
                       Branch(5, NewQuadMap(Leaf(6, 2), Leaf(7, 2), Leaf(8, 2), Leaf(9, 2)), 1, 4, 1)), 0, 4, 1);
      Shaped(t, 0, 2) && Locate(t, RootVisitData(2), 3, 2).address.data == [SE, NE]
      && Locate(t, RootVisitData(2), 0, 2).address.data == [SW]
  {
  }
}
