/**
 * The map generator's quadtree (generate/quadtree.py): a tree of mutable node objects,
 * each with its own maximum depth, an optional payload and a list of children. `fill`
 * completes the tree to a depth, and `convolve` walks it, handing every node and its
 * position to a callback. The callback is the caller's code, so the walk is modelled by
 * the list of positions it is handed, in the order it is handed them.
 */
module GenQuadtrees {
  import opened Wrappers
  import opened IntMath

  /** The value a node object stands for: its maximum depth, payload and children. */
  datatype Tree<D> = Tree(maxDepth: int, data: Option<D>, children: seq<Tree<D>>)

  /** `ConvolveData`: where the walk is. Coordinates are reals because `2 ** e` is a float for e < 0. */
  datatype ConvolveData = ConvolveData(x: real, y: real, depth: int, address: seq<nat>)

  /** `CHILD_QUADRANTS`: the (x, y) offsets of the four children, in child order. */
  const ChildQuadrants: seq<(nat, nat)> := [(0, 0), (0, 1), (1, 0), (1, 1)]

  /** Python's `2 ** e` for an integer exponent, which may be negative. */
  function Pow2Real(e: int): (r: real)
    ensures r > 0.0
  {
    if e >= 0 then Pow2(e) as real else 1.0 / (Pow2(-e) as real)
  }

  function Power4(n: nat): nat {
    if n == 0 then 1 else 4 * Power4(n - 1)
  }

  /** n copies of a value. */
  function Copies<T>(c: T, n: nat): (r: seq<T>)
    ensures |r| == n && forall i :: 0 <= i < n ==> r[i] == c
  {
    if n == 0 then [] else Copies(c, n - 1) + [c]
  }

  /** The four children `fill` creates: no payload yet, one level shallower. */
  function BlankChildren<D>(maxDepth: int): seq<Tree<D>> {
    var c := Tree(maxDepth - 1, None, []);
    [c, c, c, c]
  }

  /** The four children `add_children` appends, each holding a payload from `data_f`. */
  function NewChildren<D>(maxDepth: int, made: D): seq<Tree<D>> {
    var c := Tree(maxDepth - 1, Some(made), []);
    [c, c, c, c]
  }

  /**
   * `fill(data_f, depth)` on a node's value, with `made` the payload `data_f` returns:
   * a missing payload is made, and while depth is positive a childless node gets four
   * blank children and every child is filled one level less deep.
   */
  function Filled<D>(t: Tree<D>, made: D, depth: int): Tree<D>
    decreases if depth > 0 then depth else 0
  {
    var d := if t.data.None? then Some(made) else t.data;
    if depth <= 0 then t.(data := d)
    else
      var kids := if |t.children| == 0 then BlankChildren(t.maxDepth) else t.children;
      Tree(t.maxDepth, d, seq(|kids|, i requires 0 <= i < |kids| => Filled(kids[i], made, depth - 1)))
  }

  /** The node reached by following child indices from the root, if there is one. */
  function At<D>(t: Tree<D>, path: seq<nat>): Option<Tree<D>>
    decreases |path|
  {
    if path == [] then Some(t)
    else if path[0] < |t.children| then At(t.children[path[0]], path[1..])
    else None
  }

  /** The number of nodes. */
  function Size<D>(t: Tree<D>): nat
    decreases t, |t.children| + 1
  {
    1 + SizeUpTo(t, |t.children|)
  }

  /** The number of nodes under the first k children. */
  function SizeUpTo<D>(t: Tree<D>, k: nat): nat
    requires k <= |t.children|
    decreases t, k
  {
    if k == 0 then 0 else SizeUpTo(t, k - 1) + Size(t.children[k - 1])
  }

  /** A perfect tree of the given depth: four children per node down to that depth, none below. */
  predicate Full<D>(t: Tree<D>, depth: nat)
    decreases depth
  {
    if depth == 0 then t.children == []
    else |t.children| == 4 && forall k :: 0 <= k < 4 ==> Full(t.children[k], depth - 1)
  }

  /** What `convolve` asserts of every node it reaches: zero or four children. */
  predicate FourWay<D>(t: Tree<D>)
    decreases t
  {
    && (|t.children| == 0 || |t.children| == 4)
    && forall k :: 0 <= k < |t.children| ==> FourWay(t.children[k])
  }

  /** The position of child k of a node at position `at` whose maximum depth is `maxDepth`. */
  function ChildPosition(at: ConvolveData, maxDepth: int, k: nat): ConvolveData
    requires k < 4
  {
    var off := Pow2Real(maxDepth - 1);
    ConvolveData(at.x + ChildQuadrants[k].0 as real * off, at.y + ChildQuadrants[k].1 as real * off,
                 at.depth + 1, at.address + [k])
  }

  /**
   * `_convolve_internal`: the positions handed to the callback, node first when `post`
   * is false and last when it is true; None when the assertion on the number of children fails.
   */
  function Visits<D>(t: Tree<D>, post: bool, at: ConvolveData): Option<seq<ConvolveData>>
    decreases t, 5
  {
    if |t.children| != 0 && |t.children| != 4 then None
    else
      match VisitsUpTo(t, post, at, |t.children|)
      case None => None
      case Some(below) => if post then Some(below + [at]) else Some([at] + below)
  }

  /** The positions handed out under the first k children. */
  function VisitsUpTo<D>(t: Tree<D>, post: bool, at: ConvolveData, k: nat): Option<seq<ConvolveData>>
    requires k <= |t.children| <= 4
    decreases t, k
  {
    if k == 0 then Some([])
    else
      match VisitsUpTo(t, post, at, k - 1)
      case None => None
      case Some(a) =>
        match Visits(t.children[k - 1], post, ChildPosition(at, t.maxDepth, k - 1))
        case None => None
        case Some(b) => Some(a + b)
  }

  /** `convolve` starts at the origin, at depth 0, with the empty address. */
  const Origin := ConvolveData(0.0, 0.0, 0, [])

  /** A generator quadtree node: `Quadtree` with its fields. */
  class Quadtree<D> {
    var maxDepth: int
    var data: Option<D>
    var children: seq<Quadtree<D>>
    ghost var Repr: set<object>
    ghost var Model: Tree<D>

    /** Each child owns its own objects, apart from this node and from its siblings. */
    ghost predicate Valid()
      reads this, Repr
      decreases Repr
    {
      && this in Repr
      && Model.maxDepth == maxDepth && Model.data == data && |Model.children| == |children|
      && (forall i :: 0 <= i < |children| ==>
            && children[i] in Repr && children[i].Repr <= Repr && this !in children[i].Repr
            && children[i].Valid() && children[i].Model == Model.children[i])
      && (forall i, j :: 0 <= i < j < |children| ==> children[i].Repr !! children[j].Repr)
    }

    /** `Quadtree(max_depth, data)`: a node without children. */
    constructor (maxDepth: int, data: Option<D>)
      ensures Valid() && fresh(Repr)
      ensures Model == Tree(maxDepth, data, [])
    {
      this.maxDepth := maxDepth;
      this.data := data;
      children := [];
      Repr := {this};
      Model := Tree(maxDepth, data, []);
    }

    /** Appends four new children with payload `payload` and maximum depth one less. */
    method AppendChildren(payload: Option<D>)
      requires Valid()
      modifies this
      ensures Valid() && fresh(Repr - old(Repr))
      ensures Model == old(Model).(children := old(Model.children) + Copies(Tree(maxDepth - 1, payload, []), 4))
    {
      var c0 := Tree(maxDepth - 1, payload, []);
      ghost var start := Model;
      var k := 0;
      while k < 4
        invariant 0 <= k <= 4
        invariant Valid() && fresh(Repr - old(Repr)) && maxDepth == old(maxDepth)
        invariant Model == start.(children := start.children + Copies(c0, k))
      {
        var c := new Quadtree(maxDepth - 1, payload);
        children := children + [c];
        Repr := Repr + c.Repr;
        Model := Model.(children := Model.children + [c.Model]);
        k := k + 1;
      }
    }

    /** `add_children(data_f)`: four more children, each with a payload from `data_f`. */
    method AddChildren(made: D)
      requires Valid()
      modifies this
      ensures Valid() && fresh(Repr - old(Repr))
      ensures Model == old(Model).(children := old(Model.children) + NewChildren(maxDepth, made))
    {
      AppendChildren(Some(made));
      assert Copies(Tree(maxDepth - 1, Some(made), []), 4) == NewChildren(maxDepth, made);
    }

    /** `fill(data_f, depth)` with an explicit depth. */
    method FillTo(made: D, depth: int)
      requires Valid()
      modifies Repr
      ensures Valid() && fresh(Repr - old(Repr))
      ensures Model == Filled(old(Model), made, depth)
      decreases if depth > 0 then depth else 0, 2
    {
      ghost var start := Model;
      if data.None? {
        data := Some(made);
        Model := Model.(data := data);
      }
      if depth > 0 {
        if |children| == 0 {
          AppendChildren(None);
          assert Copies(Tree.Tree(maxDepth - 1, None, []), 4) == BlankChildren<D>(maxDepth);
        }
        FillChildren(made, depth - 1);
      }
    }

    /** `fill`'s loop: every child filled one level less deep. */
    method FillChildren(made: D, depth: int)
      requires Valid() && depth >= 0
      modifies Repr
      ensures Valid() && fresh(Repr - old(Repr))
      ensures Model.maxDepth == old(Model.maxDepth) && Model.data == old(Model.data)
      ensures Model.children == seq(|old(Model.children)|, j requires 0 <= j < |old(Model.children)| =>
                                      Filled(old(Model.children)[j], made, depth))
      decreases depth + 1, 1
    {
      ghost var before := Model;
      ghost var kids := children;
      var i := 0;
      while i < |children|
        invariant 0 <= i <= |children| && children == kids && |before.children| == |kids|
        invariant Valid() && fresh(Repr - old(Repr))
        invariant Model.maxDepth == before.maxDepth && Model.data == before.data
        invariant forall j :: 0 <= j < |kids| ==>
          Model.children[j] == if j < i then Filled(before.children[j], made, depth) else before.children[j]
      {
        FillChild(i, made, depth);
        i := i + 1;
      }
    }

    /** One turn of `fill`'s loop over the children. */
    method FillChild(i: nat, made: D, depth: int)
      requires Valid() && i < |children| && depth >= 0
      modifies Repr
      ensures Valid() && fresh(Repr - old(Repr))
      ensures children == old(children) && Model == old(Model).(children := old(Model.children)[i := Filled(old(Model.children[i]), made, depth)])
      decreases depth + 1, 0
    {
      var c := children[i];
      c.FillTo(made, depth);
      Repr := Repr + c.Repr;
      Model := Model.(children := Model.children[i := c.Model]);
    }

    /** `fill(data_f, depth=None)`: a missing depth means the node's maximum depth. */
    method Fill(made: D, depth: Option<int>)
      requires Valid()
      modifies Repr
      ensures Valid() && fresh(Repr - old(Repr))
      ensures Model == Filled(old(Model), made, if depth.None? then old(maxDepth) else depth.value)
    {
      var d := if depth.None? then maxDepth else depth.value;
      FillTo(made, d);
    }

    /** `_convolve_internal`: the positions the callback is handed, from this node down. */
    method ConvolveInternal(post: bool, at: ConvolveData) returns (r: Option<seq<ConvolveData>>)
      requires Valid()
      ensures r == Visits(Model, post, at)
      decreases Repr
    {
      if |children| != 0 && |children| != 4 {
        return None;
      }
      var below: seq<ConvolveData> := [];
      var k := 0;
      while k < |children|
        invariant 0 <= k <= |children|
        invariant VisitsUpTo(Model, post, at, k) == Some(below)
      {
        var sub := children[k].ConvolveInternal(post, ChildPosition(at, maxDepth, k));
        if sub.None? {
          VisitsUpToFails(Model, post, at, k + 1);
          return None;
        }
        below := below + sub.value;
        k := k + 1;
      }
      r := if post then Some(below + [at]) else Some([at] + below);
    }

    /** `convolve(f, post)`. */
    method Convolve(post: bool) returns (r: Option<seq<ConvolveData>>)
      requires Valid()
      ensures r == Visits(Model, post, Origin)
    {
      r := ConvolveInternal(post, Origin);
    }
  }

  /** Once a child's walk fails, the walk of every longer prefix of children fails. */
  lemma {:induction false} VisitsUpToFails<D>(t: Tree<D>, post: bool, at: ConvolveData, k: nat)
    requires 1 <= k <= |t.children| <= 4
    requires VisitsUpTo(t, post, at, k - 1).None? ||
             Visits(t.children[k - 1], post, ChildPosition(at, t.maxDepth, k - 1)).None?
    ensures Visits(t, post, at).None?
    decreases |t.children| - k
  {
    if k < |t.children| {
      VisitsUpToFails(t, post, at, k + 1);
    }
  }

  /**
   * What `fill` does to a node that was already there: its payload is kept if it had one
   * and made if it lies within the fill depth (the root always does); a childless node
   * within the depth gains four children; nodes below the depth are untouched.
   */
  lemma {:induction false} FilledAt<D>(t: Tree<D>, made: D, depth: int, path: seq<nat>)
    requires At(t, path).Some?
    ensures At(Filled(t, made, depth), path).Some?
    ensures var n := At(t, path).value;
      var n1 := At(Filled(t, made, depth), path).value;
      && n1.maxDepth == n.maxDepth
      && n1.data == (if n.data.None? && (path == [] || |path| <= depth) then Some(made) else n.data)
      && (|path| < depth ==> |n1.children| == (if |n.children| == 0 then 4 else |n.children|))
      && (path != [] && |path| > depth ==> n1 == n)
    decreases |path|
  {
    if path != [] {
      var k := path[0];
      assert At(t, path) == At(t.children[k], path[1..]);
      if depth > 0 {
        FilledAt(t.children[k], made, depth - 1, path[1..]);
      }
    }
  }

  /** `fill` twice with the same payload and depth is `fill` once. */
  lemma {:induction false} FilledIdempotent<D>(t: Tree<D>, made: D, depth: int)
    ensures Filled(Filled(t, made, depth), made, depth) == Filled(t, made, depth)
    decreases if depth > 0 then depth else 0
  {
    if depth > 0 {
      var t1 := Filled(t, made, depth);
      var kids := if |t.children| == 0 then BlankChildren(t.maxDepth) else t.children;
      assert |t1.children| == |kids| > 0;
      forall i | 0 <= i < |kids|
        ensures Filled(t1, made, depth).children[i] == t1.children[i]
      {
        FilledIdempotent(kids[i], made, depth - 1);
      }
    }
  }

  /** `fill(d)` on a childless node builds the perfect tree of depth d with every payload present. */
  lemma {:induction false} FilledBlankFull<D>(maxDepth: int, data: Option<D>, made: D, depth: nat)
    ensures Full(Filled(Tree(maxDepth, data, []), made, depth), depth)
    ensures AllMade(Filled(Tree(maxDepth, data, []), made, depth))
    decreases depth
  {
    var t := Filled(Tree(maxDepth, data, []), made, depth);
    if depth > 0 {
      forall k | 0 <= k < 4
        ensures Full(t.children[k], depth - 1) && AllMade(t.children[k])
      {
        FilledBlankFull(maxDepth - 1, None, made, depth - 1);
      }
    }
  }

  /** Every node has a payload. */
  predicate AllMade<D>(t: Tree<D>)
    decreases t
  {
    t.data.Some? && forall k :: 0 <= k < |t.children| ==> AllMade(t.children[k])
  }

  /** A perfect tree of depth d has (4^(d+1) - 1) / 3 nodes. */
  lemma {:induction false} FullSize<D>(t: Tree<D>, depth: nat)
    requires Full(t, depth)
    ensures 3 * Size(t) + 1 == Power4(depth + 1)
    decreases depth
  {
    if depth > 0 {
      forall k | 0 <= k < 4
        ensures 3 * Size(t.children[k]) + 1 == Power4(depth)
      {
        FullSize(t.children[k], depth - 1);
      }
      assert SizeUpTo(t, 1) == Size(t.children[0]);
      assert SizeUpTo(t, 2) == SizeUpTo(t, 1) + Size(t.children[1]);
      assert SizeUpTo(t, 3) == SizeUpTo(t, 2) + Size(t.children[2]);
      assert SizeUpTo(t, 4) == SizeUpTo(t, 3) + Size(t.children[3]);
    }
  }

  /** A perfect tree passes `convolve`'s assertion everywhere. */
  lemma {:induction false} FullFourWay<D>(t: Tree<D>, depth: nat)
    requires Full(t, depth)
    ensures FourWay(t)
    decreases depth
  {
    if depth > 0 {
      forall k | 0 <= k < 4
        ensures FourWay(t.children[k])
      {
        FullFourWay(t.children[k], depth - 1);
      }
    }
  }

  /** The walk completes exactly when every node has zero or four children. */
  lemma {:induction false} VisitsDefined<D>(t: Tree<D>, post: bool, at: ConvolveData)
    ensures Visits(t, post, at).Some? <==> FourWay(t)
    decreases t, 5
  {
    if |t.children| == 0 || |t.children| == 4 {
      VisitsUpToDefined(t, post, at, |t.children|);
    }
  }

  lemma {:induction false} VisitsUpToDefined<D>(t: Tree<D>, post: bool, at: ConvolveData, k: nat)
    requires k <= |t.children| <= 4
    ensures VisitsUpTo(t, post, at, k).Some? <==> forall j :: 0 <= j < k ==> FourWay(t.children[j])
    decreases t, k
  {
    if k > 0 {
      VisitsUpToDefined(t, post, at, k - 1);
      VisitsDefined(t.children[k - 1], post, ChildPosition(at, t.maxDepth, k - 1));
    }
  }

  /**
   * A completed walk hands out one position per node, the node's own first when `post`
   * is false and last when it is true.
   */
  lemma {:induction false} VisitsSize<D>(t: Tree<D>, post: bool, at: ConvolveData)
    requires Visits(t, post, at).Some?
    ensures |Visits(t, post, at).value| == Size(t)
    ensures !post ==> Visits(t, post, at).value[0] == at
    ensures post ==> Visits(t, post, at).value[Size(t) - 1] == at
    decreases t, 5
  {
    VisitsUpToSize(t, post, at, |t.children|);
  }

  lemma {:induction false} VisitsUpToSize<D>(t: Tree<D>, post: bool, at: ConvolveData, k: nat)
    requires k <= |t.children| <= 4 && VisitsUpTo(t, post, at, k).Some?
    ensures |VisitsUpTo(t, post, at, k).value| == SizeUpTo(t, k)
    decreases t, k
  {
    if k > 0 {
      VisitsUpToSize(t, post, at, k - 1);
      VisitsSize(t.children[k - 1], post, ChildPosition(at, t.maxDepth, k - 1));
    }
  }

  /** The pre-order and the post-order walk hand out the same positions, only in another order. */
  lemma {:induction false} VisitsSameMultiset<D>(t: Tree<D>, at: ConvolveData)
    ensures Visits(t, false, at).Some? == Visits(t, true, at).Some?
    ensures Visits(t, false, at).Some? ==> multiset(Visits(t, false, at).value) == multiset(Visits(t, true, at).value)
    decreases t, 5
  {
    if |t.children| == 0 || |t.children| == 4 {
      VisitsUpToSameMultiset(t, at, |t.children|);
    }
  }

  lemma {:induction false} VisitsUpToSameMultiset<D>(t: Tree<D>, at: ConvolveData, k: nat)
    requires k <= |t.children| <= 4
    ensures VisitsUpTo(t, false, at, k).Some? == VisitsUpTo(t, true, at, k).Some?
    ensures VisitsUpTo(t, false, at, k).Some? ==>
      multiset(VisitsUpTo(t, false, at, k).value) == multiset(VisitsUpTo(t, true, at, k).value)
    decreases t, k
  {
    if k > 0 {
      VisitsUpToSameMultiset(t, at, k - 1);
      VisitsSameMultiset(t.children[k - 1], ChildPosition(at, t.maxDepth, k - 1));
    }
  }

  /** `a` is a prefix of `b`. */
  predicate Extends(b: seq<nat>, a: seq<nat>) {
    |a| <= |b| && b[..|a|] == a
  }

  /**
   * Every position a walk hands out lies below the start: its address extends the start's
   * address, with one more step per level of depth.
   */
  lemma {:induction false} VisitsBelow<D>(t: Tree<D>, post: bool, at: ConvolveData)
    requires Visits(t, post, at).Some?
    ensures forall v :: v in Visits(t, post, at).value ==>
      Extends(v.address, at.address) && v.depth - at.depth == |v.address| - |at.address|
    decreases t, 5
  {
    VisitsUpToBelow(t, post, at, |t.children|);
  }

  lemma {:induction false} VisitsUpToBelow<D>(t: Tree<D>, post: bool, at: ConvolveData, k: nat)
    requires k <= |t.children| <= 4 && VisitsUpTo(t, post, at, k).Some?
    ensures forall v :: v in VisitsUpTo(t, post, at, k).value ==>
      && Extends(v.address, at.address) && |v.address| > |at.address| && v.address[|at.address|] < k
      && v.depth - at.depth == |v.address| - |at.address|
    decreases t, k
  {
    if k > 0 {
      VisitsUpToBelow(t, post, at, k - 1);
      var cp := ChildPosition(at, t.maxDepth, k - 1);
      VisitsBelow(t.children[k - 1], post, cp);
      forall v | v in Visits(t.children[k - 1], post, cp).value
        ensures Extends(v.address, at.address) && v.address[|at.address|] == k - 1
      {
        assert v.address[..|cp.address|] == cp.address;
        assert v.address[..|at.address|] == cp.address[..|at.address|];
      }
    }
  }

  /** A walk hands out every address at most once, so the callback meets each node once. */
  lemma {:induction false} VisitsDistinct<D>(t: Tree<D>, post: bool, at: ConvolveData)
    requires Visits(t, post, at).Some?
    ensures var vs := Visits(t, post, at).value;
      forall i, j :: 0 <= i < j < |vs| ==> vs[i].address != vs[j].address
    decreases t, 5
  {
    VisitsUpToDistinct(t, post, at, |t.children|);
    VisitsUpToBelow(t, post, at, |t.children|);
  }

  lemma {:induction false} VisitsUpToDistinct<D>(t: Tree<D>, post: bool, at: ConvolveData, k: nat)
    requires k <= |t.children| <= 4 && VisitsUpTo(t, post, at, k).Some?
    ensures var vs := VisitsUpTo(t, post, at, k).value;
      forall i, j :: 0 <= i < j < |vs| ==> vs[i].address != vs[j].address
    decreases t, k
  {
    if k > 0 {
      VisitsUpToDistinct(t, post, at, k - 1);
      VisitsUpToBelow(t, post, at, k - 1);
      var cp := ChildPosition(at, t.maxDepth, k - 1);
      VisitsDistinct(t.children[k - 1], post, cp);
      VisitsBelow(t.children[k - 1], post, cp);
      var a := VisitsUpTo(t, post, at, k - 1).value;
      var b := Visits(t.children[k - 1], post, cp).value;
      forall v | v in b
        ensures |v.address| > |at.address| && v.address[|at.address|] == k - 1
      {
        assert v.address[..|cp.address|] == cp.address;
      }
      var vs := a + b;
      forall i, j | 0 <= i < j < |vs|
        ensures vs[i].address != vs[j].address
      {
        if i < |a| && j >= |a| {
          assert vs[i] in a && vs[j] in b;
        }
      }
    }
  }
}
