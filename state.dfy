/**
 * The engine state's quadtree of tiles (engine/state/state.rs): each leaf holds a
 * tile and the time it was created, and a visitor collects the housing and
 * workplace tiles. The per-node `fields` are not modelled, so branches carry no
 * data.
 */
module States {
  import opened Wrappers
  import opened Quadrants
  import opened Addresses
  import opened Quadtrees

  /** The tiles the engine matches on; housing and workplaces list their agents' ids. */
  datatype Tile =
    | EmptyTile
    | HousingTile(density: nat, agents: seq<nat>)
    | WorkplaceTile(density: nat, agents: seq<nat>)
    | WaterTile

  /** i64::MIN, the creation time of the tiles of the original map. */
  const I64Min: int := -0x8000_0000_0000_0000

  /** `LeafState`. */
  datatype LeafState = LeafState(tile: Tile, creationTime: int)

  /** `LeafState::default`: an empty tile that is part of the original map. */
  const DefaultLeaf := LeafState(EmptyTile, I64Min)

  /** The state's tree: `BranchState` holds only fields, which are not modelled. */
  type Tree = Quadtree<(), LeafState>

  /**
   * The four leaves a split in `insert_tile` creates: the existing tile (with its
   * creation time) in quadrant `current`, the new tile created now in quadrant
   * `added`, and default leaves elsewhere.
   */
  function SplitChildren(existing: LeafState, tile: Tile, currentTime: int, current: Quadrant, added: Quadrant): (m: QuadMap<LeafState>)
    requires current != added
    ensures m.Valid()
    ensures m.Get(current) == existing && m.Get(added) == LeafState(tile, currentTime)
    ensures forall q :: q != current && q != added ==> m.Get(q) == DefaultLeaf
  {
    NewQuadMap(DefaultLeaf, DefaultLeaf, DefaultLeaf, DefaultLeaf).Set(current, existing).Set(added, LeafState(tile, currentTime))
  }

  /**
   * `State::insert_tile` on a state's tree, with the two distinct quadrants the
   * random choice picks as parameters. It propagates a missing leaf as an error;
   * an empty leaf takes the new tile in place; any other leaf is split, or, when
   * it is already at the maximum depth, left alone with no address for the new tile.
   */
  method InsertTile(qtree: Tree, address: Address, tile: Tile, currentTime: int, current: Quadrant, added: Quadrant)
      returns (r: Result<(Option<Address>, Option<Address>), Error>)
    requires qtree.Valid() && address.Valid() && address.maxDepth == qtree.maxDepth
    requires current != added
    modifies qtree
    ensures qtree.Valid()
    ensures var found := LeafAt(old(qtree.root), address.data);
      && (found.Err? ==> r == Err(found.error) && qtree.root == old(qtree.root))
      && (found.Ok? && found.value.tile.EmptyTile? ==>
            && r == Ok((None, Some(address)))
            && qtree.root == ReplaceAt(old(qtree.root), address.data, Leaf(found.value.(tile := tile), address.Depth())))
      && (found.Ok? && !found.value.tile.EmptyTile? && address.Depth() == qtree.maxDepth ==>
            r == Ok((Some(address), None)) && qtree.root == old(qtree.root))
      && (found.Ok? && !found.value.tile.EmptyTile? && address.Depth() < qtree.maxDepth ==>
            && r == Ok((Some(address.Child(current)), Some(address.Child(added))))
            && qtree.root == ReplaceAt(old(qtree.root), address.data,
                 SplitBranch((), SplitChildren(found.value, tile, currentTime, current, added), address.Depth())))
  {
    var found := qtree.GetLeaf(address.data);
    if found.Err? {
      return Err(found.error);
    }
    var existing := found.value;
    if existing.tile.EmptyTile? {
      var written := qtree.SetLeaf(address.data, existing.(tile := tile));
      return Ok((None, Some(address)));
    }
    var children := SplitChildren(existing, tile, currentTime, current, added);
    var split := qtree.Split(address.data, (), children);
    match split
    case Ok(_) =>
      r := Ok((Some(address.Child(current)), Some(address.Child(added))));
    case Err(e) =>
      if e.MaxDepthExceeded? {
        r := Ok((Some(address), None));
      } else {
        r := Err(e);
      }
  }

  /**
   * After a split by `insert_tile`, the two returned addresses hold the existing
   * tile with its creation time and the new tile created now, and the other two
   * children are default leaves.
   */
  lemma InsertTileSplitReads(root: Node<(), LeafState>, address: Address, existing: LeafState, tile: Tile, currentTime: int,
                             current: Quadrant, added: Quadrant, other: Quadrant)
    requires WellFormed(root) && NodeAt(root, address.data).Ok?
    requires address.Depth() < address.maxDepth && current != added
    requires other != current && other != added
    ensures var r := ReplaceAt(root, address.data,
        SplitBranch((), SplitChildren(existing, tile, currentTime, current, added), address.Depth()));
      && LeafAt(r, address.Child(current).data) == Ok(existing)
      && LeafAt(r, address.Child(added).data) == Ok(LeafState(tile, currentTime))
      && LeafAt(r, address.Child(other).data) == Ok(DefaultLeaf)
      && BranchAt(r, address.data) == Ok(())
  {
    var m := SplitChildren(existing, tile, currentTime, current, added);
    SplitReads(root, address.data, (), m, current, current);
    SplitReads(root, address.data, (), m, added, added);
    SplitReads(root, address.data, (), m, other, other);
  }

  /** `CollectTilesVisitor`: the fields it fills while visiting. */
  datatype Collected = Collected(
    total: nat, housing: seq<Address>, workplaces: seq<Address>,
    vacantHousing: seq<Address>, vacantWorkplaces: seq<Address>)

  /** `CollectTilesVisitor::clear` (and `default`): nothing collected. */
  const NothingCollected := Collected(0, [], [], [], [])

  /** `visit_leaf`: counts the leaf and lists housing and workplaces, and the vacant ones among them. */
  function CollectLeaf(c: Collected, leaf: LeafState, vd: VisitData): Collected {
    var c1 := c.(total := c.total + 1);
    match leaf.tile
    case HousingTile(density, agents) =>
      c1.(housing := c.housing + [vd.address],
          vacantHousing := c.vacantHousing + (if |agents| < density then [vd.address] else []))
    case WorkplaceTile(density, agents) =>
      c1.(workplaces := c.workplaces + [vd.address],
          vacantWorkplaces := c.vacantWorkplaces + (if |agents| < density then [vd.address] else []))
    case _ => c1
  }

  /** The visitor: `visit_branch_pre` always descends and nothing happens around branches. */
  function CollectTilesVisitor(): Visitor<Collected, (), LeafState, Error> {
    LeafVisitor(CollectStep)
  }

  /** `visit_leaf` as the visitor calls it: it never fails. */
  function CollectStep(c: Collected, leaf: LeafState, vd: VisitData): Result<Collected, Error> {
    Ok(CollectLeaf(c, leaf, vd))
  }

  /** The addresses of the leaf events of a trace whose tile satisfies p, in order. */
  function AddressesWhere(t: seq<Event<(), LeafState>>, p: LeafState -> bool): seq<Address> {
    if t == [] then []
    else
      (if t[0].LeafEvent? && p(t[0].l) then [t[0].vd.address] else []) + AddressesWhere(t[1..], p)
  }

  predicate IsHousing(l: LeafState) { l.tile.HousingTile? }
  predicate IsWorkplace(l: LeafState) { l.tile.WorkplaceTile? }
  predicate IsVacantHousing(l: LeafState) { l.tile.HousingTile? && |l.tile.agents| < l.tile.density }
  predicate IsVacantWorkplace(l: LeafState) { l.tile.WorkplaceTile? && |l.tile.agents| < l.tile.density }

  /** What collecting over the events of a trace adds to what was collected before. */
  function CollectedFrom(c: Collected, t: seq<Event<(), LeafState>>): Collected {
    Collected(
      c.total + |LeafEvents(t)|,
      c.housing + AddressesWhere(t, IsHousing),
      c.workplaces + AddressesWhere(t, IsWorkplace),
      c.vacantHousing + AddressesWhere(t, IsVacantHousing),
      c.vacantWorkplaces + AddressesWhere(t, IsVacantWorkplace))
  }

  /** Feeding a trace to `visit_leaf` counts its leaves and lists exactly the matching ones, in order. */
  lemma {:induction false} CollectLeavesSpec(c: Collected, t: seq<Event<(), LeafState>>)
    ensures ApplyLeaves(CollectStep, c, t) == Ok(CollectedFrom(c, t))
    decreases |t|
  {
    if t == [] {
      assert CollectedFrom(c, t) == c;
    } else {
      var c1 := if t[0].LeafEvent? then CollectLeaf(c, t[0].l, t[0].vd) else c;
      CollectLeavesSpec(c1, t[1..]);
      CollectOne(c, t);
    }
  }

  /** The address of a leaf, as a list of one, when the leaf satisfies p; nothing otherwise. */
  function Selected(p: LeafState -> bool, leaf: LeafState, vd: VisitData): seq<Address> {
    if p(leaf) then [vd.address] else []
  }

  /** `visit_leaf` appends to each list exactly when the leaf is of that list's kind. */
  lemma CollectLeafSelects(c: Collected, leaf: LeafState, vd: VisitData)
    ensures CollectLeaf(c, leaf, vd) == Collected(c.total + 1,
      c.housing + Selected(IsHousing, leaf, vd), c.workplaces + Selected(IsWorkplace, leaf, vd),
      c.vacantHousing + Selected(IsVacantHousing, leaf, vd),
      c.vacantWorkplaces + Selected(IsVacantWorkplace, leaf, vd))
  {
  }

  /** One step of a list: its first element's contribution, then the rest. */
  lemma AddressesWhereStep(x: seq<Address>, t: seq<Event<(), LeafState>>, p: LeafState -> bool)
    requires t != []
    ensures x + AddressesWhere(t, p) ==
      (x + (if t[0].LeafEvent? then Selected(p, t[0].l, t[0].vd) else [])) + AddressesWhere(t[1..], p)
  {
  }

  /** Collecting the first event of a trace, then the rest. */
  lemma CollectOne(c: Collected, t: seq<Event<(), LeafState>>)
    requires t != []
    ensures CollectedFrom(if t[0].LeafEvent? then CollectLeaf(c, t[0].l, t[0].vd) else c, t[1..]) == CollectedFrom(c, t)
  {
    assert |LeafEvents(t)| == |LeafEvents(t[1..])| + (if t[0].LeafEvent? then 1 else 0);
    AddressesWhereStep(c.housing, t, IsHousing);
    AddressesWhereStep(c.workplaces, t, IsWorkplace);
    AddressesWhereStep(c.vacantHousing, t, IsVacantHousing);
    AddressesWhereStep(c.vacantWorkplaces, t, IsVacantWorkplace);
    if t[0].LeafEvent? {
      CollectLeafSelects(c, t[0].l, t[0].vd);
    } else {
      assert c.housing + [] == c.housing && c.workplaces + [] == c.workplaces;
      assert c.vacantHousing + [] == c.vacantHousing && c.vacantWorkplaces + [] == c.vacantWorkplaces;
    }
  }

  /**
   * Collecting over a whole tree: `total` is the number of leaves, and each list
   * holds, in traversal order, the addresses of the leaves of its kind: every
   * listed address leads to a leaf of that kind, and every leaf of that kind is listed.
   */
  lemma CollectTilesSpec(root: Node<(), LeafState>, maxDepth: nat)
    requires Shaped(root, 0, maxDepth) && WellFormed(root)
    ensures var t := Trace(root, RootVisitData(maxDepth));
      var c := CollectedFrom(NothingCollected, t);
      && Visit(root, CollectTilesVisitor(), NothingCollected, RootVisitData(maxDepth)) == Ok(c)
      && c.total == LeafCount(root)
      && (forall a :: a in c.housing ==> LeafAt(root, a.data).Ok? && IsHousing(LeafAt(root, a.data).value))
      && (forall a :: a in c.workplaces ==> LeafAt(root, a.data).Ok? && IsWorkplace(LeafAt(root, a.data).value))
      && (forall a :: a in c.vacantHousing ==> LeafAt(root, a.data).Ok? && IsVacantHousing(LeafAt(root, a.data).value))
      && (forall a :: a in c.vacantWorkplaces ==> LeafAt(root, a.data).Ok? && IsVacantWorkplace(LeafAt(root, a.data).value))
      && (forall s :: LeafAt(root, s).Ok? && IsHousing(LeafAt(root, s).value) ==> exists a :: a in c.housing && a.data == s)
      && (forall s :: LeafAt(root, s).Ok? && IsWorkplace(LeafAt(root, s).value) ==> exists a :: a in c.workplaces && a.data == s)
      && (forall s :: LeafAt(root, s).Ok? && IsVacantHousing(LeafAt(root, s).value) ==> exists a :: a in c.vacantHousing && a.data == s)
      && (forall s :: LeafAt(root, s).Ok? && IsVacantWorkplace(LeafAt(root, s).value) ==> exists a :: a in c.vacantWorkplaces && a.data == s)
  {
    var vd := RootVisitData(maxDepth);
    var t := Trace(root, vd);
    LeafVisitorFolds<Collected, (), LeafState, Error>(root, CollectStep, NothingCollected, vd);
    CollectLeavesSpec(NothingCollected, t);
    TraceVisitsEachLeaf(root, root, vd);
    LeavesFound(root, t, IsHousing);
    LeavesFound(root, t, IsWorkplace);
    LeavesFound(root, t, IsVacantHousing);
    LeavesFound(root, t, IsVacantWorkplace);
    LeavesListed(root, maxDepth, IsHousing);
    LeavesListed(root, maxDepth, IsWorkplace);
    LeavesListed(root, maxDepth, IsVacantHousing);
    LeavesListed(root, maxDepth, IsVacantWorkplace);
  }

  /** An address listed for a trace of the tree leads to the leaf the trace saw there. */
  lemma LeavesFound(root: Node<(), LeafState>, t: seq<Event<(), LeafState>>, p: LeafState -> bool)
    requires WellFormed(root)
    requires forall e :: e in LeafEvents(t) ==> LeafEventAt(root, e)
    ensures forall a :: a in AddressesWhere(t, p) ==> LeafAt(root, a.data).Ok? && p(LeafAt(root, a.data).value)
  {
    forall a | a in AddressesWhere(t, p)
      ensures LeafAt(root, a.data).Ok? && p(LeafAt(root, a.data).value)
    {
      var e := AddressFrom(t, p, a);
      LeafEventsHold(t, e);
    }
  }

  /** Every leaf of the tree that satisfies p has its address listed for the tree's trace. */
  lemma LeavesListed(root: Node<(), LeafState>, maxDepth: nat, p: LeafState -> bool)
    requires Shaped(root, 0, maxDepth) && WellFormed(root)
    ensures forall s :: LeafAt(root, s).Ok? && p(LeafAt(root, s).value) ==>
      exists a :: a in AddressesWhere(Trace(root, RootVisitData(maxDepth)), p) && a.data == s
  {
    var vd := RootVisitData(maxDepth);
    var t := Trace(root, vd);
    forall s | LeafAt(root, s).Ok? && p(LeafAt(root, s).value)
      ensures exists a :: a in AddressesWhere(t, p) && a.data == s
    {
      TraceReachesLeaf(root, vd, s);
      var e :| e in LeafEvents(t) && e.l == NodeAt(root, s).value.ldata && e.vd.address.data == vd.address.data + s;
      assert vd.address.data + s == s;
      AddressListed(t, p, e);
    }
  }

  /** The address of a leaf event whose leaf satisfies p is listed. */
  lemma {:induction false} AddressListed(t: seq<Event<(), LeafState>>, p: LeafState -> bool, e: Event<(), LeafState>)
    requires e in LeafEvents(t) && p(e.l)
    ensures e.vd.address in AddressesWhere(t, p)
    decreases |t|
  {
    if t[0] != e || !t[0].LeafEvent? {
      assert e in LeafEvents(t[1..]);
      AddressListed(t[1..], p, e);
    }
  }

  /** A listed address comes from a leaf event of the trace whose leaf satisfies p. */
  lemma {:induction false} AddressFrom(t: seq<Event<(), LeafState>>, p: LeafState -> bool, a: Address) returns (e: Event<(), LeafState>)
    requires a in AddressesWhere(t, p)
    ensures e in t && e.LeafEvent? && p(e.l) && e.vd.address == a
    decreases |t|
  {
    if t[0].LeafEvent? && p(t[0].l) && t[0].vd.address == a {
      e := t[0];
    } else {
      assert a in AddressesWhere(t[1..], p);
      e := AddressFrom(t[1..], p, a);
    }
  }

  /** Every leaf event of a trace is among its leaf events. */
  lemma {:induction false} LeafEventsHold(t: seq<Event<(), LeafState>>, e: Event<(), LeafState>)
    requires e in t && e.LeafEvent?
    ensures e in LeafEvents(t)
    decreases |t|
  {
    if t[0] != e {
      assert e in t[1..];
      LeafEventsHold(t[1..], e);
    }
    assert LeafEvents(t) == (if t[0].LeafEvent? then [t[0]] else []) + LeafEvents(t[1..]);
  }

  /** `State`: its tree and the visitor that collects its tiles. */
  class State {
    const qtree: Tree
    var collectTiles: Collected

    ghost predicate Valid()
      reads this, qtree
    {
      qtree.Valid()
    }

    /** `State::new`: a single default leaf. */
    constructor (maxDepth: nat)
      requires maxDepth < 64
      ensures Valid() && fresh(qtree)
      ensures qtree.maxDepth == maxDepth && qtree.root == Leaf(DefaultLeaf, 0)
      ensures collectTiles == NothingCollected
    {
      qtree := new Quadtree(DefaultLeaf, maxDepth);
      collectTiles := NothingCollected;
    }

    /** `update_collect_tiles`: clears the visitor, then visits the whole tree with it. */
    method UpdateCollectTiles()
      requires Valid()
      modifies this
      ensures Valid()
      ensures collectTiles == CollectedFrom(NothingCollected, Trace(qtree.root, RootVisitData(qtree.maxDepth)))
    {
      collectTiles := NothingCollected;
      CollectTilesSpec(qtree.root, qtree.maxDepth);
      var visited := Visit(qtree.root, CollectTilesVisitor(), collectTiles, RootVisitData(qtree.maxDepth));
      collectTiles := visited.value;
    }
  }
}
