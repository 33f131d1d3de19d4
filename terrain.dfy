/**
 * The generator's water layer (generate/terrain.py): each node holds one flag, water or
 * not, and four agreeing children collapse into their parent.
 */
module Terrains {
  import opened Wrappers
  import opened Layers

  /** The layer's name: its class name `Terrain` in lower case. */
  const Name: string := GetName("Terrain")

  /** The dataset value that means water. */
  const WaterValue := 210

  const WaterPriority := 100
  const EmptyPriority := -100

  /** Why the layer could not do its work, where the source raises. */
  datatype TerrainError = NoChildren | NoFlag(child: nat) | CannotFuse

  lemma NameIsTerrain()
    ensures Name == "terrain"
  {
    assert GetName("Terrain")[0] == LowerChar('T');
  }

  /** `initialize`: water with priority 100 for the value 210, dry land with priority -100 otherwise. */
  method Initialize(value: int, nd: NodeData<bool>)
    modifies nd
    ensures nd.layers == old(nd.layers)[Name := if value == WaterValue then ([true], Some(WaterPriority)) else ([false], Some(EmptyPriority))]
    ensures nd.total == if old(nd.total).None? then None else Some(old(nd.total).value - Held(old(nd.layers), Name) + 1)
    ensures old(Counted(nd)) ==> Counted(nd)
  {
    if value == WaterValue {
      SetNodeData(Name, nd, [true], WaterPriority);
    } else {
      SetNodeData(Name, nd, [false], EmptyPriority);
    }
  }

  /** `node_has_water`: the node's first flag; the source raises when the node has none. */
  function NodeHasWater(nd: NodeData<bool>): (r: Option<bool>)
    reads nd
    ensures r.None? <==> GetNodeData(Name, nd) == []
    ensures r.Some? ==> r.value == GetNodeData(Name, nd)[0]
  {
    var flags := GetNodeData(Name, nd);
    if flags == [] then None else Some(flags[0])
  }

  /** The flags of the children, as far as they all have one. */
  function Flags(kids: seq<NodeData<bool>>): (r: Result<seq<bool>, TerrainError>)
    reads set i | 0 <= i < |kids| :: kids[i]
    ensures r.Ok? ==> |r.value| == |kids| && forall i :: 0 <= i < |kids| ==> NodeHasWater(kids[i]) == Some(r.value[i])
    ensures r.Err? ==>
      && r.error.NoFlag? && r.error.child < |kids| && NodeHasWater(kids[r.error.child]).None?
      && forall i :: 0 <= i < r.error.child ==> NodeHasWater(kids[i]).Some?
    decreases |kids|
  {
    if kids == [] then Ok([])
    else
      match NodeHasWater(kids[0])
      case None => Err(NoFlag(0))
      case Some(f) =>
        match Flags(kids[1..])
        case Err(e) => Err(NoFlag(e.child + 1))
        case Ok(fs) => Ok([f] + fs)
  }

  /** The children's payloads are distinct objects, apart from the parent's. */
  predicate Separate(node: NodeData<bool>, kids: seq<NodeData<bool>>) {
    && (forall i :: 0 <= i < |kids| ==> kids[i] != node)
    && (forall i, j :: 0 <= i < j < |kids| ==> kids[i] != kids[j])
  }

  /** Whether every flag equals the first. */
  predicate Agree(flags: seq<bool>)
    requires |flags| > 0
  {
    forall i :: 0 <= i < |flags| ==> flags[i] == flags[0]
  }

  /**
   * `merge`: when every child's flag equals the first child's, each child's entry is
   * cleared and the parent takes that flag with the matching priority; when they
   * disagree nothing changes. The source raises on a node without children and on a
   * child without a flag.
   */
  method Merge(node: NodeData<bool>, kids: seq<NodeData<bool>>) returns (r: Result<bool, TerrainError>)
    requires Separate(node, kids)
    modifies {node} + set i | 0 <= i < |kids| :: kids[i]
    ensures |kids| == 0 <==> r == Err(NoChildren)
    ensures r.Err? && |kids| > 0 ==> old(Flags(kids)) == Err(r.error)
    ensures r.Ok? ==> old(Flags(kids)).Ok? && r.value == old(Agree(Flags(kids).value))
    ensures r.Ok? && r.value ==>
      var first := old(Flags(kids).value[0]);
      && node.layers == old(node.layers)[Name := ([first], Some(if first then WaterPriority else EmptyPriority))]
      && forall i :: 0 <= i < |kids| ==> kids[i].layers == old(kids[i].layers)[Name := ([], None)]
    ensures r.Ok? && r.value ==>
      && (old(Counted(node)) ==> Counted(node))
      && forall i :: 0 <= i < |kids| ==> old(Counted(kids[i])) ==> Counted(kids[i])
    ensures !(r.Ok? && r.value) ==> unchanged(node) && forall i :: 0 <= i < |kids| ==> unchanged(kids[i])
  {
    if |kids| == 0 {
      return Err(NoChildren);
    }
    var flags := Flags(kids);
    if flags.Err? {
      return Err(flags.error);
    }
    var first := flags.value[0];
    var agree := true;
    var i := 0;
    while i < |kids|
      invariant 0 <= i <= |kids|
      invariant agree <==> forall j :: 0 <= j < i ==> flags.value[j] == first
    {
      if NodeHasWater(kids[i]) != Some(first) {
        agree := false;
      }
      i := i + 1;
    }
    if !agree {
      return Ok(false);
    }
    ClearChildren(kids);
    forall i | 0 <= i < |kids|
      ensures old(Counted(kids[i])) ==> Counted(kids[i])
    {
      CountUpdate(old(kids[i].layers), Name, ([], None));
    }
    SetNodeData(Name, node, [first], if first then WaterPriority else EmptyPriority);
    r := Ok(true);
  }

  /** `merge`'s loop clearing every child's entry. */
  method ClearChildren(kids: seq<NodeData<bool>>)
    requires forall i, j :: 0 <= i < j < |kids| ==> kids[i] != kids[j]
    modifies set i | 0 <= i < |kids| :: kids[i]
    ensures forall i :: 0 <= i < |kids| ==> kids[i].layers == old(kids[i].layers)[Name := ([], None)]
    ensures forall i :: 0 <= i < |kids| ==>
      kids[i].total == if old(kids[i].total).None? then None else Some(old(kids[i].total).value - Held(old(kids[i].layers), Name))
  {
    var i := 0;
    while i < |kids|
      invariant 0 <= i <= |kids|
      invariant forall j :: 0 <= j < |kids| ==>
        kids[j].layers == if j < i then old(kids[j].layers)[Name := ([], None)] else old(kids[j].layers)
      invariant forall j :: 0 <= j < |kids| ==>
        kids[j].total == if j >= i || old(kids[j].total).None? then old(kids[j].total)
                         else Some(old(kids[j].total).value - Held(old(kids[j].layers), Name))
    {
      ClearNodeData(Name, kids[i]);
      i := i + 1;
    }
  }

  /** `finalize`: water becomes a water tile, dry land an empty tile, neither with fields. */
  function Finalize(water: bool): (r: Tile)
    ensures r.fields == map[]
    ensures r.kind == (if water then "WaterTile" else "EmptyTile")
  {
    if water then Tile("WaterTile", map[]) else Tile("EmptyTile", map[])
  }

  /** `fuse`: water never needs fusing; the source asserts this cannot happen. */
  function Fuse(entities: seq<bool>): (r: Result<bool, TerrainError>)
    ensures r == Err(CannotFuse)
  {
    Err(CannotFuse)
  }
}
