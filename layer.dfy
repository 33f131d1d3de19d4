/**
 * The generator's layers (generate/layer.py). A node's payload is a pair: a dictionary
 * from layer name to that layer's entities and priority, and an optional statistics
 * object whose `total_entities` counts the entities of all layers. Both are changed in
 * place; the pair itself never is, so whether a payload has statistics never changes.
 * The payload is one object here, with the counter as one of its fields.
 */
module Layers {
  import opened Wrappers

  /** A layer's entry in a node: its entities and, unless cleared, its priority. */
  type Entry<E> = (seq<E>, Option<int>)

  /**
   * A node's payload `(entries, extra)`: the entries dictionary, and the
   * `total_entities` of the statistics object when there is one (None when `extra` is None).
   */
  class NodeData<E> {
    var layers: map<string, Entry<E>>
    var total: Option<int>

    constructor (layers: map<string, Entry<E>>, total: Option<int>)
      ensures this.layers == layers && this.total == total
    {
      this.layers := layers;
      this.total := total;
    }
  }

  /** `Tile`: the kind of tile a leaf becomes and its fields. */
  datatype Tile = Tile(kind: string, fields: map<string, int>)

  /** ASCII lower case of one character. */
  function LowerChar(c: char): char {
    if 'A' <= c <= 'Z' then (c as int - 'A' as int + 'a' as int) as char else c
  }

  /** `get_name`: the layer's class name in lower case. Class names are ASCII identifiers. */
  function GetName(className: string): (r: string)
    ensures |r| == |className|
    ensures forall i :: 0 <= i < |r| ==> r[i] == LowerChar(className[i])
    ensures forall i :: 0 <= i < |r| ==> !('A' <= r[i] <= 'Z')
  {
    seq(|className|, i requires 0 <= i < |className| => LowerChar(className[i]))
  }

  /** Lower-casing a name that is already lower case changes nothing. */
  lemma GetNameIdempotent(className: string)
    ensures GetName(GetName(className)) == GetName(className)
  {
    var once := GetName(className);
    assert forall i :: 0 <= i < |once| ==> LowerChar(once[i]) == once[i];
  }

  /** `get_node_data`: the layer's entities in the node, or none when it has no entry. */
  function GetNodeData<E>(name: string, nd: NodeData<E>): (r: seq<E>)
    reads nd
    ensures name in nd.layers ==> r == nd.layers[name].0
    ensures name !in nd.layers ==> r == []
  {
    if name in nd.layers then nd.layers[name].0 else []
  }

  /** The number of entities a layer holds in the node. */
  function Held<E>(m: map<string, Entry<E>>, name: string): nat {
    if name in m then |m[name].0| else 0
  }

  /** The number of entities over the layers named in `keys`. */
  ghost function SumOver<E>(m: map<string, Entry<E>>, keys: set<string>): int
    decreases keys
  {
    if keys == {} then 0 else var k :| k in keys; Held(m, k) + SumOver(m, keys - {k})
  }

  /** The number of entities over all layers of the node. */
  ghost function Count<E>(m: map<string, Entry<E>>): int {
    SumOver(m, m.Keys)
  }

  /** The statistics object, when there is one, counts the entities of this node's layers. */
  ghost predicate Counted<E>(nd: NodeData<E>)
    reads nd
  {
    nd.total.Some? ==> nd.total.value == Count(nd.layers)
  }

  lemma {:induction false} SumOverRemove<E>(m: map<string, Entry<E>>, keys: set<string>, x: string)
    requires x in keys
    ensures SumOver(m, keys) == Held(m, x) + SumOver(m, keys - {x})
    decreases keys
  {
    var y :| y in keys && SumOver(m, keys) == Held(m, y) + SumOver(m, keys - {y});
    if y != x {
      SumOverRemove(m, keys - {y}, x);
      SumOverRemove(m, keys - {x}, y);
      assert keys - {y} - {x} == keys - {x} - {y};
    }
  }

  lemma {:induction false} SumOverSame<E>(m: map<string, Entry<E>>, m2: map<string, Entry<E>>, keys: set<string>)
    requires forall k :: k in keys ==> Held(m, k) == Held(m2, k)
    ensures SumOver(m, keys) == SumOver(m2, keys)
    decreases keys
  {
    if keys != {} {
      var k :| k in keys;
      SumOverRemove(m, keys, k);
      SumOverRemove(m2, keys, k);
      SumOverSame(m, m2, keys - {k});
    }
  }

  /** Replacing one layer's entry changes the count by the difference of the two entity lists. */
  lemma CountUpdate<E>(m: map<string, Entry<E>>, name: string, e: Entry<E>)
    ensures Count(m[name := e]) == Count(m) - Held(m, name) + |e.0|
  {
    var m2 := m[name := e];
    SumOverRemove(m2, m2.Keys, name);
    SumOverSame(m, m2, m2.Keys - {name});
    if name in m {
      SumOverRemove(m, m.Keys, name);
      assert m2.Keys - {name} == m.Keys - {name};
    } else {
      assert m2.Keys - {name} == m.Keys;
    }
  }

  /**
   * `set_node_data`: stores the entities with their priority, and keeps the statistics
   * object's total in step: the old entry's entities out, the new ones in. The source's
   * assertion that a priority is given is the type of `priority`.
   */
  method SetNodeData<E>(name: string, nd: NodeData<E>, data: seq<E>, priority: int)
    modifies nd
    ensures nd.layers == old(nd.layers)[name := (data, Some(priority))]
    ensures nd.total == if old(nd.total).None? then None else Some(old(nd.total).value - Held(old(nd.layers), name) + |data|)
    ensures GetNodeData(name, nd) == data
    ensures old(Counted(nd)) ==> Counted(nd)
  {
    if nd.total.Some? {
      var t := nd.total.value;
      if name in nd.layers {
        t := t - |nd.layers[name].0|;
      }
      nd.total := Some(t + |data|);
    }
    CountUpdate(nd.layers, name, (data, Some(priority)));
    nd.layers := nd.layers[name := (data, Some(priority))];
  }

  /** `clear_node_data`: the entry becomes empty with no priority, and the total loses its entities. */
  method ClearNodeData<E>(name: string, nd: NodeData<E>)
    modifies nd
    ensures nd.layers == old(nd.layers)[name := ([], None)]
    ensures nd.total == if old(nd.total).None? then None else Some(old(nd.total).value - Held(old(nd.layers), name))
    ensures GetNodeData(name, nd) == []
    ensures old(Counted(nd)) ==> Counted(nd)
  {
    if nd.total.Some? && name in nd.layers {
      nd.total := Some(nd.total.value - |nd.layers[name].0|);
    }
    CountUpdate(nd.layers, name, ([], None));
    nd.layers := nd.layers[name := ([], None)];
  }
}
