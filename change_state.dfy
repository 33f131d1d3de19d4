/**
 * Staged edits of the network store (engine/network/change_state.rs): every
 * junction and segment carries a change state; edits fork an item into a
 * staged copy, and a change set remembers the staged creations and removals
 * until it is applied or cleared. Removed items linger as tombstones for a
 * countdown of days.
 */
module ChangeStates {
  import opened ManagedMaps

  /** `ChangeState`; the u32 countdown of a tombstone is a nat here. */
  datatype ChangeState = Active | StagedActive | StagedTombstone | Tombstone(countdown: nat)
  {
    /** `is_active`: used for the active base graph. */
    predicate IsActive() {
      Active? || StagedTombstone?
    }

    /** `is_staged_change`: part of the staged changes. */
    predicate IsStagedChange() {
      StagedActive? || StagedTombstone?
    }

    /** `is_staged_active`: active once the change set is applied. */
    predicate IsStagedActive() {
      Active? || StagedActive?
    }
  }

  /** The three predicates tell the four states apart (up to a tombstone's countdown). */
  lemma PredicatesClassify(s: ChangeState)
    ensures s.IsStagedChange() <==> s.IsActive() != s.IsStagedActive()
    ensures s.Active? <==> s.IsActive() && s.IsStagedActive()
    ensures s.StagedActive? <==> !s.IsActive() && s.IsStagedActive()
    ensures s.StagedTombstone? <==> s.IsActive() && !s.IsStagedActive()
    ensures s.Tombstone? <==> !s.IsActive() && !s.IsStagedActive()
  {
  }

  /**
   * What the traits `WithHandle` and `WithChangeState` give the generic code: an
   * item's id, a copy under a new id, and reading and writing its change state.
   */
  datatype ItemOps<!V(!new)> = ItemOps(
    id: V -> nat,
    cloneNewId: (V, nat) -> V,
    state: V -> ChangeState,
    setState: (V, ChangeState) -> V)
  {
    /** A copy carries the new id and the old state; setting the state changes only the state. */
    ghost predicate Lawful() {
      && (forall v, i :: id(cloneNewId(v, i)) == i && state(cloneNewId(v, i)) == state(v))
      && (forall v, s :: state(setState(v, s)) == s && id(setState(v, s)) == id(v))
    }
  }

  /** `ChangeSet`: the ids staged for creation and for removal. */
  class ChangeSet {
    var created: set<nat>
    var removed: set<nat>

    /** `ChangeSet::new`. */
    constructor ()
      ensures created == {} && removed == {}
    {
      created := {};
      removed := {};
    }
  }

  /**
   * The change set's documented meaning: `created` holds exactly the items in state
   * StagedActive and `removed` exactly those in state StagedTombstone.
   */
  ghost predicate Tracks<V(!new)>(created: set<nat>, removed: set<nat>, m: map<nat, V>, ops: ItemOps<V>) {
    && (forall k :: k in created <==> k in m && ops.state(m[k]) == StagedActive)
    && (forall k :: k in removed <==> k in m && ops.state(m[k]) == StagedTombstone)
  }

  /** The items after forking id into newId: the copy is staged for creation, the original for removal. */
  function Edited<V(!new)>(m: map<nat, V>, id: nat, newId: nat, ops: ItemOps<V>): map<nat, V>
    requires id in m
  {
    m[newId := ops.setState(ops.cloneNewId(m[id], newId), StagedActive)][id := ops.setState(m[id], StagedTombstone)]
  }

  /** The items with every id of `ids` put in state s, the others as they were. */
  function SetStates<V(!new)>(m: map<nat, V>, ids: set<nat>, s: ChangeState, ops: ItemOps<V>): map<nat, V> {
    map k | k in m :: if k in ids then ops.setState(m[k], s) else m[k]
  }

  /** No tombstone has run out; counting one of those down would underflow the u32 counter. */
  predicate NoExpired<V(!new)>(m: map<nat, V>, ops: ItemOps<V>) {
    forall k :: k in m ==> ops.state(m[k]) != Tombstone(0)
  }

  /** The items after one day: each tombstone's countdown drops by one. */
  function Advanced<V(!new)>(m: map<nat, V>, ops: ItemOps<V>): map<nat, V>
    requires NoExpired(m, ops)
  {
    map k | k in m :: if ops.state(m[k]).Tombstone? then ops.setState(m[k], Tombstone(ops.state(m[k]).countdown - 1)) else m[k]
  }

  /**
   * `edit_changeset`: an item already staged for creation is edited in place; any
   * other item is forked, the copy (under a fresh id) staged for creation and the
   * original staged for removal. The source asserts that the item is not staged
   * for removal and will be active once applied.
   */
  method EditChangeSet<V(!new)>(cs: ChangeSet, id: nat, items: ManagedMap<V>, ops: ItemOps<V>) returns (retId: nat)
    requires items.Valid()
    requires id !in cs.removed && id in items.inner && ops.state(items.inner[id]).IsStagedActive()
    modifies cs, items
    ensures items.Valid()
    ensures id in old(cs.created) ==>
      && retId == id && cs.created == old(cs.created) && cs.removed == old(cs.removed)
      && items.inner == old(items.inner) && items.counter == old(items.counter)
    ensures id !in old(cs.created) ==>
      && retId == old(items.counter) && retId !in old(items.inner)
      && items.counter == old(items.counter) + 1
      && cs.created == old(cs.created) + {retId} && cs.removed == old(cs.removed) + {id}
      && items.inner == Edited(old(items.inner), id, retId, ops)
  {
    if id in cs.created {
      retId := id;
    } else {
      var newId := items.CloneItem(id, ops.cloneNewId);
      cs.created := cs.created + {newId};
      cs.removed := cs.removed + {id};
      items.inner := items.inner[newId := ops.setState(items.inner[newId], StagedActive)];
      items.inner := items.inner[id := ops.setState(items.inner[id], StagedTombstone)];
      retId := newId;
    }
  }

  /**
   * Editing keeps the change set's meaning, and afterwards the returned id is the
   * one staged for creation while the original is staged for removal.
   */
  lemma EditKeepsTracking<V(!new)>(created: set<nat>, removed: set<nat>, m: map<nat, V>, ops: ItemOps<V>, id: nat, newId: nat)
    requires ops.Lawful() && Tracks(created, removed, m, ops)
    requires id in m && ops.state(m[id]).IsStagedActive() && id !in created && newId !in m
    ensures Tracks(created + {newId}, removed + {id}, Edited(m, id, newId, ops), ops)
    ensures var e := Edited(m, id, newId, ops);
      && e.Keys == m.Keys + {newId}
      && ops.state(e[newId]) == StagedActive && ops.id(e[newId]) == newId
      && ops.state(e[id]) == StagedTombstone && ops.id(e[id]) == ops.id(m[id])
  {
    var e := Edited(m, id, newId, ops);
    assert ops.state(m[id]) == Active;
    forall k ensures k in created + {newId} <==> k in e && ops.state(e[k]) == StagedActive {
      if k != id && k != newId {
        assert k in e <==> k in m;
        if k in m {
          assert e[k] == m[k];
        }
      }
    }
    forall k ensures k in removed + {id} <==> k in e && ops.state(e[k]) == StagedTombstone {
      if k != id && k != newId {
        assert k in e <==> k in m;
        if k in m {
          assert e[k] == m[k];
        }
      }
    }
  }

  /** Taking one more id k out of the ids still to do is the single update of item k. */
  lemma SetStatesStep<V(!new)>(m: map<nat, V>, ids: set<nat>, todo: set<nat>, k: nat, s: ChangeState, ops: ItemOps<V>)
    requires k in m && k in todo && k in ids
    ensures SetStates(m, ids - todo, s, ops)[k := ops.setState(m[k], s)] == SetStates(m, ids - (todo - {k}), s, ops)
  {
    var a := SetStates(m, ids - todo, s, ops)[k := ops.setState(m[k], s)];
    var b := SetStates(m, ids - (todo - {k}), s, ops);
    assert a.Keys == b.Keys;
    forall j | j in a ensures a[j] == b[j] {
    }
  }

  /**
   * The drain loop shared by `apply_change_set` and `clear_change_set`: each id of the
   * set, found in the expected state as the source asserts, is put in state s.
   */
  method SetEach<V(!new)>(m: map<nat, V>, ids: set<nat>, expected: ChangeState, s: ChangeState, ops: ItemOps<V>) returns (r: map<nat, V>)
    requires forall k :: k in ids ==> k in m && ops.state(m[k]) == expected
    ensures r == SetStates(m, ids, s, ops)
  {
    r := m;
    var todo := ids;
    assert ids - todo == {} && SetStates(m, {}, s, ops) == m;
    while todo != {}
      invariant todo <= ids
      invariant r == SetStates(m, ids - todo, s, ops)
      decreases |todo|
    {
      var k :| k in todo;
      assert r[k] == m[k];
      assert ops.state(r[k]) == expected;
      SetStatesStep(m, ids, todo, k, s, ops);
      r := r[k := ops.setState(r[k], s)];
      todo := todo - {k};
    }
    assert ids - todo == ids;
  }

  /**
   * `apply_change_set`: every item staged for creation becomes Active, every item
   * staged for removal becomes a tombstone with a countdown of 2 days, and both
   * sets are drained. The source asserts the states it finds.
   */
  method ApplyChangeSet<V(!new)>(cs: ChangeSet, items: ManagedMap<V>, ops: ItemOps<V>)
    requires forall k :: k in cs.created ==> k in items.inner && ops.state(items.inner[k]) == StagedActive
    requires forall k :: k in cs.removed ==> k in items.inner && ops.state(items.inner[k]) == StagedTombstone
    modifies cs, items
    ensures cs.created == {} && cs.removed == {}
    ensures items.inner == SetStates(SetStates(old(items.inner), old(cs.created), Active, ops), old(cs.removed), Tombstone(2), ops)
    ensures items.counter == old(items.counter)
  {
    var m1 := SetEach(items.inner, cs.created, StagedActive, Active, ops);
    forall k | k in cs.removed
      ensures k in m1 && ops.state(m1[k]) == StagedTombstone
    {
      assert k !in cs.created;
    }
    var m2 := SetEach(m1, cs.removed, StagedTombstone, Tombstone(2), ops);
    items.inner := m2;
    cs.created := {};
    cs.removed := {};
  }

  /**
   * After applying a change set that tracks its items, nothing is staged any more:
   * the created items are Active, the removed ones tombstones with countdown 2, and
   * every other item keeps its state.
   */
  lemma ApplyLeavesNothingStaged<V(!new)>(created: set<nat>, removed: set<nat>, m: map<nat, V>, ops: ItemOps<V>)
    requires ops.Lawful() && Tracks(created, removed, m, ops)
    ensures var r := SetStates(SetStates(m, created, Active, ops), removed, Tombstone(2), ops);
      && r.Keys == m.Keys
      && Tracks({}, {}, r, ops)
      && (forall k :: k in created ==> ops.state(r[k]) == Active)
      && (forall k :: k in removed ==> ops.state(r[k]) == Tombstone(2))
      && (forall k :: k in m && k !in created && k !in removed ==> r[k] == m[k])
      && (forall k :: k in m ==> ops.id(r[k]) == ops.id(m[k]))
  {
    var r := SetStates(SetStates(m, created, Active, ops), removed, Tombstone(2), ops);
    forall k | k in m
      ensures ops.state(r[k]) != StagedActive && ops.state(r[k]) != StagedTombstone
    {
      if k in created {
        assert k !in removed;
      }
    }
  }

  /**
   * `clear_change_set`: returns the ids staged for creation (each once, for the
   * caller to delete) and reverts every item staged for removal to Active; both
   * sets are drained. The source asserts the states it finds.
   */
  method ClearChangeSet<V(!new)>(cs: ChangeSet, items: ManagedMap<V>, ops: ItemOps<V>) returns (toRemove: seq<nat>)
    requires forall k :: k in cs.created ==> k in items.inner && ops.state(items.inner[k]) == StagedActive
    requires forall k :: k in cs.removed ==> k in items.inner && ops.state(items.inner[k]) == StagedTombstone
    modifies cs, items
    ensures cs.created == {} && cs.removed == {}
    ensures forall k :: k in toRemove <==> k in old(cs.created)
    ensures forall i, j :: 0 <= i < j < |toRemove| ==> toRemove[i] != toRemove[j]
    ensures items.inner == SetStates(old(items.inner), old(cs.removed), Active, ops)
    ensures items.counter == old(items.counter)
  {
    ghost var m0 := items.inner;
    ghost var created, removed := cs.created, cs.removed;
    var todo := cs.created;
    toRemove := [];
    while todo != {}
      invariant todo <= created
      invariant forall k :: k in toRemove <==> k in created && k !in todo
      invariant forall i, j :: 0 <= i < j < |toRemove| ==> toRemove[i] != toRemove[j]
      modifies {}
      decreases |todo|
    {
      var k :| k in todo;
      assert ops.state(m0[k]) == StagedActive;
      toRemove := toRemove + [k];
      todo := todo - {k};
    }
    var m := SetEach(items.inner, cs.removed, StagedTombstone, Active, ops);
    items.inner := m;
    cs.created := {};
    cs.removed := {};
  }

  /** After clearing, the reverted items are Active again and keep their ids; nothing else changes. */
  lemma ClearRevertsRemoved<V(!new)>(m: map<nat, V>, removed: set<nat>, ops: ItemOps<V>)
    requires ops.Lawful()
    ensures var r := SetStates(m, removed, Active, ops);
      && r.Keys == m.Keys
      && (forall k :: k in removed && k in m ==> ops.state(r[k]) == Active && ops.id(r[k]) == ops.id(m[k]))
      && (forall k :: k in m && k !in removed ==> r[k] == m[k])
  {
  }

  /**
   * `advance_tombstones`: counts every tombstone down by one day, leaves the other
   * items alone, and returns, in increasing id order (the map is a BTreeMap), exactly
   * the items whose countdown has reached 0. The ids are visited in key order 0, 1, ...
   * up to the counter.
   */
  method AdvanceTombstones<V(!new)>(items: ManagedMap<V>, ops: ItemOps<V>) returns (toRemove: seq<nat>)
    requires items.Valid() && NoExpired(items.inner, ops)
    modifies items
    ensures items.inner == Advanced(old(items.inner), ops) && items.counter == old(items.counter)
    ensures forall k :: k in toRemove <==> k in items.inner && ops.state(items.inner[k]) == Tombstone(0)
    ensures forall i, j :: 0 <= i < j < |toRemove| ==> toRemove[i] < toRemove[j]
  {
    ghost var m0 := items.inner;
    var k := 0;
    while k < items.counter
      invariant k <= items.counter == old(items.counter)
      invariant items.inner.Keys == m0.Keys
      invariant forall j :: j in m0 ==> items.inner[j] == (if j < k then Advanced(m0, ops)[j] else m0[j])
    {
      if k in items.inner && ops.state(items.inner[k]).Tombstone? {
        var c := ops.state(items.inner[k]).countdown;
        items.inner := items.inner[k := ops.setState(items.inner[k], Tombstone(c - 1))];
      }
      k := k + 1;
    }
    assert items.inner == Advanced(m0, ops);
    toRemove := [];
    k := 0;
    while k < items.counter
      invariant k <= items.counter
      invariant forall j :: j in toRemove <==> j < k && j in items.inner && ops.state(items.inner[j]) == Tombstone(0)
      invariant forall i :: 0 <= i < |toRemove| ==> toRemove[i] < k
      invariant forall i, j :: 0 <= i < j < |toRemove| ==> toRemove[i] < toRemove[j]
    {
      if k in items.inner && ops.state(items.inner[k]) == Tombstone(0) {
        toRemove := toRemove + [k];
      }
      k := k + 1;
    }
  }

  /**
   * One day takes a tombstone's countdown from c to c - 1 and keeps every other
   * state and every id; an item applied as a tombstone (countdown 2) is reported
   * for removal at the second advance.
   */
  lemma AdvanceCountsDown<V(!new)>(m: map<nat, V>, ops: ItemOps<V>, k: nat)
    requires ops.Lawful() && NoExpired(m, ops) && k in m
    ensures var r := Advanced(m, ops);
      && r.Keys == m.Keys && ops.id(r[k]) == ops.id(m[k])
      && (ops.state(m[k]).Tombstone? ==> ops.state(r[k]) == Tombstone(ops.state(m[k]).countdown - 1))
      && (!ops.state(m[k]).Tombstone? ==> r[k] == m[k])
      && (ops.state(m[k]) == Tombstone(2) ==> ops.state(r[k]) == Tombstone(1))
      && (ops.state(m[k]) == Tombstone(1) ==> ops.state(r[k]) == Tombstone(0))
  {
  }
}
