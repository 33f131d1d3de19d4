/**
 * The id-allocating map of the network store (`ManagedMap` in
 * engine/network/network.rs): items are kept under the ids handed out by a
 * monotonically increasing counter, so an id is never reused. Handles are
 * modelled by their u64 value.
 */
module ManagedMaps {

  class ManagedMap<V> {
    var inner: map<nat, V>
    var counter: nat

    /** Every stored id was handed out by the counter. */
    ghost predicate Valid()
      reads this
    {
      forall k :: k in inner ==> k < counter
    }

    /** `ManagedMap::new`: nothing stored, counter at 0. */
    constructor ()
      ensures Valid() && inner == map[] && counter == 0
    {
      inner := map[];
      counter := 0;
    }

    /**
     * `add`: the item built for the next counter value is stored under it; the
     * counter moves on, and no id that was in use is touched.
     */
    method Add(valueF: nat -> V) returns (id: nat)
      requires Valid()
      modifies this
      ensures Valid()
      ensures id == old(counter) && id !in old(inner)
      ensures counter == old(counter) + 1
      ensures inner == old(inner)[id := valueF(id)]
    {
      id := counter;
      counter := counter + 1;
      inner := inner[id := valueF(id)];
    }

    /** `remove`: deletes exactly the given id and returns its item; the source panics for an absent id. */
    method Remove(id: nat) returns (v: V)
      requires id in inner
      modifies this
      ensures v == old(inner)[id]
      ensures inner == old(inner) - {id} && counter == old(counter)
      ensures old(Valid()) ==> Valid()
    {
      v := inner[id];
      inner := inner - {id};
    }

    /** `clone_item`: a copy of the item, with only its id changed, under a fresh counter id. */
    method CloneItem(id: nat, cloneNewId: (V, nat) -> V) returns (newId: nat)
      requires Valid() && id in inner
      modifies this
      ensures Valid()
      ensures newId == old(counter) && newId !in old(inner) && newId != id
      ensures counter == old(counter) + 1
      ensures inner == old(inner)[newId := cloneNewId(old(inner)[id], newId)]
    {
      newId := counter;
      counter := counter + 1;
      inner := inner[newId := cloneNewId(inner[id], newId)];
    }
  }
}
