/**
 * Network junctions (engine/network/junction.rs): a junction lists the ids of
 * the segments that end at it (`incoming`) and start at it (`outgoing`).
 * Junctions live inside the network's managed map, so the in-place updates of
 * the source are modelled as functions returning the updated junction, which
 * the network writes back under the same id.
 */
module Junctions {
  import opened ChangeStates

  /** A map location: the source's pair of f64 coordinates, which the model only stores. */
  type Key = (real, real)

  /** The list without any occurrence of x, the rest in its order (`Vec::retain`). */
  function Without(xs: seq<nat>, x: nat): (r: seq<nat>)
    ensures |r| <= |xs|
    ensures forall y :: y in r <==> y in xs && y != x
  {
    if xs == [] then [] else (if xs[0] == x then [] else [xs[0]]) + Without(xs[1..], x)
  }

  /** Removing x deletes exactly its occurrences: every other element keeps its multiplicity. */
  lemma {:induction false} WithoutMultiset(xs: seq<nat>, x: nat)
    ensures multiset(Without(xs, x)) == multiset(xs)[x := 0]
  {
    if xs != [] {
      WithoutMultiset(xs[1..], x);
      assert xs == [xs[0]] + xs[1..];
    }
  }

  /** Removing an absent element leaves the list as it is. */
  lemma {:induction false} WithoutAbsent(xs: seq<nat>, x: nat)
    requires x !in xs
    ensures Without(xs, x) == xs
  {
    if xs != [] {
      WithoutAbsent(xs[1..], x);
      assert xs == [xs[0]] + xs[1..];
    }
  }

  /** Removal distributes over concatenation, so the survivors keep their relative order. */
  lemma {:induction false} WithoutAppend(a: seq<nat>, b: seq<nat>, x: nat)
    ensures Without(a + b, x) == Without(a, x) + Without(b, x)
  {
    if a == [] {
      assert a + b == b;
    } else {
      assert (a + b)[0] == a[0] && (a + b)[1..] == a[1..] + b;
      WithoutAppend(a[1..], b, x);
    }
  }

  /** Adding a segment and then removing it leaves the list as it was before, when it was absent. */
  lemma AddThenRemove(xs: seq<nat>, x: nat)
    requires x !in xs
    ensures Without(xs + [x], x) == xs
  {
    WithoutAppend(xs, [x], x);
    WithoutAbsent(xs, x);
    assert Without([x], x) == [];
  }

  /** The list without any element of d, the rest in its order. */
  function WithoutAll(xs: seq<nat>, d: set<nat>): (r: seq<nat>)
    ensures forall y :: y in r <==> y in xs && y !in d
  {
    if xs == [] then [] else (if xs[0] in d then [] else [xs[0]]) + WithoutAll(xs[1..], d)
  }

  /** Removing nothing keeps the list. */
  lemma {:induction false} WithoutAllNothing(xs: seq<nat>)
    ensures WithoutAll(xs, {}) == xs
  {
    if xs != [] {
      WithoutAllNothing(xs[1..]);
      assert xs == [xs[0]] + xs[1..];
    }
  }

  /** Removing one more element x from a list already rid of d is removing d and x at once. */
  lemma {:induction false} WithoutAllStep(xs: seq<nat>, d: set<nat>, x: nat)
    ensures Without(WithoutAll(xs, d), x) == WithoutAll(xs, d + {x})
  {
    if xs != [] {
      WithoutAllStep(xs[1..], d, x);
      var head := if xs[0] in d then [] else [xs[0]];
      WithoutAppend(head, WithoutAll(xs[1..], d), x);
      assert Without(head, x) == (if xs[0] in d + {x} then [] else [xs[0]]) by {
        if head != [] {
          assert head[1..] == [];
        }
      }
    }
  }

  /** Removing an element a list does not hold changes nothing. */
  lemma {:induction false} WithoutAllAbsent(xs: seq<nat>, d: set<nat>, x: nat)
    requires x !in xs
    ensures WithoutAll(xs, d + {x}) == WithoutAll(xs, d)
  {
    if xs != [] {
      WithoutAllAbsent(xs[1..], d, x);
    }
  }

  /** `Junction`. */
  datatype Junction<J> = Junction(
    id: nat, data: J, location: Key, incoming: seq<nat>, outgoing: seq<nat>, changeState: ChangeState)
  {
    /** `add_incoming`: appends the segment to the incoming list; nothing else changes. */
    function AddIncoming(s: nat): (r: Junction<J>)
      ensures r.incoming == incoming + [s] && |r.incoming| == |incoming| + 1
      ensures r.(incoming := incoming) == this
    {
      this.(incoming := incoming + [s])
    }

    /** `add_outgoing`: appends the segment to the outgoing list; nothing else changes. */
    function AddOutgoing(s: nat): (r: Junction<J>)
      ensures r.outgoing == outgoing + [s] && |r.outgoing| == |outgoing| + 1
      ensures r.(outgoing := outgoing) == this
    {
      this.(outgoing := outgoing + [s])
    }

    /** `remove_incoming`: every occurrence of the segment leaves the incoming list. */
    function RemoveIncoming(s: nat): (r: Junction<J>)
      ensures r.incoming == Without(incoming, s) && s !in r.incoming
      ensures r.(incoming := incoming) == this
    {
      this.(incoming := Without(incoming, s))
    }

    /** `remove_outgoing`: every occurrence of the segment leaves the outgoing list. */
    function RemoveOutgoing(s: nat): (r: Junction<J>)
      ensures r.outgoing == Without(outgoing, s) && s !in r.outgoing
      ensures r.(outgoing := outgoing) == this
    {
      this.(outgoing := Without(outgoing, s))
    }

    /** `clone_new_id`: the same junction under another id. */
    function CloneNewId(newId: nat): (r: Junction<J>)
      ensures r.id == newId && r.(id := id) == this
    {
      this.(id := newId)
    }
  }

  /** `Junction::new`: no segments yet, and Active. */
  function NewJunction<J>(id: nat, location: Key, data: J): (r: Junction<J>)
    ensures r.id == id && r.location == location && r.data == data
    ensures r.incoming == [] && r.outgoing == [] && r.changeState == Active
  {
    Junction(id, data, location, [], [], Active)
  }

  function JunctionId<J>(j: Junction<J>): nat { j.id }
  function JunctionCloneNewId<J>(j: Junction<J>, id: nat): Junction<J> { j.CloneNewId(id) }
  function JunctionState<J>(j: Junction<J>): ChangeState { j.changeState }
  function JunctionSetState<J>(j: Junction<J>, s: ChangeState): Junction<J> { j.(changeState := s) }

  /** The junction's `WithHandle` and `WithChangeState` implementations. */
  function JunctionOps<J(!new)>(): ItemOps<Junction<J>> {
    ItemOps(JunctionId, JunctionCloneNewId, JunctionState, JunctionSetState)
  }

  lemma JunctionOpsLawful<J(!new)>()
    ensures JunctionOps<J>().Lawful()
  {
  }
}
