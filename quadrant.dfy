/**
 * The four quadrants of a quadtree node and the fixed-size map keyed by them
 * (engine/quadtree/quadrant.rs).
 */
module Quadrants {
  import opened Wrappers

  /** NW, NE, SW, SE carry the discriminants 0, 1, 2, 3. */
  datatype Quadrant = NW | NE | SW | SE

  /** True for the two quadrants on the right half of a node. */
  predicate IsRight(q: Quadrant) {
    q == NE || q == SE
  }

  /** True for the two quadrants on the bottom half of a node. */
  predicate IsBottom(q: Quadrant) {
    q == SW || q == SE
  }

  /** `Quadrant::index`: the discriminant, whose low bit is "right" and high bit is "bottom". */
  function Index(q: Quadrant): (i: nat)
    ensures i < 4
    ensures i == (if IsRight(q) then 1 else 0) + (if IsBottom(q) then 2 else 0)
  {
    match q
    case NW => 0
    case NE => 1
    case SW => 2
    case SE => 3
  }

  /** `Quadrant::try_from`: the quadrant with a given index, or None for 4..255. */
  function TryFrom(index: nat): (r: Option<Quadrant>)
    ensures r.Some? <==> index < 4
    ensures r.Some? ==> Index(r.value) == index
  {
    if index == 0 then Some(NW)
    else if index == 1 then Some(NE)
    else if index == 2 then Some(SW)
    else if index == 3 then Some(SE)
    else None
  }

  /** `Quadrant::from_sides`: the quadrant on the given horizontal and vertical halves. */
  function FromSides(right: bool, bottom: bool): (q: Quadrant)
    ensures IsRight(q) == right && IsBottom(q) == bottom
  {
    match (right, bottom)
    case (false, false) => NW
    case (true, false) => NE
    case (false, true) => SW
    case (true, true) => SE
  }

  /** `QUADRANTS`: every quadrant, in index order. */
  const AllQuadrants: seq<Quadrant> := [NW, NE, SW, SE]

  lemma IndexRoundTrip(q: Quadrant)
    ensures TryFrom(Index(q)) == Some(q)
  {
  }

  lemma IndexInjective(p: Quadrant, q: Quadrant)
    ensures Index(p) == Index(q) ==> p == q
  {
  }

  /** FromSides is a bijection between pairs of sides and quadrants. */
  lemma FromSidesBijective(q: Quadrant, right: bool, bottom: bool)
    ensures FromSides(IsRight(q), IsBottom(q)) == q
    ensures FromSides(right, bottom) == q <==> (IsRight(q) == right && IsBottom(q) == bottom)
  {
  }

  lemma QuadrantsInIndexOrder()
    ensures |AllQuadrants| == 4
    ensures forall i :: 0 <= i < 4 ==> Index(AllQuadrants[i]) == i
    ensures forall q: Quadrant :: q in AllQuadrants
  {
    forall q: Quadrant ensures q in AllQuadrants {
      assert AllQuadrants[Index(q)] == q;
    }
  }

  /** `QuadMap<T>`: exactly four values, one per quadrant, held in index order. */
  datatype QuadMap<T> = QuadMap(data: seq<T>) {

    predicate Valid() {
      |data| == 4
    }

    /** `Index<Quadrant>`: the value stored for quadrant q. */
    function Get(q: Quadrant): T
      requires Valid()
    {
      data[Index(q)]
    }

    /** `IndexMut<Quadrant>`: the map with the slot of q replaced by v. */
    function Set(q: Quadrant, v: T): (r: QuadMap<T>)
      requires Valid()
      ensures r.Valid()
      ensures r.Get(q) == v
      ensures forall p :: p != q ==> r.Get(p) == Get(p)
    {
      QuadMap(data[Index(q) := v])
    }

    /** `map_into`: f applied slot by slot, keeping each result in its quadrant. */
    function MapInto<U>(f: T -> U): (r: QuadMap<U>)
      requires Valid()
      ensures r.Valid()
      ensures forall q :: r.Get(q) == f(Get(q))
    {
      QuadMap([f(data[0]), f(data[1]), f(data[2]), f(data[3])])
    }
  }

  /** `QuadMap::new`. */
  function NewQuadMap<T>(nw: T, ne: T, sw: T, se: T): (m: QuadMap<T>)
    ensures m.Valid()
    ensures m.Get(NW) == nw && m.Get(NE) == ne && m.Get(SW) == sw && m.Get(SE) == se
  {
    QuadMap([nw, ne, sw, se])
  }

  /** `From<Vec<T>>`: None stands for the panic on a vector whose length is not 4. */
  function QuadMapFromVec<T>(v: seq<T>): (r: Option<QuadMap<T>>)
    ensures r.Some? <==> |v| == 4
    ensures r.Some? ==> r.value.Valid() && forall q :: r.value.Get(q) == v[Index(q)]
  {
    if |v| == 4 then Some(QuadMap(v)) else None
  }

  /** The test `quadrant_map_mut`: writing NW leaves the other three slots as they were. */
  lemma SetThenGet()
    ensures var m := NewQuadMap(0, 1, 2, 3).Set(NW, 5);
      m.Get(NW) == 5 && m.Get(NE) == 1 && m.Get(SW) == 2 && m.Get(SE) == 3
  {
  }
}
