/** Compass directions and neighbour addresses (engine/quadtree/direction.rs). */
module Directions {
  import opened Wrappers
  import opened Quadrants
  import opened Addresses
  import opened IntMath

  datatype Direction = North | South | West | East

  /** `DIRECTIONS`, in declaration order. */
  const AllDirections: seq<Direction> := [North, South, West, East]

  function Opposite(d: Direction): Direction {
    match d
    case North => South
    case South => North
    case West => East
    case East => West
  }

  lemma OppositeInvolution(d: Direction)
    ensures Opposite(Opposite(d)) == d
    ensures Opposite(d) != d
  {
  }

  /** True when quadrant q touches side d of its parent. */
  predicate OnSide(q: Quadrant, d: Direction) {
    match d
    case North => !IsBottom(q)
    case South => IsBottom(q)
    case West => !IsRight(q)
    case East => IsRight(q)
  }

  /** `get_quadrants`: the two quadrants along side d, in index order. */
  function GetQuadrants(d: Direction): (r: seq<Quadrant>)
    ensures |r| == 2 && Index(r[0]) < Index(r[1])
    ensures forall q :: q in r <==> OnSide(q, d)
  {
    match d
    case North => [NW, NE]
    case South => [SW, SE]
    case West => [NW, SW]
    case East => [NE, SE]
  }

  /** The point one tile-width away from (x, y) in direction d. */
  function Shift(x: int, y: int, width: int, d: Direction): (int, int) {
    match d
    case North => (x, y - width)
    case South => (x, y + width)
    case West => (x - width, y)
    case East => (x + width, y)
  }

  /** The bounds check of `in_direction` as written: x below the grid width, y at most the width. */
  predicate InGridAsWritten(nx: int, ny: int, total: int) {
    nx >= 0 && nx < total && ny >= 0 && ny <= total
  }

  /**
   * `Address::in_direction` as written. `Address::from_xy_depth` is not part of this
   * model and is passed in as `fromXyDepth`.
   */
  function InDirectionAsWritten(a: Address, d: Direction,
                                fromXyDepth: (nat, nat, nat, nat) -> Address): (r: Option<Address>)
    requires a.Valid()
    ensures var (x, y) := Center(a);
      var (nx, ny) := Shift(x, y, Pow2(a.maxDepth - a.Depth()), d);
      && (r.Some? <==> InGridAsWritten(nx, ny, Pow2(a.maxDepth)))
      && (r.Some? ==> r.value == fromXyDepth(nx as nat, ny as nat, a.Depth(), a.maxDepth))
  {
    var (x, y) := Center(a);
    var total := Pow2(a.maxDepth);
    var width := Pow2(a.maxDepth - a.Depth());
    var (nx, ny) := Shift(x, y, width, d);
    if InGridAsWritten(nx, ny, total) then Some(fromXyDepth(nx as nat, ny as nat, a.Depth(), a.maxDepth)) else None
  }

  /** The corrected check: both shifted coordinates strictly inside the grid. */
  predicate InGrid(nx: int, ny: int, total: int) {
    0 <= nx < total && 0 <= ny < total
  }

  /** `in_direction` with the exclusive bound on y that the x check evidently intends. */
  function InDirection(a: Address, d: Direction,
                       fromXyDepth: (nat, nat, nat, nat) -> Address): (r: Option<Address>)
    requires a.Valid()
    ensures var (x, y) := Center(a);
      var (nx, ny) := Shift(x, y, Pow2(a.maxDepth - a.Depth()), d);
      && (r.Some? <==> InGrid(nx, ny, Pow2(a.maxDepth)))
      && (r.Some? ==> r.value == fromXyDepth(nx as nat, ny as nat, a.Depth(), a.maxDepth))
  {
    var (x, y) := Center(a);
    var total := Pow2(a.maxDepth);
    var width := Pow2(a.maxDepth - a.Depth());
    var (nx, ny) := Shift(x, y, width, d);
    if InGrid(nx, ny, total) then Some(fromXyDepth(nx as nat, ny as nat, a.Depth(), a.maxDepth)) else None
  }

  /**
   * A neighbour is only ever looked up for a point inside the grid, and, when
   * `from_xy_depth` keeps the depths it is given, it has the address's depths.
   */
  lemma InDirectionKeepsDepth(a: Address, d: Direction, fromXyDepth: (nat, nat, nat, nat) -> Address)
    requires a.Valid()
    requires forall x, y, dd, md :: fromXyDepth(x, y, dd, md).Depth() == dd && fromXyDepth(x, y, dd, md).maxDepth == md
    ensures var r := InDirection(a, d, fromXyDepth);
      r.Some? ==> r.value.Depth() == a.Depth() && r.value.maxDepth == a.maxDepth
  {
  }

  /**
   * Finding: on the bottom row at full depth, moving South passes the check as written
   * with y equal to the grid width, one past the last row; the corrected check refuses it.
   */
  lemma SouthOffGridAsWritten(fromXyDepth: (nat, nat, nat, nat) -> Address)
    ensures InDirectionAsWritten(Address([SW], 1), South, fromXyDepth) == Some(fromXyDepth(0, 2, 1, 1))
    ensures InDirection(Address([SW], 1), South, fromXyDepth) == None
  {
    assert [SW][..0] == [];
  }

  /** The corrected check returns a neighbour exactly when its point lies in the grid. */
  lemma {:induction false} InDirectionStaysInGrid(a: Address, d: Direction, fromXyDepth: (nat, nat, nat, nat) -> Address)
    requires a.Valid()
    ensures var (x, y) := Center(a);
      var (nx, ny) := Shift(x, y, Pow2(a.maxDepth - a.Depth()), d);
      InDirection(a, d, fromXyDepth).Some? ==> nx < Pow2(a.maxDepth) && ny < Pow2(a.maxDepth)
    ensures InDirection(a, d, fromXyDepth).Some? ==> InDirectionAsWritten(a, d, fromXyDepth).Some?
  {
  }

  /** Cases from the source's test `in_direction` that leave the grid. */
  lemma OffGridExamples(fromXyDepth: (nat, nat, nat, nat) -> Address)
    ensures InDirectionAsWritten(Address([NW], 3), West, fromXyDepth) == None
    ensures InDirectionAsWritten(Address([NW], 3), North, fromXyDepth) == None
    ensures InDirectionAsWritten(Address([SE], 3), East, fromXyDepth) == None
    ensures InDirectionAsWritten(Address([SE], 3), South, fromXyDepth) == None
  {
    assert [NW][..0] == [] && [SE][..0] == [];
  }

  /** Cases from the same test that stay in the grid: the point handed to `from_xy_depth`. */
  lemma InGridExamples(fromXyDepth: (nat, nat, nat, nat) -> Address)
    ensures InDirectionAsWritten(Address([NW], 3), East, fromXyDepth) == Some(fromXyDepth(6, 2, 1, 3))
    ensures InDirectionAsWritten(Address([SW], 3), North, fromXyDepth) == Some(fromXyDepth(2, 2, 1, 3))
    ensures InDirectionAsWritten(Address([NW, SE], 3), East, fromXyDepth) == Some(fromXyDepth(5, 3, 2, 3))
  {
    assert [NW][..0] == [] && [SW][..0] == [];
    assert [NW, SE][..1] == [NW];
  }
}
