/**
 * Quadtree addresses: the path of quadrants from the root, together with the
 * tree's maximum depth (engine/quadtree/address.rs).
 */
module Addresses {
  import opened Wrappers
  import opened Quadrants
  import opened IntMath

  datatype Address = Address(data: seq<Quadrant>, maxDepth: nat) {

    /** The constructor `from_vec` asserts that the path is no longer than max_depth. */
    predicate Valid() {
      |data| <= maxDepth
    }

    function Depth(): nat {
      |data|
    }

    /** `has(index)`: index 0 is never reported as present. */
    predicate Has(index: nat) {
      index > 0 && index < Depth()
    }

    /** `child(quadrant)`: the address one level further down. */
    function Child(q: Quadrant): (r: Address)
      requires |data| < maxDepth
      ensures r.Valid() && r.maxDepth == maxDepth
      ensures r.Depth() == Depth() + 1
      ensures r.data[..Depth()] == data && r.data[Depth()] == q
    {
      FromVec(data + [q], maxDepth)
    }
  }

  /** `from_vec`; the length assertion becomes a precondition. */
  function FromVec(data: seq<Quadrant>, maxDepth: nat): (r: Address)
    requires |data| <= maxDepth
    ensures r.Valid() && r.Depth() == |data|
    ensures r.data == data && r.maxDepth == maxDepth
  {
    Address(data, maxDepth)
  }

  lemma HasNeverZero(a: Address)
    ensures !a.Has(0)
    ensures forall i: nat :: a.Has(i) ==> i < a.Depth()
  {
  }

  /** The byte encoding `to_vec` produces: each quadrant's index. */
  function Bytes(data: seq<Quadrant>): (r: seq<nat>)
    ensures |r| == |data|
    ensures forall i :: 0 <= i < |r| ==> r[i] < 4
  {
    seq(|data|, i requires 0 <= i < |data| => Index(data[i]))
  }

  /** True when every byte names a quadrant. */
  predicate AllQuadrantBytes(bytes: seq<nat>) {
    forall i :: 0 <= i < |bytes| ==> bytes[i] < 4
  }

  /** The panic of `from_vec` when there are more quadrants than the maximum depth. */
  datatype DepthPanic = DepthPanic(depth: nat, maxDepth: nat)

  /**
   * What `try_from` computes: None as soon as one byte is not 0..3; when every byte is a
   * quadrant, `from_vec`'s length assertion panics on a path longer than the maximum depth.
   */
  function Decode(bytes: seq<nat>, maxDepth: nat): (r: Result<Option<Address>, DepthPanic>)
    ensures r == Ok(None) <==> !AllQuadrantBytes(bytes)
    ensures r.Err? <==> AllQuadrantBytes(bytes) && |bytes| > maxDepth
    ensures r.Err? ==> r.error == DepthPanic(|bytes|, maxDepth)
    ensures r.Ok? && r.value.Some? ==> r.value.value.Valid() && r.value.value.maxDepth == maxDepth && Bytes(r.value.value.data) == bytes
  {
    if !AllQuadrantBytes(bytes) then
      Ok(None)
    else if |bytes| > maxDepth then
      Err(DepthPanic(|bytes|, maxDepth))
    else
      var data := seq(|bytes|, i requires 0 <= i < |bytes| => TryFrom(bytes[i]).value);
      assert Bytes(data) == bytes;
      Ok(Some(FromVec(data, maxDepth)))
  }

  /** `Address::try_from`: pushes one quadrant per byte and returns None at the first bad byte. */
  method TryFromBytes(bytes: seq<nat>, maxDepth: nat) returns (r: Result<Option<Address>, DepthPanic>)
    ensures r == Decode(bytes, maxDepth)
  {
    var v: seq<Quadrant> := [];
    var k := 0;
    while k < |bytes|
      invariant 0 <= k <= |bytes|
      invariant |v| == k
      invariant forall i :: 0 <= i < k ==> bytes[i] < 4 && v[i] == TryFrom(bytes[i]).value
    {
      var q := TryFrom(bytes[k]);
      if q.None? {
        return Ok(None);
      }
      v := v + [q.value];
      k := k + 1;
    }
    assert AllQuadrantBytes(bytes);
    if |v| > maxDepth {
      return Err(DepthPanic(|v|, maxDepth));
    }
    assert Decode(bytes, maxDepth).value.value.data == v;
    r := Ok(Some(FromVec(v, maxDepth)));
  }

  /** `Address::to_vec`: one byte per quadrant. */
  method ToVec(a: Address) returns (bytes: seq<nat>)
    ensures bytes == Bytes(a.data)
  {
    bytes := [];
    var k := 0;
    while k < |a.data|
      invariant 0 <= k <= |a.data|
      invariant bytes == Bytes(a.data[..k])
    {
      bytes := bytes + [Index(a.data[k])];
      k := k + 1;
    }
    assert a.data[..k] == a.data;
  }

  /** `try_from(to_vec(a), a.max_depth) == Some(a)` for a well-formed address: no byte is bad and nothing panics. */
  lemma DecodeBytes(a: Address)
    requires a.Valid()
    ensures Decode(Bytes(a.data), a.maxDepth) == Ok(Some(a))
  {
    var r := Decode(Bytes(a.data), a.maxDepth).value.value;
    assert |r.data| == |a.data|;
    forall i | 0 <= i < |a.data| ensures r.data[i] == a.data[i] {
      assert Index(r.data[i]) == Index(a.data[i]);
      IndexInjective(r.data[i], a.data[i]);
    }
    assert r.data == a.data;
  }

  /**
   * The top-left corner (x, y) and width w of the tile at path s, in a grid of
   * side w0: each quadrant halves the width and moves right or down by the new width.
   */
  function Corner(s: seq<Quadrant>, w0: nat): (nat, nat, nat)
    decreases |s|
  {
    if s == [] then (0, 0, w0)
    else
      var (x, y, w) := Corner(s[..|s| - 1], w0);
      var h := w / 2;
      var q := s[|s| - 1];
      (x + (if IsRight(q) then h else 0), y + (if IsBottom(q) then h else 0), h)
  }

  /** The centre of the tile of an address, as `to_xy` documents. */
  function Center(a: Address): (nat, nat) {
    var (x, y, w) := Corner(a.data, Pow2(a.maxDepth));
    (x + w / 2, y + w / 2)
  }

  /** The tile at a path of length d <= md has width 2^(md-d) and lies inside the grid. */
  lemma {:induction false} CornerInGrid(s: seq<Quadrant>, md: nat)
    requires |s| <= md
    ensures var (x, y, w) := Corner(s, Pow2(md));
      w == Pow2(md - |s|) && x + w <= Pow2(md) && y + w <= Pow2(md)
  {
    if s != [] {
      CornerInGrid(s[..|s| - 1], md);
      Pow2Halves(md - |s| + 1);
    }
  }

  /** Both coordinates `to_xy` returns are below 2^max_depth. */
  lemma CenterInGrid(a: Address)
    requires a.Valid()
    ensures Center(a).0 < Pow2(a.maxDepth) && Center(a).1 < Pow2(a.maxDepth)
  {
    CornerInGrid(a.data, a.maxDepth);
  }

  /** `to_xy`: the loop halving w and accumulating x and y, then the centre offset. */
  method ToXY(a: Address) returns (x: nat, y: nat)
    ensures (x, y) == Center(a)
  {
    x, y := 0, 0;
    var w := Pow2(a.maxDepth);
    var k := 0;
    while k < |a.data|
      invariant 0 <= k <= |a.data|
      invariant (x, y, w) == Corner(a.data[..k], Pow2(a.maxDepth))
    {
      var q := a.data[k];
      var right, bottom := IsRight(q), IsBottom(q);
      w := w / 2;
      x := x + (if right then 1 else 0) * w;
      y := y + (if bottom then 1 else 0) * w;
      assert a.data[..k + 1][..k] == a.data[..k];
      k := k + 1;
    }
    assert a.data[..k] == a.data;
    x, y := x + w / 2, y + w / 2;
  }

  /** The values the source's own test `to_xy` pins down. */
  lemma CenterExamples()
    ensures Center(Address([NW, NW, NW], 3)) == (0, 0)
    ensures Center(Address([NW, NE, NW], 3)) == (2, 0)
    ensures Center(Address([SE, SE, SE], 3)) == (7, 7)
    ensures Center(Address([SE, SE], 3)) == (7, 7)
    ensures Center(Address([SE], 3)) == (6, 6)
  {
    assert [NW, NW, NW][..2] == [NW, NW] && [NW, NW][..1] == [NW];
    assert [NW, NE, NW][..2] == [NW, NE] && [NW, NE][..1] == [NW];
    assert [SE, SE, SE][..2] == [SE, SE] && [SE, SE][..1] == [SE];
    assert [NW][..0] == [] && [SE][..0] == [];
  }

  /** One more quadrant: the tile of the longer path is a quarter of the shorter one's. */
  lemma CornerSnoc(s: seq<Quadrant>, q: Quadrant, w0: nat)
    ensures var (x, y, w) := Corner(s, w0); var h := w / 2;
      Corner(s + [q], w0) == (x + (if IsRight(q) then h else 0), y + (if IsBottom(q) then h else 0), h)
  {
    assert (s + [q])[..|s|] == s;
  }

  /** The twelve-level value of the same test. */
  lemma CenterDeepExample()
    ensures Center(Address([NE, SE, NW, SW, NW, SW, NW, SE, SW, SW, NW, NW], 12)) == (3088, 1372)
  {
    assert Pow2(12) == 4096;
    var s0: seq<Quadrant> := [];
    var s1 := s0 + [NE];
    CornerSnoc(s0, NE, 4096);
    assert Corner(s1, 4096) == (2048, 0, 2048);
    var s2 := s1 + [SE];
    CornerSnoc(s1, SE, 4096);
    assert Corner(s2, 4096) == (3072, 1024, 1024);
    var s3 := s2 + [NW];
    CornerSnoc(s2, NW, 4096);
    assert Corner(s3, 4096) == (3072, 1024, 512);
    var s4 := s3 + [SW];
    CornerSnoc(s3, SW, 4096);
    assert Corner(s4, 4096) == (3072, 1280, 256);
    var s5 := s4 + [NW];
    CornerSnoc(s4, NW, 4096);
    assert Corner(s5, 4096) == (3072, 1280, 128);
    var s6 := s5 + [SW];
    CornerSnoc(s5, SW, 4096);
    assert Corner(s6, 4096) == (3072, 1344, 64);
    var s7 := s6 + [NW];
    CornerSnoc(s6, NW, 4096);
    assert Corner(s7, 4096) == (3072, 1344, 32);
    var s8 := s7 + [SE];
    CornerSnoc(s7, SE, 4096);
    assert Corner(s8, 4096) == (3088, 1360, 16);
    var s9 := s8 + [SW];
    CornerSnoc(s8, SW, 4096);
    assert Corner(s9, 4096) == (3088, 1368, 8);
    var s10 := s9 + [SW];
    CornerSnoc(s9, SW, 4096);
    assert Corner(s10, 4096) == (3088, 1372, 4);
    var s11 := s10 + [NW];
    CornerSnoc(s10, NW, 4096);
    assert Corner(s11, 4096) == (3088, 1372, 2);
    var s12 := s11 + [NW];
    CornerSnoc(s11, NW, 4096);
    assert Corner(s12, 4096) == (3088, 1372, 1);
    assert s12 == [NE, SE, NW, SW, NW, SW, NW, SE, SW, SW, NW, NW];
  }
}
