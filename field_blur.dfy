/**
 * The input side of the field blur (engine/field_update.rs, and its earlier copy
 * engine/field_blur.rs): the row-major index of a block in the downsampled
 * buffer, the buffer's reset, and how one leaf's value is written into it.
 *
 * A leaf is given by its corner and width in tiles and by the u8 its field
 * getter returns. The Gaussian blur itself, the field getters and setters, the
 * floating-point choice of the downsampling factor and the weighted sampling
 * are not modelled.
 */
module FieldBlurs {
  import opened Wrappers
  import opened IntMath

  newtype byte = b: int | 0 <= b < 256

  /** `u8` addition as a release build performs it: modulo 256. */
  function WrappingAdd(a: byte, b: byte): (r: byte)
    ensures r as int == (a as int + b as int) % 256
  {
    ((a as int + b as int) % 256) as byte
  }

  /** `coords_to_index`: the blocks are stored row by row. */
  function CoordsToIndex(x: nat, y: nat, dim: nat): nat {
    x + y * dim
  }

  /** `index_to_coords`: the column is the remainder and the row the quotient; dividing by 0 panics. */
  function IndexToCoords(index: nat, dim: nat): (nat, nat)
    requires dim > 0
  {
    (index % dim, index / dim)
  }

  /** Decoding an index recovers the block, for every column inside the row. */
  lemma CoordsRoundTrip(x: nat, y: nat, dim: nat)
    requires x < dim
    ensures IndexToCoords(CoordsToIndex(x, y, dim), dim) == (x, y)
  {
    DivModUnique(x + y * dim, dim, y, x);
  }

  /** Encoding the decoded block gives the index back. */
  lemma IndexRoundTrip(index: nat, dim: nat)
    requires dim > 0
    ensures IndexToCoords(index, dim).0 < dim
    ensures CoordsToIndex(IndexToCoords(index, dim).0, IndexToCoords(index, dim).1, dim) == index
  {
  }

  /** A block inside the grid has an index inside the buffer. */
  lemma IndexInBuffer(x: nat, y: nat, dim: nat)
    requires x < dim && y < dim
    ensures CoordsToIndex(x, y, dim) < dim * dim
  {
    MulLe(y + 1, dim, dim);
  }

  /** The leaf's row r of tiles covers the buffer indices from the leaf's first block to its end in that row. */
  predicate InRow(i: nat, x: nat, w: nat, r: nat, ds: nat, dim: nat)
    requires ds > 0
  {
    CoordsToIndex(x / ds, r / ds, dim) <= i < CoordsToIndex((x + w) / ds, r / ds, dim)
  }

  /** The index is filled by one of the rows lo until hi, exclusive. */
  predicate Covered(i: nat, x: nat, w: nat, lo: nat, hi: nat, ds: nat, dim: nat)
    requires ds > 0
    decreases hi - lo
  {
    lo < hi && (InRow(i, x, w, hi - 1, ds, dim) || Covered(i, x, w, lo, hi - 1, ds, dim))
  }

  /** The buffer after a wide leaf: every index one of its rows fills holds the value. */
  function FilledWide(buf: seq<byte>, value: byte, x: nat, y: nat, w: nat, ds: nat, dim: nat): (r: seq<byte>)
    requires ds > 0
    ensures |r| == |buf|
    ensures forall i :: 0 <= i < |buf| && !Covered(i, x, w, y, y + w, ds, dim) ==> r[i] == buf[i]
    ensures forall i :: 0 <= i < |buf| && Covered(i, x, w, y, y + w, ds, dim) ==> r[i] == value
  {
    seq(|buf|, i requires 0 <= i < |buf| => if Covered(i, x, w, y, y + w, ds, dim) then value else buf[i])
  }

  /** The leaf lies inside the grid the buffer covers. */
  predicate LeafInGrid(x: nat, y: nat, w: nat, ds: nat, dim: nat) {
    ds > 0 && w > 0 && x + w <= dim * ds && y + w <= dim * ds
  }

  /** The block of a narrow leaf: the one holding its corner. */
  function NarrowIndex(x: nat, y: nat, ds: nat, dim: nat): (r: nat)
    requires LeafInGrid(x, y, 1, ds, dim)
    ensures r < dim * dim && IndexToCoords(r, dim) == (x / ds, y / ds)
  {
    BlockInGrid(x, ds, dim);
    BlockInGrid(y, ds, dim);
    IndexInBuffer(x / ds, y / ds, dim);
    CoordsRoundTrip(x / ds, y / ds, dim);
    CoordsToIndex(x / ds, y / ds, dim)
  }

  /** A tile inside the grid lies in a block inside the grid. */
  lemma BlockInGrid(x: nat, ds: nat, dim: nat)
    requires ds > 0 && x < dim * ds
    ensures x / ds < dim
  {
    if x / ds >= dim {
      MulLe(dim, x / ds, ds);
      assert false;
    }
  }

  /**
   * `BlurInputVisitor::apply` on the buffer's contents: a leaf wider than a block
   * fills its rows with the value; a narrower one adds the value, unscaled, to the
   * single block holding its corner.
   */
  function Applied(buf: seq<byte>, value: byte, x: nat, y: nat, w: nat, ds: nat, dim: nat): (r: seq<byte>)
    requires LeafInGrid(x, y, w, ds, dim) && |buf| == dim * dim
    ensures |r| == |buf|
  {
    if w > ds then FilledWide(buf, value, x, y, w, ds, dim)
    else
      var i := NarrowIndex(x, y, ds, dim);
      buf[i := WrappingAdd(buf[i], value)]
  }

  /** A narrow leaf changes exactly one block, by the value. */
  lemma NarrowAddsOnce(buf: seq<byte>, value: byte, x: nat, y: nat, w: nat, ds: nat, dim: nat)
    requires LeafInGrid(x, y, w, ds, dim) && |buf| == dim * dim && w <= ds
    ensures var r := Applied(buf, value, x, y, w, ds, dim);
      var i := NarrowIndex(x, y, ds, dim);
      && r[i] as int == (buf[i] as int + value as int) % 256
      && (buf[i] as int + value as int < 256 ==> r[i] as int == buf[i] as int + value as int)
      && forall j :: 0 <= j < |buf| && j != i ==> r[j] == buf[j]
  {
  }

  /**
   * The rows of a wide leaf fill exactly the blocks it overlaps: the columns from
   * its first block up to, not including, the block where it ends, in every row of
   * blocks its rows of tiles pass through.
   */
  lemma {:induction false} CoveredBlocks(i: nat, x: nat, w: nat, lo: nat, hi: nat, ds: nat, dim: nat)
    requires ds > 0 && dim > 0 && (x + w) / ds <= dim && lo < hi
    ensures Covered(i, x, w, lo, hi, ds, dim) <==>
      (&& lo / ds <= i / dim <= (hi - 1) / ds
       && x / ds <= i % dim < (x + w) / ds)
    decreases hi - lo
  {
    var first, end, top := x / ds, (x + w) / ds, (hi - 1) / ds;
    DivLe(x, x + w, ds);
    RowRange(i, first, end, top, dim);
    assert InRow(i, x, w, hi - 1, ds, dim) <==> (i / dim == top && first <= i % dim < end);
    if lo < hi - 1 {
      CoveredBlocks(i, x, w, lo, hi - 1, ds, dim);
      DivStep(hi - 2, ds);
      DivLe(lo, hi - 2, ds);
    }
  }

  /** A row's index range lies within one row of blocks. */
  lemma RowRange(i: nat, a: nat, b: nat, row: nat, dim: nat)
    requires a <= b <= dim && dim > 0
    ensures (a + row * dim <= i < b + row * dim) <==> (i / dim == row && a <= i % dim < b)
  {
    var q, m := i / dim, i % dim;
    assert i == q * dim + m;
    if q < row {
      MulLe(q + 1, row, dim);
    } else if q > row {
      MulLe(row + 1, q, dim);
    }
  }

  lemma DivLe(a: nat, b: nat, ds: nat)
    requires a <= b && ds > 0
    ensures a / ds <= b / ds
  {
    if a / ds > b / ds {
      MulLe(b / ds + 1, a / ds, ds);
      assert false;
    }
  }

  /** One more tile moves to the same block or the next one. */
  lemma DivStep(a: nat, ds: nat)
    requires ds > 0
    ensures a / ds <= (a + 1) / ds <= a / ds + 1
  {
    var q, m := a / ds, a % ds;
    if m + 1 < ds {
      DivModUnique(a + 1, ds, q, m + 1);
    } else {
      DivModUnique(a + 1, ds, q + 1, 0);
    }
  }

  /**
   * `apply`, in place on the buffer: for a wide leaf a loop over its rows of tiles,
   * each filling the index range from the leaf's first block to where it ends in
   * that row; for a narrow leaf one addition.
   */
  method Apply(buffer: array<byte>, value: byte, x: nat, y: nat, w: nat, ds: nat, dim: nat)
    requires LeafInGrid(x, y, w, ds, dim) && buffer.Length == dim * dim
    modifies buffer
    ensures buffer[..] == Applied(old(buffer[..]), value, x, y, w, ds, dim)
  {
    if w > ds {
      FillRows(buffer, value, x, y, w, ds, dim);
    } else {
      var i := CoordsToIndex(x / ds, y / ds, dim);
      assert i == NarrowIndex(x, y, ds, dim);
      buffer[i] := WrappingAdd(buffer[i], value);
    }
  }

  /** The loop of `apply` for a wide leaf: each of its rows of tiles fills its index range. */
  method FillRows(buffer: array<byte>, value: byte, x: nat, y: nat, w: nat, ds: nat, dim: nat)
    requires LeafInGrid(x, y, w, ds, dim) && buffer.Length == dim * dim
    modifies buffer
    ensures buffer[..] == FilledWide(old(buffer[..]), value, x, y, w, ds, dim)
  {
    ghost var start := buffer[..];
    var r := y;
    while r < y + w
      invariant y <= r <= y + w
      invariant forall i :: 0 <= i < buffer.Length ==>
        buffer[i] == if Covered(i, x, w, y, r, ds, dim) then value else start[i]
      decreases y + w - r
    {
      var lo, hi := RowBounds(x, w, r, ds, dim);
      FillRange(buffer, value, lo, hi);
      forall j | 0 <= j < buffer.Length
        ensures buffer[j] == if Covered(j, x, w, y, r + 1, ds, dim) then value else start[j]
      {
        assert InRow(j, x, w, r, ds, dim) <==> lo <= j < hi;
      }
      r := r + 1;
    }
    assert buffer[..] == FilledWide(start, value, x, y, w, ds, dim);
  }

  /** The inner loop of `apply`: the index range from `lo` up to `hi` set to the value. */
  method FillRange(buffer: array<byte>, value: byte, lo: nat, hi: nat)
    requires lo <= hi <= buffer.Length
    modifies buffer
    ensures forall j :: 0 <= j < buffer.Length ==> buffer[j] == if lo <= j < hi then value else old(buffer[j])
  {
    var i := lo;
    while i < hi
      invariant lo <= i <= hi
      invariant forall j :: 0 <= j < buffer.Length ==> buffer[j] == if lo <= j < i then value else old(buffer[j])
      decreases hi - i
    {
      buffer[i] := value;
      i := i + 1;
    }
  }

  /** The index range row r of a leaf fills, inside the buffer. */
  method RowBounds(x: nat, w: nat, r: nat, ds: nat, dim: nat) returns (lo: nat, hi: nat)
    requires LeafInGrid(x, 0, w, ds, dim) && r < dim * ds
    ensures lo == CoordsToIndex(x / ds, r / ds, dim) && hi == CoordsToIndex((x + w) / ds, r / ds, dim)
    ensures lo <= hi <= dim * dim
  {
    var first, end, row := x / ds, (x + w) / ds, r / ds;
    DivLe(x, x + w, ds);
    BlockInGrid(r, ds, dim);
    DivBound(x + w, ds, dim);
    RowInBuffer(first, end, row, dim);
    lo := CoordsToIndex(first, row, dim);
    hi := CoordsToIndex(end, row, dim);
  }

  /** A tile count within the grid's width gives a block count within its width in blocks. */
  lemma DivBound(n: nat, ds: nat, dim: nat)
    requires ds > 0 && n <= dim * ds
    ensures n / ds <= dim
  {
    DivModUnique(dim * ds, ds, dim, 0);
    DivLe(n, dim * ds, ds);
  }

  lemma RowInBuffer(a: nat, b: nat, row: nat, dim: nat)
    requires a <= b <= dim && row < dim
    ensures a + row * dim <= b + row * dim <= dim * dim
  {
    MulLe(row + 1, dim, dim);
  }

  /** The value and the square of one leaf, as the input visitor sees them. */
  datatype LeafInput = LeafInput(value: byte, x: nat, y: nat, w: nat)

  predicate AllInGrid(leaves: seq<LeafInput>, ds: nat, dim: nat) {
    forall k :: 0 <= k < |leaves| ==> LeafInGrid(leaves[k].x, leaves[k].y, leaves[k].w, ds, dim)
  }

  /** The buffer after the input visitor has applied the leaves in visiting order. */
  function AppliedAll(buf: seq<byte>, leaves: seq<LeafInput>, ds: nat, dim: nat): (r: seq<byte>)
    requires |buf| == dim * dim && AllInGrid(leaves, ds, dim)
    ensures |r| == |buf|
    decreases |leaves|
  {
    if leaves == [] then buf
    else
      var l := leaves[|leaves| - 1];
      Applied(AppliedAll(buf, leaves[..|leaves| - 1], ds, dim), l.value, l.x, l.y, l.w, ds, dim)
  }

  /** The input pass: `visit_leaf` applies each leaf in turn. */
  method ApplyLeaves(buffer: array<byte>, leaves: seq<LeafInput>, ds: nat, dim: nat)
    requires buffer.Length == dim * dim && AllInGrid(leaves, ds, dim)
    modifies buffer
    ensures buffer[..] == AppliedAll(old(buffer[..]), leaves, ds, dim)
  {
    ghost var start := buffer[..];
    var k := 0;
    while k < |leaves|
      invariant 0 <= k <= |leaves|
      invariant buffer[..] == AppliedAll(start, leaves[..k], ds, dim)
      decreases |leaves| - k
    {
      var l := leaves[k];
      Apply(buffer, l.value, l.x, l.y, l.w, ds, dim);
      assert leaves[..k + 1][..k] == leaves[..k];
      k := k + 1;
    }
    assert leaves[..k] == leaves;
  }

  /** `BlurOutputVisitor::visit_leaf`: the buffer index sampled for a leaf, the block holding its centre. */
  function OutputIndex(cx: nat, cy: nat, ds: nat, dim: nat): (r: nat)
    requires LeafInGrid(cx, cy, 1, ds, dim)
    ensures r < dim * dim && IndexToCoords(r, dim) == (cx / ds, cy / ds)
  {
    NarrowIndex(cx, cy, ds, dim)
  }

  /**
   * The tile `BlurredField::sample` returns for a drawn buffer index: the block's
   * corner, scaled up, plus an offset inside the block (the source draws the index
   * and both offsets at random; here they are parameters).
   */
  function SampledTile(index: nat, dx: nat, dy: nat, ds: nat, dim: nat): (r: (nat, nat))
    requires dim > 0 && ds > 0 && dx < ds && dy < ds
    ensures r.0 / ds == index % dim && r.1 / ds == index / dim
    ensures index < dim * dim ==> r.0 < dim * ds && r.1 < dim * ds
  {
    var col := IndexToCoords(index, dim).0;
    var row := IndexToCoords(index, dim).1;
    DivModUnique(col * ds + dx, ds, col, dx);
    DivModUnique(row * ds + dy, ds, row, dy);
    ScaledInGrid(index, dx, dy, ds, dim);
    (col * ds + dx, row * ds + dy)
  }

  lemma ScaledInGrid(index: nat, dx: nat, dy: nat, ds: nat, dim: nat)
    requires dim > 0 && ds > 0 && dx < ds && dy < ds
    ensures index < dim * dim ==>
      (index % dim) * ds + dx < dim * ds && (index / dim) * ds + dy < dim * ds
  {
    if index < dim * dim {
      MulLe(index % dim + 1, dim, ds);
      IndexBelowSquare(index, dim);
      MulLe(index / dim + 1, dim, ds);
    }
  }

  lemma IndexBelowSquare(index: nat, dim: nat)
    requires dim > 0 && index < dim * dim
    ensures index / dim < dim
  {
    DivBound(index, dim, dim);
    if index / dim == dim {
      assert false;
    }
  }

  /** A sampled tile lies in the block that was drawn: reading the buffer at it reads that block. */
  lemma SampledTileInBlock(index: nat, dx: nat, dy: nat, ds: nat, dim: nat)
    requires dim > 0 && ds > 0 && dx < ds && dy < ds && index < dim * dim
    ensures var t := SampledTile(index, dx, dy, ds, dim);
      LeafInGrid(t.0, t.1, 1, ds, dim) && OutputIndex(t.0, t.1, ds, dim) == index
  {
    var t := SampledTile(index, dx, dy, ds, dim);
    IndexRoundTrip(index, dim);
  }

  /** A zeroed buffer of the given length. */
  function Zeros(len: nat): (r: seq<byte>)
    ensures |r| == len && forall i :: 0 <= i < len ==> r[i] == 0
  {
    seq(len, i => 0)
  }

  /**
   * `BlurredField`: the buffer kept between blurs, its dimensions, and whether a
   * sampling distribution is cached.
   */
  class BlurredField {
    var buffer: array<byte>
    var dim: nat
    var downsample: nat
    var distrCached: bool

    /** `BlurredField::default`: an empty buffer. */
    constructor ()
      ensures buffer.Length == 0 && dim == 0 && downsample == 0 && !distrCached
    {
      buffer := new byte[0];
      dim, downsample, distrCached := 0, 0, false;
    }

    /**
     * The buffer's reset in `perform_field_blur`: a new zeroed buffer when the
     * length changes, otherwise the same buffer filled with zeros.
     */
    method ResetBuffer(len: nat)
      modifies this, buffer
      ensures buffer.Length == len && buffer[..] == Zeros(len)
      ensures old(buffer.Length) == len ==> buffer == old(buffer)
      ensures old(buffer.Length) != len ==> fresh(buffer)
      ensures dim == old(dim) && downsample == old(downsample) && distrCached == old(distrCached)
    {
      if buffer.Length != len {
        buffer := new byte[len](i => 0);
      } else {
        FillZeros(buffer);
      }
      assert buffer[..] == Zeros(len);
    }

    /**
     * `perform_field_blur` up to the blur: the downsampling factor (a power of two
     * the source derives from floats) is a parameter, and dim is the tree's width
     * in blocks. After the input pass the dimensions are stored and the cached
     * distribution is dropped.
     */
    method PerformFieldBlur(width: nat, ds: nat, leaves: seq<LeafInput>)
      requires ds > 0 && AllInGrid(leaves, ds, width / ds)
      modifies this, buffer
      ensures dim == width / ds && downsample == ds && !distrCached
      ensures buffer.Length == dim * dim
      ensures buffer[..] == AppliedAll(Zeros(dim * dim), leaves, ds, dim)
    {
      var d := width / ds;
      ResetBuffer(d * d);
      ApplyLeaves(buffer, leaves, ds, d);
      dim := d;
      downsample := ds;
      distrCached := false;
    }
  }

  /** `fill(0)` on the whole buffer. */
  method FillZeros(a: array<byte>)
    modifies a
    ensures a[..] == Zeros(a.Length)
  {
    var i := 0;
    while i < a.Length
      invariant 0 <= i <= a.Length
      invariant forall j :: 0 <= j < i ==> a[j] == 0
      decreases a.Length - i
    {
      a[i] := 0;
      i := i + 1;
    }
    assert a[..] == Zeros(a.Length);
  }

  /** The allocation in the earlier `perform_field_blur`: a fresh zeroed buffer per call. */
  method NewBuffer(dim: nat) returns (buffer: array<byte>)
    ensures fresh(buffer) && buffer.Length == dim * dim && buffer[..] == Zeros(dim * dim)
  {
    buffer := new byte[dim * dim](i => 0);
    assert buffer[..] == Zeros(dim * dim);
  }

  /**
   * The divisor of the unused `scaled_value` as written: the square of
   * `downsample - width + 1`, truncated to a u8, which is 0 whenever the square
   * is a multiple of 256; the division then panics. None stands for that panic.
   */
  function ScaledValueAsWritten(value: byte, ds: nat, w: nat): (r: Option<byte>)
    requires w <= ds
    ensures r.None? <==> ((ds - w + 1) * (ds - w + 1)) % 256 == 0
  {
    var divisor := ((ds - w + 1) * (ds - w + 1)) % 256;
    if divisor == 0 then None else Some((value as int / divisor) as byte)
  }

  /** A narrow leaf of width 1 with 16-tile blocks makes the unused division panic. */
  lemma ScaledValuePanics(value: byte)
    ensures ScaledValueAsWritten(value, 16, 1).None?
    ensures ScaledValueAsWritten(value, 128, 1).None?
  {
  }
}
