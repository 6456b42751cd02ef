/** The row-stacking sparse builder, Crane/Core/SparseMatrixBuilder.cs:
    a list of (row, column, value) triples with a row count and a fixed
    column count. Appending a block shifts its rows below the rows already
    there. The matrix it builds is out of scope beyond its shape. */
module SparseBuilder {
  import opened Common

  datatype Element = Element(row: int, col: int, val: real)

  datatype Builder = Builder(rows: int, cols: int, elems: seq<Element>)

  /** The constructor: no rows, the given number of columns, no elements. */
  function New(columns: int): (b: Builder)
    ensures b.rows == 0 && b.cols == columns && b.elems == []
  {
    Builder(0, columns, [])
  }

  /** A block's elements moved down by `offset` rows. */
  function Shifted(elements: seq<Element>, offset: int): (out: seq<Element>)
    ensures |out| == |elements|
    ensures forall k :: 0 <= k < |out| ==>
              out[k].row == elements[k].row + offset && out[k].col == elements[k].col && out[k].val == elements[k].val
  {
    seq(|elements|, k requires 0 <= k < |elements| =>
      Element(elements[k].row + offset, elements[k].col, elements[k].val))
  }

  /** Append_: None is the exception for a different column count. On
      success the existing elements are kept as they are, each new element
      lands `b.rows` rows lower with its column and value unchanged, and the
      row count grows by exactly `rows`. */
  function Append(b: Builder, rows: int, columns: int, elements: seq<Element>): (r: Option<Builder>)
    ensures r.None? <==> columns != b.cols
    ensures r.Some? ==>
              r.value.rows == b.rows + rows && r.value.cols == b.cols
              && |r.value.elems| == |b.elems| + |elements|
              && r.value.elems[..|b.elems|] == b.elems
              && r.value.elems[|b.elems|..] == Shifted(elements, b.rows)
  {
    if columns != b.cols then None
    else Some(Builder(b.rows + rows, b.cols, b.elems + Shifted(elements, b.rows)))
  }

  /** Append of another builder. */
  function AppendBuilder(b: Builder, other: Builder): (r: Option<Builder>)
    ensures r.None? <==> other.cols != b.cols
    ensures r.Some? ==> r.value.rows == b.rows + other.rows && |r.value.elems| == |b.elems| + |other.elems|
    ensures r.Some? ==> r.value.cols == b.cols && r.value.elems[..|b.elems|] == b.elems
  {
    Append(b, other.rows, other.cols, other.elems)
  }

  /** Every element lies inside the builder's rows and columns: what
      `BuildSparseMatrix` needs to succeed. */
  predicate InRange(b: Builder)
  {
    forall k :: 0 <= k < |b.elems| ==> 0 <= b.elems[k].row < b.rows && 0 <= b.elems[k].col < b.cols
  }

  /** The shape of the matrix `BuildSparseMatrix` builds, or None when an
      element lies outside it. */
  function BuildShape(b: Builder): (r: Option<(int, int)>)
    ensures r.Some? <==> InRange(b)
    ensures r.Some? ==> r.value == (b.rows, b.cols)
  {
    if InRange(b) then Some((b.rows, b.cols)) else None
  }

  /** Stacking in-range blocks stays in range. */
  lemma AppendKeepsInRange(b: Builder, other: Builder)
    requires InRange(b) && InRange(other) && other.cols == b.cols && 0 <= b.rows && 0 <= other.rows
    ensures AppendBuilder(b, other).Some? && InRange(AppendBuilder(b, other).value)
  {
    var moved := Shifted(other.elems, b.rows);
    var r := Builder(b.rows + other.rows, b.cols, b.elems + moved);
    assert AppendBuilder(b, other) == Some(r);
    forall k | 0 <= k < |r.elems|
      ensures 0 <= r.elems[k].row < r.rows && 0 <= r.elems[k].col < r.cols
    {
      if k >= |b.elems| {
        var i := k - |b.elems|;
        assert r.elems[k] == moved[i];
        assert moved[i].row == other.elems[i].row + b.rows && moved[i].col == other.elems[i].col;
      } else {
        assert r.elems[k] == b.elems[k];
      }
    }
  }

  /** A block with rows but no elements only adds rows. */
  lemma AppendEmptyBlock(b: Builder, rows: int)
    ensures Append(b, rows, b.cols, []) == Some(Builder(b.rows + rows, b.cols, b.elems))
  {
    assert b.elems + Shifted([], b.rows) == b.elems;
  }

  /** Shifting distributes over concatenation. */
  lemma ShiftedConcat(xs: seq<Element>, ys: seq<Element>, offset: int)
    ensures Shifted(xs + ys, offset) == Shifted(xs, offset) + Shifted(ys, offset)
  {
    var l := Shifted(xs + ys, offset);
    var r := Shifted(xs, offset) + Shifted(ys, offset);
    forall k | 0 <= k < |l|
      ensures l[k] == r[k]
    {
      if k >= |xs| {
        assert (xs + ys)[k] == ys[k - |xs|];
      }
    }
  }

  /** Two shifts add up. */
  lemma ShiftedShifted(xs: seq<Element>, a: int, c: int)
    ensures Shifted(Shifted(xs, a), c) == Shifted(xs, a + c)
  {
  }

  /** The element lists of the two ways of stacking three blocks agree. */
  lemma StackedElements(be: seq<Element>, xe: seq<Element>, ye: seq<Element>, br: int, xr: int)
    ensures be + Shifted(xe + Shifted(ye, xr), br) == (be + Shifted(xe, br)) + Shifted(ye, br + xr)
  {
    ShiftedConcat(xe, Shifted(ye, xr), br);
    ShiftedShifted(ye, xr, br);
    assert xr + br == br + xr;
  }

  /** Stacking is associative: appending `x` and then `y` gives the same
      builder as appending the stack of `x` and `y`. */
  lemma AppendAssociative(b: Builder, x: Builder, y: Builder)
    requires x.cols == b.cols && y.cols == b.cols
    ensures var xy := AppendBuilder(x, y);
            var bx := AppendBuilder(b, x);
            xy.Some? && bx.Some? && AppendBuilder(b, xy.value) == AppendBuilder(bx.value, y)
  {
    var xy := Builder(x.rows + y.rows, x.cols, x.elems + Shifted(y.elems, x.rows));
    var bx := Builder(b.rows + x.rows, b.cols, b.elems + Shifted(x.elems, b.rows));
    StackedElements(b.elems, x.elems, y.elems, b.rows, x.rows);
    assert AppendBuilder(b, xy) == AppendBuilder(bx, y);
  }
}
