/** The index arithmetic of
    Crane/Patterns/TessellationOnSurface/TessellationOnDoubleSurface.cs:
    a unit cell (points given by a layer and (u, v) parameters in the
    unit square, and faces over those points) is repeated over a
    UCount x VCount grid of parameter cells of a top and a bottom surface.

    The unit tables come from the concrete patterns and are inputs here;
    evaluating a surface at a parameter and the final Weld are Rhino
    geometry. */
module SurfaceTessellation {
  import opened Common
  import opened CMesh
  import opened Utils

  // ---------------------------------------------------------- parameters

  /** SetUnitParameterLength: the domain split into `count` equal cells.
      A count of zero divides by zero (a non-finite double): None. */
  function UnitLength(domainLength: real, count: int): (r: Option<real>)
    ensures r.Some? <==> count != 0
    ensures r.Some? ==> r.value * count as real == domainLength
  {
    if count == 0 then None else Some(domainLength / count as real)
  }

  /** One surface parameter of GetSurfacePoint: the cell index plus the
      unit parameter, scaled to the cell length, from the domain start. */
  function Parameter(cell: int, unitParam: real, unitLength: real, start: real): real
  {
    (cell as real + unitParam) * unitLength + start
  }

  /** A unit parameter in [0, 1] lands inside its own cell, and so inside
      the domain. */
  lemma ParameterInCell(cell: int, count: int, unitParam: real, domainLength: real, start: real)
    requires 0 <= cell < count && 0.0 <= unitParam <= 1.0 && domainLength >= 0.0
    ensures var len := UnitLength(domainLength, count).value;
            var t := Parameter(cell, unitParam, len, start);
            start + cell as real * len <= t <= start + (cell + 1) as real * len
            && start <= t <= start + domainLength
  {
    var len := UnitLength(domainLength, count).value;
    assert len >= 0.0;
    var t := Parameter(cell, unitParam, len, start);
    var x := cell as real;
    assert t == start + x * len + unitParam * len;
    assert x * len >= 0.0;
    assert unitParam * len >= 0.0;
    assert len - unitParam * len == (1.0 - unitParam) * len;
    assert (x + 1.0) * len == x * len + len;
    assert count as real * len - (x + 1.0) * len == (count as real - x - 1.0) * len;
    assert count as real - x - 1.0 >= 0.0 by {
      assert (count - cell - 1) as real == count as real - x - 1.0;
    }
    RealMulNonneg(count as real - x - 1.0, len);
    assert count as real * len == domainLength;
  }

  /** A unit point: which surface (0 the top one) and its parameters in
      the unit square. */
  datatype UnitPoint = UnitPoint(layer: int, u: real, v: real)

  datatype Surface = Top | Bottom

  /** The surface and parameters GetSurfacePoint evaluates. */
  datatype Sample = Sample(surface: Surface, u: real, v: real)

  /** GetSurfacePoint: layer 0 samples the top surface, any other layer
      the bottom one. */
  function SurfacePoint(unitPoints: seq<UnitPoint>, uLength: real, vLength: real, uStart: real, vStart: real,
                        u: int, v: int, i: int): (s: Sample)
    requires 0 <= i < |unitPoints|
    ensures s.surface == Top <==> unitPoints[i].layer == 0
    ensures s.u == Parameter(u, unitPoints[i].u, uLength, uStart)
    ensures s.v == Parameter(v, unitPoints[i].v, vLength, vStart)
  {
    var p := unitPoints[i];
    Sample(if p.layer == 0 then Top else Bottom,
           (u as real + p.u) * uLength + uStart,
           (v as real + p.v) * vLength + vStart)
  }

  // -------------------------------------------------------------- points

  /** The position of unit point `i` of cell (u, v) in the point list:
      cells in loop order (u outer, v inner), unit points within a cell. */
  function PointIndex(vCount: nat, unitPointCount: nat, u: nat, v: nat, i: nat): nat
  {
    unitPointCount * (u * vCount + v) + i
  }

  /** The cell and unit point the triple loop of SetTessellation adds at
      position `k`. */
  function PointAt(vCount: nat, unitPointCount: nat, k: nat): (r: (nat, nat, nat))
    requires vCount > 0 && unitPointCount > 0
  {
    var cell := k / unitPointCount;
    (cell / vCount, cell % vCount, k % unitPointCount)
  }

  /** Position and loop step are inverse: every point of every cell has
      one position, below UCount * VCount * UnitPointCount. */
  lemma PointIndexRoundTrip(uCount: nat, vCount: nat, unitPointCount: nat, u: nat, v: nat, i: nat)
    requires u < uCount && v < vCount && i < unitPointCount
    ensures PointIndex(vCount, unitPointCount, u, v, i) < uCount * vCount * unitPointCount
    ensures PointAt(vCount, unitPointCount, PointIndex(vCount, unitPointCount, u, v, i)) == (u, v, i)
  {
    var cell := u * vCount + v;
    assert PointIndex(vCount, unitPointCount, u, v, i) == cell * unitPointCount + i;
    DivModUnique(cell, i, unitPointCount);
    DivModUnique(u, v, vCount);
    CellBelow(uCount, vCount, u, v);
    BlockBelow(uCount * vCount, unitPointCount, cell, i);
  }

  /** Cell (u, v) in loop order is below UCount * VCount. */
  lemma CellBelow(uCount: nat, vCount: nat, u: nat, v: nat)
    requires u < uCount && v < vCount
    ensures u * vCount + v < uCount * vCount
  {
    assert (u + 1) * vCount <= uCount * vCount;
  }

  /** Item `i` of block `b`, blocks of `size`, stays below the total. */
  lemma BlockBelow(blocks: nat, size: nat, b: nat, i: nat)
    requires b < blocks && i < size
    ensures b * size + i < blocks * size
  {
    assert (b + 1) * size <= blocks * size;
  }

  // --------------------------------------------------------------- faces

  /** A unit face usable by AddFace: three or four point indices. */
  predicate Usable(f: seq<int>)
  {
    |f| == 3 || |f| == 4
  }

  /** A unit face moved to the points at `offset`. */
  function ShiftUnitFace(f: seq<int>, offset: int): Face
    requires Usable(f)
  {
    if |f| == 3 then Triangle(offset + f[0], offset + f[1], offset + f[2])
    else Face(offset + f[0], offset + f[1], offset + f[2], offset + f[3])
  }

  /** The faces one cell adds: each unit face of three or four indices,
      moved to `offset`; other unit faces are dropped. */
  function CellFaces(unitFaces: seq<seq<int>>, offset: int): (r: seq<Face>)
    ensures |r| <= |unitFaces|
    ensures forall g :: g in r <==> exists f :: f in unitFaces && Usable(f) && g == ShiftUnitFace(f, offset)
  {
    if |unitFaces| == 0 then []
    else
      var n := |unitFaces| - 1;
      var prev := CellFaces(unitFaces[..n], offset);
      assert unitFaces == unitFaces[..n] + [unitFaces[n]];
      prev + (if Usable(unitFaces[n]) then [ShiftUnitFace(unitFaces[n], offset)] else [])
  }

  /** The block of points the faces of the `c`-th cell (loop order) are
      put on: UnitPointCount * (u + UCount * v). */
  function FaceBlock(uCount: nat, vCount: nat, c: nat): nat
    requires vCount > 0
  {
    c / vCount + uCount * (c % vCount)
  }

  /** The faces of the first `k` cells, in the order SetTessellation adds
      them. */
  function FacesUpTo(uCount: nat, vCount: nat, unitPointCount: nat, unitFaces: seq<seq<int>>, k: nat): (r: seq<Face>)
    requires vCount > 0
    ensures forall g :: g in r <==>
              exists c :: 0 <= c < k && g in CellFaces(unitFaces, unitPointCount * FaceBlock(uCount, vCount, c))
  {
    if k == 0 then []
    else
      var prev := FacesUpTo(uCount, vCount, unitPointCount, unitFaces, k - 1);
      prev + CellFaces(unitFaces, unitPointCount * FaceBlock(uCount, vCount, k - 1))
  }

  /** SetTessellation's faces. */
  function TessellationFaces(uCount: nat, vCount: nat, unitPointCount: nat, unitFaces: seq<seq<int>>): (r: seq<Face>)
  {
    if vCount == 0 then [] else FacesUpTo(uCount, vCount, unitPointCount, unitFaces, uCount * vCount)
  }

  /** (u, v) -> u + UCount * v sends the cells onto the blocks
      0 .. UCount * VCount - 1, one cell per block. */
  lemma FaceBlockBijective(uCount: nat, vCount: nat, b: nat)
    requires vCount > 0
    ensures forall c :: 0 <= c < uCount * vCount ==> FaceBlock(uCount, vCount, c) < uCount * vCount
    ensures b < uCount * vCount ==> exists c :: 0 <= c < uCount * vCount && FaceBlock(uCount, vCount, c) == b
  {
    forall c | 0 <= c < uCount * vCount
      ensures FaceBlock(uCount, vCount, c) < uCount * vCount
    {
      FaceBlockBelow(uCount, vCount, c);
    }
    if b < uCount * vCount {
      var c := FaceBlockOnto(uCount, vCount, b);
    }
  }

  lemma FaceBlockBelow(uCount: nat, vCount: nat, c: nat)
    requires vCount > 0 && c < uCount * vCount
    ensures FaceBlock(uCount, vCount, c) < uCount * vCount
  {
    var u, v := c / vCount, c % vCount;
    assert c == u * vCount + v;
    MulMonotone(uCount, u, vCount);
    assert u < uCount;
    CellBelow(vCount, uCount, v, u);
    assert FaceBlock(uCount, vCount, c) == v * uCount + u;
  }

  lemma FaceBlockOnto(uCount: nat, vCount: nat, b: nat) returns (c: nat)
    requires vCount > 0 && b < uCount * vCount
    ensures c < uCount * vCount && FaceBlock(uCount, vCount, c) == b
  {
    var u, v := SplitBlock(b, uCount, vCount);
    c := u * vCount + v;
    CellBelow(uCount, vCount, u, v);
    FaceBlockAt(uCount, vCount, u, v);
  }

  lemma FaceBlockAt(uCount: nat, vCount: nat, u: nat, v: nat)
    requires v < vCount
    ensures FaceBlock(uCount, vCount, u * vCount + v) == v * uCount + u
  {
    DivModUnique(u, v, vCount);
  }

  /** A block below uCount * vCount splits into its column below uCount
      and its row below vCount. */
  lemma SplitBlock(b: nat, uCount: nat, vCount: nat) returns (u: nat, v: nat)
    requires b < uCount * vCount
    ensures u < uCount && v < vCount && b == v * uCount + u
  {
    u, v := b % uCount, b / uCount;
    MulMonotone(vCount, v, uCount);
  }


  /** The tessellation holds exactly the unit faces moved onto every
      block of points: as a set, the faces do not depend on which cell is
      sent to which block. */
  lemma TessellationFacesOnBlocks(uCount: nat, vCount: nat, unitPointCount: nat, unitFaces: seq<seq<int>>, g: Face)
    requires vCount > 0
    ensures g in TessellationFaces(uCount, vCount, unitPointCount, unitFaces) <==>
            exists b :: 0 <= b < uCount * vCount && g in CellFaces(unitFaces, unitPointCount * b)
  {
    if g in TessellationFaces(uCount, vCount, unitPointCount, unitFaces) {
      var c :| 0 <= c < uCount * vCount && g in CellFaces(unitFaces, unitPointCount * FaceBlock(uCount, vCount, c));
      FaceBlockBijective(uCount, vCount, 0);
      assert FaceBlock(uCount, vCount, c) < uCount * vCount;
    }
    if b :| 0 <= b < uCount * vCount && g in CellFaces(unitFaces, unitPointCount * b) {
      FaceBlockBijective(uCount, vCount, b);
      var c :| 0 <= c < uCount * vCount && FaceBlock(uCount, vCount, c) == b;
      assert g in CellFaces(unitFaces, unitPointCount * FaceBlock(uCount, vCount, c));
    }
  }

  /** Every face index is a point of the tessellation when the unit faces
      index unit points. */
  lemma TessellationFacesInRange(uCount: nat, vCount: nat, unitPointCount: nat, unitFaces: seq<seq<int>>, g: Face, k: int)
    requires vCount > 0 && 0 <= k < 4
    requires forall f, m :: f in unitFaces && 0 <= m < |f| ==> 0 <= f[m] < unitPointCount
    requires g in TessellationFaces(uCount, vCount, unitPointCount, unitFaces)
    ensures 0 <= FaceCorner(g, k) < uCount * vCount * unitPointCount
  {
    var b := BlockOf(uCount, vCount, unitPointCount, unitFaces, g);
    var x := CellFacesCorner(unitFaces, unitPointCount, unitPointCount * b, g, k);
    OffsetBelow(uCount * vCount, unitPointCount, b, x);
  }

  /** Item `x` of block `b` stays below the total, block-major. */
  lemma OffsetBelow(blocks: nat, size: nat, b: nat, x: nat)
    requires b < blocks && x < size
    ensures 0 <= size * b + x < blocks * size
  {
    BlockBelow(blocks, size, b, x);
    assert size * b == b * size;
  }

  /** The block a face of the tessellation was put on. */
  lemma BlockOf(uCount: nat, vCount: nat, unitPointCount: nat, unitFaces: seq<seq<int>>, g: Face) returns (b: nat)
    requires vCount > 0
    requires g in TessellationFaces(uCount, vCount, unitPointCount, unitFaces)
    ensures b < uCount * vCount && g in CellFaces(unitFaces, unitPointCount * b)
  {
    TessellationFacesOnBlocks(uCount, vCount, unitPointCount, unitFaces, g);
    b :| 0 <= b < uCount * vCount && g in CellFaces(unitFaces, unitPointCount * b);
  }

  /** A corner of a cell's face is the offset plus a unit point index. */
  lemma CellFacesCorner(unitFaces: seq<seq<int>>, unitPointCount: nat, offset: int, g: Face, k: int) returns (x: nat)
    requires 0 <= k < 4
    requires forall f, m :: f in unitFaces && 0 <= m < |f| ==> 0 <= f[m] < unitPointCount
    requires g in CellFaces(unitFaces, offset)
    ensures x < unitPointCount && FaceCorner(g, k) == offset + x
  {
    var f: seq<int> :| f in unitFaces && Usable(f) && g == ShiftUnitFace(f, offset);
    var m := if k < |f| then k else 2;
    x := f[m];
  }

  /** The faces of cell (u, v) go on the block the point loop filled for
      cell (v', u') with u' * VCount + v' = u + UCount * v: with UCount = 2
      and VCount = 3 the faces of cell (1, 0) sit on the points sampled
      for cell (0, 1). */
  lemma FacesUseOtherCellsPoints()
    ensures FaceBlock(2, 3, 3) == 1 && PointIndex(3, 1, 1, 0, 0) == 3 && PointIndex(3, 1, 0, 1, 0) == 1
  {
  }
}
