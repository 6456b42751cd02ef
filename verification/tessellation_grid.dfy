/** The index arithmetic of Crane/Patterns/TessellationOnDoubleSurface.cs:
    two surfaces are sampled on the same (M*U + 1) x (N*V + 1) parameter
    grid, every grid point becomes a top and a bottom vertex, and a unit
    pattern spanning M x N grid intervals is stamped on each of the
    U x V cells, together with the faces that bridge a cell to its right,
    upper and diagonal neighbours.

    The unit pattern (the vertex list and the four face lists a concrete
    pattern supplies) is an input; evaluating a surface at a parameter,
    Compact and the normals are Rhino geometry. A missing dictionary key
    or a vertex-list index out of range throws in the source and is None
    here. */
module GridTessellation {
  import opened Common
  import opened CMesh
  import opened Utils

  // ----------------------------------------------------------- sampling

  /** DivideSurface's parameter `i` along one direction of the domain
      [t0, t1] cut into `count` intervals. A count of zero divides by zero
      (a non-finite step): None. */
  function GridParameter(t0: real, t1: real, count: int, i: int): (r: Option<real>)
    ensures r.Some? <==> count != 0
  {
    if count == 0 then None else Some(t0 + i as real * ((t1 - t0) / count as real))
  }

  /** The grid starts and ends on the domain's ends, and steps forward
      through it. */
  lemma GridParameterSpansDomain(t0: real, t1: real, count: int, i: int, j: int)
    requires count > 0 && t0 <= t1
    ensures GridParameter(t0, t1, count, 0).value == t0
    ensures GridParameter(t0, t1, count, count).value == t1
    ensures 0 <= i <= j ==> GridParameter(t0, t1, count, i).value <= GridParameter(t0, t1, count, j).value
  {
    var step := (t1 - t0) / count as real;
    assert count as real * step == t1 - t0;
    assert step >= 0.0;
    if 0 <= i <= j {
      assert j as real * step - i as real * step == (j - i) as real * step;
      RealMulNonneg((j - i) as real, step);
    }
  }

  // ----------------------------------------------------------- vertices

  /** A dictionary key of CreateMesh: the surface (0 the first one), and
      the grid point's indices. Unit vertices of a pattern use the same
      shape, relative to their cell's corner. */
  datatype GridKey = GridKey(layer: int, i: int, j: int)

  /** The keys CreateMesh's loops have filled before grid point (i, j),
      the loops running over i, then j, with `cols` points per row. */
  predicate Filled(key: GridKey, i: int, j: int, cols: int)
  {
    (key.layer == 0 || key.layer == 1) && 0 <= key.i && 0 <= key.j < cols
    && (key.i < i || (key.i == i && key.j < j))
  }

  /** A key of a grid of `rows` x `cols` points. */
  predicate InGrid(key: GridKey, rows: int, cols: int)
  {
    (key.layer == 0 || key.layer == 1) && 0 <= key.i < rows && 0 <= key.j < cols
  }

  /** The vertex CreateMesh gives a key: two per grid point, in loop
      order, the top one first. */
  function VertexId(cols: int, key: GridKey): int
  {
    2 * (key.i * cols + key.j) + key.layer
  }

  /** CreateMesh's vertex loop: the vertex list (each vertex named by the
      key whose sample it holds) and the key -> vertex dictionary. The
      dictionary holds exactly the grid's keys, and it and the vertex list
      are inverse to each other, so every vertex has one key. */
  method BuildVertexMap(rows: nat, cols: nat) returns (vmap: map<GridKey, int>, points: seq<GridKey>)
    ensures |points| == 2 * rows * cols
    ensures forall key :: key in vmap <==> InGrid(key, rows, cols)
    ensures forall key :: key in vmap ==> vmap[key] == VertexId(cols, key)
    ensures forall key :: key in vmap ==> 0 <= vmap[key] < |points| && points[vmap[key]] == key
    ensures forall n :: 0 <= n < |points| ==> points[n] in vmap && vmap[points[n]] == n
  {
    vmap := map[];
    points := [];
    var i := 0;
    while i < rows
      invariant 0 <= i <= rows
      invariant |points| == 2 * (i * cols)
      invariant forall key :: key in vmap <==> Filled(key, i, 0, cols)
      invariant forall key :: key in vmap ==> vmap[key] == VertexId(cols, key)
      invariant forall key :: key in vmap ==> 0 <= vmap[key] < |points| && points[vmap[key]] == key
      invariant forall n :: 0 <= n < |points| ==> points[n] in vmap && vmap[points[n]] == n
    {
      vmap, points := FillRow(vmap, points, i, cols);
      assert (i + 1) * cols == i * cols + cols;
      i := i + 1;
    }
    assert rows * cols == i * cols;
  }

  /** The inner loop of CreateMesh's vertex loop: row `i`, the vertex
      counter running on from the vertices already added. */
  method FillRow(vmap0: map<GridKey, int>, points0: seq<GridKey>, i: int, cols: nat)
    returns (vmap: map<GridKey, int>, points: seq<GridKey>)
    requires i >= 0 && |points0| == 2 * (i * cols)
    requires forall key :: key in vmap0 <==> Filled(key, i, 0, cols)
    requires forall key :: key in vmap0 ==> vmap0[key] == VertexId(cols, key)
    requires forall key :: key in vmap0 ==> 0 <= vmap0[key] < |points0| && points0[vmap0[key]] == key
    requires forall n :: 0 <= n < |points0| ==> points0[n] in vmap0 && vmap0[points0[n]] == n
    ensures |points| == 2 * (i * cols + cols)
    ensures forall key :: key in vmap <==> Filled(key, i + 1, 0, cols)
    ensures forall key :: key in vmap ==> vmap[key] == VertexId(cols, key)
    ensures forall key :: key in vmap ==> 0 <= vmap[key] < |points| && points[vmap[key]] == key
    ensures forall n :: 0 <= n < |points| ==> points[n] in vmap && vmap[points[n]] == n
  {
    vmap, points := vmap0, points0;
    var vertId := |points0|;
    var j := 0;
    while j < cols
      invariant 0 <= j <= cols
      invariant vertId == 2 * (i * cols + j) == |points|
      invariant forall key :: key in vmap <==> Filled(key, i, j, cols)
      invariant forall key :: key in vmap ==> vmap[key] == VertexId(cols, key)
      invariant forall key :: key in vmap ==> 0 <= vmap[key] < |points| && points[vmap[key]] == key
      invariant forall n :: 0 <= n < |points| ==> points[n] in vmap && vmap[points[n]] == n
    {
      var top, bottom := GridKey(0, i, j), GridKey(1, i, j);
      points := points + [top, bottom];
      vmap := vmap[top := vertId][bottom := vertId + 1];
      vertId := vertId + 2;
      j := j + 1;
    }
  }

  // -------------------------------------------------------------- faces

  /** A concrete pattern: its cell size in grid intervals (M, N), its unit
      vertices, the faces inside a cell (faces1) and those bridging to the
      next cell in j (faces2), in i (faces3) and in both (faces4). */
  datatype UnitPattern = UnitPattern(m: int, n: int, vList: seq<GridKey>,
                                     faces1: seq<seq<int>>, faces2: seq<seq<int>>,
                                     faces3: seq<seq<int>>, faces4: seq<seq<int>>)

  function Shift(key: GridKey, di: int, dj: int): GridKey
  {
    GridKey(key.layer, key.i + di, key.j + dj)
  }

  /** Unit vertex `x`, moved by (di, dj), has a vertex: it is in the
      vertex list and its key is in the dictionary. */
  predicate Resolves(vList: seq<GridKey>, vmap: map<GridKey, int>, x: int, di: int, dj: int)
  {
    0 <= x < |vList| && Shift(vList[x], di, dj) in vmap
  }

  predicate AllResolve(vList: seq<GridKey>, vmap: map<GridKey, int>, face: seq<int>, di: int, dj: int)
  {
    forall t :: 0 <= t < |face| ==> Resolves(vList, vmap, face[t], di, dj)
  }

  /** A unit face AddFaces adds: three or four indices. */
  predicate Usable(face: seq<int>)
  {
    |face| == 3 || |face| == 4
  }

  function Lookup(vList: seq<GridKey>, vmap: map<GridKey, int>, x: int, di: int, dj: int): int
    requires Resolves(vList, vmap, x, di, dj)
  {
    vmap[Shift(vList[x], di, dj)]
  }

  /** One unit face, moved by (di, dj): a triangle or a quad, nothing for
      another length, None when a corner does not resolve. */
  function UnitFace(vList: seq<GridKey>, vmap: map<GridKey, int>, face: seq<int>, di: int, dj: int): (r: Option<seq<Face>>)
    ensures r.Some? <==> (Usable(face) ==> AllResolve(vList, vmap, face, di, dj))
    ensures r.Some? ==> |r.value| == (if Usable(face) then 1 else 0)
    ensures r.Some? && Usable(face) ==>
              forall k :: 0 <= k < |face| ==> FaceCorner(r.value[0], k) == Lookup(vList, vmap, face[k], di, dj)
  {
    if !Usable(face) then Some([])
    else if !AllResolve(vList, vmap, face, di, dj) then None
    else if |face| == 3 then
      Some([Triangle(Lookup(vList, vmap, face[0], di, dj), Lookup(vList, vmap, face[1], di, dj),
                     Lookup(vList, vmap, face[2], di, dj))])
    else
      Some([Face(Lookup(vList, vmap, face[0], di, dj), Lookup(vList, vmap, face[1], di, dj),
                 Lookup(vList, vmap, face[2], di, dj), Lookup(vList, vmap, face[3], di, dj))])
  }

  /** Every corner of every face is a vertex of the dictionary. */
  predicate CornersIn(faces: seq<Face>, vmap: map<GridKey, int>)
  {
    forall g, k :: g in faces && 0 <= k < 4 ==> FaceCorner(g, k) in vmap.Values
  }

  /** A foreach over a face list, moved by (di, dj): it completes exactly
      when every usable face's corners resolve, and then only uses
      dictionary vertices. */
  function ListFaces(vList: seq<GridKey>, vmap: map<GridKey, int>, faces: seq<seq<int>>, di: int, dj: int): (r: Option<seq<Face>>)
    ensures r.Some? <==> forall face :: face in faces && Usable(face) ==> AllResolve(vList, vmap, face, di, dj)
    ensures r.Some? ==> |r.value| <= |faces| && CornersIn(r.value, vmap)
    decreases |faces|
  {
    if |faces| == 0 then Some([])
    else
      var first := UnitFace(vList, vmap, faces[0], di, dj);
      var rest := ListFaces(vList, vmap, faces[1..], di, dj);
      assert forall face :: face in faces <==> face == faces[0] || face in faces[1..];
      if first.None? || rest.None? then None
      else
        UnitFaceCornersIn(vList, vmap, faces[0], di, dj, first.value);
        Some(first.value + rest.value)
  }

  lemma UnitFaceCornersIn(vList: seq<GridKey>, vmap: map<GridKey, int>, face: seq<int>, di: int, dj: int, added: seq<Face>)
    requires UnitFace(vList, vmap, face, di, dj) == Some(added)
    ensures CornersIn(added, vmap)
  {
    if Usable(face) {
      var g := added[0];
      forall k | 0 <= k < 4
        ensures FaceCorner(g, k) in vmap.Values
      {
        var t := if k < |face| then k else 2;
        assert FaceCorner(g, k) == Lookup(vList, vmap, face[t], di, dj);
      }
    }
  }

  /** The face lists AddFaces walks for cell (i, j): the cell's own
      faces, those to the next cell in j unless j is the last column,
      those to the next cell in i unless i is the last row, and the
      diagonal ones unless either is last. */
  function CellLists(p: UnitPattern, uCount: int, vCount: int, i: int, j: int): (r: seq<seq<int>>)
    ensures forall face :: face in r <==>
              face in p.faces1 || (j < vCount - 1 && face in p.faces2) || (i < uCount - 1 && face in p.faces3)
              || (i < uCount - 1 && j < vCount - 1 && face in p.faces4)
  {
    p.faces1 + (if j < vCount - 1 then p.faces2 else []) + (if i < uCount - 1 then p.faces3 else [])
    + (if i < uCount - 1 && j < vCount - 1 then p.faces4 else [])
  }

  /** The faces AddFaces adds for cell (i, j), its unit faces moved by
      (i * M, j * N). */
  function CellFaces(p: UnitPattern, vmap: map<GridKey, int>, uCount: int, vCount: int, i: int, j: int): Option<seq<Face>>
  {
    ListFaces(p.vList, vmap, CellLists(p, uCount, vCount, i, j), i * p.m, j * p.n)
  }

  /** The faces of the first `k` cells, i outer and j inner. */
  function CellsFaces(p: UnitPattern, vmap: map<GridKey, int>, uCount: nat, vCount: nat, k: nat): (r: Option<seq<Face>>)
    requires vCount > 0
    ensures r.Some? <==> forall c :: 0 <= c < k ==> CellFaces(p, vmap, uCount, vCount, c / vCount, c % vCount).Some?
    ensures r.Some? ==> CornersIn(r.value, vmap)
  {
    if k == 0 then Some([])
    else
      var prev := CellsFaces(p, vmap, uCount, vCount, k - 1);
      var cell := CellFaces(p, vmap, uCount, vCount, (k - 1) / vCount, (k - 1) % vCount);
      if prev.None? || cell.None? then None else Some(prev.value + cell.value)
  }

  /** AddFaces over all U x V cells. */
  function GridFaces(p: UnitPattern, vmap: map<GridKey, int>, uCount: nat, vCount: nat): Option<seq<Face>>
  {
    if vCount == 0 then Some([]) else CellsFaces(p, vmap, uCount, vCount, uCount * vCount)
  }

  // ------------------------------------------------------ fitting pattern

  /** A unit vertex within `reachI` x `reachJ` cells of M x N intervals
      from its cell's corner, on one of the two surfaces. */
  predicate KeyFits(key: GridKey, reachI: int, reachJ: int, m: int, n: int)
  {
    (key.layer == 0 || key.layer == 1) && 0 <= key.i <= reachI * m && 0 <= key.j <= reachJ * n
  }

  /** Every usable face of a list indexes the vertex list, and its
      vertices lie within the given reach. */
  predicate ListFits(p: UnitPattern, faces: seq<seq<int>>, reachI: int, reachJ: int)
  {
    forall face, t :: face in faces && Usable(face) && 0 <= t < |face| ==>
      0 <= face[t] < |p.vList| && KeyFits(p.vList[face[t]], reachI, reachJ, p.m, p.n)
  }

  /** A pattern whose own faces stay in one cell and whose bridging faces
      reach no further than the neighbour they bridge to. */
  predicate PatternFits(p: UnitPattern)
  {
    p.m >= 0 && p.n >= 0
    && ListFits(p, p.faces1, 1, 1) && ListFits(p, p.faces2, 1, 2)
    && ListFits(p, p.faces3, 2, 1) && ListFits(p, p.faces4, 2, 2)
  }

  /** Offset `a` within `reach` cells of `size` from cell `i` stays on the
      grid of `count` cells. */
  lemma ShiftFits(a: int, i: int, size: int, reach: int, count: int)
    requires size >= 0 && 0 <= a <= reach * size && 0 <= i && i + reach <= count
    ensures 0 <= a + i * size <= size * count
  {
    assert a + i * size <= (reach + i) * size;
    assert (count - reach - i) * size >= 0;
    assert count * size - (reach + i) * size == (count - reach - i) * size;
  }

  /** The selection rules of AddFaces are what keeps a fitting pattern on
      the grid: on the (M*U + 1) x (N*V + 1) grid every key a cell looks up
      exists. */
  lemma CellFacesResolve(p: UnitPattern, vmap: map<GridKey, int>, uCount: nat, vCount: nat, i: nat, j: nat)
    requires PatternFits(p) && i < uCount && j < vCount
    requires forall key :: key in vmap <==> InGrid(key, p.m * uCount + 1, p.n * vCount + 1)
    ensures CellFaces(p, vmap, uCount, vCount, i, j).Some?
  {
    var lists := CellLists(p, uCount, vCount, i, j);
    forall face | face in lists && Usable(face)
      ensures AllResolve(p.vList, vmap, face, i * p.m, j * p.n)
    {
      forall t | 0 <= t < |face|
        ensures Resolves(p.vList, vmap, face[t], i * p.m, j * p.n)
      {
        var ri, rj;
        if face in p.faces1 {
          ri, rj := 1, 1;
        } else if j < vCount - 1 && face in p.faces2 {
          ri, rj := 1, 2;
        } else if i < uCount - 1 && face in p.faces3 {
          ri, rj := 2, 1;
        } else {
          ri, rj := 2, 2;
        }
        var key := p.vList[face[t]];
        assert KeyFits(key, ri, rj, p.m, p.n);
        ShiftFits(key.i, i, p.m, ri, uCount);
        ShiftFits(key.j, j, p.n, rj, vCount);
        assert InGrid(Shift(key, i * p.m, j * p.n), p.m * uCount + 1, p.n * vCount + 1);
      }
    }
  }

  /** The cell `c` of the loop order lies on the U x V grid. */
  lemma CellOnGrid(uCount: nat, vCount: nat, c: nat)
    requires vCount > 0 && c < uCount * vCount
    ensures c / vCount < uCount && c % vCount < vCount
  {
    var u := c / vCount;
    assert c == u * vCount + c % vCount;
    MulMonotone(uCount, u, vCount);
  }

  /** With a fitting pattern every cell's lookups succeed. */
  lemma GridFacesResolve(p: UnitPattern, vmap: map<GridKey, int>, uCount: nat, vCount: nat)
    requires PatternFits(p)
    requires forall key :: key in vmap <==> InGrid(key, p.m * uCount + 1, p.n * vCount + 1)
    ensures GridFaces(p, vmap, uCount, vCount).Some?
  {
    if vCount > 0 {
      forall c | 0 <= c < uCount * vCount
        ensures CellFaces(p, vmap, uCount, vCount, c / vCount, c % vCount).Some?
      {
        CellOnGrid(uCount, vCount, c);
        CellFacesResolve(p, vmap, uCount, vCount, c / vCount, c % vCount);
      }
    }
  }

  /** Every corner of the faces is a vertex of a dictionary whose values
      are below `count`. */
  lemma CornersBelow(faces: seq<Face>, vmap: map<GridKey, int>, count: int)
    requires CornersIn(faces, vmap)
    requires forall key :: key in vmap ==> 0 <= vmap[key] < count
    ensures forall g, k :: g in faces && 0 <= k < 4 ==> 0 <= FaceCorner(g, k) < count
  {
    forall g, k | g in faces && 0 <= k < 4
      ensures 0 <= FaceCorner(g, k) < count
    {
      var x := FaceCorner(g, k);
      assert x in vmap.Values;
      var key :| key in vmap && vmap[key] == x;
    }
  }

  /** CreateMesh with a fitting pattern never throws, and every face
      corner is one of the 2 (M*U + 1)(N*V + 1) vertices. */
  method CreateGridMesh(p: UnitPattern, uCount: nat, vCount: nat) returns (vertexCount: int, faces: Option<seq<Face>>)
    requires PatternFits(p)
    ensures vertexCount == 2 * (p.m * uCount + 1) * (p.n * vCount + 1)
    ensures faces.Some?
    ensures forall g, k :: g in faces.value && 0 <= k < 4 ==> 0 <= FaceCorner(g, k) < vertexCount
  {
    var rows: nat := p.m * uCount + 1;
    var cols: nat := p.n * vCount + 1;
    var vmap, points := BuildVertexMap(rows, cols);
    vertexCount := |points|;
    GridFacesResolve(p, vmap, uCount, vCount);
    faces := GridFaces(p, vmap, uCount, vCount);
    CornersBelow(faces.value, vmap, vertexCount);
  }
}
