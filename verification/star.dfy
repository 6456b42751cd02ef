/** The index bookkeeping of Crane/Patterns/StarOrigamize.cs: every face
    of a mesh is shrunk to a face of its own with fresh corner vertices,
    and around every interior edge two triangles join an original vertex
    to the shrunk corners of the two faces beside the edge.

    The orientation helpers (GetFaceLeftVertexIndexPair, SortFacePair,
    IsCounterclockwise) are written out identically in
    Crane/Patterns/TessellationOnMesh/TruncatedStarOrigamize.cs, which
    reuses this module.

    Offsets along normals, face centres and the final Compact are Rhino
    geometry; the walk of the edges around a vertex (its sorted
    ConnectedEdges with their far ends and adjacent faces) is an input. */
module Star {
  import opened Common
  import opened CMesh
  import opened Utils

  // ------------------------------------------------------ consecutive blocks

  /** The sum of a list of block sizes. */
  function Total(sizes: seq<nat>): nat
  {
    if |sizes| == 0 then 0 else Total(sizes[..|sizes| - 1]) + sizes[|sizes| - 1]
  }

  /** Numbering items block after block: item `j` of block `i`. */
  function BlockId(sizes: seq<nat>, i: nat, j: nat): nat
    requires i <= |sizes|
  {
    Total(sizes[..i]) + j
  }

  /** Every block starts where the previous ones end. */
  lemma {:induction false} BlockEnds(sizes: seq<nat>, i: nat, k: nat)
    requires i < k <= |sizes|
    ensures Total(sizes[..i]) + sizes[i] <= Total(sizes[..k])
    decreases k
  {
    assert sizes[..k][..k - 1] == sizes[..k - 1];
    if k == i + 1 {
      assert sizes[..k][k - 1] == sizes[i];
    } else {
      BlockEnds(sizes, i, k - 1);
    }
  }

  /** Items of different blocks, or different items of one block, get
      different numbers, and every number is below the total. */
  lemma BlockIdInjective(sizes: seq<nat>, i: nat, j: nat, i': nat, j': nat)
    requires i < |sizes| && j < sizes[i] && i' < |sizes| && j' < sizes[i']
    ensures BlockId(sizes, i, j) < Total(sizes)
    ensures BlockId(sizes, i, j) == BlockId(sizes, i', j') ==> i == i' && j == j'
  {
    assert sizes[..|sizes|] == sizes;
    BlockEnds(sizes, i, |sizes|);
    if i < i' {
      BlockEnds(sizes, i, i');
    } else if i' < i {
      BlockEnds(sizes, i', i);
    }
  }

  /** Every number below the total is some item of some block, so the
      numbering is a bijection onto [0, total). */
  lemma {:induction false} BlockIdOnto(sizes: seq<nat>, id: nat)
    requires id < Total(sizes)
    ensures exists i: nat, j: nat :: i < |sizes| && j < sizes[i] && BlockId(sizes, i, j) == id
    decreases |sizes|
  {
    var n := |sizes| - 1;
    var prefix := sizes[..n];
    if id < Total(prefix) {
      BlockIdOnto(prefix, id);
      var i: nat, j: nat :| i < |prefix| && j < prefix[i] && BlockId(prefix, i, j) == id;
      assert prefix[..i] == sizes[..i];
      assert BlockId(sizes, i, j) == id;
    } else {
      assert sizes[..n] == prefix;
      assert BlockId(sizes, n, id - Total(prefix)) == id;
    }
  }

  // --------------------------------------------------------- face corners

  /** The corner count of each face, in face order. */
  function CornerSizes(faces: seq<Face>): (sizes: seq<nat>)
    ensures |sizes| == |faces|
    ensures forall i :: 0 <= i < |faces| ==> sizes[i] == FaceSize(faces[i])
  {
    seq(|faces|, i requires 0 <= i < |faces| => if IsQuad(faces[i]) then 4 else 3)
  }

  /** The vertexMap of CreateMesh: corner `j` of face `i` gets the vertex
      `base + (corners of earlier faces) + j`. */
  function CornerVertex(faces: seq<Face>, base: int, i: nat, j: nat): int
    requires i <= |faces|
  {
    base + BlockId(CornerSizes(faces), i, j)
  }

  /** Corner copies lie in base .. base + corners - 1. */
  lemma CornerVertexRange(faces: seq<Face>, base: int, i: nat, j: nat)
    requires i < |faces| && j < FaceSize(faces[i])
    ensures base <= CornerVertex(faces, base, i, j) < base + Total(CornerSizes(faces))
  {
    BlockIdInjective(CornerSizes(faces), i, j, i, j);
  }

  /** One shrunk face per face, of the same kind, on the face's own fresh
      corner vertices. */
  function ShrunkFaces(faces: seq<Face>, base: int): (r: seq<Face>)
    ensures |r| == |faces|
    ensures forall i :: 0 <= i < |faces| ==> IsQuad(r[i]) == IsQuad(faces[i])
    ensures forall i, j :: 0 <= i < |faces| && 0 <= j < FaceSize(faces[i]) ==>
              FaceCorner(r[i], j) == CornerVertex(faces, base, i, j)
  {
    seq(|faces|, i requires 0 <= i < |faces| =>
      var b := CornerVertex(faces, base, i, 0);
      if IsQuad(faces[i]) then Face(b, b + 1, b + 2, b + 3) else Triangle(b, b + 1, b + 2))
  }

  /** The shrunk faces use exactly the vertices base .. base + corners - 1,
      each once: no two of them share a vertex. */
  lemma ShrunkFacesDisjoint(faces: seq<Face>, base: int, i: nat, j: nat, i': nat, j': nat)
    requires i < |faces| && j < FaceSize(faces[i]) && i' < |faces| && j' < FaceSize(faces[i'])
    ensures base <= FaceCorner(ShrunkFaces(faces, base)[i], j) < base + Total(CornerSizes(faces))
    ensures FaceCorner(ShrunkFaces(faces, base)[i], j) == FaceCorner(ShrunkFaces(faces, base)[i'], j')
            ==> i == i' && j == j'
  {
    BlockIdInjective(CornerSizes(faces), i, j, i', j');
  }

  // ------------------------------------------------------ orientation helpers

  /** GetFaceLeftVertexIndexPair: the local index of `from` (the last one
      holding it, 0 when none does) and the local index before it,
      cyclically. */
  function FaceLeftVertexIndexPair(f: Face, from: int): (r: IndexPair)
    ensures r.i == LocalIndex(f, from)
    ensures 0 <= r.j < FaceSize(f) && (r.j + 1) % FaceSize(f) == r.i
    ensures (FaceCorner(f, r.j), FaceCorner(f, r.i)) in FaceEdges(f)
  {
    var i := LocalIndex(f, from);
    IndexPair(i, if i != 0 then i - 1 else FaceSize(f) - 1)
  }

  /** IsCounterclockwise: the local index of `to` follows that of `from`,
      cyclically (absent vertices count as local index 0). */
  function IsCounterclockwise(f: Face, from: int, to: int): (r: bool)
    ensures r <==> LocalIndex(f, to) == (LocalIndex(f, from) + 1) % FaceSize(f)
  {
    var i := LocalIndex(f, from);
    var j := LocalIndex(f, to);
    (i + 1 == j) || (!IsQuad(f) && i == 2 && j == 0) || (IsQuad(f) && i == 3 && j == 0)
  }

  /** On a face with distinct corners, IsCounterclockwise holds exactly
      for the face's own directed edges. */
  lemma IsCounterclockwiseEdges(f: Face, from: int, to: int)
    requires ProperFace(f) && from in Corners(f) && to in Corners(f)
    ensures IsCounterclockwise(f, from, to) <==> (from, to) in FaceEdges(f)
  {
    AlignFaceOrientationEdges(f, from, to);
  }

  /** SortFacePair: the two faces, swapped exactly when the first runs
      from `from` to `to`. */
  function SortFacePair(meshFaces: seq<Face>, f0: int, f1: int, from: int, to: int): (r: IndexPair)
    requires 0 <= f0 < |meshFaces|
    ensures {r.i, r.j} == {f0, f1}
    ensures r.i == f1 <==> (f0 == f1 || IsCounterclockwise(meshFaces[f0], from, to))
  {
    if IsCounterclockwise(meshFaces[f0], from, to) then IndexPair(f1, f0) else IndexPair(f0, f1)
  }

  /** A vertex of a face with distinct corners sits at its local index. */
  lemma LocalIndexOfCorner(f: Face, v: int)
    requires ProperFace(f) && v in Corners(f)
    ensures FaceCorner(f, LocalIndex(f, v)) == v
  {
  }

  /** Two consistently oriented faces beside the edge from -> to: one runs
      to -> from, the other from -> to. SortFacePair puts the first one
      first, and in it the corner before `from` is `to`; so the three
      shrunk corners an inserted triangle uses are the copies of `from`
      and `to` in the first face and of `from` in the second. */
  lemma SortFacePairCorners(meshFaces: seq<Face>, f0: int, f1: int, from: int, to: int)
    requires 0 <= f0 < |meshFaces| && 0 <= f1 < |meshFaces| && from != to
    requires ProperFace(meshFaces[f0]) && ProperFace(meshFaces[f1])
    requires ((from, to) in FaceEdges(meshFaces[f0]) && (to, from) in FaceEdges(meshFaces[f1]))
          || ((to, from) in FaceEdges(meshFaces[f0]) && (from, to) in FaceEdges(meshFaces[f1]))
    ensures var p := SortFacePair(meshFaces, f0, f1, from, to);
            var li := FaceLeftVertexIndexPair(meshFaces[p.i], from);
            var lj := FaceLeftVertexIndexPair(meshFaces[p.j], from);
            (to, from) in FaceEdges(meshFaces[p.i]) && (from, to) in FaceEdges(meshFaces[p.j])
            && FaceCorner(meshFaces[p.i], li.i) == from
            && FaceCorner(meshFaces[p.i], li.j) == to
            && FaceCorner(meshFaces[p.j], lj.i) == from
  {
    var g0 := meshFaces[f0];
    assert from in Corners(g0) && to in Corners(g0);
    IsCounterclockwiseEdges(g0, from, to);
    var p := SortFacePair(meshFaces, f0, f1, from, to);
    var fi := meshFaces[p.i];
    var fj := meshFaces[p.j];
    assert from in Corners(fi) && from in Corners(fj);
    LocalIndexOfCorner(fi, from);
    LocalIndexOfCorner(fj, from);
    PreviousCorner(fi, FaceLeftVertexIndexPair(fi, from).j, to, from);
  }

  /** In a face with distinct corners only one directed edge ends at a
      given corner. */
  lemma PreviousCorner(f: Face, k: int, x: int, v: int)
    requires ProperFace(f) && 0 <= k < FaceSize(f)
    requires (FaceCorner(f, k), v) in FaceEdges(f) && (x, v) in FaceEdges(f)
    ensures FaceCorner(f, k) == x
  {
  }

  // ------------------------------------------------------------ the star

  /** One edge seen from a vertex: its far end and the faces beside it. */
  datatype Visit = Visit(to: int, faces: seq<int>)

  /** The adjacent faces of every visit around one vertex exist. */
  predicate WalkIn(visits: seq<Visit>, faceCount: int)
  {
    forall k, m :: 0 <= k < |visits| && 0 <= m < |visits[k].faces| ==> 0 <= visits[k].faces[m] < faceCount
  }

  /** The adjacent faces of every visit exist. */
  predicate VisitsIn(walks: seq<seq<Visit>>, faceCount: int)
  {
    forall i :: 0 <= i < |walks| ==> WalkIn(walks[i], faceCount)
  }

  /** rFrom, rTo and l of CreateMesh: the shrunk corners of `from` and of
      the corner before it in the first sorted face, and of `from` in the
      second. */
  function InsertedCorners(meshFaces: seq<Face>, base: int, from: int, v: Visit): (c: (int, int, int))
    requires |v.faces| == 2 && 0 <= v.faces[0] < |meshFaces| && 0 <= v.faces[1] < |meshFaces|
    ensures var top := base + Total(CornerSizes(meshFaces));
            base <= c.0 < top && base <= c.1 < top && base <= c.2 < top
  {
    var p := SortFacePair(meshFaces, v.faces[0], v.faces[1], from, v.to);
    var li := FaceLeftVertexIndexPair(meshFaces[p.i], from);
    var lj := FaceLeftVertexIndexPair(meshFaces[p.j], from);
    CornerVertexRange(meshFaces, base, p.i, li.i);
    CornerVertexRange(meshFaces, base, p.i, li.j);
    CornerVertexRange(meshFaces, base, p.j, lj.i);
    (CornerVertex(meshFaces, base, p.i, li.i),
     CornerVertex(meshFaces, base, p.i, li.j),
     CornerVertex(meshFaces, base, p.j, lj.i))
  }

  /** The triangles one visit adds: two for an edge with exactly two
      faces, none otherwise. */
  function StarVisitFaces(meshFaces: seq<Face>, base: int, from: int, v: Visit): (r: seq<Face>)
    requires forall m :: 0 <= m < |v.faces| ==> 0 <= v.faces[m] < |meshFaces|
    ensures |r| == (if |v.faces| == 2 then 2 else 0)
    ensures forall k :: 0 <= k < |r| ==> Inserted(r[k], from, base, base + Total(CornerSizes(meshFaces)))
  {
    if |v.faces| == 2 then
      var c := InsertedCorners(meshFaces, base, from, v);
      [Triangle(from, c.0, c.1), Triangle(from, c.1, c.2)]
    else []
  }

  /** The visits of a walk that see exactly two faces. */
  function TwoFaced(visits: seq<Visit>): (k: nat)
    ensures k <= |visits|
  {
    if |visits| == 0 then 0
    else TwoFaced(visits[..|visits| - 1]) + (if |visits[|visits| - 1].faces| == 2 then 1 else 0)
  }

  function TwoFacedAll(walks: seq<seq<Visit>>): nat
  {
    if |walks| == 0 then 0 else TwoFacedAll(walks[..|walks| - 1]) + TwoFaced(walks[|walks| - 1])
  }

  /** A shrunk-corner triangle at an original vertex: a triangle whose
      first corner is `from` and whose other corners are shrunk corners.
      Since the shrunk corners are numbered after the original vertices,
      such a triangle never returns to `from`. */
  predicate Inserted(f: Face, from: int, lo: int, hi: int)
    ensures Inserted(f, from, lo, hi) && from < lo ==> f.a == from && f.b != from && f.c != from && lo <= f.b < hi
  {
    !IsQuad(f) && f.a == from && lo <= f.b < hi && lo <= f.c < hi
  }

  /** The triangles added around vertex `from`, visit after visit. */
  function StarVertexFaces(meshFaces: seq<Face>, base: int, from: int, visits: seq<Visit>): (r: seq<Face>)
    requires WalkIn(visits, |meshFaces|)
    ensures |r| == 2 * TwoFaced(visits)
    ensures forall k :: 0 <= k < |r| ==> Inserted(r[k], from, base, base + Total(CornerSizes(meshFaces)))
  {
    if |visits| == 0 then []
    else
      var n := |visits| - 1;
      assert forall k :: 0 <= k < n ==> visits[..n][k] == visits[k];
      var prev := StarVertexFaces(meshFaces, base, from, visits[..n]);
      var last := StarVisitFaces(meshFaces, base, from, visits[n]);
      assert forall k :: 0 <= k < |last| ==> Inserted(last[k], from, base, base + Total(CornerSizes(meshFaces)));
      prev + last
  }

  /** The triangles added around every vertex, vertex after vertex. */
  function StarInsertedFaces(meshFaces: seq<Face>, base: int, walks: seq<seq<Visit>>): (r: seq<Face>)
    requires VisitsIn(walks, |meshFaces|)
    ensures |r| == 2 * TwoFacedAll(walks)
    ensures forall k :: 0 <= k < |r| ==>
              0 <= r[k].a < |walks| && Inserted(r[k], r[k].a, base, base + Total(CornerSizes(meshFaces)))
  {
    if |walks| == 0 then []
    else
      var n := |walks| - 1;
      var top := base + Total(CornerSizes(meshFaces));
      assert forall i :: 0 <= i < n ==> walks[..n][i] == walks[i];
      assert VisitsIn(walks[..n], |meshFaces|);
      assert WalkIn(walks[n], |meshFaces|);
      var prev := StarInsertedFaces(meshFaces, base, walks[..n]);
      var last := StarVertexFaces(meshFaces, base, n, walks[n]);
      assert forall k :: 0 <= k < |prev| ==> 0 <= prev[k].a < |walks| && Inserted(prev[k], prev[k].a, base, top);
      assert forall k :: 0 <= k < |last| ==> last[k].a == n && Inserted(last[k], n, base, top);
      prev + last
  }

  /** The star mesh before Compact: the offset copies of the original
      vertices come first, then one shrunk vertex per face corner. */
  datatype StarMesh = StarMesh(vertexCount: nat, faces: seq<Face>)

  /** CreateMesh of StarOrigamize: the shrunk faces, then the inserted
      triangles. */
  function CreateStar(meshFaces: seq<Face>, walks: seq<seq<Visit>>): (s: StarMesh)
    requires VisitsIn(walks, |meshFaces|)
    ensures s.vertexCount == |walks| + Total(CornerSizes(meshFaces))
    ensures |s.faces| == |meshFaces| + 2 * TwoFacedAll(walks)
  {
    var n := |walks|;
    StarMesh(n + Total(CornerSizes(meshFaces)),
             ShrunkFaces(meshFaces, n) + StarInsertedFaces(meshFaces, n, walks))
  }

  /** Every face of the star lies on its vertices: the shrunk faces on
      the corner copies, the inserted triangles on an original vertex and
      two corner copies. */
  lemma CreateStarInRange(meshFaces: seq<Face>, walks: seq<seq<Visit>>)
    requires VisitsIn(walks, |meshFaces|)
    ensures var s := CreateStar(meshFaces, walks);
            forall k, c :: 0 <= k < |s.faces| && 0 <= c < 4 ==> 0 <= FaceCorner(s.faces[k], c) < s.vertexCount
  {
    var s := CreateStar(meshFaces, walks);
    var n := |walks|;
    var shrunk := ShrunkFaces(meshFaces, n);
    var inserted := StarInsertedFaces(meshFaces, n, walks);
    forall k, c | 0 <= k < |s.faces| && 0 <= c < 4
      ensures 0 <= FaceCorner(s.faces[k], c) < s.vertexCount
    {
      if k < |meshFaces| {
        assert s.faces[k] == shrunk[k];
        var c' := if c < FaceSize(meshFaces[k]) then c else 2;
        assert FaceCorner(shrunk[k], c) == FaceCorner(shrunk[k], c');
        ShrunkFacesDisjoint(meshFaces, n, k, c', k, c');
      } else {
        assert s.faces[k] == inserted[k - |meshFaces|];
      }
    }
  }
}
