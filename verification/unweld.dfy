/** The face helpers of Crane/Core/UnWeldMesh.cs and its `UnWeldEdge`,
    which splits a vertex in two along a path of edges: the faces on the
    left of the path are re-pointed to a fresh copy of the vertex.

    Mesh queries are inputs: the faces of the two path edges, the faces
    around the vertex and an adjacency function from a face to its
    neighbouring faces. */
module UnWeld {
  import opened Common
  import opened CMesh
  import opened Utils

  // ------------------------------------------------------------ face slots

  /** GetFaceVertexLocalIndex: the first slot holding `v` (slot 3 only on
      a quad), or -1 when the face does not use `v`. */
  function FaceVertexLocalIndex(f: Face, v: int): (k: int)
    ensures -1 <= k < FaceSize(f)
    ensures k >= 0 ==> FaceCorner(f, k) == v && forall m :: 0 <= m < k ==> FaceCorner(f, m) != v
    ensures k == -1 <==> v !in Corners(f)
  {
    if f.a == v then 0
    else if f.b == v then 1
    else if f.c == v then 2
    else if IsQuad(f) && f.d == v then 3
    else -1
  }

  /** On a face with distinct corners the first slot of a corner is its
      only slot, so this agrees with the last-slot search of
      AlignFaceOrientation. */
  lemma FaceVertexLocalIndexAgrees(f: Face, v: int)
    requires ProperFace(f) && v in Corners(f)
    ensures FaceVertexLocalIndex(f, v) == LocalIndex(f, v)
  {
  }

  /** ReplaceFaceVertexId: slot `k` gets `g`, the other slots stay. A
      slot the face does not have gives the default face (0, 0, 0, 0). */
  function ReplaceFaceVertexId(f: Face, k: int, g: int): (r: Face)
    ensures 0 <= k < FaceSize(f) ==>
              forall m :: 0 <= m < FaceSize(f) ==> FaceCorner(r, m) == (if m == k then g else FaceCorner(f, m))
    ensures 0 <= k < FaceSize(f) && !IsQuad(f) ==> !IsQuad(r)
    ensures !(0 <= k < FaceSize(f)) ==> r == Face(0, 0, 0, 0)
  {
    if IsQuad(f) then
      if k == 0 then Face(g, f.b, f.c, f.d)
      else if k == 1 then Face(f.a, g, f.c, f.d)
      else if k == 2 then Face(f.a, f.b, g, f.d)
      else if k == 3 then Face(f.a, f.b, f.c, g)
      else Face(0, 0, 0, 0)
    else
      if k == 0 then Triangle(g, f.b, f.c)
      else if k == 1 then Triangle(f.a, g, f.c)
      else if k == 2 then Triangle(f.a, f.b, g)
      else Face(0, 0, 0, 0)
  }

  /** Putting the old vertex back restores the face, as long as the
      replacement did not turn a quad into a triangle. */
  lemma ReplaceFaceVertexIdBack(f: Face, k: int, g: int)
    requires 0 <= k < FaceSize(f)
    requires IsQuad(ReplaceFaceVertexId(f, k, g)) == IsQuad(f)
    ensures ReplaceFaceVertexId(ReplaceFaceVertexId(f, k, g), k, FaceCorner(f, k)) == f
  {
  }

  /** On a face with distinct corners, replacing the slot of `v` by a new
      id `g` leaves a face that no longer uses `v` and has `g` in that slot. */
  lemma ReplaceFaceVertexIdMoves(f: Face, v: int, g: int)
    requires ProperFace(f) && v in Corners(f) && g !in Corners(f)
    ensures var r := ReplaceFaceVertexId(f, FaceVertexLocalIndex(f, v), g);
            v !in Corners(r) && FaceVertexLocalIndex(r, g) == FaceVertexLocalIndex(f, v)
  {
  }

  // ------------------------------------------------------------ orientation

  /** MeshFaceIsRight: the pair is a directed edge of the face's cycle. */
  function MeshFaceIsRight(f: Face, p: IndexPair): (r: bool)
    ensures r <==> (p.i, p.j) in FaceEdges(f)
  {
    if IsQuad(f) then
      (p.i == f.a && p.j == f.b) || (p.i == f.b && p.j == f.c)
      || (p.i == f.c && p.j == f.d) || (p.i == f.d && p.j == f.a)
    else
      (p.i == f.a && p.j == f.b) || (p.i == f.b && p.j == f.c) || (p.i == f.c && p.j == f.a)
  }

  /** On a face with distinct corners, MeshFaceIsRight and
      AlignFaceOrientation agree. */
  lemma MeshFaceIsRightAgrees(f: Face, i: int, j: int)
    requires ProperFace(f) && i in Corners(f) && j in Corners(f)
    ensures MeshFaceIsRight(f, IndexPair(i, j)) == AlignFaceOrientation(f, i, j)
  {
    AlignFaceOrientationEdges(f, i, j);
  }

  // ------------------------------------------------------------- the walk

  /** The position of the first entry of `adj` that is in `candidates`, or -1. */
  function FirstIn(adj: seq<int>, candidates: seq<int>): (k: int)
    ensures -1 <= k < |adj|
    ensures k >= 0 ==> adj[k] in candidates
    ensures forall m :: 0 <= m < |adj| && (k == -1 || m < k) ==> adj[m] !in candidates
  {
    if |adj| == 0 then -1
    else if adj[0] in candidates then 0
    else
      var k := FirstIn(adj[1..], candidates);
      if k == -1 then -1 else k + 1
  }

  /** GetAdjacentFaceId: the first neighbour that is a candidate, or -1. */
  function AdjacentFaceId(adj: seq<int>, candidates: seq<int>): (r: int)
    ensures r != -1 ==> r in adj && r in candidates
    ensures (forall x :: x in adj ==> x !in candidates) ==> r == -1
    ensures -1 !in candidates && r == -1 ==> forall x :: x in adj ==> x !in candidates
  {
    var k := FirstIn(adj, candidates);
    if k == -1 then -1 else adj[k]
  }

  /** The loop of GetRightAndLeftFaceIds from `faceId` on: the faces it
      moves to the right list and what is left. It stops on reaching
      `toRight` or after ten steps in all. */
  function Walk(adjacent: int -> seq<int>, faceId: int, toRight: int, left: seq<int>, steps: nat): (r: (seq<int>, seq<int>))
    requires steps <= 10
    decreases 10 - steps
    ensures |r.0| <= 10 - steps
    ensures |r.0| < 10 - steps ==> (r.0 == [] && faceId == toRight) || (r.0 != [] && r.0[|r.0| - 1] == toRight)
    ensures forall x :: x in r.1 ==> x in left
    ensures forall x :: x in r.0 ==> x == -1 || x in left
    ensures Distinct(left) ==> Distinct(r.1) && forall x :: x in r.0 ==> x !in r.1
  {
    if faceId == toRight || steps >= 10 then ([], left)
    else
      var next := AdjacentFaceId(adjacent(faceId), left);
      var rest := RemoveFirst(left, next);
      assert Distinct(left) ==> Distinct(rest) && next !in rest by {
        if Distinct(left) {
          RemoveFirstDistinct(left, next);
        }
      }
      var w := Walk(adjacent, next, toRight, rest, steps + 1);
      ([next] + w.0, w.1)
  }

  /** The candidates with the four seed faces removed, one occurrence each. */
  function WithoutSeeds(faceIds: seq<int>, fromRight: int, toRight: int, fromLeft: int, toLeft: int): (l: seq<int>)
    ensures forall x :: x in l ==> x in faceIds
    ensures forall x :: x in faceIds && x != fromRight && x != toRight && x != fromLeft && x != toLeft ==> x in l
    ensures Distinct(faceIds) ==> Distinct(l) && fromRight !in l && toRight !in l && fromLeft !in l && toLeft !in l
  {
    var l1 := RemoveFirst(faceIds, fromRight);
    var l2 := RemoveFirst(l1, toRight);
    var l3 := RemoveFirst(l2, fromLeft);
    var l4 := RemoveFirst(l3, toLeft);
    assert Distinct(faceIds) ==> Distinct(l4) && fromRight !in l4 && toRight !in l4 && fromLeft !in l4 && toLeft !in l4 by {
      if Distinct(faceIds) {
        RemoveFirstDistinct(faceIds, fromRight);
        RemoveFirstDistinct(l1, toRight);
        RemoveFirstDistinct(l2, fromLeft);
        RemoveFirstDistinct(l3, toLeft);
      }
    }
    l4
  }

  /** GetRightAndLeftFaceIds. The right list starts at `fromRight` and
      grows by at most ten faces, ending at `toRight` unless the ten steps
      ran out; the left list is what remains of the candidates once the
      four seeds and the walked faces are taken out. */
  function RightAndLeftFaceIds(adjacent: int -> seq<int>, fromRight: int, toRight: int, fromLeft: int, toLeft: int,
                               faceIds: seq<int>): (r: (seq<int>, seq<int>))
    ensures 1 <= |r.0| <= 11 && r.0[0] == fromRight
    ensures |r.0| < 11 ==> r.0[|r.0| - 1] == toRight
    ensures forall x :: x in r.1 ==> x in faceIds && (Distinct(faceIds) ==> x !in r.0)
    ensures Distinct(faceIds) ==> Distinct(r.1) && fromLeft !in r.1 && toLeft !in r.1
    ensures forall x :: (x in faceIds && x != fromRight && x != toRight && x != fromLeft && x != toLeft
                         && x !in r.0) ==> x in r.1
  {
    var left := WithoutSeeds(faceIds, fromRight, toRight, fromLeft, toLeft);
    var w := Walk(adjacent, fromRight, toRight, left, 0);
    WalkKeeps(adjacent, fromRight, toRight, left, 0);
    ([fromRight] + w.0, w.1)
  }

  /** A candidate the walk does not take stays on the left. */
  lemma {:induction false} WalkKeeps(adjacent: int -> seq<int>, faceId: int, toRight: int, left: seq<int>, steps: nat)
    requires steps <= 10
    decreases 10 - steps
    ensures forall x :: x in left && x !in Walk(adjacent, faceId, toRight, left, steps).0 ==>
              x in Walk(adjacent, faceId, toRight, left, steps).1
  {
    if !(faceId == toRight || steps >= 10) {
      var next := AdjacentFaceId(adjacent(faceId), left);
      WalkKeeps(adjacent, next, toRight, RemoveFirst(left, next), steps + 1);
    }
  }

  // -------------------------------------------------------------- unweld

  datatype Mesh = Mesh(verts: seq<Point>, faces: seq<Face>)

  /** The foreach of UnWeldEdge over the left faces: each listed face has
      its slot of `v` set to `nv`. None when a listed face does not exist. */
  function Repoint(faces: seq<Face>, lefts: seq<int>, v: int, nv: int): (r: Option<seq<Face>>)
    ensures r.Some? <==> forall x :: x in lefts ==> 0 <= x < |faces|
    ensures r.Some? ==> |r.value| == |faces|
    ensures r.Some? ==> forall i :: 0 <= i < |faces| && i !in lefts ==> r.value[i] == faces[i]
    ensures r.Some? && Distinct(lefts) ==>
              forall i :: i in lefts ==> r.value[i] == ReplaceFaceVertexId(faces[i], FaceVertexLocalIndex(faces[i], v), nv)
    decreases |lefts|
  {
    if |lefts| == 0 then Some(faces)
    else
      var id := lefts[0];
      assert id in lefts;
      if !(0 <= id < |faces|) then None
      else
        var face := faces[id];
        var rest := Repoint(faces[id := ReplaceFaceVertexId(face, FaceVertexLocalIndex(face, v), nv)], lefts[1..], v, nv);
        assert forall x :: x in lefts ==> x == id || x in lefts[1..];
        assert forall x :: x in lefts[1..] ==> x in lefts;
        assert Distinct(lefts) ==> id !in lefts[1..] && Distinct(lefts[1..]);
        rest
  }

  lemma RepointUnlisted(faces: seq<Face>, lefts: seq<int>, v: int, nv: int, i: int)
    requires Repoint(faces, lefts, v, nv).Some? && i !in lefts && 0 <= i < |faces|
    ensures Repoint(faces, lefts, v, nv).value[i] == faces[i]
  {
  }

  /** The mesh queries UnWeldEdge makes, as inputs: the faces on each path
      edge (from GetTopologyEdgeIndex and GetConnectedFaces), the faces
      around the vertex, and face adjacency. */
  datatype Queries = Queries(facesFrom: seq<int>, facesTo: seq<int>, vertexFaces: seq<int>,
                             adjacent: int -> seq<int>)

  /** The four seed faces: the faces right and left of the incoming and
      of the outgoing path edge. */
  function Seeds(m: Mesh, pairFrom: IndexPair, pairTo: IndexPair, q: Queries): (s: (int, int, int, int))
    requires |q.facesFrom| >= 2 && |q.facesTo| >= 2
    requires 0 <= q.facesFrom[0] < |m.faces| && 0 <= q.facesTo[0] < |m.faces|
    ensures MeshFaceIsRight(m.faces[q.facesFrom[0]], pairFrom) ==> s.0 == q.facesFrom[0] && s.2 == q.facesFrom[1]
    ensures !MeshFaceIsRight(m.faces[q.facesFrom[0]], pairFrom) ==> s.0 == q.facesFrom[1] && s.2 == q.facesFrom[0]
    ensures MeshFaceIsRight(m.faces[q.facesTo[0]], pairTo) ==> s.1 == q.facesTo[0] && s.3 == q.facesTo[1]
    ensures !MeshFaceIsRight(m.faces[q.facesTo[0]], pairTo) ==> s.1 == q.facesTo[1] && s.3 == q.facesTo[0]
  {
    var fromRight := if MeshFaceIsRight(m.faces[q.facesFrom[0]], pairFrom) then q.facesFrom[0] else q.facesFrom[1];
    var fromLeft := if MeshFaceIsRight(m.faces[q.facesFrom[0]], pairFrom) then q.facesFrom[1] else q.facesFrom[0];
    var toRight := if MeshFaceIsRight(m.faces[q.facesTo[0]], pairTo) then q.facesTo[0] else q.facesTo[1];
    var toLeft := if MeshFaceIsRight(m.faces[q.facesTo[0]], pairTo) then q.facesTo[1] else q.facesTo[0];
    (fromRight, toRight, fromLeft, toLeft)
  }

  /** The input UnWeldEdge can run on: both path edges have two faces,
      the faces it reads exist and the vertex exists. */
  predicate CanUnWeld(m: Mesh, pairFrom: IndexPair, q: Queries)
  {
    |q.facesFrom| >= 2 && |q.facesTo| >= 2
    && 0 <= q.facesFrom[0] < |m.faces| && 0 <= q.facesTo[0] < |m.faces|
    && 0 <= pairFrom.j < |m.verts|
  }

  /** The faces UnWeldEdge re-points. */
  function LeftFaces(m: Mesh, pairFrom: IndexPair, pairTo: IndexPair, q: Queries): (l: seq<int>)
    requires CanUnWeld(m, pairFrom, q)
    ensures forall x :: x in l ==> x in q.vertexFaces
  {
    var s := Seeds(m, pairFrom, pairTo, q);
    RightAndLeftFaceIds(q.adjacent, s.0, s.1, s.2, s.3, q.vertexFaces).1
  }

  /** UnWeldEdge: the vertex shared by the two path edges is copied to the
      end of the vertex list and the left faces use the copy. None stands
      for the source's exceptions. */
  function UnWeldEdge(m: Mesh, pairFrom: IndexPair, pairTo: IndexPair, q: Queries): (r: Option<Mesh>)
    ensures r.Some? ==> CanUnWeld(m, pairFrom, q)
    ensures r.Some? ==>
              |r.value.verts| == |m.verts| + 1 && r.value.verts[..|m.verts|] == m.verts
              && r.value.verts[|m.verts|] == m.verts[pairFrom.j]
              && |r.value.faces| == |m.faces|
    ensures r.Some? ==> forall i :: 0 <= i < |m.faces| && i !in q.vertexFaces ==> r.value.faces[i] == m.faces[i]
    ensures r.Some? ==> forall i :: 0 <= i < |m.faces| && i !in LeftFaces(m, pairFrom, pairTo, q) ==>
                          r.value.faces[i] == m.faces[i]
    ensures r.Some? && Distinct(q.vertexFaces) ==>
              forall i :: i in LeftFaces(m, pairFrom, pairTo, q) ==>
                0 <= i < |m.faces|
                && r.value.faces[i] == ReplaceFaceVertexId(m.faces[i], FaceVertexLocalIndex(m.faces[i], pairFrom.j), |m.verts|)
  {
    if !CanUnWeld(m, pairFrom, q) then None
    else
      var v := pairFrom.j;
      var faces := Repoint(m.faces, LeftFaces(m, pairFrom, pairTo, q), v, |m.verts|);
      assert Distinct(q.vertexFaces) ==> Distinct(LeftFaces(m, pairFrom, pairTo, q)) by {
        if Distinct(q.vertexFaces) {
          LeftFacesOmitSeeds(m, pairFrom, pairTo, q);
        }
      }
      if faces.None? then None else Some(Mesh(m.verts + [m.verts[v]], faces.value))
  }

  /** With distinct faces around the vertex, the left list is distinct
      and holds neither left seed: GetRightAndLeftFaceIds takes all four
      seeds out before walking. */
  lemma LeftFacesOmitSeeds(m: Mesh, pairFrom: IndexPair, pairTo: IndexPair, q: Queries)
    requires CanUnWeld(m, pairFrom, q) && Distinct(q.vertexFaces)
    ensures var s := Seeds(m, pairFrom, pairTo, q);
            var l := LeftFaces(m, pairFrom, pairTo, q);
            Distinct(l) && s.2 !in l && s.3 !in l
  {
    var s := Seeds(m, pairFrom, pairTo, q);
    assert LeftFaces(m, pairFrom, pairTo, q) == RightAndLeftFaceIds(q.adjacent, s.0, s.1, s.2, s.3, q.vertexFaces).1;
  }

  /** So the faces on the left of the path edges themselves are never
      re-pointed. */
  lemma UnWeldEdgeKeepsLeftSeeds(m: Mesh, pairFrom: IndexPair, pairTo: IndexPair, q: Queries)
    requires UnWeldEdge(m, pairFrom, pairTo, q).Some?
    requires Distinct(q.vertexFaces)
    ensures var s := Seeds(m, pairFrom, pairTo, q);
            var r := UnWeldEdge(m, pairFrom, pairTo, q).value;
            (0 <= s.2 < |m.faces| ==> r.faces[s.2] == m.faces[s.2])
            && (0 <= s.3 < |m.faces| ==> r.faces[s.3] == m.faces[s.3])
  {
    LeftFacesOmitSeeds(m, pairFrom, pairTo, q);
    var s := Seeds(m, pairFrom, pairTo, q);
    var l := LeftFaces(m, pairFrom, pairTo, q);
    if 0 <= s.2 < |m.faces| {
      RepointUnlisted(m.faces, l, pairFrom.j, |m.verts|, s.2);
    }
    if 0 <= s.3 < |m.faces| {
      RepointUnlisted(m.faces, l, pairFrom.j, |m.verts|, s.3);
    }
  }

  // ------------------------------------------------- corrected re-pointing

  /** The two left seeds, each once. */
  function LeftSeeds(s: (int, int, int, int)): (l: seq<int>)
    ensures forall x :: x in l <==> x == s.2 || x == s.3
    ensures Distinct(l)
  {
    if s.2 == s.3 then [s.2] else [s.2, s.3]
  }

  /** The faces the corrected unweld re-points: the left list and then
      the left seeds. */
  function CorrectedLefts(m: Mesh, pairFrom: IndexPair, pairTo: IndexPair, q: Queries): seq<int>
    requires CanUnWeld(m, pairFrom, q)
  {
    LeftFaces(m, pairFrom, pairTo, q) + LeftSeeds(Seeds(m, pairFrom, pairTo, q))
  }

  /** UnWeldEdge as evidently intended: the walk around the right side
      still starts without the seeds, but afterwards the two faces left of
      the path edges join the faces that are re-pointed to the copy. */
  function UnWeldEdgeCorrected(m: Mesh, pairFrom: IndexPair, pairTo: IndexPair, q: Queries): (r: Option<Mesh>)
    ensures r.Some? ==> CanUnWeld(m, pairFrom, q)
    ensures r.Some? ==>
              |r.value.verts| == |m.verts| + 1 && r.value.verts[..|m.verts|] == m.verts
              && r.value.verts[|m.verts|] == m.verts[pairFrom.j]
              && |r.value.faces| == |m.faces|
  {
    if !CanUnWeld(m, pairFrom, q) then None
    else
      var v := pairFrom.j;
      var faces := Repoint(m.faces, CorrectedLefts(m, pairFrom, pairTo, q), v, |m.verts|);
      if faces.None? then None else Some(Mesh(m.verts + [m.verts[v]], faces.value))
  }

  /** A listed face, in a list without repeats, exists and has its slot of
      `v` re-pointed. */
  lemma RepointMoves(faces: seq<Face>, lefts: seq<int>, v: int, nv: int, i: int)
    requires Repoint(faces, lefts, v, nv).Some? && Distinct(lefts) && i in lefts
    ensures 0 <= i < |faces|
    ensures Repoint(faces, lefts, v, nv).value[i] == ReplaceFaceVertexId(faces[i], FaceVertexLocalIndex(faces[i], v), nv)
  {
  }

  /** Re-pointing a list without repeats followed by the left seeds, which
      it does not hold, moves both seeds. */
  lemma RepointWithSeeds(faces: seq<Face>, l: seq<int>, s: (int, int, int, int), v: int, nv: int)
    requires Distinct(l) && s.2 !in l && s.3 !in l
    requires Repoint(faces, l + LeftSeeds(s), v, nv).Some?
    ensures 0 <= s.2 < |faces| && 0 <= s.3 < |faces|
    ensures Repoint(faces, l + LeftSeeds(s), v, nv).value[s.2] == ReplaceFaceVertexId(faces[s.2], FaceVertexLocalIndex(faces[s.2], v), nv)
    ensures Repoint(faces, l + LeftSeeds(s), v, nv).value[s.3] == ReplaceFaceVertexId(faces[s.3], FaceVertexLocalIndex(faces[s.3], v), nv)
  {
    DistinctJoin(l, LeftSeeds(s));
    RepointMoves(faces, l + LeftSeeds(s), v, nv, s.2);
    RepointMoves(faces, l + LeftSeeds(s), v, nv, s.3);
  }

  /** Faces away from the vertex, other than the left seeds, are left as
      they were. */
  lemma UnWeldEdgeCorrectedKeepsOthers(m: Mesh, pairFrom: IndexPair, pairTo: IndexPair, q: Queries, i: int)
    requires UnWeldEdgeCorrected(m, pairFrom, pairTo, q).Some?
    requires 0 <= i < |m.faces| && i !in q.vertexFaces
    requires var s := Seeds(m, pairFrom, pairTo, q); i != s.2 && i != s.3
    ensures UnWeldEdgeCorrected(m, pairFrom, pairTo, q).value.faces[i] == m.faces[i]
  {
    var lefts := CorrectedLefts(m, pairFrom, pairTo, q);
    assert i !in lefts;
    RepointUnlisted(m.faces, lefts, pairFrom.j, |m.verts|, i);
  }

  /** Joining two lists without repeats and without common entries gives
      a list without repeats. */
  lemma DistinctJoin(a: seq<int>, b: seq<int>)
    requires Distinct(a) && Distinct(b)
    requires forall x :: x in b ==> x !in a
    ensures Distinct(a + b)
  {
    forall i, j | 0 <= i < j < |a + b|
      ensures (a + b)[i] != (a + b)[j]
    {
      if j >= |a| && i < |a| {
        assert (a + b)[j] == b[j - |a|] && b[j - |a|] in b;
        assert (a + b)[i] == a[i] && a[i] in a;
      }
    }
  }

  /** With distinct faces around the vertex, the corrected unweld moves
      both left seeds onto the copy, like every other left face. */
  lemma UnWeldEdgeCorrectedMovesLeftSeeds(m: Mesh, pairFrom: IndexPair, pairTo: IndexPair, q: Queries)
    requires UnWeldEdgeCorrected(m, pairFrom, pairTo, q).Some?
    requires Distinct(q.vertexFaces)
    ensures var s := Seeds(m, pairFrom, pairTo, q);
            0 <= s.2 < |m.faces| && 0 <= s.3 < |m.faces|
    ensures var s := Seeds(m, pairFrom, pairTo, q);
            var r := UnWeldEdgeCorrected(m, pairFrom, pairTo, q).value;
            r.faces[s.2] == ReplaceFaceVertexId(m.faces[s.2], FaceVertexLocalIndex(m.faces[s.2], pairFrom.j), |m.verts|)
            && r.faces[s.3] == ReplaceFaceVertexId(m.faces[s.3], FaceVertexLocalIndex(m.faces[s.3], pairFrom.j), |m.verts|)
  {
    LeftFacesOmitSeeds(m, pairFrom, pairTo, q);
    RepointWithSeeds(m.faces, LeftFaces(m, pairFrom, pairTo, q), Seeds(m, pairFrom, pairTo, q), pairFrom.j, |m.verts|);
  }
}
