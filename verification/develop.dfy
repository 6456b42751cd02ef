/** The index bookkeeping of Crane/Core/DevelopMesh.cs: the mesh and its
    development are joined into one mesh (JoinMesh of Crane/Core/Util.cs),
    and vertices and edges of the original are paired with their copies
    in the development. The unfolding itself (a spanning tree of faces
    laid out in the plane) is not modelled.

    The joined mesh's topology edges are an input: Rhino numbers them. */
module Develop {
  import opened Common
  import opened CMesh
  import opened Utils
  import opened UnWeld

  // ------------------------------------------------------------- joining

  /** A face with every corner moved up by `n`. */
  function ShiftFace(f: Face, n: int): (g: Face)
    ensures IsQuad(g) == IsQuad(f)
    ensures forall k :: 0 <= k < 4 ==> FaceCorner(g, k) == FaceCorner(f, k) + n
  {
    Face(f.a + n, f.b + n, f.c + n, f.d + n)
  }

  /** JoinMesh: the vertices of the mesh and then of the development; the
      faces of the mesh and then of the development, moved past the mesh's
      vertices. */
  function JoinMesh(mesh: Mesh, dev: Mesh): (j: Mesh)
    ensures j.verts == mesh.verts + dev.verts
    ensures |j.faces| == |mesh.faces| + |dev.faces| && j.faces[..|mesh.faces|] == mesh.faces
    ensures forall k :: 0 <= k < |dev.faces| ==> j.faces[|mesh.faces| + k] == ShiftFace(dev.faces[k], |mesh.verts|)
  {
    var n := |mesh.verts|;
    Mesh(mesh.verts + dev.verts,
         mesh.faces + seq(|dev.faces|, k requires 0 <= k < |dev.faces| => ShiftFace(dev.faces[k], n)))
  }

  /** A face whose corners index a vertex list of length `n`. */
  predicate FaceIn(f: Face, n: int)
  {
    forall k :: 0 <= k < 4 ==> 0 <= FaceCorner(f, k) < n
  }

  /** Joining keeps every face in range: the development's faces land on
      the development's vertices. */
  lemma JoinMeshFacesInRange(mesh: Mesh, dev: Mesh)
    requires forall k :: 0 <= k < |mesh.faces| ==> FaceIn(mesh.faces[k], |mesh.verts|)
    requires forall k :: 0 <= k < |dev.faces| ==> FaceIn(dev.faces[k], |dev.verts|)
    ensures var j := JoinMesh(mesh, dev);
            forall k :: 0 <= k < |j.faces| ==> FaceIn(j.faces[k], |j.verts|)
  {
    var j := JoinMesh(mesh, dev);
    forall k | 0 <= k < |j.faces|
      ensures FaceIn(j.faces[k], |j.verts|)
    {
      if k < |mesh.faces| {
        assert j.faces[k] == j.faces[..|mesh.faces|][k];
      } else {
        assert j.faces[k] == ShiftFace(dev.faces[k - |mesh.faces|], |mesh.verts|);
      }
    }
  }

  // -------------------------------------------------------- vertex pairs

  /** GetVertexIndexPairs: vertex `i` and its copy `i + n`. */
  function VertexIndexPairs(n: nat): (pairs: seq<IndexPair>)
    ensures |pairs| == n
    ensures forall i :: 0 <= i < n ==> pairs[i] == IndexPair(i, i + n)
  {
    seq(n, i requires 0 <= i < n => IndexPair(i, i + n))
  }

  /** In the joined mesh each pair names a vertex of the mesh and the same
      vertex of the development. */
  lemma VertexIndexPairsJoin(mesh: Mesh, dev: Mesh)
    requires |dev.verts| == |mesh.verts|
    ensures var j := JoinMesh(mesh, dev);
            var pairs := VertexIndexPairs(|mesh.verts|);
            forall i :: 0 <= i < |pairs| ==>
              0 <= pairs[i].j < |j.verts| && j.verts[pairs[i].i] == mesh.verts[i] && j.verts[pairs[i].j] == dev.verts[i]
  {
  }

  // ---------------------------------------------------------- edge pairs

  /** The edges touching vertex `v`, in index order:
      TopologyVertices.ConnectedEdges. */
  function ConnectedEdges(edges: seq<(int, int)>, v: int): (ids: seq<int>)
    ensures forall e {:trigger e in ids} :: e in ids <==> 0 <= e < |edges| && (edges[e].0 == v || edges[e].1 == v)
  {
    if |edges| == 0 then []
    else
      var n := |edges| - 1;
      var prev := ConnectedEdges(edges[..n], v);
      assert forall e :: 0 <= e < n ==> edges[..n][e] == edges[e];
      prev + (if edges[n].0 == v || edges[n].1 == v then [n] else [])
  }

  /** GetTopologyEdgeIndex on a mesh: the one edge both vertices touch, or -1. */
  function TopologyEdgeIndex(edges: seq<(int, int)>, i: int, j: int): (e: int)
    ensures e != -1 ==> 0 <= e < |edges|
  {
    var ci := ConnectedEdges(edges, i);
    assert forall x :: x in ci ==> x >= 0;
    GetTopologyEdgeIndex(ci, ConnectedEdges(edges, j))
  }

  /** GetEdgeIndexPairs: for each edge (I, J) of the mesh, the index of
      (I, J) and of (I + n, J + n) in the joined mesh's edges. */
  function EdgeIndexPairs(edges: seq<(int, int)>, n: int, joined: seq<(int, int)>): (pairs: seq<IndexPair>)
    ensures |pairs| == |edges|
  {
    seq(|edges|, k requires 0 <= k < |edges| =>
      IndexPair(TopologyEdgeIndex(joined, edges[k].0, edges[k].1),
                TopologyEdgeIndex(joined, edges[k].0 + n, edges[k].1 + n)))
  }

  predicate SameEdge(p: (int, int), q: (int, int))
  {
    p == q || p == (q.1, q.0)
  }

  /** Topology edges: endpoints below `n`, no loops, no edge twice. */
  predicate SimpleEdges(edges: seq<(int, int)>, n: int)
  {
    (forall k :: 0 <= k < |edges| ==> 0 <= edges[k].0 < n && 0 <= edges[k].1 < n && edges[k].0 != edges[k].1)
    && (forall a, b :: 0 <= a < b < |edges| ==> !SameEdge(edges[a], edges[b]))
  }

  /** The development's edges: the mesh's edges moved up by `n`. */
  function ShiftEdges(edges: seq<(int, int)>, n: int): (s: seq<(int, int)>)
    ensures |s| == |edges|
    ensures forall k :: 0 <= k < |edges| ==> s[k] == (edges[k].0 + n, edges[k].1 + n)
  {
    seq(|edges|, k requires 0 <= k < |edges| => (edges[k].0 + n, edges[k].1 + n))
  }

  /** The edge both endpoints of edge `k` touch is `k` itself. */
  lemma TopologyEdgeIndexFinds(edges: seq<(int, int)>, i: int, j: int, k: int)
    requires 0 <= k < |edges| && SameEdge(edges[k], (i, j)) && i != j
    requires forall e :: 0 <= e < |edges| && e != k ==> !SameEdge(edges[e], (i, j))
    ensures TopologyEdgeIndex(edges, i, j) == k
  {
    var ci := ConnectedEdges(edges, i);
    var cj := ConnectedEdges(edges, j);
    assert k in ci && k in cj;
    forall y | y in ci && y in cj
      ensures y == k
    {
      assert SameEdge(edges[y], (i, j));
    }
  }

  /** In the joined list, edge `k` of the mesh is the only one with its
      endpoints. */
  lemma OnlyOriginal(edges: seq<(int, int)>, n: int, k: int)
    requires SimpleEdges(edges, n) && 0 <= k < |edges|
    ensures var joined := edges + ShiftEdges(edges, n);
            forall e :: 0 <= e < |joined| && e != k ==> !SameEdge(joined[e], edges[k])
  {
    var joined := edges + ShiftEdges(edges, n);
    forall e | 0 <= e < |joined| && e != k
      ensures !SameEdge(joined[e], edges[k])
    {
      if e < |edges| {
        assert joined[e] == edges[e];
        if e < k {
          assert !SameEdge(edges[e], edges[k]);
        } else {
          assert !SameEdge(edges[k], edges[e]);
        }
      } else {
        assert joined[e] == ShiftEdges(edges, n)[e - |edges|];
      }
    }
  }

  /** In the joined list, the copy of edge `k` is the only one with the
      copied endpoints. */
  lemma OnlyCopy(edges: seq<(int, int)>, n: int, k: int)
    requires SimpleEdges(edges, n) && 0 <= k < |edges|
    ensures var joined := edges + ShiftEdges(edges, n);
            forall e :: 0 <= e < |joined| && e != k + |edges| ==> !SameEdge(joined[e], (edges[k].0 + n, edges[k].1 + n))
  {
    var joined := edges + ShiftEdges(edges, n);
    forall e | 0 <= e < |joined| && e != k + |edges|
      ensures !SameEdge(joined[e], (edges[k].0 + n, edges[k].1 + n))
    {
      if e < |edges| {
        assert joined[e] == edges[e];
      } else {
        var e' := e - |edges|;
        assert joined[e] == (edges[e'].0 + n, edges[e'].1 + n);
        if e' < k {
          assert !SameEdge(edges[e'], edges[k]);
        } else {
          assert !SameEdge(edges[k], edges[e']);
        }
      }
    }
  }

  /** When the joined mesh lists the mesh's edges and then the
      development's, GetEdgeIndexPairs pairs edge `k` with edge
      `k + |edges|`, its copy. */
  lemma EdgeIndexPairsOfJoin(edges: seq<(int, int)>, n: int, k: int)
    requires SimpleEdges(edges, n) && 0 <= k < |edges|
    ensures EdgeIndexPairs(edges, n, edges + ShiftEdges(edges, n))[k] == IndexPair(k, k + |edges|)
  {
    EdgeIndexPairAt(edges, n, edges + ShiftEdges(edges, n), k);
    OriginalFound(edges, n, k);
    CopyFound(edges, n, k);
  }

  lemma OriginalFound(edges: seq<(int, int)>, n: int, k: int)
    requires SimpleEdges(edges, n) && 0 <= k < |edges|
    ensures TopologyEdgeIndex(edges + ShiftEdges(edges, n), edges[k].0, edges[k].1) == k
  {
    var joined := edges + ShiftEdges(edges, n);
    assert joined[k] == edges[k];
    OnlyOriginal(edges, n, k);
    TopologyEdgeIndexFinds(joined, edges[k].0, edges[k].1, k);
  }

  lemma CopyFound(edges: seq<(int, int)>, n: int, k: int)
    requires SimpleEdges(edges, n) && 0 <= k < |edges|
    ensures TopologyEdgeIndex(edges + ShiftEdges(edges, n), edges[k].0 + n, edges[k].1 + n) == k + |edges|
  {
    var joined := edges + ShiftEdges(edges, n);
    assert joined[k + |edges|] == (edges[k].0 + n, edges[k].1 + n);
    OnlyCopy(edges, n, k);
    TopologyEdgeIndexFinds(joined, edges[k].0 + n, edges[k].1 + n, k + |edges|);
  }

  lemma EdgeIndexPairAt(edges: seq<(int, int)>, n: int, joined: seq<(int, int)>, k: int)
    requires 0 <= k < |edges|
    ensures EdgeIndexPairs(edges, n, joined)[k]
            == IndexPair(TopologyEdgeIndex(joined, edges[k].0, edges[k].1),
                         TopologyEdgeIndex(joined, edges[k].0 + n, edges[k].1 + n))
  {
  }

  // ------------------------------------------------------- face edge pair

  /** Array.IndexOf: the first position of `x`, or -1. */
  function IndexOf(ids: seq<int>, x: int): (k: int)
    ensures -1 <= k < |ids|
    ensures k >= 0 ==> ids[k] == x && forall m :: 0 <= m < k ==> ids[m] != x
    ensures k == -1 <==> x !in ids
  {
    if |ids| == 0 then -1
    else if ids[0] == x then 0
    else
      var k := IndexOf(ids[1..], x);
      if k == -1 then -1 else k + 1
  }

  /** The corners of a face in order: three for a triangle, four for a quad. */
  function CornerList(f: Face): (ids: seq<int>)
    ensures |ids| == FaceSize(f)
    ensures forall k :: 0 <= k < |ids| ==> ids[k] == FaceCorner(f, k)
  {
    if IsQuad(f) then [f.a, f.b, f.c, f.d] else [f.a, f.b, f.c]
  }

  /** GetFaceEdgeIndexPair: the pair put in the order the face runs
      through it. Positions are first occurrences (-1 when absent); when
      they coincide the result is the default pair (0, 0). */
  function FaceEdgeIndexPair(f: Face, p: IndexPair): (r: IndexPair)
    ensures var ids := CornerList(f);
            IndexOf(ids, p.i) != IndexOf(ids, p.j) ==> r == p || r == IndexPair(p.j, p.i)
    ensures var ids := CornerList(f);
            IndexOf(ids, p.i) == IndexOf(ids, p.j) ==> r == IndexPair(0, 0)
  {
    var ids := CornerList(f);
    var last := |ids| - 1;
    var iId := IndexOf(ids, p.i);
    var jId := IndexOf(ids, p.j);
    if iId == 0 && jId == last then IndexPair(p.j, p.i)
    else if iId == last && jId == 0 then IndexPair(p.i, p.j)
    else if iId > jId then IndexPair(p.j, p.i)
    else if jId > iId then IndexPair(p.i, p.j)
    else IndexPair(0, 0)
  }

  /** On a face with distinct corners, a side of the face given either way
      round comes back as the face's own directed edge. */
  lemma FaceEdgeIndexPairOriented(f: Face, p: IndexPair)
    requires ProperFace(f)
    requires (p.i, p.j) in FaceEdges(f) || (p.j, p.i) in FaceEdges(f)
    ensures var r := FaceEdgeIndexPair(f, p);
            (r.i, r.j) in FaceEdges(f) && (r == p || r == IndexPair(p.j, p.i))
  {
  }

  /** A vertex pair that is not a side of a triangle, when one vertex is
      missing from it, is ordered missing vertex first. */
  lemma FaceEdgeIndexPairMissing(f: Face, i: int, j: int)
    requires i !in Corners(f) && j in Corners(f)
    ensures FaceEdgeIndexPair(f, IndexPair(i, j)) == IndexPair(i, j)
  {
  }
}
