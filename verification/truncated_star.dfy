/** The index bookkeeping of
    Crane/Patterns/TessellationOnMesh/TruncatedStarOrigamize.cs: every
    original vertex gets one top vertex per incident edge, every face a
    shrunk copy, and each edge seen from a vertex adds triangles joining
    top vertices to shrunk corners. The orientation helpers are those of
    StarOrigamize (module Star).

    Vertex numbering: the n offset vertices, then the top vertices, block
    after block in vertex order, then the shrunk corners. The walk around
    each vertex is an input, as in module Star; the top vertex of the
    edge (i, to) is looked up by its position in that walk. */
module TruncatedStar {
  import opened Common
  import opened CMesh
  import opened Utils
  import opened Star

  // ----------------------------------------------------------- numbering

  /** The number of edges seen from each vertex. */
  function VisitSizes(walks: seq<seq<Visit>>): (sizes: seq<nat>)
    ensures |sizes| == |walks|
    ensures forall i :: 0 <= i < |walks| ==> sizes[i] == |walks[i]|
  {
    seq(|walks|, i requires 0 <= i < |walks| => |walks[i]|)
  }

  /** edgeVertexId2TopVertexId: the top vertex of the `c`-th edge of vertex
      `i`, counted on from the n offset vertices. It is never an offset
      vertex, and for an edge of the walk it comes before the shrunk
      corners. */
  function TopVertex(walks: seq<seq<Visit>>, i: nat, c: nat): (t: int)
    requires i <= |walks|
    ensures |walks| <= t
    ensures i < |walks| && c < |walks[i]| ==> t < ShrunkBase(walks)
  {
    assert i < |walks| && c < |walks[i]| ==> BlockId(VisitSizes(walks), i, c) < Total(VisitSizes(walks)) by {
      if i < |walks| && c < |walks[i]| {
        BlockIdInjective(VisitSizes(walks), i, c, i, c);
      }
    }
    |walks| + BlockId(VisitSizes(walks), i, c)
  }

  /** The first shrunk corner: past the offset and the top vertices. */
  function ShrunkBase(walks: seq<seq<Visit>>): int
  {
    |walks| + Total(VisitSizes(walks))
  }

  /** Top vertices are distinct and lie between the offset vertices and
      the shrunk corners. */
  lemma TopVertexDistinct(walks: seq<seq<Visit>>, i: nat, c: nat, i': nat, c': nat)
    requires i < |walks| && c < |walks[i]| && i' < |walks| && c' < |walks[i']|
    ensures |walks| <= TopVertex(walks, i, c) < ShrunkBase(walks)
    ensures TopVertex(walks, i, c) == TopVertex(walks, i', c') ==> i == i' && c == c'
  {
    BlockIdInjective(VisitSizes(walks), i, c, i', c');
  }

  /** Consecutive edges of one vertex have consecutive top vertices. */
  lemma TopVertexNext(walks: seq<seq<Visit>>, i: nat, c: nat)
    requires i < |walks|
    ensures TopVertex(walks, i, c + 1) == TopVertex(walks, i, c) + 1
  {
  }

  /** A shrunk corner id, less the base, indexes shrinkedVerts: the
      corner's position among all face corners. */
  lemma ShrunkIndexMapsBack(walks: seq<seq<Visit>>, faces: seq<Face>, i: nat, j: nat)
    requires i < |faces| && j < FaceSize(faces[i])
    ensures var id := CornerVertex(faces, ShrunkBase(walks), i, j) - ShrunkBase(walks);
            id == BlockId(CornerSizes(faces), i, j) && 0 <= id < Total(CornerSizes(faces))
  {
    CornerVertexRange(faces, ShrunkBase(walks), i, j);
  }

  // -------------------------------------------------------- the top ring

  /** The faces the first loop adds at the `c`-th edge of a vertex of
      degree `d` whose first top vertex is `top0`. */
  function RingStep(from: int, top0: int, d: nat, naked: bool, c: nat): (r: seq<Face>)
    ensures c == d - 1 ==> |r| == (if naked then 1 else 2)
    ensures c != d - 1 ==> |r| == (if c == 0 then 0 else 1)
    ensures |r| >= 1 ==> r[0] == Triangle(from, top0 + c - 1, top0 + c)
    ensures |r| == 2 ==> r[1] == Triangle(from, top0 + c, top0)
  {
    var t := top0 + c;
    if c != d - 1 && c != 0 then [Triangle(from, t - 1, t)]
    else if c == d - 1 then
      [Triangle(from, t - 1, t)] + (if !naked then [Triangle(from, t, t - d + 1)] else [])
    else []
  }

  /** The ring faces of the first `c` edges. */
  function RingFaces(from: int, top0: int, d: nat, naked: bool, c: nat): (r: seq<Face>)
    requires c <= d
    ensures d >= 2 ==> |r| == (if c == 0 then 0 else c - 1) + (if c == d && !naked then 1 else 0)
    ensures d >= 2 ==> forall k :: 0 <= k < |r| && k < d - 1 ==> r[k] == Triangle(from, top0 + k, top0 + k + 1)
    ensures d >= 2 && c == d && !naked ==> r[d - 1] == Triangle(from, top0 + d - 1, top0)
  {
    if c == 0 then [] else RingFaces(from, top0, d, naked, c - 1) + RingStep(from, top0, d, naked, c - 1)
  }

  /** Around a vertex of degree at least two the ring is a fan over its
      consecutive top vertices, closed into a cycle for an interior
      vertex: every top vertex of the vertex is used and nothing else but
      the vertex itself. */
  lemma RingCoversTops(from: int, top0: int, d: nat, naked: bool, c: nat)
    requires d >= 2 && c < d
    ensures exists k :: 0 <= k < |RingFaces(from, top0, d, naked, d)|
                        && top0 + c in Corners(RingFaces(from, top0, d, naked, d)[k])
    ensures var r := RingFaces(from, top0, d, naked, d);
            forall k, x :: 0 <= k < |r| && x in Corners(r[k]) ==> x == from || top0 <= x < top0 + d
  {
    var r := RingFaces(from, top0, d, naked, d);
    var w := if c < d - 1 then c else c - 1;
    assert r[w] == Triangle(from, top0 + w, top0 + w + 1);
    assert 0 <= w < |r| && top0 + c in Corners(r[w]);
    forall k, x | 0 <= k < |r| && x in Corners(r[k])
      ensures x == from || top0 <= x < top0 + d
    {
      if k < d - 1 {
        assert r[k] == Triangle(from, top0 + k, top0 + k + 1);
      } else {
        assert r[k] == Triangle(from, top0 + d - 1, top0);
      }
    }
  }

  /** A vertex with a single edge gets one triangle reaching back to the
      vertex just before its own top vertex. */
  lemma RingOfDegreeOne(from: int, top0: int)
    ensures RingFaces(from, top0, 1, true, 1) == [Triangle(from, top0 - 1, top0)]
  {
  }

  // ---------------------------------------------------- triangles per edge

  /** The top vertex before the `c`-th, cyclically within the vertex's
      block (`top + d - 1` for the first edge). */
  function PreviousTop(top0: int, d: nat, c: nat): (t: int)
    requires c < d
    ensures top0 <= t < top0 + d
    ensures (if t + 1 == top0 + d then top0 else t + 1) == top0 + c
  {
    var top := top0 + c;
    if c == 0 then top + d - 1 else top - 1
  }

  /** The triangles the second loop adds for the `c`-th edge of a vertex
      of degree `d`, when the edge has two faces. */
  function TruncatedVisitFaces(meshFaces: seq<Face>, base: int, from: int, top0: int, d: nat,
                               naked: bool, c: nat, v: Visit): (r: seq<Face>)
    requires c < d
    requires forall m :: 0 <= m < |v.faces| ==> 0 <= v.faces[m] < |meshFaces|
    ensures |v.faces| != 2 ==> r == []
    ensures |v.faces| == 2 ==> |r| == (if c + 2 == d && naked then 4 else 3)
    ensures forall k, x :: 0 <= k < |r| && x in Corners(r[k]) ==>
              (top0 <= x < top0 + d) || (base <= x < base + Total(CornerSizes(meshFaces)))
  {
    if |v.faces| == 2 then
      var rc := InsertedCorners(meshFaces, base, from, v);
      var top := top0 + c;
      var prev := PreviousTop(top0, d, c);
      [Triangle(top, prev, rc.1), Triangle(top, rc.1, rc.2), Triangle(prev, rc.0, rc.1)]
      + (if c + 2 == d && naked then [Triangle(top, rc.2, top + 1)] else [])
    else []
  }

  // ------------------------------------------------------- visited edges

  function Reverse(p: (int, int)): (int, int)
  {
    (p.1, p.0)
  }

  /** The keys wasEdgeVisited holds after a run of directed visits: a
      visit is recorded unless its reverse already was. So an edge is never
      recorded in both directions, unless it is a loop. */
  function Marked(ds: seq<(int, int)>): (m: set<(int, int)>)
    ensures forall p :: p in m && Reverse(p) in m ==> p.0 == p.1
  {
    if |ds| == 0 then {}
    else
      var n := |ds| - 1;
      var prev := Marked(ds[..n]);
      if Reverse(ds[n]) in prev then prev else prev + {ds[n]}
  }

  /** `visited` at visit `k`: its reverse was recorded before. */
  predicate SeenBefore(ds: seq<(int, int)>, k: nat)
    requires k < |ds|
  {
    Reverse(ds[k]) in Marked(ds[..k])
  }

  predicate DistinctPairs(ds: seq<(int, int)>)
  {
    forall a, b :: 0 <= a < b < |ds| ==> ds[a] != ds[b]
  }

  /** Only visits are recorded. */
  lemma {:induction false} MarkedVisited(ds: seq<(int, int)>, p: (int, int))
    ensures p in Marked(ds) ==> p in ds
    decreases |ds|
  {
    if |ds| > 0 {
      var n := |ds| - 1;
      MarkedVisited(ds[..n], p);
    }
  }

  /** Records are never dropped. */
  lemma {:induction false} MarkedGrows(ds: seq<(int, int)>, a: nat, b: nat)
    requires a <= b <= |ds|
    ensures Marked(ds[..a]) <= Marked(ds[..b])
    decreases b
  {
    if a < b {
      MarkedGrows(ds, a, b - 1);
      assert ds[..b][..b - 1] == ds[..b - 1];
    }
  }

  /** With every directed edge walked once, a visit counts as visited
      exactly when its reverse was walked earlier. */
  lemma SeenBeforeIff(ds: seq<(int, int)>, k: nat)
    requires DistinctPairs(ds) && k < |ds|
    ensures SeenBefore(ds, k) <==> exists m :: 0 <= m < k && ds[m] == Reverse(ds[k])
  {
    if SeenBefore(ds, k) {
      MarkedVisited(ds[..k], Reverse(ds[k]));
      var m :| 0 <= m < k && ds[..k][m] == Reverse(ds[k]);
      assert ds[m] == Reverse(ds[k]);
    }
    if m :| 0 <= m < k && ds[m] == Reverse(ds[k]) {
      MarkedVisited(ds[..m], ds[k]);
      assert forall j :: 0 <= j < m ==> ds[..m][j] != ds[k];
      assert Reverse(ds[m]) == ds[k];
      assert ds[..m + 1][..m] == ds[..m];
      assert ds[m] in Marked(ds[..m + 1]);
      MarkedGrows(ds, m + 1, k);
    }
  }

  /** Of the two visits of an undirected edge, the first is not visited
      and the second is: the rTo-l mountain line is drawn once per edge. */
  lemma FirstVisitDrawsOnce(ds: seq<(int, int)>, k: nat, k': nat)
    requires DistinctPairs(ds) && k < k' < |ds| && ds[k'] == Reverse(ds[k])
    ensures !SeenBefore(ds, k) && SeenBefore(ds, k')
  {
    SeenBeforeIff(ds, k);
    SeenBeforeIff(ds, k');
    assert ds[k] == Reverse(ds[k']);
  }

  /** The directed visits (vertex, far end), vertex after vertex. */
  function DirectedVisits(walks: seq<seq<Visit>>): (ds: seq<(int, int)>)
    ensures |ds| == Total(VisitSizes(walks))
  {
    if |walks| == 0 then []
    else
      var n := |walks| - 1;
      assert VisitSizes(walks)[..n] == VisitSizes(walks[..n]);
      DirectedVisits(walks[..n]) + seq(|walks[n]|, c requires 0 <= c < |walks[n]| => (n, walks[n][c].to))
  }

  /** The `c`-th visit of vertex `i` sits at the same position in the
      directed visits as its top vertex among the top vertices. */
  lemma {:induction false} DirectedVisitsAt(walks: seq<seq<Visit>>, i: nat, c: nat)
    requires i < |walks| && c < |walks[i]|
    ensures TopVertex(walks, i, c) - |walks| < |DirectedVisits(walks)|
    ensures DirectedVisits(walks)[TopVertex(walks, i, c) - |walks|] == (i, walks[i][c].to)
    decreases |walks|
  {
    var n := |walks| - 1;
    var prefix := walks[..n];
    assert VisitSizes(walks)[..n] == VisitSizes(prefix);
    BlockIdInjective(VisitSizes(walks), i, c, i, c);
    if i < n {
      assert VisitSizes(walks)[..i] == VisitSizes(prefix)[..i];
      DirectedVisitsAt(prefix, i, c);
    } else {
      assert VisitSizes(walks)[..n] == VisitSizes(prefix);
    }
  }

  /** Whether visit (`i`, `c`) draws the rTo-l mountain line: an edge with
      two faces whose reverse was not recorded yet. */
  predicate DrawsMountain(walks: seq<seq<Visit>>, i: nat, c: nat)
    requires i < |walks| && c < |walks[i]|
    ensures DistinctPairs(DirectedVisits(walks)) ==>
              (DrawsMountain(walks, i, c) <==>
                 |walks[i][c].faces| == 2
                 && !exists m :: 0 <= m < TopVertex(walks, i, c) - |walks| && DirectedVisits(walks)[m] == (walks[i][c].to, i))
  {
    DirectedVisitsAt(walks, i, c);
    var ds := DirectedVisits(walks);
    var k := TopVertex(walks, i, c) - |walks|;
    assert DistinctPairs(ds) ==> (SeenBefore(ds, k) <==> exists m :: 0 <= m < k && ds[m] == Reverse(ds[k])) by {
      if DistinctPairs(ds) {
        SeenBeforeIff(ds, k);
      }
    }
    |walks[i][c].faces| == 2 && !SeenBefore(ds, k)
  }

  // ------------------------------------------------------------ the piece

  /** The loop over SplitDisjointPieces: the last piece with more than ten
      vertices, None (Mesh left null) when there is none. */
  function LastLargePiece(vertexCounts: seq<int>): (r: Option<nat>)
    ensures r.Some? ==> r.value < |vertexCounts| && vertexCounts[r.value] > 10
                        && forall k :: r.value < k < |vertexCounts| ==> vertexCounts[k] <= 10
    ensures r.None? <==> forall k :: 0 <= k < |vertexCounts| ==> vertexCounts[k] <= 10
  {
    if |vertexCounts| == 0 then None
    else
      var n := |vertexCounts| - 1;
      if vertexCounts[n] > 10 then Some(n)
      else
        var r := LastLargePiece(vertexCounts[..n]);
        assert forall k :: 0 <= k < n ==> vertexCounts[..n][k] == vertexCounts[k];
        r
  }
}
