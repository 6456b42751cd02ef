/** The crease-pattern mesh, Crane/Core/CMesh.cs: how edge labels are
    assigned from mountain, valley and triangulation lines, how quads are
    triangulated, which edges are inner, how fold angles are read from the
    face normals, how face pairs are oriented, and how vertex coordinates
    are laid out in the solver's vectors.

    Labels are the source's characters: 'M' mountain, 'V' valley,
    'T' triangulated (flat), 'U' unassigned and 'B' boundary. Rhino's
    geometry is replaced by inputs: for each input line, which vertices
    lie within 0.001 of its two ends; for each quad, its two diagonal
    lengths; for each inner edge, the sine and cosine of its dihedral
    angle; and `acos` itself. */
module CMesh {
  import opened Common

  // ---------------------------------------------------------------- faces

  /** A Rhino mesh face: a triangle repeats its third corner (`c == d`). */
  datatype Face = Face(a: int, b: int, c: int, d: int)

  predicate IsQuad(f: Face) { f.c != f.d }

  function Triangle(a: int, b: int, c: int): (f: Face)
    ensures !IsQuad(f)
  {
    Face(a, b, c, c)
  }

  /** The directed edges of a triangle, following its corner order. */
  function TriangleEdges(f: Face): set<(int, int)>
  {
    {(f.a, f.b), (f.b, f.c), (f.c, f.a)}
  }

  /** The directed edges of a quad, following its corner order. */
  function QuadEdges(f: Face): set<(int, int)>
  {
    {(f.a, f.b), (f.b, f.c), (f.c, f.d), (f.d, f.a)}
  }

  function Corners(f: Face): set<int>
  {
    {f.a, f.b, f.c, f.d}
  }

  /** The pieces one face becomes, and the diagonal drawn, if any. */
  datatype Split = Split(pieces: seq<Face>, diagonal: Option<(int, int)>)

  /** One step of InsertTriangulate. `d02` and `d13` are the lengths of
      the diagonals 0-2 and 1-3. A quad is cut along the longer diagonal,
      along 0-2 on a tie; the two triangles keep the quad's orientation, so
      they run along the diagonal in opposite directions and between them
      use exactly the quad's corners and directed edges. A triangle is kept
      as it is. */
  function SplitFace(f: Face, d02: real, d13: real): (s: Split)
    ensures IsQuad(f) <==> s.diagonal.Some?
    ensures !IsQuad(f) ==> s.pieces == [f]
    ensures IsQuad(f) ==>
              |s.pieces| == 2 && !IsQuad(s.pieces[0]) && !IsQuad(s.pieces[1])
              && s.diagonal.value == (if d02 >= d13 then (f.a, f.c) else (f.b, f.d))
              && var (p, q) := s.diagonal.value;
                 TriangleEdges(s.pieces[0]) + TriangleEdges(s.pieces[1]) == QuadEdges(f) + {(p, q), (q, p)}
                 && Corners(s.pieces[0]) + Corners(s.pieces[1]) == Corners(f)
                 && (((q, p) in TriangleEdges(s.pieces[0]) && (p, q) in TriangleEdges(s.pieces[1]))
                     || ((p, q) in TriangleEdges(s.pieces[0]) && (q, p) in TriangleEdges(s.pieces[1])))
  {
    if IsQuad(f) then
      if d02 >= d13 then Split([Triangle(f.b, f.c, f.a), Triangle(f.d, f.a, f.c)], Some((f.a, f.c)))
      else Split([Triangle(f.a, f.b, f.d), Triangle(f.c, f.d, f.b)], Some((f.b, f.d)))
    else Split([Triangle(f.a, f.b, f.c)], None)
  }

  function Quads(faces: seq<Face>): (n: nat)
    ensures n <= |faces|
  {
    if |faces| == 0 then 0
    else Quads(faces[..|faces| - 1]) + (if IsQuad(faces[|faces| - 1]) then 1 else 0)
  }

  /** InsertTriangulate: the new face list and the diagonals drawn, in face
      order. `diag(i)` gives the two diagonal lengths of face `i`. */
  function Triangulate(faces: seq<Face>, diag: int -> (real, real)): (r: (seq<Face>, seq<(int, int)>))
    ensures |r.0| == |faces| + Quads(faces)
    ensures |r.1| == Quads(faces)
    ensures forall k :: 0 <= k < |r.0| ==> !IsQuad(r.0[k])
  {
    if |faces| == 0 then ([], [])
    else
      var i := |faces| - 1;
      var rest := Triangulate(faces[..i], diag);
      var s := SplitFace(faces[i], diag(i).0, diag(i).1);
      (rest.0 + s.pieces, rest.1 + (if s.diagonal.Some? then [s.diagonal.value] else []))
  }

  /** Each input face that is a quad contributes exactly one diagonal,
      which joins two of its opposite corners; so the faces of the result
      are the triangles plus twice the quads, with nothing lost. */
  lemma {:induction false} TriangulateDiagonals(faces: seq<Face>, diag: int -> (real, real))
    ensures forall k :: 0 <= k < |Triangulate(faces, diag).1| ==>
              DiagonalOfSome(faces, Triangulate(faces, diag).1[k])
  {
    if |faces| > 0 {
      var i := |faces| - 1;
      TriangulateDiagonals(faces[..i], diag);
      var ds := Triangulate(faces, diag).1;
      var prev := Triangulate(faces[..i], diag).1;
      var s := SplitFace(faces[i], diag(i).0, diag(i).1);
      assert ds == prev + (if s.diagonal.Some? then [s.diagonal.value] else []);
      forall k | 0 <= k < |ds|
        ensures DiagonalOfSome(faces, ds[k])
      {
        if k < |prev| {
          assert DiagonalOfSome(faces[..i], prev[k]);
          var j :| 0 <= j < i && IsDiagonal(faces[..i][j], prev[k]);
          assert faces[..i][j] == faces[j];
        } else {
          assert ds[k] == s.diagonal.value;
          assert IsDiagonal(faces[i], ds[k]);
        }
      }
    }
  }

  /** `d` joins two opposite corners of the quad `f`. */
  predicate IsDiagonal(f: Face, d: (int, int))
  {
    IsQuad(f) && (d == (f.a, f.c) || d == (f.b, f.d))
  }

  ghost predicate DiagonalOfSome(faces: seq<Face>, d: (int, int))
  {
    exists i :: 0 <= i < |faces| && IsDiagonal(faces[i], d)
  }

  // --------------------------------------------------------- edge lookup

  /** Rhino's `TopologyEdges.GetEdgeIndex(i, j)`: the edge joining the two
      vertices in either direction, or -1. Topology edges are distinct, so
      the first match is the match. */
  function EdgeIndex(edges: seq<(int, int)>, i: int, j: int): (k: int)
    ensures -1 <= k < |edges|
    ensures k >= 0 ==> edges[k] == (i, j) || edges[k] == (j, i)
    ensures k == -1 <==> forall e :: 0 <= e < |edges| ==> edges[e] != (i, j) && edges[e] != (j, i)
  {
    if |edges| == 0 then -1
    else
      var k := EdgeIndex(edges[..|edges| - 1], i, j);
      if k >= 0 then k
      else if edges[|edges| - 1] == (i, j) || edges[|edges| - 1] == (j, i) then |edges| - 1
      else -1
  }

  // ------------------------------------------------- line endpoint search

  /** For one input line: which vertices lie within 0.001 of its start
      (`nearFrom`) and of its end (`nearTo`). */
  datatype LineNear = LineNear(nearFrom: seq<bool>, nearTo: seq<bool>)

  predicate WellSized(l: LineNear, n: nat)
  {
    |l.nearFrom| == n && |l.nearTo| == n
  }

  /** The vertices the search registers as hits, in order, among the first
      `k`: a vertex near the start, or else near the end. */
  function HitsBelow(l: LineNear, k: nat): (h: seq<int>)
    requires k <= |l.nearFrom| && k <= |l.nearTo|
    ensures forall t :: 0 <= t < |h| ==> 0 <= h[t] < k && (l.nearFrom[h[t]] || l.nearTo[h[t]])
  {
    if k == 0 then []
    else HitsBelow(l, k - 1) + (if l.nearFrom[k - 1] || l.nearTo[k - 1] then [k - 1] else [])
  }

  /** The last of `hits` that is near the start, or -1. */
  function LastNearFrom(l: LineNear, hits: seq<int>): (v: int)
    requires forall t :: 0 <= t < |hits| ==> 0 <= hits[t] < |l.nearFrom|
    ensures v == -1 || (v in hits && l.nearFrom[v])
  {
    if |hits| == 0 then -1
    else if l.nearFrom[hits[|hits| - 1]] then hits[|hits| - 1]
    else LastNearFrom(l, hits[..|hits| - 1])
  }

  /** The last of `hits` that is not near the start, or -1. */
  function LastNearToOnly(l: LineNear, hits: seq<int>): (v: int)
    requires forall t :: 0 <= t < |hits| ==> 0 <= hits[t] < |l.nearFrom|
    ensures v == -1 || (v in hits && !l.nearFrom[v])
  {
    if |hits| == 0 then -1
    else if !l.nearFrom[hits[|hits| - 1]] then hits[|hits| - 1]
    else LastNearToOnly(l, hits[..|hits| - 1])
  }

  /** The first two hits of the whole vertex list, or all of them. */
  function FirstHits(l: LineNear, n: nat): (h: seq<int>)
    requires WellSized(l, n)
    ensures |h| <= 2
    ensures forall t :: 0 <= t < |h| ==> 0 <= h[t] < n && (l.nearFrom[h[t]] || l.nearTo[h[t]])
  {
    var all := HitsBelow(l, n);
    if |all| <= 2 then all else all[..2]
  }

  /** The endpoint indices the source's search settles on: it stops at the
      second hit, a vertex near the start is always taken as the start (even
      when it is near the end too), and a missing end stays -1. */
  function Endpoints(l: LineNear, n: nat): (r: (int, int))
    requires WellSized(l, n)
    ensures r.0 == -1 || (0 <= r.0 < n && l.nearFrom[r.0])
    ensures r.1 == -1 || (0 <= r.1 < n && l.nearTo[r.1] && !l.nearFrom[r.1])
  {
    var h := FirstHits(l, n);
    (LastNearFrom(l, h), LastNearToOnly(l, h))
  }

  lemma {:induction false} HitsBelowPrefix(l: LineNear, k: nat, m: nat)
    requires k <= m <= |l.nearFrom| && m <= |l.nearTo|
    ensures HitsBelow(l, k) <= HitsBelow(l, m)
    decreases m - k
  {
    if k < m {
      HitsBelowPrefix(l, k, m - 1);
    }
  }

  /** The search loop of SetCMeshFromMVT, as written: `while (found != 2 &&
      j < count)`, a vertex near the start taken before one near the end. */
  method FindEndpoints(l: LineNear, n: nat) returns (fromIndex: int, toIndex: int)
    requires WellSized(l, n)
    ensures (fromIndex, toIndex) == Endpoints(l, n)
    ensures fromIndex == -1 || (0 <= fromIndex < n && l.nearFrom[fromIndex])
    ensures toIndex == -1 || (0 <= toIndex < n && l.nearTo[toIndex] && !l.nearFrom[toIndex])
  {
    var found := 0;
    var j := 0;
    fromIndex := -1;
    toIndex := -1;
    while found != 2 && j < n
      invariant 0 <= j <= n
      invariant found == |HitsBelow(l, j)| <= 2
      invariant fromIndex == LastNearFrom(l, HitsBelow(l, j))
      invariant toIndex == LastNearToOnly(l, HitsBelow(l, j))
    {
      HitsStep(l, j);
      if l.nearFrom[j] {
        fromIndex := j;
        found := found + 1;
      } else if l.nearTo[j] {
        toIndex := j;
        found := found + 1;
      }
      j := j + 1;
    }
    SearchStops(l, n, j);
  }

  /** One more vertex adds a hit exactly when it is near either end, and
      moves the start or the end onto it accordingly. */
  lemma HitsStep(l: LineNear, j: nat)
    requires j < |l.nearFrom| && j < |l.nearTo|
    ensures |HitsBelow(l, j + 1)| == |HitsBelow(l, j)| + (if l.nearFrom[j] || l.nearTo[j] then 1 else 0)
    ensures LastNearFrom(l, HitsBelow(l, j + 1))
            == if l.nearFrom[j] then j else LastNearFrom(l, HitsBelow(l, j))
    ensures LastNearToOnly(l, HitsBelow(l, j + 1))
            == if !l.nearFrom[j] && l.nearTo[j] then j else LastNearToOnly(l, HitsBelow(l, j))
  {
    var h := HitsBelow(l, j);
    if l.nearFrom[j] || l.nearTo[j] {
      assert HitsBelow(l, j + 1) == h + [j];
      LastNearAppend(l, h, j);
    } else {
      assert HitsBelow(l, j + 1) == h;
    }
  }

  /** Where the search stops, at the second hit or the last vertex, the hits
      so far are the first hits of the whole list. */
  lemma SearchStops(l: LineNear, n: nat, j: nat)
    requires WellSized(l, n) && j <= n
    requires |HitsBelow(l, j)| == 2 || (j == n && |HitsBelow(l, j)| <= 2)
    ensures FirstHits(l, n) == HitsBelow(l, j)
  {
    HitsBelowPrefix(l, j, n);
    if |HitsBelow(l, j)| == 2 {
      assert HitsBelow(l, n)[..2] == HitsBelow(l, j);
    }
  }

  lemma LastNearAppend(l: LineNear, hits: seq<int>, v: int)
    requires forall t :: 0 <= t < |hits| ==> 0 <= hits[t] < |l.nearFrom|
    requires 0 <= v < |l.nearFrom|
    ensures LastNearFrom(l, hits + [v]) == if l.nearFrom[v] then v else LastNearFrom(l, hits)
    ensures LastNearToOnly(l, hits + [v]) == if l.nearFrom[v] then LastNearToOnly(l, hits) else v
  {
    assert (hits + [v])[..|hits|] == hits;
  }

  /** The usual case: one vertex near each end and they differ. The search
      then finds exactly that edge's two vertices. */
  lemma EndpointsOfCleanLine(l: LineNear, n: nat, a: int, b: int)
    requires WellSized(l, n) && 0 <= a < n && 0 <= b < n && a != b
    requires forall j :: 0 <= j < n ==> (l.nearFrom[j] <==> j == a) && (l.nearTo[j] <==> j == b)
    ensures Endpoints(l, n) == (a, b)
  {
    var lo := if a < b then a else b;
    var hi := if a < b then b else a;
    HitsExactly(l, n, lo, hi);
    var h := FirstHits(l, n);
    assert h == [lo, hi];
    assert h[..1] == [lo];
    assert LastNearFrom(l, [lo]) == (if l.nearFrom[lo] then lo else -1);
    assert LastNearToOnly(l, [lo]) == (if l.nearFrom[lo] then -1 else lo);
  }

  lemma {:induction false} HitsExactly(l: LineNear, k: nat, lo: int, hi: int)
    requires k <= |l.nearFrom| && k <= |l.nearTo| && 0 <= lo < hi
    requires forall j :: 0 <= j < k ==> (l.nearFrom[j] || l.nearTo[j] <==> j == lo || j == hi)
    ensures HitsBelow(l, k) == (if k <= lo then [] else if k <= hi then [lo] else [lo, hi])
  {
    if k > 0 {
      HitsExactly(l, k - 1, lo, hi);
    }
  }

  /** A vertex near both ends and a second vertex near the start: the
      second overwrites the start, the end is never set, and the line
      labels nothing. */
  lemma DoubleStartHit()
    ensures Endpoints(LineNear([true, true], [true, false]), 2) == (1, -1)
  {
    var l := LineNear([true, true], [true, false]);
    assert HitsBelow(l, 1) == [0];
    assert HitsBelow(l, 2) == [0, 1];
  }

  // ------------------------------------------------------------- labelling

  /** The initial labels: 'T' inside an n-gon, 'U' elsewhere. */
  function InitialLabels(ngonInterior: seq<bool>): (labels: seq<char>)
    ensures |labels| == |ngonInterior|
    ensures forall e :: 0 <= e < |labels| ==> labels[e] == (if ngonInterior[e] then 'T' else 'U')
  {
    seq(|ngonInterior|, e requires 0 <= e < |ngonInterior| => if ngonInterior[e] then 'T' else 'U')
  }

  /** Write `c` on every target edge; -1 targets are skipped. */
  function Apply(labels: seq<char>, targets: seq<int>, c: char): (out: seq<char>)
    ensures |out| == |labels|
    ensures forall e :: 0 <= e < |out| ==> out[e] == (if e in targets then c else labels[e])
  {
    if |targets| == 0 then labels
    else
      var prev := Apply(labels, targets[..|targets| - 1], c);
      var t := targets[|targets| - 1];
      assert targets == targets[..|targets| - 1] + [t];
      if 0 <= t < |prev| then prev[t := c] else prev
  }

  /** The edge each input line names, or -1. */
  function LineTargets(edges: seq<(int, int)>, lines: seq<LineNear>, n: nat): (ts: seq<int>)
    requires forall i :: 0 <= i < |lines| ==> WellSized(lines[i], n)
    ensures |ts| == |lines|
    ensures forall i :: 0 <= i < |ts| ==>
              ts[i] == EdgeIndex(edges, Endpoints(lines[i], n).0, Endpoints(lines[i], n).1)
  {
    seq(|lines|, i requires 0 <= i < |lines| =>
      EdgeIndex(edges, Endpoints(lines[i], n).0, Endpoints(lines[i], n).1))
  }

  /** The edge each triangulation diagonal names, or -1. */
  function DiagonalTargets(edges: seq<(int, int)>, diagonals: seq<(int, int)>): (ts: seq<int>)
    ensures |ts| == |diagonals|
    ensures forall i :: 0 <= i < |ts| ==> ts[i] == EdgeIndex(edges, diagonals[i].0, diagonals[i].1)
  {
    seq(|diagonals|, i requires 0 <= i < |diagonals| => EdgeIndex(edges, diagonals[i].0, diagonals[i].1))
  }

  /** Every edge with exactly one face becomes 'B'. */
  function MarkBoundary(labels: seq<char>, faceCounts: seq<nat>): (out: seq<char>)
    requires |faceCounts| == |labels|
    ensures |out| == |labels|
    ensures forall e :: 0 <= e < |out| ==> out[e] == (if faceCounts[e] == 1 then 'B' else labels[e])
  {
    seq(|labels|, e requires 0 <= e < |labels| => if faceCounts[e] == 1 then 'B' else labels[e])
  }

  /** The inputs SetCMeshFromMVT labels from, all relative to the
      triangulated mesh's topology. */
  datatype Crease = Crease(
    edges: seq<(int, int)>, faceCounts: seq<nat>, ngonInterior: seq<bool>, vertexCount: nat,
    mountain: seq<LineNear>, valley: seq<LineNear>, diagonals: seq<(int, int)>, flat: seq<LineNear>)

  predicate ValidCrease(c: Crease)
  {
    |c.faceCounts| == |c.edges| && |c.ngonInterior| == |c.edges|
    && (forall i :: 0 <= i < |c.mountain| ==> WellSized(c.mountain[i], c.vertexCount))
    && (forall i :: 0 <= i < |c.valley| ==> WellSized(c.valley[i], c.vertexCount))
    && (forall i :: 0 <= i < |c.flat| ==> WellSized(c.flat[i], c.vertexCount))
  }

  /** The edge labels as SetCMeshFromMVT leaves them: initial labels, then
      mountain lines, valley lines, diagonals and flat lines, each writing
      over what came before, and the boundary last. */
  function EdgeLabels(c: Crease): (labels: seq<char>)
    requires ValidCrease(c)
    ensures |labels| == |c.edges|
    ensures forall e :: 0 <= e < |labels| && c.faceCounts[e] == 1 ==> labels[e] == 'B'
  {
    var l0 := InitialLabels(c.ngonInterior);
    var l1 := Apply(l0, LineTargets(c.edges, c.mountain, c.vertexCount), 'M');
    var l2 := Apply(l1, LineTargets(c.edges, c.valley, c.vertexCount), 'V');
    var l3 := Apply(l2, DiagonalTargets(c.edges, c.diagonals), 'T');
    var l4 := Apply(l3, LineTargets(c.edges, c.flat, c.vertexCount), 'T');
    MarkBoundary(l4, c.faceCounts)
  }

  /** The label of each edge, decided by the last rule that names it:
      boundary, then flat line or diagonal, then valley line, then mountain
      line, then the initial label. */
  lemma EdgeLabelPrecedence(c: Crease, e: int)
    requires ValidCrease(c) && 0 <= e < |c.edges|
    ensures EdgeLabels(c)[e] ==
              if c.faceCounts[e] == 1 then 'B'
              else if e in LineTargets(c.edges, c.flat, c.vertexCount) then 'T'
              else if e in DiagonalTargets(c.edges, c.diagonals) then 'T'
              else if e in LineTargets(c.edges, c.valley, c.vertexCount) then 'V'
              else if e in LineTargets(c.edges, c.mountain, c.vertexCount) then 'M'
              else if c.ngonInterior[e] then 'T'
              else 'U'
  {
  }

  /** The labels are drawn from M, V, T, U and B, and 'B' marks exactly the
      edges with one face. */
  lemma EdgeLabelsAlphabet(c: Crease)
    requires ValidCrease(c)
    ensures forall e :: 0 <= e < |c.edges| ==> EdgeLabels(c)[e] in {'M', 'V', 'T', 'U', 'B'}
    ensures forall e :: 0 <= e < |c.edges| ==> (EdgeLabels(c)[e] == 'B' <==> c.faceCounts[e] == 1)
  {
    forall e | 0 <= e < |c.edges|
      ensures EdgeLabels(c)[e] in {'M', 'V', 'T', 'U', 'B'}
      ensures EdgeLabels(c)[e] == 'B' <==> c.faceCounts[e] == 1
    {
      EdgeLabelPrecedence(c, e);
    }
  }

  // ----------------------------------------------------------- inner edges

  /** Indices of the edges with more than one face, in order: the inner
      edges of SetMeshFundamentalInfo. */
  function InnerEdgeIds(faceCounts: seq<nat>): (ids: seq<int>)
    ensures forall k :: 0 <= k < |ids| ==> 0 <= ids[k] < |faceCounts| && faceCounts[ids[k]] > 1
    ensures forall k, m :: 0 <= k < m < |ids| ==> ids[k] < ids[m]
    ensures forall e :: 0 <= e < |faceCounts| && faceCounts[e] > 1 ==> e in ids
  {
    if |faceCounts| == 0 then []
    else
      var e := |faceCounts| - 1;
      InnerEdgeIds(faceCounts[..e]) + (if faceCounts[e] > 1 then [e] else [])
  }

  /** GetInnerEdgeAssignment: the labels with every 'B' removed, in order. */
  function InnerAssignment(labels: seq<char>): (out: seq<char>)
    ensures |out| <= |labels|
    ensures forall k :: 0 <= k < |out| ==> out[k] != 'B'
  {
    if |labels| == 0 then []
    else
      var i := |labels| - 1;
      InnerAssignment(labels[..i]) + (if labels[i] != 'B' then [labels[i]] else [])
  }

  /** The inner assignment keeps every label but 'B', each as often as it
      occurs. */
  lemma {:induction false} InnerAssignmentKeepsLabels(labels: seq<char>)
    ensures multiset(InnerAssignment(labels)) == multiset(labels)[ 'B' := 0 ]
    decreases |labels|
  {
    if |labels| > 0 {
      var i := |labels| - 1;
      assert labels == labels[..i] + [labels[i]];
      InnerAssignmentKeepsLabels(labels[..i]);
    }
  }

  /** On a mesh whose every edge has a face, the assignment of inner edges
      lines up with the inner edge list: entry `k` is the label of the
      `k`-th inner edge. */
  lemma {:induction false} InnerAssignmentAligned(labels: seq<char>, faceCounts: seq<nat>)
    requires BoundaryLabelled(labels, faceCounts)
    ensures |InnerAssignment(labels)| == |InnerEdgeIds(faceCounts)|
    ensures forall k :: 0 <= k < |InnerEdgeIds(faceCounts)| ==>
              InnerAssignment(labels)[k] == labels[InnerEdgeIds(faceCounts)[k]]
  {
    if |labels| > 0 {
      var i := |labels| - 1;
      var front, counts := labels[..i], faceCounts[..i];
      BoundaryLabelledPrefix(labels, faceCounts);
      InnerAssignmentAligned(front, counts);
      InnerEdgeIdsSnoc(faceCounts);
      InnerAssignmentSnoc(labels);
      AlignedExtend(InnerAssignment(labels), InnerAssignment(front), InnerEdgeIds(faceCounts),
                    InnerEdgeIds(counts), front, counts, labels, labels[i] != 'B');
    }
  }

  /** Every edge has a face, and exactly the edges with one face carry 'B'. */
  predicate BoundaryLabelled(labels: seq<char>, faceCounts: seq<nat>)
  {
    |labels| == |faceCounts|
    && forall e :: 0 <= e < |labels| ==> faceCounts[e] >= 1 && (labels[e] == 'B' <==> faceCounts[e] == 1)
  }

  lemma BoundaryLabelledPrefix(labels: seq<char>, faceCounts: seq<nat>)
    requires BoundaryLabelled(labels, faceCounts) && |labels| > 0
    ensures var i := |labels| - 1;
            BoundaryLabelled(labels[..i], faceCounts[..i]) && (labels[i] != 'B' <==> faceCounts[i] > 1)
  {
    var i := |labels| - 1;
    assert forall e :: 0 <= e < i ==> labels[..i][e] == labels[e] && faceCounts[..i][e] == faceCounts[e];
  }

  lemma InnerEdgeIdsSnoc(faceCounts: seq<nat>)
    requires |faceCounts| > 0
    ensures var i := |faceCounts| - 1;
            InnerEdgeIds(faceCounts) == InnerEdgeIds(faceCounts[..i]) + (if faceCounts[i] > 1 then [i] else [])
  {
  }

  lemma InnerAssignmentSnoc(labels: seq<char>)
    requires |labels| > 0
    ensures var i := |labels| - 1;
            InnerAssignment(labels) == InnerAssignment(labels[..i]) + (if labels[i] != 'B' then [labels[i]] else [])
  {
  }

  /** Appending the next label and, when it is kept, its index keeps labels
      and indices aligned. */
  lemma AlignedExtend(out: seq<char>, prevOut: seq<char>, ids: seq<int>, prev: seq<int>,
                      front: seq<char>, counts: seq<nat>, labels: seq<char>, added: bool)
    requires |labels| > 0 && front == labels[..|labels| - 1] && |counts| == |front|
    requires |prevOut| == |prev|
    requires forall k :: 0 <= k < |prev| ==> 0 <= prev[k] < |counts| && counts[prev[k]] > 1
    requires forall k :: 0 <= k < |prev| ==> prevOut[k] == front[prev[k]]
    requires ids == prev + (if added then [|labels| - 1] else [])
    requires out == prevOut + (if added then [labels[|labels| - 1]] else [])
    ensures |out| == |ids|
    ensures forall k :: 0 <= k < |ids| ==> out[k] == labels[ids[k]]
  {
    forall k | 0 <= k < |ids|
      ensures out[k] == labels[ids[k]]
    {
      if k < |prev| {
        assert out[k] == prevOut[k] && ids[k] == prev[k];
      }
    }
  }

  // ------------------------------------------------------------ fold angles

  /** The fold angle GetFoldAngles reads from the cosine (normal dot normal)
      and the sine (cross product along the edge): 0 for a cosine of 1 or
      more, pi for -1 or less, otherwise `acos`, and negative when the sine
      is. */
  function FoldAngle(sin: real, cos: real, acos: real -> real): (a: real)
    ensures cos >= 1.0 ==> a == 0.0
    ensures cos <= -1.0 ==> a == (if sin >= 0.0 then Pi else -Pi)
    ensures -1.0 < cos < 1.0 ==> a == (if sin >= 0.0 then acos(cos) else -acos(cos))
  {
    if sin >= 0.0 then
      if cos >= 1.0 then 0.0 else if cos <= -1.0 then Pi else acos(cos)
    else
      if cos >= 1.0 then 0.0 else if cos <= -1.0 then -Pi else -acos(cos)
  }

  /** `acos` maps the open interval (-1, 1) into [0, pi]. */
  ghost predicate AcosInRange(acos: real -> real)
  {
    forall c :: -1.0 < c < 1.0 ==> 0.0 <= acos(c) <= Pi
  }

  /** Every fold angle lies in [-pi, pi] and carries the sine's sign. */
  lemma FoldAngleRange(sin: real, cos: real, acos: real -> real)
    requires AcosInRange(acos)
    ensures -Pi <= FoldAngle(sin, cos, acos) <= Pi
    ensures sin >= 0.0 ==> FoldAngle(sin, cos, acos) >= 0.0
    ensures sin < 0.0 ==> FoldAngle(sin, cos, acos) <= 0.0
  {
  }

  /** With the usual identities of `cos` and `acos`, the angle's cosine is
      the input cosine clamped to [-1, 1]: the angle recovers the cosine it
      was read from. */
  lemma FoldAngleRecoversCosine(sin: real, c: real, acos: real -> real, cos: real -> real)
    requires forall x :: -1.0 < x < 1.0 ==> cos(acos(x)) == x
    requires forall x :: cos(-x) == cos(x)
    requires cos(0.0) == 1.0 && cos(Pi) == -1.0
    ensures cos(FoldAngle(sin, c, acos)) == (if c >= 1.0 then 1.0 else if c <= -1.0 then -1.0 else c)
  {
    if -1.0 < c < 1.0 && sin < 0.0 {
      assert cos(-acos(c)) == cos(acos(c));
    }
    if c <= -1.0 && sin < 0.0 {
      assert cos(-Pi) == cos(Pi);
    }
  }

  /** The fold angle of each inner edge, from its sine and cosine. */
  function FoldAngles(sins: seq<real>, coss: seq<real>, acos: real -> real): (angles: seq<real>)
    requires |sins| == |coss|
    ensures |angles| == |sins|
    ensures forall e :: 0 <= e < |angles| ==> angles[e] == FoldAngle(sins[e], coss[e], acos)
  {
    seq(|sins|, e requires 0 <= e < |sins| => FoldAngle(sins[e], coss[e], acos))
  }

  /** GetAutomaticallyAssignedMVLines: among inner edges not labelled 'T',
      the indices of those with a negative fold angle (mountains) and of
      those with a positive one (valleys), each in increasing order. */
  function AutoMountainValley(assignment: seq<char>, angles: seq<real>): (r: (seq<int>, seq<int>))
    requires |assignment| >= |angles|
    ensures forall k :: 0 <= k < |r.0| ==> 0 <= r.0[k] < |angles|
    ensures forall k :: 0 <= k < |r.1| ==> 0 <= r.1[k] < |angles|
    ensures forall i :: 0 <= i < |angles| ==>
              (i in r.0 <==> assignment[i] != 'T' && angles[i] < 0.0)
              && (i in r.1 <==> assignment[i] != 'T' && angles[i] > 0.0)
    ensures forall k, m :: 0 <= k < m < |r.0| ==> r.0[k] < r.0[m]
    ensures forall k, m :: 0 <= k < m < |r.1| ==> r.1[k] < r.1[m]
  {
    if |angles| == 0 then ([], [])
    else
      var i := |angles| - 1;
      var rest := AutoMountainValley(assignment, angles[..i]);
      if assignment[i] != 'T' && angles[i] < 0.0 then (rest.0 + [i], rest.1)
      else if assignment[i] != 'T' && angles[i] > 0.0 then (rest.0, rest.1 + [i])
      else rest
  }

  /** No edge is both an automatic mountain and an automatic valley, and a
      flat edge (angle 0) is neither. */
  lemma AutoMountainValleyDisjoint(assignment: seq<char>, angles: seq<real>, i: int)
    requires |assignment| >= |angles| && 0 <= i < |angles|
    ensures !(i in AutoMountainValley(assignment, angles).0 && i in AutoMountainValley(assignment, angles).1)
    ensures angles[i] == 0.0 ==>
              i !in AutoMountainValley(assignment, angles).0 && i !in AutoMountainValley(assignment, angles).1
  {
  }

  // ------------------------------------------------------------ face pairs

  /** SortFacePair: the first three corners of `f` run from `i` to `j`. */
  predicate RunsAlong(f: Face, i: int, j: int)
  {
    (f.a == i && f.b == j) || (f.b == i && f.c == j) || (f.c == i && f.a == j)
  }

  /** GetFacePair for an inner edge `i -> j` with connected faces `f0` and
      `f1`: the face that runs along the edge comes first, when `f0` does. */
  function FacePair(faces: seq<Face>, i: int, j: int, f0: int, f1: int): (p: (int, int))
    requires 0 <= f0 < |faces|
    ensures p == (f0, f1) || p == (f1, f0)
    ensures p.0 == f0 <==> RunsAlong(faces[f0], i, j) || f0 == f1
  {
    if RunsAlong(faces[f0], i, j) then (f0, f1) else (f1, f0)
  }

  /** On a consistently oriented mesh exactly one of the two faces runs
      along the edge, and then the order Rhino lists them in does not
      matter: the face that runs along the edge comes first. */
  lemma FacePairOrderFree(faces: seq<Face>, i: int, j: int, f0: int, f1: int)
    requires 0 <= f0 < |faces| && 0 <= f1 < |faces|
    requires RunsAlong(faces[f0], i, j) != RunsAlong(faces[f1], i, j)
    ensures FacePair(faces, i, j, f0, f1) == FacePair(faces, i, j, f1, f0)
    ensures RunsAlong(faces[FacePair(faces, i, j, f0, f1).0], i, j)
  {
  }

  // -------------------------------------------------------- vector layouts

  /** SetMeshVerticesVector: coordinate `k` of vertex `i` at `3i + k`. */
  function VerticesVector(verts: seq<Point>): (v: Vec)
    ensures |v| == 3 * |verts|
    ensures forall i :: 0 <= i < |verts| ==>
              v[3 * i] == verts[i].x && v[3 * i + 1] == verts[i].y && v[3 * i + 2] == verts[i].z
  {
    if |verts| == 0 then []
    else
      var p := verts[|verts| - 1];
      VerticesVector(verts[..|verts| - 1]) + [p.x, p.y, p.z]
  }

  /** UpdateMesh: vertex `i` read back from entries `3i`, `3i + 1`, `3i + 2`. */
  function PointsOf(v: Vec, n: nat): (pts: seq<Point>)
    requires 3 * n <= |v|
    ensures |pts| == n
    ensures forall i :: 0 <= i < n ==> pts[i] == Point(v[3 * i], v[3 * i + 1], v[3 * i + 2])
  {
    seq(n, i requires 0 <= i < n => Point(v[3 * i], v[3 * i + 1], v[3 * i + 2]))
  }

  /** Reading the vertex vector back gives the vertices. */
  lemma PointsOfVerticesVector(verts: seq<Point>)
    ensures PointsOf(VerticesVector(verts), |verts|) == verts
  {
  }

  /** Writing the read-back vertices gives the vector. */
  lemma {:induction false} VerticesVectorOfPoints(v: Vec)
    requires |v| % 3 == 0
    ensures VerticesVector(PointsOf(v, |v| / 3)) == v
    decreases |v|
  {
    if |v| > 0 {
      var n := |v| / 3;
      var u := v[..|v| - 3];
      VerticesVectorOfPoints(u);
      assert PointsOf(v, n)[..n - 1] == PointsOf(u, n - 1);
      assert v == u + [v[3 * (n - 1)], v[3 * (n - 1) + 1], v[3 * (n - 1) + 2]];
    }
  }

  /** SetConfigulationVector: the vertex vector followed by the two
      rotation angles and the two translation coefficients of the periodic
      model, all four starting at 0.1. */
  function ConfigurationVector(verts: seq<Point>): (v: Vec)
    ensures |v| == 3 * |verts| + 4
    ensures v[..3 * |verts|] == VerticesVector(verts)
    ensures forall t :: 3 * |verts| <= t < |v| ==> v[t] == 0.1
  {
    VerticesVector(verts) + [0.1, 0.1, 0.1, 0.1]
  }

  /** The periodic model's state read back by UpdateMesh: the vertices, the
      two rotation angles at `DOF` and `DOF + 1`, and the two translation
      coefficients at `DOF + 2` and `DOF + 3`. */
  datatype Periodic = Periodic(verts: seq<Point>, angles: (real, real), coefficients: (real, real))

  function ReadPeriodic(v: Vec, n: nat): (p: Periodic)
    requires |v| == 3 * n + 4
    ensures p.verts == PointsOf(v, n)
    ensures p.angles == (v[3 * n], v[3 * n + 1]) && p.coefficients == (v[3 * n + 2], v[3 * n + 3])
  {
    Periodic(PointsOf(v, n), (v[3 * n], v[3 * n + 1]), (v[3 * n + 2], v[3 * n + 3]))
  }

  /** A freshly built configuration vector reads back as the vertices with
      every periodic parameter at 0.1. */
  lemma ReadPeriodicOfConfiguration(verts: seq<Point>)
    ensures ReadPeriodic(ConfigurationVector(verts), |verts|) == Periodic(verts, (0.1, 0.1), (0.1, 0.1))
  {
    var n := |verts|;
    var c := ConfigurationVector(verts);
    PointsOfVerticesVector(verts);
    assert PointsOf(c, n) == PointsOf(VerticesVector(verts), n) by {
      forall i | 0 <= i < n
        ensures PointsOf(c, n)[i] == PointsOf(VerticesVector(verts), n)[i]
      {
        assert c[3 * i] == VerticesVector(verts)[3 * i];
        assert c[3 * i + 1] == VerticesVector(verts)[3 * i + 1];
        assert c[3 * i + 2] == VerticesVector(verts)[3 * i + 2];
      }
    }
  }
}
