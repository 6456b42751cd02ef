/** The hinge around an inner edge, as Crane/Constraints/SetMaxFoldAngle.cs
    and Crane/Constraints/MountainIntersectPenalty.cs find it: the edge
    `(u, v)`, and the apexes `p` and `q` of its two triangles, each found by
    a loop over the face's three corners. Both Jacobians then scan every
    vertex id and, for each, add the three elements of every role it plays,
    testing the roles in the order p, q, u, v. */
module Hinge {
  import opened Common
  import opened SparseBuilder
  import opened Constraint
  import CMesh

  /** Corner `i` (0, 1 or 2) of a face, as the `MeshFace` indexer reads it. */
  function Corner(f: CMesh.Face, i: int): int
  {
    if i == 0 then f.a else if i == 1 then f.b else f.c
  }

  /** `IndexPair.Contains`. */
  predicate Contains(e: IndexPair, v: int)
  {
    e.i == v || e.j == v
  }

  /** The loop over corners `i .. 2` that overwrites `p` with every corner
      not on the edge. */
  function ApexFrom(f: CMesh.Face, e: IndexPair, i: int, p: int): (v: int)
    requires 0 <= i <= 3
    ensures (v == p && forall j :: i <= j < 3 ==> Contains(e, Corner(f, j)))
            || exists k :: i <= k < 3 && v == Corner(f, k) && !Contains(e, v)
                           && forall j :: k < j < 3 ==> Contains(e, Corner(f, j))
    decreases 3 - i
  {
    if i == 3 then p
    else ApexFrom(f, e, i + 1, if Contains(e, Corner(f, i)) then p else Corner(f, i))
  }

  /** The vertex of face `f` off the edge `e`: the last corner not on `e`,
      or 0, the loop's initial value, when every corner is on it. */
  function Apex(f: CMesh.Face, e: IndexPair): (v: int)
    ensures (v == 0 && forall j :: 0 <= j < 3 ==> Contains(e, Corner(f, j)))
            || exists k :: 0 <= k < 3 && v == Corner(f, k) && !Contains(e, v)
                           && forall j :: k < j < 3 ==> Contains(e, Corner(f, j))
  {
    ApexFrom(f, e, 0, 0)
  }

  /** For a triangle with three distinct corners and `e` one of its sides,
      the apex is the third corner. */
  lemma ApexOfTriangle(f: CMesh.Face, e: IndexPair)
    requires f.a != f.b && f.b != f.c && f.a != f.c && e.i != e.j
    requires e.i in {f.a, f.b, f.c} && e.j in {f.a, f.b, f.c}
    ensures Apex(f, e) in {f.a, f.b, f.c} && !Contains(e, Apex(f, e))
  {
    assert !Contains(e, Corner(f, 0)) || !Contains(e, Corner(f, 1)) || !Contains(e, Corner(f, 2));
  }

  /** The four vertex ids of a hinge. */
  datatype Hinge = Hinge(u: int, v: int, p: int, q: int)

  /** The edge `u = edge.I`, `v = edge.J` and the apexes of faces
      `facePair.I` and `facePair.J`. */
  function HingeOf(edge: IndexPair, facePair: IndexPair, faces: seq<CMesh.Face>): (h: Hinge)
    requires 0 <= facePair.i < |faces| && 0 <= facePair.j < |faces|
    ensures h.u == edge.i && h.v == edge.j
    ensures h.p == Apex(faces[facePair.i], edge) && h.q == Apex(faces[facePair.j], edge)
  {
    Hinge(edge.i, edge.j, Apex(faces[facePair.i], edge), Apex(faces[facePair.j], edge))
  }

  /** What reading the hinge needs of the mesh: both faces exist, and the
      edge's ends and the faces' corners are vertices of `x`. */
  predicate Placed(x: Vec, edge: IndexPair, facePair: IndexPair, faces: seq<CMesh.Face>)
  {
    0 <= facePair.i < |faces| && 0 <= facePair.j < |faces|
    && IsVertex(x, edge.i) && IsVertex(x, edge.j)
    && (forall k :: 0 <= k < 3 ==> IsVertex(x, Corner(faces[facePair.i], k)))
    && (forall k :: 0 <= k < 3 ==> IsVertex(x, Corner(faces[facePair.j], k)))
  }

  /** All four hinge vertices are vertices of `x`, the apexes included even
      when they fall back to vertex 0. */
  lemma HingeVertices(x: Vec, edge: IndexPair, facePair: IndexPair, faces: seq<CMesh.Face>)
    requires Placed(x, edge, facePair, faces)
    ensures var h := HingeOf(edge, facePair, faces);
            IsVertex(x, h.u) && IsVertex(x, h.v) && IsVertex(x, h.p) && IsVertex(x, h.q)
  {
  }

  /** Four distinct hinge vertices. */
  predicate Distinct(h: Hinge)
  {
    h.p != h.q && h.p != h.u && h.p != h.v && h.q != h.u && h.q != h.v && h.u != h.v
  }

  /** The hinge's four roles with their gradients, in the order the
      Jacobian loops test them. */
  function Roles(h: Hinge, gp: Point, gq: Point, gu: Point, gv: Point): (st: Stencil)
    ensures |st| == 4
  {
    [(h.p, gp), (h.q, gq), (h.u, gu), (h.v, gv)]
  }

  lemma RolesDirectional(h: Hinge, gp: Point, gq: Point, gu: Point, gv: Point, c: int)
    ensures Directional(Roles(h, gp, gq, gu, gv), c)
            == Inner(gp, Unit(h.p, c)) + Inner(gq, Unit(h.q, c)) + Inner(gu, Unit(h.u, c)) + Inner(gv, Unit(h.v, c))
  {
    var st := Roles(h, gp, gq, gu, gv);
    assert st == Pair(h.p, gp, h.q, gq) + Pair(h.u, gu, h.v, gv);
    DirectionalConcat(Pair(h.p, gp, h.q, gq), Pair(h.u, gu, h.v, gv), c);
    PairDirectional(h.p, gp, h.q, gq, c);
    PairDirectional(h.u, gu, h.v, gv, c);
  }

  /** The row the vertex scan lays down for a hinge in a mesh of `n`
      vertices stores the derivative its roles predict. */
  lemma ScannedRow(r: int, h: Hinge, gp: Point, gq: Point, gu: Point, gv: Point, n: nat, c: int)
    requires 0 <= h.p < n && 0 <= h.q < n && 0 <= h.u < n && 0 <= h.v < n
    ensures EntryAt(Scan(r, Roles(h, gp, gq, gu, gv), n), r, c) == Directional(Roles(h, gp, gq, gu, gv), c)
  {
    var st := Roles(h, gp, gq, gu, gv);
    RolesWithin(h, gp, gq, gu, gv, n);
    ScanEntry(r, st, n, c);
    BetweenAll(st, 0, n);
  }

  lemma RolesWithin(h: Hinge, gp: Point, gq: Point, gu: Point, gv: Point, n: nat)
    requires 0 <= h.p < n && 0 <= h.q < n && 0 <= h.u < n && 0 <= h.v < n
    ensures forall k :: 0 <= k < |Roles(h, gp, gq, gu, gv)| ==> 0 <= Roles(h, gp, gq, gu, gv)[k].0 < n
  {
  }
}
