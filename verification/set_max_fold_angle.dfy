/** The fold-angle limit, Crane/Constraints/SetMaxFoldAngle.cs: every inner
    edge whose fold angle is beyond `max` in magnitude, and whose sign class
    is switched on (valleys positive, mountains negative), gives one row.
    Its error is the excess over the limit, signed like the angle; its
    Jacobian row is the fold angle's gradient, laid down by the same vertex
    scan as the other hinge constraints. */
module SetMaxFoldAngle {
  import opened Common
  import opened SparseBuilder
  import opened Constraint
  import opened Hinge
  import CMesh
  import RigidOrigami

  /** The constructor's arguments. */
  datatype Limit = Limit(max: real, mountainOn: bool, valleyOn: bool)

  /** What the hinge's geometry contributes to the gradient: the two face
      normals, the heights of `p` and `q` over the edge, and the cotangents
      of the four corner angles at `u` and `v`. Rhino computes these from
      the vertex positions with square roots, so they are inputs here. */
  datatype Wing = Wing(normalP: Point, normalQ: Point, hP: real, hQ: real,
                       cotPu: real, cotPv: real, cotQu: real, cotQv: real)

  /** What the Jacobian reads of the mesh: the inner edges, their face
      pairs, one fold angle and one wing per inner edge. */
  datatype Creases = Creases(edges: seq<IndexPair>, facePairs: seq<IndexPair>,
                             angles: seq<real>, wings: seq<Wing>)

  // ---------------------------------------------------------- selection

  /** Edge with fold angle `a` takes part: strictly beyond the limit, and
      in a class that is switched on. */
  predicate Exceeds(l: Limit, a: real)
  {
    Abs(a) > l.max && ((a > 0.0 && l.valleyOn) || (a < 0.0 && l.mountainOn))
  }

  /** The excess of an edge that takes part, signed like its angle. */
  function Violation(l: Limit, a: real): (e: real)
    requires Exceeds(l, a)
    ensures Abs(e) == Abs(a) - l.max && e != 0.0
    ensures (e > 0.0 <==> a > 0.0) && (e < 0.0 <==> a < 0.0)
  {
    if a > 0.0 then a - l.max else a + l.max
  }

  /** The error loop's body for one angle: the entry it appends, if any. */
  function Step(l: Limit, a: real): (s: seq<real>)
    ensures |s| <= 1 && (|s| == 1 <==> Exceeds(l, a))
    ensures |s| == 1 ==> s[0] == Violation(l, a)
  {
    if Abs(a) > l.max then
      if a > 0.0 && l.valleyOn then [a - l.max]
      else if a < 0.0 && l.mountainOn then [a + l.max]
      else []
    else []
  }

  /** Error: the loop over the fold angles, appending the excess of every
      edge that takes part. Each entry is nonzero and signed by a class
      that is switched on. */
  function Error(l: Limit, angles: seq<real>): (r: Vec)
    ensures |r| <= |angles|
    ensures forall k :: 0 <= k < |r| ==> (r[k] > 0.0 && l.valleyOn) || (r[k] < 0.0 && l.mountainOn)
    decreases |angles|
  {
    if |angles| == 0 then []
    else Error(l, angles[..|angles| - 1]) + Step(l, angles[|angles| - 1])
  }

  function Flags(l: Limit, angles: seq<real>): (f: seq<bool>)
    ensures |f| == |angles| && forall k :: 0 <= k < |f| ==> (f[k] <==> Exceeds(l, angles[k]))
  {
    seq(|angles|, k requires 0 <= k < |angles| => Exceeds(l, angles[k]))
  }

  /** The Jacobian's selection loop: the ids of the edges that take part,
      in increasing order. */
  function Kept(l: Limit, angles: seq<real>): (ids: seq<int>)
    ensures forall k :: 0 <= k < |ids| ==> 0 <= ids[k] < |angles| && Exceeds(l, angles[ids[k]])
    ensures forall k, m :: 0 <= k < m < |ids| ==> ids[k] < ids[m]
    ensures forall i :: 0 <= i < |angles| && Exceeds(l, angles[i]) ==> i in ids
  {
    Selected(Flags(l, angles), |angles|)
  }

  // ----------------------------------------------------------- gradient

  /** Both heights are nonzero and neither face's cotangent sum vanishes,
      so that no coefficient divides by zero. */
  predicate Measurable(w: Wing)
  {
    w.hP != 0.0 && w.hQ != 0.0 && w.cotPu + w.cotPv != 0.0 && w.cotQu + w.cotQv != 0.0
  }

  /** The fold angle's gradient at `p`, `q`, `u` and `v`: `nP/hP`, `nQ/hQ`,
      and at each edge end the two face terms weighted by minus the far
      corner's cotangent over the face's cotangent sum. */
  function Gradient(h: Hinge, w: Wing): (st: Stencil)
    requires Measurable(w)
    ensures |st| == 4
  {
    var gP, gQ := Over3(w.normalP, w.hP), Over3(w.normalQ, w.hQ);
    var sP, sQ := w.cotPu + w.cotPv, w.cotQu + w.cotQv;
    Roles(h, gP, gQ,
          Plus(Scaled(Over(-1.0 * w.cotPv, sP), gP), Scaled(Over(-1.0 * w.cotQv, sQ), gQ)),
          Plus(Scaled(Over(-1.0 * w.cotPu, sP), gP), Scaled(Over(-1.0 * w.cotQu, sQ), gQ)))
  }

  /** The per-edge lists cover every fold angle, every hinge lies in `x`,
      and every edge that takes part has a measurable wing. */
  predicate Ready(l: Limit, cr: Creases, faces: seq<CMesh.Face>, x: Vec)
  {
    |x| % 3 == 0
    && |cr.edges| >= |cr.angles| && |cr.facePairs| >= |cr.angles| && |cr.wings| >= |cr.angles|
    && (forall k :: 0 <= k < |cr.angles| ==> Placed(x, cr.edges[k], cr.facePairs[k], faces))
    && forall k :: 0 <= k < |cr.angles| && Exceeds(l, cr.angles[k]) ==> Measurable(cr.wings[k])
  }

  function HingeAt(l: Limit, cr: Creases, faces: seq<CMesh.Face>, x: Vec, k: int): (h: Hinge)
    requires Ready(l, cr, faces, x) && 0 <= k < |cr.angles|
    ensures IsVertex(x, h.u) && IsVertex(x, h.v) && IsVertex(x, h.p) && IsVertex(x, h.q)
  {
    HingeVertices(x, cr.edges[k], cr.facePairs[k], faces);
    HingeOf(cr.edges[k], cr.facePairs[k], faces)
  }

  function Rows(l: Limit, cr: Creases, faces: seq<CMesh.Face>, x: Vec): (rows: seq<seq<Element>>)
    requires Ready(l, cr, faces, x)
    ensures |rows| == |Kept(l, cr.angles)| && Tagged(rows)
  {
    var ids := Kept(l, cr.angles);
    seq(|ids|, k requires 0 <= k < |ids| =>
      Scan(k, Gradient(HingeAt(l, cr, faces, x, ids[k]), cr.wings[ids[k]]), |x| / 3))
  }

  /** Jacobian: one row per edge that takes part, one column per degree of
      freedom. */
  function Jacobian(l: Limit, cr: Creases, faces: seq<CMesh.Face>, x: Vec): (b: Builder)
    requires Ready(l, cr, faces, x)
    ensures b.rows == |Kept(l, cr.angles)| && b.cols == |x|
  {
    Builder(|Kept(l, cr.angles)|, |x|, Stack(Rows(l, cr, faces, x)))
  }

  // ---------------------------------------------------------- agreement

  /** The entries for a list of selected edges. */
  function Violations(l: Limit, angles: seq<real>, ids: seq<int>): (r: Vec)
    requires forall k :: 0 <= k < |ids| ==> 0 <= ids[k] < |angles| && Exceeds(l, angles[ids[k]])
    ensures |r| == |ids|
  {
    seq(|ids|, k requires 0 <= k < |ids| => Violation(l, angles[ids[k]]))
  }

  /** One more angle appends the loop body's entry. */
  lemma ErrorSnoc(l: Limit, angles: seq<real>, a: real)
    ensures Error(l, angles + [a]) == Error(l, angles) + Step(l, a)
  {
    assert (angles + [a])[..|angles|] == angles;
  }

  /** One more selected edge appends its excess. */
  lemma ViolationsSnoc(l: Limit, angles: seq<real>, ids: seq<int>, i: int)
    requires forall k :: 0 <= k < |ids| ==> 0 <= ids[k] < |angles| && Exceeds(l, angles[ids[k]])
    requires 0 <= i < |angles| && Exceeds(l, angles[i])
    ensures Violations(l, angles, ids + [i]) == Violations(l, angles, ids) + [Violation(l, angles[i])]
  {
  }

  /** After `n` angles, the error loop has appended the excess of exactly
      the edges the Jacobian's loop selects among the first `n`. */
  lemma {:induction false} ErrorPrefix(l: Limit, angles: seq<real>, n: int)
    requires 0 <= n <= |angles|
    ensures Error(l, angles[..n]) == Violations(l, angles, Selected(Flags(l, angles), n))
    decreases n
  {
    var f := Flags(l, angles);
    if n > 0 {
      ErrorPrefix(l, angles, n - 1);
      assert angles[..n] == angles[..n - 1] + [angles[n - 1]];
      ErrorSnoc(l, angles[..n - 1], angles[n - 1]);
      if f[n - 1] {
        ViolationsSnoc(l, angles, Selected(f, n - 1), n - 1);
      }
    } else {
      assert angles[..n] == [];
    }
  }

  /** The two loops of the source agree: the error holds, in order, the
      excess of every edge the Jacobian selects, so there is one error
      entry per Jacobian row. */
  lemma ErrorFollowsKept(l: Limit, angles: seq<real>)
    ensures Error(l, angles) == Violations(l, angles, Kept(l, angles))
    ensures |Error(l, angles)| == |Kept(l, angles)|
  {
    ErrorPrefix(l, angles, |angles|);
    assert angles[..|angles|] == angles;
  }

  lemma ErrorMatchesJacobian(l: Limit, cr: Creases, faces: seq<CMesh.Face>, x: Vec)
    requires Ready(l, cr, faces, x)
    ensures |Error(l, cr.angles)| == Jacobian(l, cr, faces, x).rows
    ensures forall k :: 0 <= k < |Error(l, cr.angles)| ==>
              Error(l, cr.angles)[k] == Violation(l, cr.angles[Kept(l, cr.angles)[k]])
  {
    ErrorFollowsKept(l, cr.angles);
  }

  /** An edge takes part exactly when it is strictly beyond the limit in
      a class that is switched on. */
  lemma KeptIff(l: Limit, angles: seq<real>, i: int)
    requires 0 <= i < |angles|
    ensures i in Kept(l, angles) <==> Exceeds(l, angles[i])
  {
  }

  /** A class that is switched off gives no entry: without valleys every
      entry is negative, without mountains every entry is positive, and
      with neither there is no row. */
  lemma DisabledClass(l: Limit, angles: seq<real>)
    ensures !l.valleyOn ==> forall k :: 0 <= k < |Error(l, angles)| ==> Error(l, angles)[k] < 0.0
    ensures !l.mountainOn ==> forall k :: 0 <= k < |Error(l, angles)| ==> Error(l, angles)[k] > 0.0
    ensures !l.valleyOn && !l.mountainOn ==> Error(l, angles) == [] && Kept(l, angles) == []
  {
    if !l.valleyOn && !l.mountainOn {
      SelectedNone(Flags(l, angles), |angles|);
      ErrorFollowsKept(l, angles);
    }
  }

  /** The block stacks into the solver. */
  lemma BlockFits(l: Limit, cr: Creases, faces: seq<CMesh.Face>, x: Vec)
    requires Ready(l, cr, faces, x)
    ensures RigidOrigami.Fits(RigidOrigami.Block(Error(l, cr.angles), Jacobian(l, cr, faces, x)), |x|)
  {
    ErrorFollowsKept(l, cr.angles);
    var rows := Rows(l, cr, faces, x);
    forall k | 0 <= k < |rows|
      ensures Inside(rows[k], |rows|, |x|)
    {
      RowInside(l, cr, faces, x, k);
    }
    StackInside(rows, |x|);
  }

  lemma RowInside(l: Limit, cr: Creases, faces: seq<CMesh.Face>, x: Vec, k: int)
    requires Ready(l, cr, faces, x) && 0 <= k < |Kept(l, cr.angles)|
    ensures Inside(Rows(l, cr, faces, x)[k], |Kept(l, cr.angles)|, |x|)
  {
    var e := Kept(l, cr.angles)[k];
    ScanInside(k, Gradient(HingeAt(l, cr, faces, x, e), cr.wings[e]), |x| / 3, |Kept(l, cr.angles)|);
  }

  // ------------------------------------------------------------ entries

  /** Row `k` stores, at column `c`, the derivative its edge's gradient
      predicts along `c`. */
  lemma JacobianEntry(l: Limit, cr: Creases, faces: seq<CMesh.Face>, x: Vec, k: int, c: int)
    requires Ready(l, cr, faces, x) && 0 <= k < Jacobian(l, cr, faces, x).rows
    ensures var e := Kept(l, cr.angles)[k];
            EntryAt(Jacobian(l, cr, faces, x).elems, k, c)
            == Directional(Gradient(HingeAt(l, cr, faces, x, e), cr.wings[e]), c)
  {
    var e := Kept(l, cr.angles)[k];
    var h, w := HingeAt(l, cr, faces, x, e), cr.wings[e];
    var st := Gradient(h, w);
    StackEntry(Rows(l, cr, faces, x), k, c);
    assert Rows(l, cr, faces, x)[k] == Scan(k, st, |x| / 3);
    assert st == Roles(h, st[0].1, st[1].1, st[2].1, st[3].1);
    ScannedRow(k, h, st[0].1, st[1].1, st[2].1, st[3].1, |x| / 3, c);
  }

  /** The two edge-end weights of one face sum to minus one. */
  lemma WeightsSum(cu: real, cv: real)
    requires cu + cv != 0.0
    ensures Over(-1.0 * cv, cu + cv) + Over(-1.0 * cu, cu + cv) == -1.0
  {
    DivAdd(-1.0 * cv, -1.0 * cu, cu + cv);
    assert (-1.0 * cv + -1.0 * cu) / (cu + cv) == -1.0;
  }

  /** The balance on points: `P + Q + (a P + b Q) + (a' P + b' Q)`
      vanishes when `a + a' = b + b' = -1`. */
  lemma Balance(gP: Point, gQ: Point, a: real, b: real, a2: real, b2: real)
    requires a + a2 == -1.0 && b + b2 == -1.0
    ensures Plus(Plus(gP, gQ), Plus(Plus(Scaled(a, gP), Scaled(b, gQ)), Plus(Scaled(a2, gP), Scaled(b2, gQ)))) == Origin()
  {
    assert a * gP.x + a2 * gP.x == (a + a2) * gP.x;
    assert a * gP.y + a2 * gP.y == (a + a2) * gP.y;
    assert a * gP.z + a2 * gP.z == (a + a2) * gP.z;
    assert b * gQ.x + b2 * gQ.x == (b + b2) * gQ.x;
    assert b * gQ.y + b2 * gQ.y == (b + b2) * gQ.y;
    assert b * gQ.z + b2 * gQ.z == (b + b2) * gQ.z;
  }

  /** The four gradients sum to zero: translating the whole hinge does not
      change its fold angle. */
  lemma GradientBalanced(h: Hinge, w: Wing)
    requires Measurable(w)
    ensures var st := Gradient(h, w);
            Plus(Plus(st[0].1, st[1].1), Plus(st[2].1, st[3].1)) == Origin()
  {
    var sP, sQ := w.cotPu + w.cotPv, w.cotQu + w.cotQv;
    WeightsSum(w.cotPu, w.cotPv);
    WeightsSum(w.cotQu, w.cotQv);
    Balance(Over3(w.normalP, w.hP), Over3(w.normalQ, w.hQ), Over(-1.0 * w.cotPv, sP), Over(-1.0 * w.cotQv, sQ),
            Over(-1.0 * w.cotPu, sP), Over(-1.0 * w.cotQu, sQ));
  }

  /** With four distinct hinge vertices, the entry of a role's coordinate
      is that role's gradient coordinate. */
  lemma RoleEntry(h: Hinge, gp: Point, gq: Point, gu: Point, gv: Point, v: int, g: Point, j: int)
    requires Distinct(h) && 0 <= j < 3
    requires (v == h.p && g == gp) || (v == h.q && g == gq) || (v == h.u && g == gu) || (v == h.v && g == gv)
    ensures Directional(Roles(h, gp, gq, gu, gv), 3 * v + j) == Coord(g, j)
  {
    RolesDirectional(h, gp, gq, gu, gv, 3 * v + j);
  }

  /** Row `k`'s entries along axis `j` at the hinge's four vertices,
      summed. */
  function AxisSum(es: seq<Element>, k: int, h: Hinge, j: int): real
  {
    EntryAt(es, k, 3 * h.p + j) + EntryAt(es, k, 3 * h.q + j)
    + EntryAt(es, k, 3 * h.u + j) + EntryAt(es, k, 3 * h.v + j)
  }

  /** Each row is blind to translation: for a hinge of four distinct
      vertices, the entries at one axis of its four vertices sum to zero. */
  lemma TranslationFree(l: Limit, cr: Creases, faces: seq<CMesh.Face>, x: Vec, k: int, j: int)
    requires Ready(l, cr, faces, x) && 0 <= k < Jacobian(l, cr, faces, x).rows && 0 <= j < 3
    requires Distinct(HingeAt(l, cr, faces, x, Kept(l, cr.angles)[k]))
    ensures AxisSum(Jacobian(l, cr, faces, x).elems, k, HingeAt(l, cr, faces, x, Kept(l, cr.angles)[k]), j) == 0.0
  {
    var e := Kept(l, cr.angles)[k];
    var h, w := HingeAt(l, cr, faces, x, e), cr.wings[e];
    JacobianRow(l, cr, faces, x, k);
    RowTranslation(Jacobian(l, cr, faces, x).elems, k, h, w, j);
  }

  /** Row `k` of the Jacobian, column by column. */
  lemma JacobianRow(l: Limit, cr: Creases, faces: seq<CMesh.Face>, x: Vec, k: int)
    requires Ready(l, cr, faces, x) && 0 <= k < Jacobian(l, cr, faces, x).rows
    ensures var e := Kept(l, cr.angles)[k];
            forall c :: EntryAt(Jacobian(l, cr, faces, x).elems, k, c)
                        == Directional(Gradient(HingeAt(l, cr, faces, x, e), cr.wings[e]), c)
  {
    forall c
      ensures EntryAt(Jacobian(l, cr, faces, x).elems, k, c)
              == Directional(Gradient(HingeAt(l, cr, faces, x, Kept(l, cr.angles)[k]), cr.wings[Kept(l, cr.angles)[k]]), c)
    {
      JacobianEntry(l, cr, faces, x, k, c);
    }
  }

  /** A row that stores the fold angle's gradient sums to zero along any
      axis over the hinge's four distinct vertices. */
  lemma RowTranslation(es: seq<Element>, k: int, h: Hinge, w: Wing, j: int)
    requires Measurable(w) && Distinct(h) && 0 <= j < 3
    requires forall c :: EntryAt(es, k, c) == Directional(Gradient(h, w), c)
    ensures AxisSum(es, k, h, j) == 0.0
  {
    GradientTranslation(h, w, j);
  }

  /** The fold angle's gradient, read along one axis at its four distinct
      vertices, sums to zero. */
  lemma GradientTranslation(h: Hinge, w: Wing, j: int)
    requires Measurable(w) && Distinct(h) && 0 <= j < 3
    ensures var st := Gradient(h, w);
            Directional(st, 3 * h.p + j) + Directional(st, 3 * h.q + j)
            + Directional(st, 3 * h.u + j) + Directional(st, 3 * h.v + j) == 0.0
  {
    var st := Gradient(h, w);
    GradientRoles(h, w);
    GradientBalanced(h, w);
    RolesTranslation(h, st[0].1, st[1].1, st[2].1, st[3].1, j);
  }

  /** The gradient lays its roles out in the order p, q, u, v. */
  lemma GradientRoles(h: Hinge, w: Wing)
    requires Measurable(w)
    ensures var st := Gradient(h, w);
            st == Roles(h, st[0].1, st[1].1, st[2].1, st[3].1)
  {
  }

  /** Roles whose gradients sum to zero give entries that sum to zero
      along any one axis. */
  lemma RolesTranslation(h: Hinge, gp: Point, gq: Point, gu: Point, gv: Point, j: int)
    requires Distinct(h) && 0 <= j < 3 && Plus(Plus(gp, gq), Plus(gu, gv)) == Origin()
    ensures var st := Roles(h, gp, gq, gu, gv);
            Directional(st, 3 * h.p + j) + Directional(st, 3 * h.q + j)
            + Directional(st, 3 * h.u + j) + Directional(st, 3 * h.v + j) == 0.0
  {
    RoleEntry(h, gp, gq, gu, gv, h.p, gp, j);
    RoleEntry(h, gp, gq, gu, gv, h.q, gq, j);
    RoleEntry(h, gp, gq, gu, gv, h.u, gu, j);
    RoleEntry(h, gp, gq, gu, gv, h.v, gv, j);
    assert Coord(gp, j) + Coord(gq, j) + Coord(gu, j) + Coord(gv, j) == Coord(Plus(Plus(gp, gq), Plus(gu, gv)), j);
  }
}
