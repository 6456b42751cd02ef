/** The mountain self-intersection penalty,
    Crane/Constraints/MountainIntersectPenalty.cs: for every mountain edge
    whose hinge has a positive signed volume `up . (uq x uv)`, one row whose
    error is that volume over `hP hQ len` (the two faces' heights and the
    edge's length, recorded before folding) and whose Jacobian row is the
    volume's gradient over the same scale. When no edge qualifies both
    return null; when the mountain edges are missing the Jacobian returns
    null and the error throws. */
module MountainIntersectPenalty {
  import opened Common
  import opened SparseBuilder
  import opened Constraint
  import opened Hinge
  import CMesh
  import RigidOrigami

  /** What the crease-pattern mesh keeps about its mountain edges: the
      edges, each edge's face pair, the two faces' heights over it and its
      length. */
  datatype Mountains = Mountains(edges: seq<IndexPair>, facePairs: seq<IndexPair>,
                                 heights: seq<(real, real)>, lengths: seq<real>)

  /** What a call returns: it throws, it returns null, or it builds. */
  datatype Outcome<T> = Thrown | Null | Built(value: T)

  /** The per-edge lists cover every edge, and every hinge lies in `x`,
      whose length is three coordinates per vertex. */
  predicate Ready(m: Mountains, faces: seq<CMesh.Face>, x: Vec)
  {
    |x| % 3 == 0
    && |m.facePairs| >= |m.edges| && |m.heights| >= |m.edges| && |m.lengths| >= |m.edges|
    && forall k :: 0 <= k < |m.edges| ==> Placed(x, m.edges[k], m.facePairs[k], faces)
  }

  function HingeAt(m: Mountains, faces: seq<CMesh.Face>, x: Vec, k: int): (h: Hinge)
    requires Ready(m, faces, x) && 0 <= k < |m.edges|
    ensures IsVertex(x, h.u) && IsVertex(x, h.v) && IsVertex(x, h.p) && IsVertex(x, h.q)
  {
    HingeVertices(x, m.edges[k], m.facePairs[k], faces);
    HingeOf(m.edges[k], m.facePairs[k], faces)
  }

  /** `hP hQ len`, the scale of edge `k`'s volume. */
  function Scale(m: Mountains, k: int): real
    requires 0 <= k < |m.heights| && k < |m.lengths|
  {
    Times(Times(m.heights[k].0, m.heights[k].1), m.lengths[k])
  }

  // ------------------------------------------------------------ volumes

  /** `(p - u) . ((q - u) x (v - u))`. */
  function VolumeOf(p: Point, q: Point, u: Point, v: Point): real
  {
    Inner(Minus(p, u), Cross(Minus(q, u), Minus(v, u)))
  }

  function Volume(x: Vec, h: Hinge): real
    requires IsVertex(x, h.u) && IsVertex(x, h.v) && IsVertex(x, h.p) && IsVertex(x, h.q)
  {
    VolumeOf(Vertex(x, h.p), Vertex(x, h.q), Vertex(x, h.u), Vertex(x, h.v))
  }

  /** The volume's gradient at `p`, `q`, `u` and `v`, before scaling:
      `uq x uv`, `uv x up`, `vq x vp` and `up x uq`. */
  function Raw(x: Vec, h: Hinge): Stencil
    requires IsVertex(x, h.u) && IsVertex(x, h.v) && IsVertex(x, h.p) && IsVertex(x, h.q)
  {
    var p, q, u, v := Vertex(x, h.p), Vertex(x, h.q), Vertex(x, h.u), Vertex(x, h.v);
    Roles(h, Cross(Minus(q, u), Minus(v, u)), Cross(Minus(v, u), Minus(p, u)),
          Cross(Minus(q, v), Minus(p, v)), Cross(Minus(p, u), Minus(q, u)))
  }

  /** The stencil the Jacobian lays down: each gradient divided by the
      scale `d`. */
  function Gradient(x: Vec, h: Hinge, d: real): Stencil
    requires IsVertex(x, h.u) && IsVertex(x, h.v) && IsVertex(x, h.p) && IsVertex(x, h.q)
    requires d != 0.0
  {
    var p, q, u, v := Vertex(x, h.p), Vertex(x, h.q), Vertex(x, h.u), Vertex(x, h.v);
    Roles(h, Over3(Cross(Minus(q, u), Minus(v, u)), d), Over3(Cross(Minus(v, u), Minus(p, u)), d),
          Over3(Cross(Minus(q, v), Minus(p, v)), d), Over3(Cross(Minus(p, u), Minus(q, u)), d))
  }

  // ---------------------------------------------------------- selection

  /** Edge `k` takes part: its hinge's volume is positive. */
  predicate Qualifies(m: Mountains, faces: seq<CMesh.Face>, x: Vec, k: int)
    requires Ready(m, faces, x) && 0 <= k < |m.edges|
  {
    Volume(x, HingeAt(m, faces, x, k)) > 0.0
  }

  /** Every qualifying edge has a nonzero scale. */
  predicate Measurable(m: Mountains, faces: seq<CMesh.Face>, x: Vec)
    requires Ready(m, faces, x)
  {
    forall k :: 0 <= k < |m.edges| && Qualifies(m, faces, x, k) ==> Scale(m, k) != 0.0
  }

  /** Which edges qualify, edge by edge. */
  function Flags(m: Mountains, faces: seq<CMesh.Face>, x: Vec): (f: seq<bool>)
    requires Ready(m, faces, x)
    ensures |f| == |m.edges| && forall k :: 0 <= k < |f| ==> (f[k] <==> Qualifies(m, faces, x, k))
  {
    seq(|m.edges|, k requires 0 <= k < |m.edges| => Qualifies(m, faces, x, k))
  }

  /** The ids of the qualifying edges, in increasing order: the rows. */
  function Kept(m: Mountains, faces: seq<CMesh.Face>, x: Vec): (ids: seq<int>)
    requires Ready(m, faces, x)
    ensures forall k :: 0 <= k < |ids| ==> 0 <= ids[k] < |m.edges| && Qualifies(m, faces, x, ids[k])
    ensures forall k, l :: 0 <= k < l < |ids| ==> ids[k] < ids[l]
    ensures forall i :: 0 <= i < |m.edges| && Qualifies(m, faces, x, i) ==> i in ids
  {
    Selected(Flags(m, faces, x), |m.edges|)
  }

  function Rows(m: Mountains, faces: seq<CMesh.Face>, x: Vec): (rows: seq<seq<Element>>)
    requires Ready(m, faces, x) && Measurable(m, faces, x)
    ensures |rows| == |Kept(m, faces, x)| && Tagged(rows)
  {
    var ids := Kept(m, faces, x);
    seq(|ids|, k requires 0 <= k < |ids| =>
      Scan(k, Gradient(x, HingeAt(m, faces, x, ids[k]), Scale(m, ids[k])), |x| / 3))
  }

  /** The error of qualifying edge `e`: its volume over its scale. */
  function Entry(m: Mountains, faces: seq<CMesh.Face>, x: Vec, e: int): real
    requires Ready(m, faces, x) && Measurable(m, faces, x) && 0 <= e < |m.edges| && Qualifies(m, faces, x, e)
  {
    Over(Volume(x, HingeAt(m, faces, x, e)), Scale(m, e))
  }

  /** Error: throws without mountain edges, null when none qualifies, and
      otherwise one entry per qualifying edge in edge order. */
  function Error(mo: Option<Mountains>, faces: seq<CMesh.Face>, x: Vec): (r: Outcome<Vec>)
    requires mo.Some? ==> Ready(mo.value, faces, x) && Measurable(mo.value, faces, x)
    ensures r.Thrown? <==> mo.None?
    ensures r.Null? <==> mo.Some? && |Kept(mo.value, faces, x)| == 0
    ensures r.Built? ==> |r.value| == |Kept(mo.value, faces, x)|
  {
    if mo.None? then Thrown
    else
      var m := mo.value;
      var ids := Kept(m, faces, x);
      if |ids| == 0 then Null
      else Built(seq(|ids|, k requires 0 <= k < |ids| => Entry(m, faces, x, ids[k])))
  }

  /** Jacobian: null without mountain edges or when none qualifies, and
      otherwise one row per qualifying edge over one column per
      coordinate. */
  function Jacobian(mo: Option<Mountains>, faces: seq<CMesh.Face>, x: Vec): (r: Outcome<Builder>)
    requires mo.Some? ==> Ready(mo.value, faces, x) && Measurable(mo.value, faces, x)
    ensures !r.Thrown?
    ensures r.Null? <==> mo.None? || |Kept(mo.value, faces, x)| == 0
    ensures r.Built? ==> r.value.rows == |Kept(mo.value, faces, x)| && r.value.cols == |x|
  {
    if mo.None? then Null
    else
      var m := mo.value;
      var ids := Kept(m, faces, x);
      if |ids| == 0 then Null
      else Built(Builder(|ids|, |x|, Stack(Rows(m, faces, x))))
  }

  /** No row at all exactly when no edge's volume is positive. */
  lemma NullIffNoneQualifies(m: Mountains, faces: seq<CMesh.Face>, x: Vec)
    requires Ready(m, faces, x) && Measurable(m, faces, x)
    ensures Error(Some(m), faces, x).Null? <==> forall k :: 0 <= k < |m.edges| ==> !Qualifies(m, faces, x, k)
    ensures Jacobian(Some(m), faces, x).Null? <==> forall k :: 0 <= k < |m.edges| ==> !Qualifies(m, faces, x, k)
  {
    NoneKept(m, faces, x);
  }

  lemma NoneKept(m: Mountains, faces: seq<CMesh.Face>, x: Vec)
    requires Ready(m, faces, x)
    ensures |Kept(m, faces, x)| == 0 <==> forall k :: 0 <= k < |m.edges| ==> !Qualifies(m, faces, x, k)
  {
    var ids := Kept(m, faces, x);
    if |ids| > 0 {
      assert Qualifies(m, faces, x, ids[0]);
    } else {
      var f := Flags(m, faces, x);
      SelectedNone(f, |m.edges|);
      forall k | 0 <= k < |m.edges|
        ensures !Qualifies(m, faces, x, k)
      {
        assert !f[k];
      }
    }
  }

  /** Error and Jacobian agree: with mountain edges they are null together,
      and when built there is one Jacobian row per error entry. Without
      them the Jacobian is null where the error throws. */
  lemma ErrorMatchesJacobian(mo: Option<Mountains>, faces: seq<CMesh.Face>, x: Vec)
    requires mo.Some? ==> Ready(mo.value, faces, x) && Measurable(mo.value, faces, x)
    ensures mo.None? ==> Error(mo, faces, x).Thrown? && Jacobian(mo, faces, x).Null?
    ensures mo.Some? ==> (Error(mo, faces, x).Null? <==> Jacobian(mo, faces, x).Null?)
    ensures Error(mo, faces, x).Built? <==> Jacobian(mo, faces, x).Built?
    ensures Error(mo, faces, x).Built? ==> |Error(mo, faces, x).value| == Jacobian(mo, faces, x).value.rows
  {
  }

  /** With positive heights and lengths, every error entry is positive. */
  lemma ErrorPositive(m: Mountains, faces: seq<CMesh.Face>, x: Vec, k: int)
    requires Ready(m, faces, x) && Measurable(m, faces, x)
    requires forall e :: 0 <= e < |m.edges| ==> m.heights[e].0 > 0.0 && m.heights[e].1 > 0.0 && m.lengths[e] > 0.0
    requires Error(Some(m), faces, x).Built? && 0 <= k < |Error(Some(m), faces, x).value|
    ensures Error(Some(m), faces, x).value[k] > 0.0
  {
    var e := Kept(m, faces, x)[k];
    var hp, hq, len := m.heights[e].0, m.heights[e].1, m.lengths[e];
    MulPositive(hp, hq);
    MulPositive(hp * hq, len);
    PositiveOver(Volume(x, HingeAt(m, faces, x, e)), Scale(m, e));
  }

  lemma PositiveOver(a: real, d: real)
    requires a > 0.0 && d > 0.0
    ensures Over(a, d) > 0.0
  {
    assert Over(a, d) * d == a;
  }

  /** The block stacks into the solver when it is built. */
  lemma BlockFits(m: Mountains, faces: seq<CMesh.Face>, x: Vec)
    requires Ready(m, faces, x) && Measurable(m, faces, x)
    requires Error(Some(m), faces, x).Built?
    ensures RigidOrigami.Fits(RigidOrigami.Block(Error(Some(m), faces, x).value, Jacobian(Some(m), faces, x).value), |x|)
  {
    RowsInside(m, faces, x);
  }

  lemma RowsInside(m: Mountains, faces: seq<CMesh.Face>, x: Vec)
    requires Ready(m, faces, x) && Measurable(m, faces, x)
    ensures Inside(Stack(Rows(m, faces, x)), |Kept(m, faces, x)|, |x|)
  {
    var rows := Rows(m, faces, x);
    forall k | 0 <= k < |rows|
      ensures Inside(rows[k], |rows|, |x|)
    {
      RowInside(m, faces, x, k);
    }
    StackInside(rows, |x|);
  }

  lemma RowInside(m: Mountains, faces: seq<CMesh.Face>, x: Vec, k: int)
    requires Ready(m, faces, x) && Measurable(m, faces, x) && 0 <= k < |Kept(m, faces, x)|
    ensures Inside(Rows(m, faces, x)[k], |Kept(m, faces, x)|, |x|)
  {
    var e := Kept(m, faces, x)[k];
    ScanInside(k, Gradient(x, HingeAt(m, faces, x, e), Scale(m, e)), |x| / 3, |Kept(m, faces, x)|);
  }

  // ---------------------------------------------------------- exactness

  /** Row `k` stores, at column `c`, the volume's derivative along `c` over
      the edge's scale. */
  lemma JacobianEntry(m: Mountains, faces: seq<CMesh.Face>, x: Vec, k: int, c: int)
    requires Ready(m, faces, x) && Measurable(m, faces, x)
    requires Jacobian(Some(m), faces, x).Built? && 0 <= k < Jacobian(Some(m), faces, x).value.rows
    ensures var e := Kept(m, faces, x)[k];
            EntryAt(Jacobian(Some(m), faces, x).value.elems, k, c)
            == Over(Directional(Raw(x, HingeAt(m, faces, x, e)), c), Scale(m, e))
  {
    var e := Kept(m, faces, x)[k];
    var h, d := HingeAt(m, faces, x, e), Scale(m, e);
    StackEntry(Rows(m, faces, x), k, c);
    assert Rows(m, faces, x)[k] == Scan(k, Gradient(x, h, d), |x| / 3);
    ScannedRow(k, h, Over3(Cross(Minus(Vertex(x, h.q), Vertex(x, h.u)), Minus(Vertex(x, h.v), Vertex(x, h.u))), d),
               Over3(Cross(Minus(Vertex(x, h.v), Vertex(x, h.u)), Minus(Vertex(x, h.p), Vertex(x, h.u))), d),
               Over3(Cross(Minus(Vertex(x, h.q), Vertex(x, h.v)), Minus(Vertex(x, h.p), Vertex(x, h.v))), d),
               Over3(Cross(Minus(Vertex(x, h.p), Vertex(x, h.u)), Minus(Vertex(x, h.q), Vertex(x, h.u))), d),
               |x| / 3, c);
    GradientOver(x, h, d, c);
  }

  /** Dividing every gradient by `d` divides the derivative by `d`. */
  lemma GradientOver(x: Vec, h: Hinge, d: real, c: int)
    requires IsVertex(x, h.u) && IsVertex(x, h.v) && IsVertex(x, h.p) && IsVertex(x, h.q) && d != 0.0
    ensures Directional(Gradient(x, h, d), c) == Over(Directional(Raw(x, h), c), d)
  {
    var p, q, u, v := Vertex(x, h.p), Vertex(x, h.q), Vertex(x, h.u), Vertex(x, h.v);
    var gp, gq := Cross(Minus(q, u), Minus(v, u)), Cross(Minus(v, u), Minus(p, u));
    var gu, gv := Cross(Minus(q, v), Minus(p, v)), Cross(Minus(p, u), Minus(q, u));
    RolesDirectional(h, Over3(gp, d), Over3(gq, d), Over3(gu, d), Over3(gv, d), c);
    RolesDirectional(h, gp, gq, gu, gv, c);
    FourOver(gp, gq, gu, gv, Unit(h.p, c), Unit(h.q, c), Unit(h.u, c), Unit(h.v, c), d);
  }

  lemma FourOver(gp: Point, gq: Point, gu: Point, gv: Point, ep: Point, eq: Point, eu: Point, ev: Point, d: real)
    requires d != 0.0
    ensures Inner(Over3(gp, d), ep) + Inner(Over3(gq, d), eq) + Inner(Over3(gu, d), eu) + Inner(Over3(gv, d), ev)
            == Over(Inner(gp, ep) + Inner(gq, eq) + Inner(gu, eu) + Inner(gv, ev), d)
  {
    InnerOver3(gp, d, ep);
    InnerOver3(gq, d, eq);
    InnerOver3(gu, d, eu);
    InnerOver3(gv, d, ev);
    DivAdd(Inner(gp, ep), Inner(gq, eq), d);
    DivAdd(Inner(gp, ep) + Inner(gq, eq), Inner(gu, eu), d);
    DivAdd(Inner(gp, ep) + Inner(gq, eq) + Inner(gu, eu), Inner(gv, ev), d);
  }

  /** The determinant of the rows `a`, `b`, `w`, term by term. */
  function Det(a: Point, b: Point, w: Point): real
  {
    a.x * (b.y * w.z) - a.x * (b.z * w.y) + a.y * (b.z * w.x) - a.y * (b.x * w.z) + a.z * (b.x * w.y) - a.z * (b.y * w.x)
  }

  lemma TripleDet(a: Point, b: Point, w: Point)
    ensures Inner(a, Cross(b, w)) == Det(a, b, w) && Inner(Cross(b, w), a) == Det(a, b, w)
  {
  }

  lemma DetCyclic(a: Point, b: Point, w: Point)
    ensures Det(a, b, w) == Det(b, w, a)
  {
    assert a.x * (b.y * w.z) == b.y * (w.z * a.x);
    assert a.x * (b.z * w.y) == b.z * (w.y * a.x);
    assert a.y * (b.z * w.x) == b.z * (w.x * a.y);
    assert a.y * (b.x * w.z) == b.x * (w.z * a.y);
    assert a.z * (b.x * w.y) == b.x * (w.y * a.z);
    assert a.z * (b.y * w.x) == b.y * (w.x * a.z);
  }

  lemma DetFirst(a: Point, b: Point, w: Point, e: Point, t: real)
    ensures Det(Plus(a, Scaled(t, e)), b, w) == Det(a, b, w) + t * Det(e, b, w)
  {
  }

  lemma DetSecond(a: Point, b: Point, w: Point, e: Point, t: real)
    ensures Det(a, Plus(b, Scaled(t, e)), w) == Det(a, b, w) + t * Det(a, e, w)
  {
  }

  lemma DetThird(a: Point, b: Point, w: Point, e: Point, t: real)
    ensures Det(a, b, Plus(w, Scaled(t, e))) == Det(a, b, w) + t * Det(a, b, e)
  {
  }

  lemma DetRepeated(a: Point, e: Point)
    ensures Det(e, e, a) == 0.0 && Det(e, a, e) == 0.0 && Det(a, e, e) == 0.0
  {
  }

  /** Moving all three rows by the same `s e`. */
  lemma DetAll(a: Point, b: Point, w: Point, e: Point, s: real)
    ensures Det(Plus(a, Scaled(s, e)), Plus(b, Scaled(s, e)), Plus(w, Scaled(s, e)))
            == Det(a, b, w) + s * (Det(e, b, w) + Det(a, e, w) + Det(a, b, e))
  {
    var b2, w2 := Plus(b, Scaled(s, e)), Plus(w, Scaled(s, e));
    DetFirst(a, b2, w2, e, s);
    DetSecond(a, b, w2, e, s);
    DetThird(a, b, w, e, s);
    DetThird(a, e, w, e, s);
    DetSecond(e, b, w2, e, s);
    DetThird(e, b, w, e, s);
    DetRepeated(w2, e);
    DetRepeated(b, e);
    DetRepeated(a, e);
  }

  /** The gradient at `u` is minus the sum of the other three rows'
      replacements: `(q - v) x (p - v)` against `e`. */
  lemma UGradientDet(a: Point, b: Point, w: Point, e: Point)
    ensures Det(e, Minus(b, w), Minus(a, w)) == -(Det(e, b, w) + Det(a, e, w) + Det(a, b, e))
  {
  }

  /** Moving `p` by `t e`. */
  lemma MoveP(p: Point, q: Point, u: Point, v: Point, e: Point, t: real)
    ensures VolumeOf(Plus(p, Scaled(t, e)), q, u, v)
            == VolumeOf(p, q, u, v) + Times(t, Inner(Cross(Minus(q, u), Minus(v, u)), e))
  {
    var a, b, w := Minus(p, u), Minus(q, u), Minus(v, u);
    assert Minus(Plus(p, Scaled(t, e)), u) == Plus(a, Scaled(t, e));
    TripleDet(Plus(a, Scaled(t, e)), b, w);
    TripleDet(a, b, w);
    TripleDet(e, b, w);
    DetFirst(a, b, w, e, t);
  }

  /** Moving `q` by `t e`. */
  lemma MoveQ(p: Point, q: Point, u: Point, v: Point, e: Point, t: real)
    ensures VolumeOf(p, Plus(q, Scaled(t, e)), u, v)
            == VolumeOf(p, q, u, v) + Times(t, Inner(Cross(Minus(v, u), Minus(p, u)), e))
  {
    var a, b, w := Minus(p, u), Minus(q, u), Minus(v, u);
    assert Minus(Plus(q, Scaled(t, e)), u) == Plus(b, Scaled(t, e));
    TripleDet(a, Plus(b, Scaled(t, e)), w);
    TripleDet(a, b, w);
    TripleDet(e, w, a);
    DetSecond(a, b, w, e, t);
    DetCyclic(e, w, a);
    DetCyclic(w, a, e);
  }

  /** Moving `v` by `t e`. */
  lemma MoveV(p: Point, q: Point, u: Point, v: Point, e: Point, t: real)
    ensures VolumeOf(p, q, u, Plus(v, Scaled(t, e)))
            == VolumeOf(p, q, u, v) + Times(t, Inner(Cross(Minus(p, u), Minus(q, u)), e))
  {
    var a, b, w := Minus(p, u), Minus(q, u), Minus(v, u);
    assert Minus(Plus(v, Scaled(t, e)), u) == Plus(w, Scaled(t, e));
    TripleDet(a, b, Plus(w, Scaled(t, e)));
    TripleDet(a, b, w);
    TripleDet(e, a, b);
    DetThird(a, b, w, e, t);
    DetCyclic(e, a, b);
  }

  /** Moving `u` by `t e` moves all three edge vectors by `-t e`. */
  lemma MoveU(p: Point, q: Point, u: Point, v: Point, e: Point, t: real)
    ensures VolumeOf(p, q, Plus(u, Scaled(t, e)), v)
            == VolumeOf(p, q, u, v) + Times(t, Inner(Cross(Minus(q, v), Minus(p, v)), e))
  {
    var a, b, w := Minus(p, u), Minus(q, u), Minus(v, u);
    var s := -t;
    var u2 := Plus(u, Scaled(t, e));
    var a2, b2, w2 := Plus(a, Scaled(s, e)), Plus(b, Scaled(s, e)), Plus(w, Scaled(s, e));
    assert Minus(p, u2) == a2 && Minus(q, u2) == b2 && Minus(v, u2) == w2;
    assert Minus(q, v) == Minus(b, w) && Minus(p, v) == Minus(a, w);
    TripleDet(a2, b2, w2);
    TripleDet(a, b, w);
    TripleDet(e, Minus(b, w), Minus(a, w));
    ShiftAll(a, b, w, e, s, t);
  }

  /** The same shift `s e` of all three edge vectors, with `s = -t`. */
  lemma ShiftAll(a: Point, b: Point, w: Point, e: Point, s: real, t: real)
    requires s == -t
    ensures Det(Plus(a, Scaled(s, e)), Plus(b, Scaled(s, e)), Plus(w, Scaled(s, e)))
            == Det(a, b, w) + Times(t, Det(e, Minus(b, w), Minus(a, w)))
  {
    var sum := Det(e, b, w) + Det(a, e, w) + Det(a, b, e);
    DetAll(a, b, w, e, s);
    UGradientDet(a, b, w, e);
    NegatedStep(Det(Plus(a, Scaled(s, e)), Plus(b, Scaled(s, e)), Plus(w, Scaled(s, e))),
                Det(a, b, w), sum, Det(e, Minus(b, w), Minus(a, w)), s, t);
  }

  /** A step of `-t` along `sum` is a step of `t` along `-sum`. */
  lemma NegatedStep(moved: real, still: real, sum: real, g: real, s: real, t: real)
    requires moved == still + s * sum && g == -sum && s == -t
    ensures moved == still + Times(t, g)
  {
    assert s * sum == t * g;
  }

  /** A point that does not move. */
  lemma StillPoint(p: Point, t: real)
    ensures Plus(p, Scaled(t, Origin())) == p
  {
  }

  /** At most one of the four moves is not the origin. */
  predicate OneMove(ep: Point, eq: Point, eu: Point, ev: Point)
  {
    (eq == Origin() && eu == Origin() && ev == Origin())
    || (ep == Origin() && eu == Origin() && ev == Origin())
    || (ep == Origin() && eq == Origin() && ev == Origin())
    || (ep == Origin() && eq == Origin() && eu == Origin())
  }

  /** The four-way directional derivative of the volume. */
  function Along(p: Point, q: Point, u: Point, v: Point, ep: Point, eq: Point, eu: Point, ev: Point): real
  {
    Inner(Cross(Minus(q, u), Minus(v, u)), ep) + Inner(Cross(Minus(v, u), Minus(p, u)), eq)
    + Inner(Cross(Minus(q, v), Minus(p, v)), eu) + Inner(Cross(Minus(p, u), Minus(q, u)), ev)
  }

  /** The volume after moving the four points by `t` times their moves. */
  function Moved(p: Point, q: Point, u: Point, v: Point, ep: Point, eq: Point, eu: Point, ev: Point, t: real): real
  {
    VolumeOf(Plus(p, Scaled(t, ep)), Plus(q, Scaled(t, eq)), Plus(u, Scaled(t, eu)), Plus(v, Scaled(t, ev)))
  }

  lemma MovedP(p: Point, q: Point, u: Point, v: Point, e: Point, t: real)
    ensures Moved(p, q, u, v, e, Origin(), Origin(), Origin(), t) - VolumeOf(p, q, u, v)
            == Times(t, Along(p, q, u, v, e, Origin(), Origin(), Origin()))
  {
    StillPoint(q, t);
    StillPoint(u, t);
    StillPoint(v, t);
    MoveP(p, q, u, v, e, t);
  }

  lemma MovedQ(p: Point, q: Point, u: Point, v: Point, e: Point, t: real)
    ensures Moved(p, q, u, v, Origin(), e, Origin(), Origin(), t) - VolumeOf(p, q, u, v)
            == Times(t, Along(p, q, u, v, Origin(), e, Origin(), Origin()))
  {
    StillPoint(p, t);
    StillPoint(u, t);
    StillPoint(v, t);
    MoveQ(p, q, u, v, e, t);
  }

  lemma MovedU(p: Point, q: Point, u: Point, v: Point, e: Point, t: real)
    ensures Moved(p, q, u, v, Origin(), Origin(), e, Origin(), t) - VolumeOf(p, q, u, v)
            == Times(t, Along(p, q, u, v, Origin(), Origin(), e, Origin()))
  {
    StillPoint(p, t);
    StillPoint(q, t);
    StillPoint(v, t);
    MoveU(p, q, u, v, e, t);
  }

  lemma MovedV(p: Point, q: Point, u: Point, v: Point, e: Point, t: real)
    ensures Moved(p, q, u, v, Origin(), Origin(), Origin(), e, t) - VolumeOf(p, q, u, v)
            == Times(t, Along(p, q, u, v, Origin(), Origin(), Origin(), e))
  {
    StillPoint(p, t);
    StillPoint(q, t);
    StillPoint(u, t);
    MoveV(p, q, u, v, e, t);
  }

  /** Moving one of the four points changes the volume by `t` times its
      gradient along the move. */
  lemma MovedVolume(p: Point, q: Point, u: Point, v: Point, ep: Point, eq: Point, eu: Point, ev: Point, t: real)
    requires OneMove(ep, eq, eu, ev)
    ensures Moved(p, q, u, v, ep, eq, eu, ev, t) - VolumeOf(p, q, u, v) == Times(t, Along(p, q, u, v, ep, eq, eu, ev))
  {
    if eq == Origin() && eu == Origin() && ev == Origin() {
      MovedP(p, q, u, v, ep, t);
    } else if ep == Origin() && eu == Origin() && ev == Origin() {
      MovedQ(p, q, u, v, eq, t);
    } else if ep == Origin() && eq == Origin() && ev == Origin() {
      MovedU(p, q, u, v, eu, t);
    } else {
      MovedV(p, q, u, v, ev, t);
    }
  }

  /** A coordinate belongs to one hinge vertex at most. */
  lemma OneOwner(h: Hinge, c: int)
    requires Distinct(h)
    ensures OneMove(Unit(h.p, c), Unit(h.q, c), Unit(h.u, c), Unit(h.v, c))
  {
    if Unit(h.p, c) != Origin() {
      UnitElsewhere(h.p, h.q, c);
      UnitElsewhere(h.p, h.u, c);
      UnitElsewhere(h.p, h.v, c);
    } else if Unit(h.q, c) != Origin() {
      UnitElsewhere(h.q, h.u, c);
      UnitElsewhere(h.q, h.v, c);
    } else if Unit(h.u, c) != Origin() {
      UnitElsewhere(h.u, h.v, c);
    }
  }

  /** The volume is affine in each vertex, and a coordinate belongs to one
      vertex only: nudging coordinate `c` by `t` changes the volume by
      exactly `t` times the derivative the unscaled gradients predict. */
  lemma VolumeStep(x: Vec, h: Hinge, c: int, t: real)
    requires IsVertex(x, h.u) && IsVertex(x, h.v) && IsVertex(x, h.p) && IsVertex(x, h.q)
    requires Distinct(h) && 0 <= c < |x|
    ensures Volume(Nudge(x, c, t), h) - Volume(x, h) == Times(t, Directional(Raw(x, h), c))
  {
    var p, q, u, v := Vertex(x, h.p), Vertex(x, h.q), Vertex(x, h.u), Vertex(x, h.v);
    NudgeMovesVertex(x, h.p, c, t);
    NudgeMovesVertex(x, h.q, c, t);
    NudgeMovesVertex(x, h.u, c, t);
    NudgeMovesVertex(x, h.v, c, t);
    RolesDirectional(h, Cross(Minus(q, u), Minus(v, u)), Cross(Minus(v, u), Minus(p, u)),
                     Cross(Minus(q, v), Minus(p, v)), Cross(Minus(p, u), Minus(q, u)), c);
    OneOwner(h, c);
    MovedVolume(p, q, u, v, Unit(h.p, c), Unit(h.q, c), Unit(h.u, c), Unit(h.v, c), t);
  }

  /** Dividing a step by the scale. */
  lemma OverStep(moved: real, still: real, g: real, d: real, t: real)
    requires d != 0.0 && moved - still == Times(t, g)
    ensures Over(moved, d) - Over(still, d) == Times(t, Over(g, d))
  {
    DivAdd(moved, -still, d);
    assert Over(t * g, d) == t * Over(g, d);
  }

  /** Row `k` is exact for its edge: with four distinct hinge vertices,
      nudging coordinate `c` by `t` changes the edge's volume over its
      scale by exactly `t` times what the Jacobian stores at `(k, c)`. */
  lemma GradientExact(m: Mountains, faces: seq<CMesh.Face>, x: Vec, k: int, c: int, t: real)
    requires Ready(m, faces, x) && Measurable(m, faces, x) && 0 <= c < |x|
    requires Jacobian(Some(m), faces, x).Built? && 0 <= k < Jacobian(Some(m), faces, x).value.rows
    requires Distinct(HingeAt(m, faces, x, Kept(m, faces, x)[k]))
    ensures var e := Kept(m, faces, x)[k];
            var h := HingeAt(m, faces, x, e);
            Over(Volume(Nudge(x, c, t), h), Scale(m, e)) - Over(Volume(x, h), Scale(m, e))
            == Times(t, EntryAt(Jacobian(Some(m), faces, x).value.elems, k, c))
  {
    var e := Kept(m, faces, x)[k];
    var h := HingeAt(m, faces, x, e);
    JacobianEntry(m, faces, x, k, c);
    VolumeStep(x, h, c, t);
    OverStep(Volume(Nudge(x, c, t), h), Volume(x, h), Directional(Raw(x, h), c), Scale(m, e), t);
  }

  /** When the nudge keeps the same edges qualifying, row `k` is the exact
      gradient of error entry `k` itself. */
  lemma GradientExactWhileKept(m: Mountains, faces: seq<CMesh.Face>, x: Vec, k: int, c: int, t: real)
    requires Ready(m, faces, x) && Measurable(m, faces, x) && 0 <= c < |x|
    requires Ready(m, faces, Nudge(x, c, t)) && Measurable(m, faces, Nudge(x, c, t))
    requires Kept(m, faces, Nudge(x, c, t)) == Kept(m, faces, x)
    requires Jacobian(Some(m), faces, x).Built? && 0 <= k < Jacobian(Some(m), faces, x).value.rows
    requires Distinct(HingeAt(m, faces, x, Kept(m, faces, x)[k]))
    ensures Error(Some(m), faces, Nudge(x, c, t)).Built?
    ensures Error(Some(m), faces, Nudge(x, c, t)).value[k] - Error(Some(m), faces, x).value[k]
            == Times(t, EntryAt(Jacobian(Some(m), faces, x).value.elems, k, c))
  {
    var e := Kept(m, faces, x)[k];
    assert HingeAt(m, faces, Nudge(x, c, t), e) == HingeAt(m, faces, x, e);
    GradientExact(m, faces, x, k, c, t);
  }
}
