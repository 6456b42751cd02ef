/** Approx2dSymmetry: the planar affine map that best carries a list of
    first points onto their second points, fitted by Gauss-Newton steps.
    The map is p |-> A (p - r) + r + b with a 2 x 2 linear part A, a centre
    r and a shift b; the eight unknowns form the step vector in the order
    A row by row, r, b. The least-squares solver and the norm are
    parameters. */
module Approx2dSymmetry {
  import opened Common

  /** Rhino's `Point2d`. */
  datatype P2 = P2(x: real, y: real)

  /** The unknowns A, r and b. */
  datatype Params = Params(a00: real, a01: real, a10: real, a11: real, r0: real, r1: real, b0: real, b1: real)

  /** The fresh arrays the fit starts from: every unknown is zero. */
  const Start: Params := Params(0.0, 0.0, 0.0, 0.0, 0.0, 0.0, 0.0, 0.0)

  /** Iteration cap and residual tolerance the constructor passes. */
  const IterationMax: nat := 8
  const Tolerance: real := 0.000000000001

  /** Unknown `k` of the step vector. */
  function Param(p: Params, k: int): real
    requires 0 <= k < 8
  {
    match k
    case 0 => p.a00 case 1 => p.a01 case 2 => p.a10 case 3 => p.a11
    case 4 => p.r0 case 5 => p.r1 case 6 => p.b0 case _ => p.b1
  }

  /** update: entry k of the step is added to unknown k. A step shorter
      than eight entries makes the source index out of range; the model
      leaves it undefined. */
  function Update(p: Params, diff: seq<real>): (q: Params)
    requires |diff| >= 8
    ensures forall k :: 0 <= k < 8 ==> Param(q, k) == Param(p, k) + diff[k]
  {
    Params(p.a00 + diff[0], p.a01 + diff[1], p.a10 + diff[2], p.a11 + diff[3],
           p.r0 + diff[4], p.r1 + diff[5], p.b0 + diff[6], p.b1 + diff[7])
  }

  /** Unknown `k` alone moved by `t`. */
  function Bump(p: Params, k: int, t: real): (q: Params)
    requires 0 <= k < 8
  {
    match k
    case 0 => p.(a00 := p.a00 + t) case 1 => p.(a01 := p.a01 + t)
    case 2 => p.(a10 := p.a10 + t) case 3 => p.(a11 := p.a11 + t)
    case 4 => p.(r0 := p.r0 + t) case 5 => p.(r1 := p.r1 + t)
    case 6 => p.(b0 := p.b0 + t) case _ => p.(b1 := p.b1 + t)
  }

  /** An update with a step that is zero outside unknown `k` moves that
      unknown alone. */
  lemma BumpIsUpdate(p: Params, k: int, t: real)
    requires 0 <= k < 8
    ensures Update(p, Unit(k, t)) == Bump(p, k, t)
  {
    var u := Unit(k, t);
    assert u[0] == (if k == 0 then t else 0.0) && u[1] == (if k == 1 then t else 0.0);
    assert u[2] == (if k == 2 then t else 0.0) && u[3] == (if k == 3 then t else 0.0);
    assert u[4] == (if k == 4 then t else 0.0) && u[5] == (if k == 5 then t else 0.0);
    assert u[6] == (if k == 6 then t else 0.0) && u[7] == (if k == 7 then t else 0.0);
  }

  /** The step that is `t` at unknown `k` and zero elsewhere. */
  function Unit(k: int, t: real): (u: seq<real>)
    ensures |u| == 8
    ensures forall m :: 0 <= m < 8 ==> u[m] == if m == k then t else 0.0
  {
    seq(8, m => if m == k then t else 0.0)
  }

  /** The fitted map applied to a point: A (v - r) + r + b. */
  function Image(p: Params, v: P2): P2
  {
    P2(p.a00 * (v.x - p.r0) + p.a01 * (v.y - p.r1) + p.r0 + p.b0,
       p.a10 * (v.x - p.r0) + p.a11 * (v.y - p.r1) + p.r1 + p.b1)
  }

  /** The images of the first points under the fitted map. */
  function Images(p: Params, first: seq<P2>): (r: seq<P2>)
    ensures |r| == |first| && forall i :: 0 <= i < |first| ==> r[i] == Image(p, first[i])
  {
    seq(|first|, i requires 0 <= i < |first| => Image(p, first[i]))
  }

  /** Componentwise differences of two point lists, laid out as entries
      2i and 2i+1 for point i. */
  function Gaps(images: seq<P2>, second: seq<P2>): (e: seq<real>)
    requires |images| == |second|
    ensures |e| == 2 * |images|
    ensures forall i :: 0 <= i < |images| ==>
              e[2 * i] == images[i].x - second[i].x && e[2 * i + 1] == images[i].y - second[i].y
  {
    if |images| == 0 then []
    else
      var last := |images| - 1;
      var prev := Gaps(images[..last], second[..last]);
      assert forall i :: 0 <= i < last ==> images[..last][i] == images[i] && second[..last][i] == second[i];
      prev + [images[last].x - second[last].x, images[last].y - second[last].y]
  }

  /** The gaps between image and target, entries 2i and 2i+1 for point
      i: the error before the division by the number of points. */
  function Residual(p: Params, first: seq<P2>, second: seq<P2>): (e: seq<real>)
    requires |first| == |second|
    ensures |e| == 2 * |first|
    ensures forall i :: 0 <= i < |first| ==>
              e[2 * i] == Image(p, first[i]).x - second[i].x && e[2 * i + 1] == Image(p, first[i]).y - second[i].y
  {
    Gaps(Images(p, first), second)
  }

  /** error: the residual divided by the number of points N. */
  function Error(p: Params, first: seq<P2>, second: seq<P2>): (e: seq<real>)
    requires |first| == |second|
    ensures |e| == 2 * |first|
    ensures |first| > 0 ==> e == Divided(Residual(p, first, second), |first| as real)
  {
    if |first| == 0 then [] else Divided(Residual(p, first, second), |first| as real)
  }

  /** The row of jacobian for the x component of point `v`, before the
      division by the number of points. */
  function RowX(p: Params, v: P2): (row: seq<real>)
    ensures |row| == 8
  {
    [v.x - p.r0, v.y - p.r1, 0.0, 0.0, 1.0 - p.a00, -p.a01, 1.0, 0.0]
  }

  /** The row for the y component. */
  function RowY(p: Params, v: P2): (row: seq<real>)
    ensures |row| == 8
  {
    [0.0, 0.0, v.x - p.r0, v.y - p.r1, -p.a10, 1.0 - p.a11, 0.0, 1.0]
  }

  /** A row divided by the number of points. */
  function Divided(row: seq<real>, n: real): (d: seq<real>)
    requires n != 0.0
    ensures |d| == |row| && forall k :: 0 <= k < |row| ==> d[k] == row[k] / n
  {
    seq(|row|, k requires 0 <= k < |row| => row[k] / n)
  }

  /** The jacobian rows before the division by the number of points:
      rows 2i and 2i+1 for first point i. */
  function Slopes(p: Params, first: seq<P2>): (S: seq<seq<real>>)
    ensures IsMat(S, 2 * |first|, 8)
    ensures forall i :: 0 <= i < |first| ==> S[2 * i] == RowX(p, first[i]) && S[2 * i + 1] == RowY(p, first[i])
  {
    if |first| == 0 then []
    else
      var last := |first| - 1;
      var prev := Slopes(p, first[..last]);
      assert forall i :: 0 <= i < last ==> first[..last][i] == first[i];
      prev + [RowX(p, first[last]), RowY(p, first[last])]
  }

  /** jacobian: a 2N x 8 matrix, the slopes divided by N. */
  function Jacobian(p: Params, first: seq<P2>): (J: seq<seq<real>>)
    ensures IsMat(J, 2 * |first|, 8)
    ensures forall j :: 0 <= j < |J| ==> J[j] == Divided(Slopes(p, first)[j], |first| as real)
  {
    var S := Slopes(p, first);
    seq(|S|, j requires 0 <= j < |S| => Divided(S[j], |first| as real))
  }

  // ---- the Jacobian is the exact derivative

  /** Each component of the image is affine in each single unknown, with
      the slope the jacobian row holds. */
  lemma ImageAlongUnknown(p: Params, v: P2, k: int, t: real)
    requires 0 <= k < 8
    ensures Image(Update(p, Unit(k, t)), v).x == Image(p, v).x + Times(t, RowX(p, v)[k])
    ensures Image(Update(p, Unit(k, t)), v).y == Image(p, v).y + Times(t, RowY(p, v)[k])
  {
    BumpIsUpdate(p, k, t);
    ImageOfBump(p, v, k, t);
  }

  lemma ImageOfBump(p: Params, v: P2, k: int, t: real)
    requires 0 <= k < 8
    ensures Image(Bump(p, k, t), v).x == Image(p, v).x + Times(t, RowX(p, v)[k])
    ensures Image(Bump(p, k, t), v).y == Image(p, v).y + Times(t, RowY(p, v)[k])
  {
    var row, col := RowX(p, v), RowY(p, v);
    if k < 4 {
      assert row[k] == (if k == 0 then v.x - p.r0 else if k == 1 then v.y - p.r1 else 0.0);
      assert col[k] == (if k == 2 then v.x - p.r0 else if k == 3 then v.y - p.r1 else 0.0);
    } else {
      assert row[k] == (if k == 4 then 1.0 - p.a00 else if k == 5 then -p.a01 else if k == 6 then 1.0 else 0.0);
      assert col[k] == (if k == 4 then -p.a10 else if k == 5 then 1.0 - p.a11 else if k == 6 then 0.0 else 1.0);
    }
  }

  /** A product behind a function symbol: equal factors give equal
      products by congruence alone, which keeps the proofs below cheap. */
  function Times(a: real, b: real): real
  {
    a * b
  }

  /** If the image of first point `i` moves by `t` times its slopes at
      column `k`, so do both residual entries of the point. */
  lemma {:induction false} ResidualFollowsImage(p: Params, q: Params, first: seq<P2>, second: seq<P2>, k: int, t: real, i: int)
    requires |first| == |second| && 0 <= k < 8 && 0 <= i < |first|
    requires Image(q, first[i]).x == Image(p, first[i]).x + Times(t, RowX(p, first[i])[k])
    requires Image(q, first[i]).y == Image(p, first[i]).y + Times(t, RowY(p, first[i])[k])
    ensures Residual(q, first, second)[2 * i] == Residual(p, first, second)[2 * i] + Times(t, Slopes(p, first)[2 * i][k])
    ensures Residual(q, first, second)[2 * i + 1]
            == Residual(p, first, second)[2 * i + 1] + Times(t, Slopes(p, first)[2 * i + 1][k])
  {
  }

  /** Moving unknown `k` alone by `t` moves residual entry `j` by `t`
      times slope `[j][k]`. */
  lemma {:induction false} ResidualExact(p: Params, first: seq<P2>, second: seq<P2>, k: int, t: real, j: int)
    requires |first| == |second| && 0 <= k < 8 && 0 <= j < 2 * |first|
    ensures Residual(Update(p, Unit(k, t)), first, second)[j]
            == Residual(p, first, second)[j] + Times(t, Slopes(p, first)[j][k])
  {
    var i := Half(j);
    ImageAlongUnknown(p, first[i], k, t);
    ResidualFollowsImage(p, Update(p, Unit(k, t)), first, second, k, t, i);
  }

  /** A quotient behind a function symbol, for the same reason. */
  function Over(a: real, n: real): real
    requires n != 0.0
  {
    a / n
  }

  /** (a + t b) / n == a / n + t (b / n), with the quotients passed in as
      `e1`, `e0` and `c`. */
  lemma DividedStep(a1: real, a0: real, b: real, n: real, t: real, e1: real, e0: real, c: real)
    requires n != 0.0 && a1 == a0 + Times(t, b)
    requires e1 == Over(a1, n) && e0 == Over(a0, n) && c == Over(b, n)
    ensures e1 == e0 + Times(t, c)
  {
  }

  /** Error entry `j` is residual entry `j` divided by N. */
  lemma {:induction false} ErrorEntry(p: Params, first: seq<P2>, second: seq<P2>, j: int)
    requires |first| == |second| && 0 <= j < 2 * |first|
    ensures Error(p, first, second)[j] == Over(Residual(p, first, second)[j], |first| as real)
  {
  }

  /** Jacobian entry `[j][k]` is slope `[j][k]` divided by N. */
  lemma {:induction false} JacobianEntry(p: Params, first: seq<P2>, j: int, k: int)
    requires 0 <= j < 2 * |first| && 0 <= k < 8
    ensures Jacobian(p, first)[j][k] == Over(Slopes(p, first)[j][k], |first| as real)
  {
  }

  /** Moving unknown `k` alone by `t` moves error entry `j` by exactly `t`
      times jacobian entry `[j][k]`: the jacobian is the exact partial
      derivative of the error, not an approximation. */
  lemma {:induction false} JacobianExact(p: Params, first: seq<P2>, second: seq<P2>, k: int, t: real, j: int)
    requires |first| == |second| && 0 <= k < 8 && 0 <= j < 2 * |first|
    ensures Error(Update(p, Unit(k, t)), first, second)[j]
            == Error(p, first, second)[j] + t * Jacobian(p, first)[j][k]
  {
    ResidualExact(p, first, second, k, t, j);
    ErrorFollowsResidual(p, Update(p, Unit(k, t)), first, second, k, t, j);
  }

  /** A step of residual entry `j` along slope `[j][k]` is the same step of
      error entry `j` along jacobian entry `[j][k]`. */
  lemma {:induction false} ErrorFollowsResidual(p: Params, q: Params, first: seq<P2>, second: seq<P2>, k: int, t: real, j: int)
    requires |first| == |second| && 0 <= k < 8 && 0 <= j < 2 * |first|
    requires Residual(q, first, second)[j] == Residual(p, first, second)[j] + Times(t, Slopes(p, first)[j][k])
    ensures Error(q, first, second)[j] == Error(p, first, second)[j] + Times(t, Jacobian(p, first)[j][k])
  {
    ErrorEntry(q, first, second, j);
    ErrorEntry(p, first, second, j);
    JacobianEntry(p, first, j, k);
    DividedStep(Residual(q, first, second)[j], Residual(p, first, second)[j], Slopes(p, first)[j][k], |first| as real, t,
                Error(q, first, second)[j], Error(p, first, second)[j], Jacobian(p, first)[j][k]);
  }

  // ---- the resulting transform

  /** Symmetry2d: A in the upper-left block, (I - A) r + b in the last
      column, and ones at [2, 2] and [3, 3]; every other entry keeps the
      zero of a fresh Transform. */
  function Symmetry(p: Params): (T: seq<seq<real>>)
    ensures IsMat(T, 4, 4)
  {
    [[p.a00, p.a01, 0.0, (1.0 - p.a00) * p.r0 + (-p.a01) * p.r1 + p.b0],
     [p.a10, p.a11, 0.0, (-p.a10) * p.r0 + (1.0 - p.a11) * p.r1 + p.b1],
     [0.0, 0.0, 1.0, 0.0],
     [0.0, 0.0, 0.0, 1.0]]
  }

  /** A 4 x 4 transform applied to a point of three-space. */
  function Apply(T: seq<seq<real>>, v: Point): (w: Point)
    requires IsMat(T, 4, 4)
  {
    Point(T[0][0] * v.x + T[0][1] * v.y + T[0][2] * v.z + T[0][3],
          T[1][0] * v.x + T[1][1] * v.y + T[1][2] * v.z + T[1][3],
          T[2][0] * v.x + T[2][1] * v.y + T[2][2] * v.z + T[2][3])
  }

  /** The transform does in the plane what the fitted map does, and keeps
      the height of a point. */
  lemma SymmetryIsImage(p: Params, v: Point)
    ensures Apply(Symmetry(p), v) == Point(Image(p, P2(v.x, v.y)).x, Image(p, P2(v.x, v.y)).y, v.z)
  {
    assert p.a00 * v.x + p.a01 * v.y + 0.0 * v.z + ((1.0 - p.a00) * p.r0 + (-p.a01) * p.r1 + p.b0)
           == p.a00 * (v.x - p.r0) + p.a01 * (v.y - p.r1) + p.r0 + p.b0;
    assert p.a10 * v.x + p.a11 * v.y + 0.0 * v.z + ((-p.a10) * p.r0 + (1.0 - p.a11) * p.r1 + p.b1)
           == p.a10 * (v.x - p.r0) + p.a11 * (v.y - p.r1) + p.r1 + p.b1;
  }

  /** The error vanishes exactly when the fitted map carries every first
      point onto its second point. */
  lemma {:induction false} ZeroErrorIffExact(p: Params, first: seq<P2>, second: seq<P2>)
    requires |first| == |second|
    ensures IsZero(Error(p, first, second)) <==> forall i :: 0 <= i < |first| ==> Image(p, first[i]) == second[i]
  {
    var e, g := Error(p, first, second), Residual(p, first, second);
    if IsZero(e) {
      forall i | 0 <= i < |first|
        ensures Image(p, first[i]) == second[i]
      {
        assert e[2 * i] == 0.0 && e[2 * i + 1] == 0.0;
        QuotientZero(g[2 * i], |first| as real);
        QuotientZero(g[2 * i + 1], |first| as real);
      }
    }
    if forall i :: 0 <= i < |first| ==> Image(p, first[i]) == second[i] {
      forall j | 0 <= j < |e|
        ensures e[j] == 0.0
      {
        var i := Half(j);
        assert Image(p, first[i]) == second[i];
        assert g[j] == 0.0;
      }
    }
  }

  /** The point an error entry belongs to. */
  lemma Half(m: nat) returns (i: nat)
    ensures m == 2 * i || m == 2 * i + 1
  {
    i := m / 2;
  }

  lemma QuotientZero(a: real, n: real)
    requires n > 0.0
    ensures a / n == 0.0 <==> a == 0.0
  {
    if a / n == 0.0 {
      assert a == (a / n) * n;
    }
  }

  /** When the error vanishes, the resulting transform carries the first
      points, lifted to any height, onto the second. */
  lemma {:induction false} ExactFitMapsPoints(p: Params, first: seq<P2>, second: seq<P2>, i: int, z: real)
    requires |first| == |second| && 0 <= i < |first|
    requires IsZero(Error(p, first, second))
    ensures Apply(Symmetry(p), Point(first[i].x, first[i].y, z)) == Point(second[i].x, second[i].y, z)
  {
    ZeroErrorIffExact(p, first, second);
    SymmetryIsImage(p, Point(first[i].x, first[i].y, z));
  }

  // ---- the fit

  /** The Gauss-Newton loop of approxSymmmetry from `iteration` on: it
      stops once the residual is at most `tolerance` or after
      `iterationMax` steps; each step adds the least-squares solution of
      J d = -e. None when the solver returns a step too short to
      update with. */
  function NewtonLoop(p: Params, first: seq<P2>, second: seq<P2>, iteration: nat, iterationMax: nat, tolerance: real,
                      norm: seq<real> -> real, cgnr: (seq<seq<real>>, seq<real>) -> seq<real>): (r: Option<(Params, nat)>)
    requires |first| == |second|
    ensures r.Some? ==> iteration <= r.value.1 && (r.value.1 > iteration ==> r.value.1 <= iterationMax)
    ensures r.Some? && r.value.1 < iterationMax ==> norm(Error(r.value.0, first, second)) <= tolerance
    decreases iterationMax - iteration
  {
    var err := Error(p, first, second);
    if !(norm(err) > tolerance && iteration < iterationMax) then Some((p, iteration))
    else
      var diff := cgnr(Jacobian(p, first), Scale(-1.0, err));
      if |diff| < 8 then None
      else NewtonLoop(Update(p, diff), first, second, iteration + 1, iterationMax, tolerance, norm, cgnr)
  }

  /** The constructor: the first and second points are the listed points
      with their height dropped. An id out of range, or fewer second ids
      than first ids, throws; both are None. */
  function Points(pts: seq<Point>, firstIds: seq<int>, secondIds: seq<int>): (r: Option<(seq<P2>, seq<P2>)>)
    ensures r.Some? <==> (|secondIds| >= |firstIds|
                          && (forall i :: 0 <= i < |firstIds| ==> 0 <= firstIds[i] < |pts| && 0 <= secondIds[i] < |pts|))
    ensures r.Some? ==> |r.value.0| == |firstIds| && |r.value.1| == |firstIds|
    ensures r.Some? ==> forall i :: 0 <= i < |firstIds| ==>
              r.value.0[i] == P2(pts[firstIds[i]].x, pts[firstIds[i]].y)
              && r.value.1[i] == P2(pts[secondIds[i]].x, pts[secondIds[i]].y)
  {
    if |secondIds| >= |firstIds|
       && (forall i :: 0 <= i < |firstIds| ==> 0 <= firstIds[i] < |pts| && 0 <= secondIds[i] < |pts|)
    then
      Some((seq(|firstIds|, i requires 0 <= i < |firstIds| => P2(pts[firstIds[i]].x, pts[firstIds[i]].y)),
            seq(|firstIds|, i requires 0 <= i < |firstIds| => P2(pts[secondIds[i]].x, pts[secondIds[i]].y))))
    else None
  }

  /** Symmetry2d of a new Approx2dSymmetry: the fit starts from all-zero
      unknowns, runs at most eight steps with tolerance 1e-12, and the
      transform is built from the unknowns it ends with. */
  function Approx(pts: seq<Point>, firstIds: seq<int>, secondIds: seq<int>,
                  norm: seq<real> -> real, cgnr: (seq<seq<real>>, seq<real>) -> seq<real>): (r: Option<seq<seq<real>>>)
    ensures r.Some? ==> Points(pts, firstIds, secondIds).Some?
    ensures r.Some? ==> IsMat(r.value, 4, 4) && r.value[2] == [0.0, 0.0, 1.0, 0.0] && r.value[3] == [0.0, 0.0, 0.0, 1.0]
    ensures r.Some? ==> exists p :: r.value == Symmetry(p)
  {
    match Points(pts, firstIds, secondIds)
    case None => None
    case Some(fs) =>
      match NewtonLoop(Start, fs.0, fs.1, 0, IterationMax, Tolerance, norm, cgnr)
      case None => None
      case Some(res) => Some(Symmetry(res.0))
  }

  /** With a residual already within tolerance at the start, no step is
      taken and the transform is built from zero unknowns: the projection
      onto the plane z = 0 plus the zero shift. */
  lemma {:induction false} NoStepWhenConverged(pts: seq<Point>, firstIds: seq<int>, secondIds: seq<int>,
                            norm: seq<real> -> real, cgnr: (seq<seq<real>>, seq<real>) -> seq<real>)
    requires Points(pts, firstIds, secondIds).Some?
    requires norm(Error(Start, Points(pts, firstIds, secondIds).value.0, Points(pts, firstIds, secondIds).value.1)) <= Tolerance
    ensures Approx(pts, firstIds, secondIds, norm, cgnr) == Some(Symmetry(Start))
  {
  }
}
