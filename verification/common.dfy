/** Shared vocabulary of the Crane model: optional values, real vectors and
    dense real matrices, and the few algebraic facts about them that the
    solver and constraint models rely on. Arithmetic is exact (`real`), so
    rounding, overflow and IEEE infinities are not represented. */
module Common {

  datatype Option<+T> = None | Some(value: T)

  type Vec = seq<real>
  type Mat = seq<seq<real>>

  /** The double nearest to pi, the value of `Math.PI`. */
  const Pi: real := 3.141592653589793

  function Abs(x: real): (a: real)
    ensures a >= 0.0 && (a == x || a == -x)
  {
    if x < 0.0 then -x else x
  }

  /** Rhino's `IndexPair`; its default value is (0, 0). */
  datatype IndexPair = IndexPair(i: int, j: int)

  /** A point or vector of three-space. */
  datatype Point = Point(x: real, y: real, z: real)

  /** Coordinate `k` (0, 1 or 2) of a point. */
  function Coord(p: Point, k: int): real
  {
    if k == 0 then p.x else if k == 1 then p.y else p.z
  }

  /** `A` has `rows` rows, each of length `cols`. */
  predicate IsMat(A: Mat, rows: nat, cols: nat)
  {
    |A| == rows && forall i :: 0 <= i < |A| ==> |A[i]| == cols
  }

  function Zeros(n: nat): (z: Vec)
    ensures |z| == n
    ensures forall i :: 0 <= i < n ==> z[i] == 0.0
  {
    seq(n, i => 0.0)
  }

  predicate IsZero(v: Vec)
  {
    forall i :: 0 <= i < |v| ==> v[i] == 0.0
  }

  function Sum(s: seq<real>): real
  {
    if |s| == 0 then 0.0 else Sum(s[..|s| - 1]) + s[|s| - 1]
  }

  function Dot(u: Vec, v: Vec): real
    requires |u| == |v|
  {
    if |u| == 0 then 0.0 else Dot(u[..|u| - 1], v[..|v| - 1]) + u[|u| - 1] * v[|v| - 1]
  }

  function Add(u: Vec, v: Vec): (w: Vec)
    requires |u| == |v|
    ensures |w| == |u|
    ensures forall i :: 0 <= i < |w| ==> w[i] == u[i] + v[i]
  {
    seq(|u|, i requires 0 <= i < |u| => u[i] + v[i])
  }

  function Sub(u: Vec, v: Vec): (w: Vec)
    requires |u| == |v|
    ensures |w| == |u|
    ensures forall i :: 0 <= i < |w| ==> w[i] == u[i] - v[i]
  {
    seq(|u|, i requires 0 <= i < |u| => u[i] - v[i])
  }

  function Scale(a: real, v: Vec): (w: Vec)
    ensures |w| == |v|
    ensures forall i :: 0 <= i < |w| ==> w[i] == a * v[i]
  {
    seq(|v|, i requires 0 <= i < |v| => a * v[i])
  }

  /** Column `j` of `A`. */
  function Column(A: Mat, j: nat): (c: Vec)
    requires forall i :: 0 <= i < |A| ==> j < |A[i]|
    ensures |c| == |A|
    ensures forall i :: 0 <= i < |A| ==> c[i] == A[i][j]
  {
    seq(|A|, i requires 0 <= i < |A| => A[i][j])
  }

  /** The product `A x` of an `m x n` matrix with an `n`-vector. */
  function MatVec(A: Mat, x: Vec): (y: Vec)
    requires forall i :: 0 <= i < |A| ==> |A[i]| == |x|
    ensures |y| == |A|
    ensures forall i :: 0 <= i < |A| ==> y[i] == Dot(A[i], x)
  {
    seq(|A|, i requires 0 <= i < |A| => Dot(A[i], x))
  }

  /** The product `A^T y` of the transpose of an `m x n` matrix with an `m`-vector. */
  function MatTVec(A: Mat, n: nat, y: Vec): (z: Vec)
    requires IsMat(A, |y|, n)
    ensures |z| == n
    ensures forall j :: 0 <= j < n ==> z[j] == Dot(Column(A, j), y)
  {
    seq(n, j requires 0 <= j < n => Dot(Column(A, j), y))
  }

  function Transpose(A: Mat, n: nat): (T: Mat)
    requires IsMat(A, |A|, n)
    ensures IsMat(T, n, |A|)
    ensures forall j, i :: 0 <= j < n && 0 <= i < |A| ==> T[j][i] == A[i][j]
  {
    seq(n, j requires 0 <= j < n => Column(A, j))
  }

  /** The product of an `m x k` and a `k x n` matrix. */
  function MatMul(A: Mat, B: Mat, n: nat): (C: Mat)
    requires IsMat(B, |B|, n)
    requires forall i :: 0 <= i < |A| ==> |A[i]| == |B|
    ensures IsMat(C, |A|, n)
    ensures forall i, j :: 0 <= i < |A| && 0 <= j < n ==> C[i][j] == Dot(A[i], Column(B, j))
  {
    seq(|A|, i requires 0 <= i < |A| => seq(n, j requires 0 <= j < n => Dot(A[i], Column(B, j))))
  }

  function MatAdd(A: Mat, B: Mat, n: nat): (C: Mat)
    requires IsMat(A, |A|, n) && IsMat(B, |A|, n)
    ensures IsMat(C, |A|, n)
    ensures forall i, j :: 0 <= i < |A| && 0 <= j < n ==> C[i][j] == A[i][j] + B[i][j]
  {
    seq(|A|, i requires 0 <= i < |A| => Add(A[i], B[i]))
  }

  function MatScale(a: real, A: Mat): (C: Mat)
    ensures |C| == |A|
    ensures forall i :: 0 <= i < |A| ==> C[i] == Scale(a, A[i])
  {
    seq(|A|, i requires 0 <= i < |A| => Scale(a, A[i]))
  }

  lemma MatScaleOne(A: Mat)
    ensures MatScale(1.0, A) == A
  {
    forall i | 0 <= i < |A|
      ensures MatScale(1.0, A)[i] == A[i]
    {
      assert Scale(1.0, A[i]) == A[i];
    }
  }

  /** The Gram matrix `A^T A` of an `m x n` matrix: entry `(i, j)` is the
      dot product of columns `i` and `j`. */
  function Gram(A: Mat, n: nat): (G: Mat)
    requires IsMat(A, |A|, n)
    ensures IsMat(G, n, n)
    ensures forall i, j :: 0 <= i < n && 0 <= j < n ==> G[i][j] == Dot(Column(A, i), Column(A, j))
  {
    var T := Transpose(A, n);
    assert forall i :: 0 <= i < n ==> T[i] == Column(A, i);
    MatMul(T, A, n)
  }

  /** A Gram matrix is symmetric. */
  lemma GramSymmetric(A: Mat, n: nat)
    requires IsMat(A, |A|, n)
    ensures forall i, j :: 0 <= i < n && 0 <= j < n ==> Gram(A, n)[i][j] == Gram(A, n)[j][i]
  {
    forall i, j | 0 <= i < n && 0 <= j < n
      ensures Gram(A, n)[i][j] == Gram(A, n)[j][i]
    {
      DotComm(Column(A, i), Column(A, j));
    }
  }

  /** The weighted Gram combination `c1 A^T A + c2 B^T B` of two matrices
      with `n` columns. */
  function GramCombination(A: Mat, B: Mat, n: nat, c1: real, c2: real): (C: Mat)
    requires IsMat(A, |A|, n) && IsMat(B, |B|, n)
    ensures IsMat(C, n, n)
  {
    MatAdd(MatScale(c1, Gram(A, n)), MatScale(c2, Gram(B, n)), n)
  }

  /** Entry `(i, j)` of the weighted combination, in terms of the columns. */
  lemma GramCombinationEntry(A: Mat, B: Mat, n: nat, c1: real, c2: real, i: nat, j: nat)
    requires IsMat(A, |A|, n) && IsMat(B, |B|, n) && i < n && j < n
    ensures GramCombination(A, B, n, c1, c2)[i][j]
            == c1 * Dot(Column(A, i), Column(A, j)) + c2 * Dot(Column(B, i), Column(B, j))
  {
    var S1 := MatScale(c1, Gram(A, n));
    var S2 := MatScale(c2, Gram(B, n));
    assert S1[i] == Scale(c1, Gram(A, n)[i]);
    assert S2[i] == Scale(c2, Gram(B, n)[i]);
  }

  /** Two matrices of one shape with equal entries are equal. */
  lemma SameEntries(A: Mat, B: Mat, rows: nat, cols: nat)
    requires IsMat(A, rows, cols) && IsMat(B, rows, cols)
    requires forall i, j :: 0 <= i < rows && 0 <= j < cols ==> A[i][j] == B[i][j]
    ensures A == B
  {
    forall i | 0 <= i < rows
      ensures A[i] == B[i]
    {
      assert forall j :: 0 <= j < cols ==> A[i][j] == B[i][j];
    }
  }

  /** A square matrix equal to its transpose. */
  predicate Symmetric(M: Mat, n: nat)
  {
    IsMat(M, n, n) && forall i, j :: 0 <= i < n && 0 <= j < n ==> M[i][j] == M[j][i]
  }

  /** Scaling keeps a matrix symmetric. */
  lemma ScaleSymmetric(a: real, M: Mat, n: nat)
    requires Symmetric(M, n)
    ensures Symmetric(MatScale(a, M), n)
  {
    var S := MatScale(a, M);
    forall i, j | 0 <= i < n && 0 <= j < n
      ensures S[i][j] == S[j][i]
    {
      assert S[i] == Scale(a, M[i]) && S[j] == Scale(a, M[j]);
    }
  }

  /** The sum of two symmetric matrices is symmetric. */
  lemma AddSymmetric(M1: Mat, M2: Mat, n: nat)
    requires Symmetric(M1, n) && Symmetric(M2, n)
    ensures Symmetric(MatAdd(M1, M2, n), n)
  {
  }

  /** A weighted Gram combination is symmetric. */
  lemma GramCombinationSymmetric(A: Mat, B: Mat, n: nat, c1: real, c2: real)
    requires IsMat(A, |A|, n) && IsMat(B, |B|, n)
    ensures forall i, j :: 0 <= i < n && 0 <= j < n ==>
              GramCombination(A, B, n, c1, c2)[i][j] == GramCombination(A, B, n, c1, c2)[j][i]
  {
    GramSymmetric(A, n);
    GramSymmetric(B, n);
    ScaleSymmetric(c1, Gram(A, n), n);
    ScaleSymmetric(c2, Gram(B, n), n);
    AddSymmetric(MatScale(c1, Gram(A, n)), MatScale(c2, Gram(B, n)), n);
  }

  lemma {:induction false} DotAdd(u: Vec, v: Vec, w: Vec)
    requires |u| == |v| == |w|
    ensures Dot(u, Add(v, w)) == Dot(u, v) + Dot(u, w)
  {
    if |u| > 0 {
      var k := |u| - 1;
      assert Add(v, w)[..k] == Add(v[..k], w[..k]);
      DotAdd(u[..k], v[..k], w[..k]);
    }
  }

  lemma {:induction false} DotSub(u: Vec, v: Vec, w: Vec)
    requires |u| == |v| == |w|
    ensures Dot(u, Sub(v, w)) == Dot(u, v) - Dot(u, w)
  {
    if |u| > 0 {
      var k := |u| - 1;
      assert Sub(v, w)[..k] == Sub(v[..k], w[..k]);
      DotSub(u[..k], v[..k], w[..k]);
    }
  }

  lemma DotScale(u: Vec, a: real, v: Vec)
    requires |u| == |v|
    ensures Dot(u, Scale(a, v)) == a * Dot(u, v)
  {
    DotScaled(u, v, Scale(a, v), a);
  }

  lemma ScaleDot(a: real, u: Vec, v: Vec)
    requires |u| == |v|
    ensures Dot(Scale(a, u), v) == a * Dot(u, v)
  {
    ScaledDot(u, Scale(a, u), v, a);
  }

  /** The dot product with a vector scaled entry by entry by `a`. */
  lemma {:induction false} DotScaled(u: Vec, v: Vec, w: Vec, a: real)
    requires |u| == |v| == |w|
    requires forall i :: 0 <= i < |w| ==> w[i] == a * v[i]
    ensures Dot(u, w) == a * Dot(u, v)
  {
    if |u| > 0 {
      var k := |u| - 1;
      DotScaled(u[..k], v[..k], w[..k], a);
      ScaledStep(a, Dot(u[..k], v[..k]), Dot(u[..k], w[..k]), u[k], v[k], w[k], Dot(u, v));
    }
  }

  /** The dot product of a vector scaled entry by entry by `a`. */
  lemma {:induction false} ScaledDot(u: Vec, w: Vec, v: Vec, a: real)
    requires |u| == |v| == |w|
    requires forall i :: 0 <= i < |w| ==> w[i] == a * u[i]
    ensures Dot(w, v) == a * Dot(u, v)
  {
    if |u| > 0 {
      var k := |u| - 1;
      ScaledDot(u[..k], w[..k], v[..k], a);
      ScaledStepLeft(a, Dot(u[..k], v[..k]), Dot(w[..k], v[..k]), u[k], v[k], w[k], Dot(u, v));
    }
  }

  /** One step of DotScaled: a scaled prefix sum plus one product with a
      scaled right factor. */
  lemma ScaledStep(a: real, d: real, sd: real, x: real, y: real, sy: real, t: real)
    requires sd == a * d && sy == a * y && t == d + x * y
    ensures sd + x * sy == a * t
  {
    assert x * (a * y) == a * (x * y);
  }

  /** One step of ScaledDot: a scaled prefix sum plus one product with a
      scaled left factor. */
  lemma ScaledStepLeft(a: real, d: real, sd: real, x: real, y: real, sx: real, t: real)
    requires sd == a * d && sx == a * x && t == d + x * y
    ensures sd + sx * y == a * t
  {
    assert (a * x) * y == a * (x * y);
  }

  lemma {:induction false} DotComm(u: Vec, v: Vec)
    requires |u| == |v|
    ensures Dot(u, v) == Dot(v, u)
  {
    if |u| > 0 {
      DotComm(u[..|u| - 1], v[..|v| - 1]);
    }
  }

  lemma {:induction false} DotZero(u: Vec, v: Vec)
    requires |u| == |v| && IsZero(v)
    ensures Dot(u, v) == 0.0
  {
    if |u| > 0 {
      DotZero(u[..|u| - 1], v[..|v| - 1]);
    }
  }

  /** A vector whose squared length is zero is the zero vector. */
  lemma {:induction false} DotSelfZero(v: Vec)
    requires Dot(v, v) == 0.0
    ensures IsZero(v)
  {
    if |v| > 0 {
      var k := |v| - 1;
      DotSelfNonNegative(v[..k]);
      SquareNonNegative(v[k]);
      assert Mul(v[k], v[k]) == 0.0;
      SquareZero(v[k]);
      DotSelfZero(v[..k]);
      forall i | 0 <= i < |v| ensures v[i] == 0.0 {
        if i < k { assert v[..k][i] == v[i]; }
      }
    }
  }

  lemma {:induction false} DotSelfNonNegative(v: Vec)
    ensures Dot(v, v) >= 0.0
  {
    if |v| > 0 {
      DotSelfNonNegative(v[..|v| - 1]);
      SquareNonNegative(v[|v| - 1]);
    }
  }

  /** Real multiplication behind a name, so that squares are not rewritten
      by the solver before the sign facts below are applied. */
  function Mul(a: real, b: real): real { a * b }

  lemma MulPositive(a: real, b: real)
    requires a > 0.0 && b > 0.0
    ensures Mul(a, b) > 0.0
  {
  }

  lemma SquareNonNegative(x: real)
    ensures Mul(x, x) >= 0.0
  {
    if x > 0.0 {
      MulPositive(x, x);
    } else if x < 0.0 {
      MulPositive(-x, -x);
      assert Mul(-x, -x) == Mul(x, x);
    }
  }

  lemma SquareZero(x: real)
    ensures Mul(x, x) == 0.0 ==> x == 0.0
  {
    if x > 0.0 {
      MulPositive(x, x);
    } else if x < 0.0 {
      MulPositive(-x, -x);
      assert Mul(-x, -x) == Mul(x, x);
    }
  }

  /** `A (x + a p) = A x + a (A p)`: the sparse product is linear. */
  lemma MatVecAxpy(A: Mat, x: Vec, a: real, p: Vec)
    requires |x| == |p|
    requires forall i :: 0 <= i < |A| ==> |A[i]| == |x|
    ensures MatVec(A, Add(x, Scale(a, p))) == Add(MatVec(A, x), Scale(a, MatVec(A, p)))
  {
    forall i | 0 <= i < |A|
      ensures MatVec(A, Add(x, Scale(a, p)))[i] == Add(MatVec(A, x), Scale(a, MatVec(A, p)))[i]
    {
      DotAdd(A[i], x, Scale(a, p));
      DotScale(A[i], a, p);
    }
  }

  lemma MatVecZero(A: Mat, x: Vec)
    requires forall i :: 0 <= i < |A| ==> |A[i]| == |x|
    requires IsZero(x)
    ensures IsZero(MatVec(A, x))
  {
    forall i | 0 <= i < |A| ensures MatVec(A, x)[i] == 0.0 {
      DotZero(A[i], x);
    }
  }

  // ------------------------------------------------------ integer division

  lemma MulBounds(d: int, k: int)
    requires d > 0
    ensures k >= 1 ==> d * k >= d
    ensures k <= -1 ==> d * k <= -d
  {
  }

  /** Dividing `q * d + r` by `d` gives back `q` and `r` when `0 <= r < d`. */
  lemma DivModUnique(q: int, r: int, d: int)
    requires d > 0 && 0 <= r < d
    ensures (q * d + r) / d == q && (q * d + r) % d == r
  {
    var x := q * d + r;
    var k := q - x / d;
    assert d * k == x % d - r;
    MulBounds(d, k);
  }

  lemma MulMonotone(a: int, b: int, d: nat)
    ensures a <= b ==> a * d <= b * d
  {
    if a <= b {
      assert b * d - a * d == (b - a) * d;
    }
  }

  lemma RealMulNonneg(a: real, b: real)
    ensures a >= 0.0 && b >= 0.0 ==> a * b >= 0.0
  {
  }
}
