/** The MKL-backed solvers of Crane/native/cgnr_mkl/src/cgnr_mkl.cpp:
    `cgnr_solve_csr_double` (CGNR for a rectangular least-squares system) and
    `cg_solve_csr_double` (CG for a symmetric system).

    The matrix is the dense reading of the caller's CSR arrays. The foreign
    calls are inputs: whether the sparse handle is created, which work
    vectors `mkl_malloc` returns, and whether each sparse product succeeds.
    `sqrt` is the C library square root, left uninterpreted. Arithmetic is
    exact; an unguarded division by zero ends the model with `ZeroDivisor`,
    because from there the C code computes with IEEE infinities and NaNs. */
module CgnrMkl {
  import opened Common
  import opened Krylov

  const OK: int := 0
  const ERR_MKL: int := -1
  const ERR_ALLOC: int := -2
  const NO_CONV: int := 1

  /** The norm used to scale the stopping test: a zero norm is replaced by 1. */
  function NormOrOne(v: real): (r: real)
    ensures r != 0.0
    ensures v != 0.0 ==> r == v
  {
    if v == 0.0 then 1.0 else v
  }

  /** The stopping test of both MKL solvers: relative residual below `tol`. */
  predicate RelativeTest(sqrt: real -> real, r: Vec, bNorm: real, tol: real)
    requires bNorm != 0.0
  {
    sqrt(Dot(r, r)) / bNorm < tol
  }

  // ------------------------------------------------------------------
  // cgnr_solve_csr_double
  // ------------------------------------------------------------------

  /** The `for(k...)` loop of cgnr_solve_csr_double, from counter `k`.
      Returns the final iterate, the exit taken and the counter as the
      loop leaves it. */
  function CgnrLoop(A: Mat, n: nat, b: Vec, bNorm: real, tol: real, maxIter: int,
                    spmvOk: nat -> bool, sqrt: real -> real, s: CgnrState, k: int)
    : (res: (Vec, Exit, int))
    requires CgnrInv(A, n, b, s) && bNorm != 0.0 && 0 <= k
    ensures |res.0| == n
    ensures res.1 in {Converged, Breakdown, KernelFailure, Exhausted}
    ensures res.1 == Converged ==>
              k < res.2 <= maxIter && RelativeTest(sqrt, Residual(A, b, res.0), bNorm, tol)
    ensures res.1 == Breakdown || res.1 == KernelFailure ==> res.2 == -ERR_MKL
    ensures res.1 == Exhausted ==> res.2 == (if k < maxIter then maxIter else k)
    decreases maxIter - k
  {
    if k >= maxIter then (s.x, Exhausted, k)
    else if !spmvOk(s.calls) then (s.x, KernelFailure, -ERR_MKL)
    else
      var q := MatVec(A, s.p);
      var denom := Dot(q, q);
      if denom == 0.0 then (s.x, Breakdown, -ERR_MKL)
      else
        var alpha := s.rho / denom;
        var x := Add(s.x, Scale(alpha, s.p));
        var r := Sub(s.r, Scale(alpha, q));
        ResidualStep(A, b, s.x, alpha, s.p);
        if RelativeTest(sqrt, r, bNorm, tol) then (x, Converged, k + 1)
        else if !spmvOk(s.calls + 1) then (x, KernelFailure, -ERR_MKL)
        else
          CgnrRhoNonZero(A, n, b, s);
          var z := MatTVec(A, n, r);
          var beta := Dot(z, z) / s.rho;
          var next := CgnrState(x, r, z, Add(z, Scale(beta, s.p)), Dot(z, z), s.calls + 2);
          CgnrNextInv(A, n, b, s, alpha);
          CgnrLoop(A, n, b, bNorm, tol, maxIter, spmvOk, sqrt, next, k + 1)
  }

  /** How cgnr_solve_csr_double can end: before its loop with a code, or
      after it with the final iterate, the exit and the loop counter. */
  datatype CgnrRun = Early(rc: int, x: Vec, held: set<Resource>) | Ran(x: Vec, exit: Exit, k: int)

  function AllWork(): set<Resource> { {WorkR, WorkZ, WorkP, WorkQ} }

  /** Everything cgnr_solve_csr_double does up to the status mapping.
      `anyNull` says that one of the seven pointer arguments is null. */
  function CgnrRunOf(m: int, n: int, A: Mat, b: Vec, x0: Vec, anyNull: bool, maxIter: int,
                     tol: real, be: Backend, sqrt: real -> real): (run: CgnrRun)
    requires m > 0 && n > 0 && !anyNull ==> IsMat(A, m, n) && |b| == m && |x0| == n
    ensures run.Early? ==> run.held == {}
    ensures |x0| == n ==> |run.x| == n
    ensures run.Ran? ==> m > 0 && n > 0 && !anyNull && |run.x| == n
    ensures run.Ran? ==> run.exit != ZeroDivisor
    ensures run.Ran? && run.exit == Converged ==>
              1 <= run.k <= maxIter
              && RelativeTest(sqrt, Residual(A, b, run.x), NormOrOne(sqrt(Dot(b, b))), tol)
    ensures run.Ran? && run.exit in {Breakdown, KernelFailure} ==> run.k == 1
    ensures run.Ran? && run.exit == Exhausted ==> run.k == (if maxIter > 0 then maxIter else 0)
  {
    if m <= 0 || n <= 0 || anyNull then Early(ERR_ALLOC, x0, {})
    else if !be.handleOk then Early(ERR_MKL, x0, {})
    else
      var held := {Handle} + Obtained(be, AllWork());
      if Obtained(be, AllWork()) != AllWork() then
        Early(ERR_ALLOC, x0, held - AllWork() - {Handle})
      else
        var x := Zeros(n);
        var r := b;
        if !be.spmvOk(0) then Early(ERR_MKL, x, held - AllWork() - {Handle})
        else
          var z := MatTVec(A, n, r);
          var bNorm := NormOrOne(sqrt(Dot(b, b)));
          MatVecZero(A, x);
          assert r == Residual(A, b, x);
          assert Dot(z, z) == 0.0 ==> IsZero(z) by {
            if Dot(z, z) == 0.0 { DotSelfZero(z); }
          }
          var res := CgnrLoop(A, n, b, bNorm, tol, maxIter, be.spmvOk, sqrt,
                              CgnrState(x, r, z, z, Dot(z, z), 1), 0);
          Ran(res.0, res.1, res.2)
  }

  /** The status line of cgnr_solve_csr_double exactly as written:
      NO_CONV only for a counter outside `1..maxIter`. */
  function CgnrStatusAsWritten(k: int, maxIter: int): int
  {
    if k <= 0 || k > maxIter then NO_CONV else OK
  }

  /** The status the header promises: OK only on convergence, NO_CONV when
      the iteration budget runs out, ERR_MKL on breakdown or kernel failure. */
  function CgnrStatusCorrected(exit: Exit): int
  {
    match exit
    case Converged => OK
    case Exhausted => NO_CONV
    case _ => ERR_MKL
  }

  /** cgnr_solve_csr_double as written. */
  function CgnrSolve(m: int, n: int, A: Mat, b: Vec, x0: Vec, anyNull: bool, maxIter: int,
                     tol: real, be: Backend, sqrt: real -> real): (out: Outcome)
    requires m > 0 && n > 0 && !anyNull ==> IsMat(A, m, n) && |b| == m && |x0| == n
    ensures out.held == {} && out.rc.Some?
    ensures out.exit.Some? ==> m > 0 && n > 0 && !anyNull && |out.x| == n
    ensures |x0| == n ==> |out.x| == n
    ensures m <= 0 || n <= 0 || anyNull ==> out.rc == Some(ERR_ALLOC) && out.x == x0 && out.exit == None
    ensures m > 0 && n > 0 && !anyNull && !be.handleOk ==> out.rc == Some(ERR_MKL) && out.x == x0
    ensures m > 0 && n > 0 && !anyNull && be.handleOk && Obtained(be, AllWork()) != AllWork() ==>
              out.rc == Some(ERR_ALLOC) && out.exit == None
    ensures out.exit.Some? ==> (out.rc == Some(OK) <==> maxIter >= 1)
    ensures out.exit == Some(Converged) ==>
              RelativeTest(sqrt, Residual(A, b, out.x), NormOrOne(sqrt(Dot(b, b))), tol)
  {
    match CgnrRunOf(m, n, A, b, x0, anyNull, maxIter, tol, be, sqrt)
    case Early(rc, x, held) => Outcome(Some(rc), x, held, None)
    case Ran(x, exit, k) => Outcome(Some(CgnrStatusAsWritten(k, maxIter)), x, {}, Some(exit))
  }

  /** cgnr_solve_csr_double with the status line corrected. */
  function CgnrSolveCorrected(m: int, n: int, A: Mat, b: Vec, x0: Vec, anyNull: bool, maxIter: int,
                              tol: real, be: Backend, sqrt: real -> real): (out: Outcome)
    requires m > 0 && n > 0 && !anyNull ==> IsMat(A, m, n) && |b| == m && |x0| == n
    ensures out.held == {} && out.rc.Some?
    ensures out.exit.Some? ==> m > 0 && n > 0 && !anyNull && |out.x| == n
    ensures out.exit.Some? ==> (out.rc == Some(OK) <==> out.exit == Some(Converged))
    ensures out.rc == Some(OK) && out.exit.Some? ==>
              out.exit == Some(Converged)
              && RelativeTest(sqrt, Residual(A, b, out.x), NormOrOne(sqrt(Dot(b, b))), tol)
  {
    match CgnrRunOf(m, n, A, b, x0, anyNull, maxIter, tol, be, sqrt)
    case Early(rc, x, held) => Outcome(Some(rc), x, held, None)
    case Ran(x, exit, k) => Outcome(Some(CgnrStatusCorrected(exit)), x, {}, Some(exit))
  }

  /** The caller's initial `x` is ignored once the work vectors exist: the
      buffer is zeroed before the first step. */
  lemma CgnrIgnoresInitialGuess(m: int, n: int, A: Mat, b: Vec, x0: Vec, x1: Vec, maxIter: int,
                                tol: real, be: Backend, sqrt: real -> real)
    requires m > 0 && n > 0 && IsMat(A, m, n) && |b| == m && |x0| == n && |x1| == n
    requires be.handleOk && Obtained(be, AllWork()) == AllWork()
    ensures CgnrSolve(m, n, A, b, x0, false, maxIter, tol, be, sqrt)
            == CgnrSolve(m, n, A, b, x1, false, maxIter, tol, be, sqrt)
  {
  }

  /** Breakdown reported as success: for the zero 1x1 matrix the first
      denominator `q.q` is 0, yet the call returns OK. */
  lemma CgnrBreakdownReportedOk()
    ensures CgnrSolve(1, 1, [[0.0]], [1.0], [0.0], false, 5, 0.5, Healthy(), (s: real) => s)
            == Outcome(Some(OK), [0.0], {}, Some(Breakdown))
  {
    var A: Mat := [[0.0]];
    assert Obtained(Healthy(), AllWork()) == AllWork();
    assert MatTVec(A, 1, [1.0]) == [0.0] by { assert Column(A, 0) == [0.0]; }
    assert MatVec(A, [0.0]) == [0.0];
  }

  /** The same input under the corrected status line reports the breakdown. */
  lemma CgnrBreakdownReportedCorrected()
    ensures CgnrSolveCorrected(1, 1, [[0.0]], [1.0], [0.0], false, 5, 0.5, Healthy(), (s: real) => s).rc
            == Some(ERR_MKL)
  {
    var A: Mat := [[0.0]];
    assert Obtained(Healthy(), AllWork()) == AllWork();
    assert MatTVec(A, 1, [1.0]) == [0.0] by { assert Column(A, 0) == [0.0]; }
    assert MatVec(A, [0.0]) == [0.0];
  }

  // ------------------------------------------------------------------
  // cg_solve_csr_double
  // ------------------------------------------------------------------

  /** The matrix the vendor multiplies by under the symmetric, upper-fill
      descriptor: the upper triangle of `A` mirrored below the diagonal.
      The entries stored below the diagonal are never read. */
  function UpperSymmetric(A: Mat, n: nat): (S: Mat)
    requires IsMat(A, n, n)
    ensures IsMat(S, n, n)
    ensures forall i, j :: 0 <= i < n && 0 <= j < n ==> S[i][j] == if i <= j then A[i][j] else A[j][i]
  {
    seq(n, i requires 0 <= i < n => seq(n, j requires 0 <= j < n => if i <= j then A[i][j] else A[j][i]))
  }

  /** The completed matrix is symmetric, and it is `A` itself exactly when
      `A` is symmetric. */
  lemma UpperSymmetricIffSymmetric(A: Mat, n: nat)
    requires IsMat(A, n, n)
    ensures Symmetric(UpperSymmetric(A, n), n)
    ensures UpperSymmetric(A, n) == A <==> Symmetric(A, n)
  {
    var S := UpperSymmetric(A, n);
    if Symmetric(A, n) {
      SameEntries(S, A, n, n);
    }
  }

  /** The `for(k...)` loop of cg_solve_csr_double. The sparse product's
      status is ignored by the source, so it is taken to succeed. */
  function CgLoop(A: Mat, b: Vec, bNorm: real, tol: real, maxIter: int, sqrt: real -> real,
                  s: CgState, k: int): (res: (Vec, Exit))
    requires CgInv(A, b, s) && bNorm != 0.0
    ensures |res.0| == |b|
    ensures res.1 in {Converged, Exhausted, ZeroDivisor}
    ensures res.1 == Converged ==> k < maxIter && RelativeTest(sqrt, Residual(A, b, res.0), bNorm, tol)
    decreases maxIter - k
  {
    if k >= maxIter then (s.x, Exhausted)
    else
      var Ap := MatVec(A, s.p);
      var pAp := Dot(s.p, Ap);
      if pAp == 0.0 then (s.x, ZeroDivisor)
      else
        var alpha := s.rs / pAp;
        var x := Add(s.x, Scale(alpha, s.p));
        var r := Sub(s.r, Scale(alpha, Ap));
        assert r == Residual(A, b, x) by { ResidualStep(A, b, s.x, alpha, s.p); }
        var rsNew := Dot(r, r);
        if RelativeTest(sqrt, r, bNorm, tol) then (x, Converged)
        else if s.rs == 0.0 then (x, ZeroDivisor)
        else
          var beta := rsNew / s.rs;
          CgLoop(A, b, bNorm, tol, maxIter, sqrt, CgState(x, r, Add(r, Scale(beta, s.p)), rsNew), k + 1)
  }

  /** cg_solve_csr_double: -1 for bad arguments, -2 when the handle cannot
      be created, -3 when a work vector cannot be allocated (the vectors
      already obtained are not freed), 0 on convergence, 1 otherwise. The
      iteration multiplies by the upper triangle of `A` completed
      symmetrically. */
  function CgSolve(n: int, A: Mat, b: Vec, x0: Vec, anyNull: bool, maxIter: int, tol: real,
                   be: Backend, sqrt: real -> real): (out: Outcome)
    requires n > 0 && !anyNull ==> IsMat(A, n, n) && |b| == n && |x0| == n
    ensures n <= 0 || anyNull ==> out == Outcome(Some(-1), x0, {}, None)
    ensures n > 0 && !anyNull && !be.handleOk ==> out == Outcome(Some(-2), x0, {}, None)
    ensures out.rc == Some(-3) <==>
              n > 0 && !anyNull && be.handleOk && Obtained(be, {WorkR, WorkP, WorkAp}) != {WorkR, WorkP, WorkAp}
    ensures out.rc == Some(-3) ==> out.held == Obtained(be, {WorkR, WorkP, WorkAp})
    ensures out.rc != Some(-3) ==> out.held == {}
    ensures out.rc == Some(0) <==> out.exit == Some(Converged)
    ensures out.rc == Some(1) <==> out.exit == Some(Exhausted)
    ensures out.rc == None <==> out.exit == Some(ZeroDivisor)
    ensures out.exit.Some? ==> n > 0 && !anyNull && |out.x| == n
    ensures |x0| == n ==> |out.x| == n
    ensures out.exit == Some(Converged) ==>
              RelativeTest(sqrt, Residual(UpperSymmetric(A, n), b, out.x), NormOrOne(sqrt(Dot(b, b))), tol)
  {
    if n <= 0 || anyNull then Outcome(Some(-1), x0, {}, None)
    else if !be.handleOk then Outcome(Some(-2), x0, {}, None)
    else
      var work := {WorkR, WorkP, WorkAp};
      var held := {Handle} + Obtained(be, work);
      if Obtained(be, work) != work then Outcome(Some(-3), x0, held - {Handle}, None)
      else
        var x := Zeros(n);
        var S := UpperSymmetric(A, n);
        var bNorm := NormOrOne(sqrt(Dot(b, b)));
        MatVecZero(S, x);
        assert b == Residual(S, b, x);
        var res := CgLoop(S, b, bNorm, tol, maxIter, sqrt, CgState(x, b, b, Dot(b, b)), 0);
        var rc := match res.1
          case Converged => Some(0)
          case Exhausted => Some(1)
          case _ => None;
        Outcome(rc, res.0, held - work - {Handle}, Some(res.1))
  }

  /** A zero right-hand side is not treated as solved: the first step of
      cg_solve_csr_double divides by `p.Ap = 0`. */
  lemma CgZeroRightHandSideDividesByZero(n: nat, A: Mat, x0: Vec, maxIter: int, tol: real,
                                         sqrt: real -> real)
    requires n > 0 && IsMat(A, n, n) && |x0| == n && maxIter >= 1
    ensures CgSolve(n, A, Zeros(n), x0, false, maxIter, tol, Healthy(), sqrt).exit == Some(ZeroDivisor)
  {
    var z := Zeros(n);
    MatVecZero(UpperSymmetric(A, n), z);
    DotZero(z, MatVec(UpperSymmetric(A, n), z));
    DotZero(z, z);
    assert Obtained(Healthy(), {WorkR, WorkP, WorkAp}) == {WorkR, WorkP, WorkAp};
  }
}
