/** The ArmPL builds of the native solvers, Crane/native/cgnr_armpl/src:
    `cgnr_solve_lp64` (cgnr_solver.c) and `cg_solve_lp64` (cg_solver.c).

    Unlike the MKL build they start from the caller's `x`, stop on the
    absolute norm of the (normal) residual, ignore the status of every
    sparse product, and return the iteration count on success. Work vectors
    come from `calloc` one after another; when one is refused the call
    returns -1 at once, keeping the handle and the vectors already obtained. */
module CgnrArmpl {
  import opened Common
  import opened Krylov

  const ERR_CREATE: int := -1
  const NO_CONV: int := -2
  const BREAKDOWN: int := -3

  /** How a call can end: before its loop with a code and the resources it
      still holds, or after the loop with the iterate, the exit and the
      loop counter. */
  datatype Run = Early(rc: int, x: Vec, held: set<Resource>) | Ran(x: Vec, exit: Exit, k: int)

  /** The number of leading work vectors, in allocation order, that the
      allocator grants. */
  function Granted(order: seq<Resource>, be: Backend): (g: nat)
    ensures g <= |order|
    ensures forall i :: 0 <= i < g ==> be.allocOk(order[i])
    ensures g < |order| ==> !be.allocOk(order[g])
  {
    if |order| == 0 || !be.allocOk(order[0]) then 0
    else 1 + Granted(order[1..], be)
  }

  /** The resources an early `return -1` leaves behind: the handle and the
      first `g` vectors. */
  function Leaked(order: seq<Resource>, g: nat): (held: set<Resource>)
    requires g <= |order|
    ensures Handle in held
    ensures forall i :: 0 <= i < g ==> order[i] in held
    ensures forall w :: w in held && w != Handle ==> exists i :: 0 <= i < g && order[i] == w
  {
    {Handle} + set i | 0 <= i < g :: order[i]
  }

  // ------------------------------------------------------------------
  // cgnr_solve_lp64
  // ------------------------------------------------------------------

  /** The `for(; iter < maxit && sqrt(rho) > tol; ++iter)` loop. */
  function CgnrLoop(A: Mat, n: nat, b: Vec, tol: real, maxIter: int, sqrt: real -> real,
                    s: CgnrState, iter: int): (res: (Vec, Exit, int))
    requires CgnrInv(A, n, b, s) && 0 <= iter
    ensures |res.0| == n
    ensures res.1 in {Converged, Breakdown, Exhausted}
    ensures res.1 == Converged ==>
              iter <= res.2 <= maxIter
              && var z := MatTVec(A, n, Residual(A, b, res.0)); sqrt(Dot(z, z)) <= tol
    ensures res.1 == Breakdown ==> res.2 == BREAKDOWN && iter < maxIter
    ensures res.1 == Exhausted ==> res.2 == (if iter < maxIter then maxIter else iter)
    decreases maxIter - iter
  {
    if !(iter < maxIter && sqrt(s.rho) > tol) then
      (s.x, if iter < maxIter then Converged else Exhausted, iter)
    else
      var q := MatVec(A, s.p);
      var denom := Dot(q, q);
      if denom == 0.0 then (s.x, Breakdown, BREAKDOWN)
      else
        var alpha := s.rho / denom;
        var x := Add(s.x, Scale(alpha, s.p));
        var r := Sub(s.r, Scale(alpha, q));
        ResidualStep(A, b, s.x, alpha, s.p);
        var z := MatTVec(A, n, r);
        if sqrt(Dot(z, z)) <= tol then (x, Converged, iter + 1)
        else
          CgnrRhoNonZero(A, n, b, s);
          var beta := Dot(z, z) / s.rho;
          CgnrNextInv(A, n, b, s, alpha);
          CgnrLoop(A, n, b, tol, maxIter, sqrt,
                   CgnrState(x, r, z, Add(z, Scale(beta, s.p)), Dot(z, z), s.calls + 2), iter + 1)
  }

  /** The allocation order of cgnr_solve_lp64: r, p, q, then `At` (the
      normal residual). */
  function CgnrOrder(): seq<Resource> { [WorkR, WorkP, WorkQ, WorkZ] }

  /** cgnr_solve_lp64 up to its status lines. */
  function CgnrRunOf(m: nat, n: nat, A: Mat, b: Vec, x0: Vec, maxIter: int, tol: real,
                     be: Backend, sqrt: real -> real): (run: Run)
    requires IsMat(A, m, n) && |b| == m && |x0| == n
    ensures !be.handleOk ==> run == Early(ERR_CREATE, x0, {})
    ensures be.handleOk && Granted(CgnrOrder(), be) < 4 ==>
              run == Early(ERR_CREATE, x0, Leaked(CgnrOrder(), Granted(CgnrOrder(), be)))
    ensures run.Ran? ==> |run.x| == n && run.exit in {Converged, Breakdown, Exhausted}
    ensures run.Ran? && run.exit == Converged ==>
              0 <= run.k <= maxIter
              && var z := MatTVec(A, n, Residual(A, b, run.x)); sqrt(Dot(z, z)) <= tol
    ensures run.Ran? && run.exit == Breakdown ==> run.k == BREAKDOWN && maxIter > 0
    ensures run.Ran? && run.exit == Exhausted ==> run.k == (if maxIter > 0 then maxIter else 0)
  {
    if !be.handleOk then Early(ERR_CREATE, x0, {})
    else if Granted(CgnrOrder(), be) < 4 then
      Early(ERR_CREATE, x0, Leaked(CgnrOrder(), Granted(CgnrOrder(), be)))
    else
      var r := Residual(A, b, x0);
      var z := MatTVec(A, n, r);
      assert Dot(z, z) == 0.0 ==> IsZero(z) by {
        if Dot(z, z) == 0.0 { DotSelfZero(z); }
      }
      var res := CgnrLoop(A, n, b, tol, maxIter, sqrt, CgnrState(x0, r, z, z, Dot(z, z), 0), 0);
      Ran(res.0, res.1, res.2)
  }

  /** The status lines of cgnr_solve_lp64 as written. */
  function StatusAsWritten(iter: int, maxIter: int): int
  {
    if iter >= maxIter then NO_CONV else if iter < 0 then BREAKDOWN else iter
  }

  /** The status the header promises: the iteration count on convergence,
      -2 when the budget runs out, -3 on breakdown. */
  function StatusCorrected(exit: Exit, iter: int): int
  {
    match exit
    case Converged => iter
    case Exhausted => NO_CONV
    case _ => BREAKDOWN
  }

  /** cgnr_solve_lp64 as written. A non-negative code is a convergence, but
      a convergence may be reported as -2. */
  function CgnrSolve(m: nat, n: nat, A: Mat, b: Vec, x0: Vec, maxIter: int, tol: real,
                     be: Backend, sqrt: real -> real): (out: Outcome)
    requires IsMat(A, m, n) && |b| == m && |x0| == n
    ensures out.rc.Some? && |out.x| == n
    ensures out.rc == Some(ERR_CREATE) <==> out.exit == None
    ensures out.exit.Some? ==> out.held == {}
    ensures out.rc.value >= 0 ==>
              out.exit == Some(Converged) && out.rc.value < maxIter
              && var z := MatTVec(A, n, Residual(A, b, out.x)); sqrt(Dot(z, z)) <= tol
    ensures out.exit == Some(Exhausted) ==> out.rc == Some(NO_CONV)
    ensures out.exit == Some(Breakdown) ==> out.rc == Some(BREAKDOWN)
  {
    match CgnrRunOf(m, n, A, b, x0, maxIter, tol, be, sqrt)
    case Early(rc, x, held) => Outcome(Some(rc), x, held, None)
    case Ran(x, exit, k) => Outcome(Some(StatusAsWritten(k, maxIter)), x, {}, Some(exit))
  }

  /** cgnr_solve_lp64 with the status corrected: a code is non-negative
      exactly when the loop converged, and then it counts the iterations. */
  function CgnrSolveCorrected(m: nat, n: nat, A: Mat, b: Vec, x0: Vec, maxIter: int, tol: real,
                              be: Backend, sqrt: real -> real): (out: Outcome)
    requires IsMat(A, m, n) && |b| == m && |x0| == n
    ensures out.rc.Some? && |out.x| == n
    ensures out.exit.Some? ==> out.held == {}
    ensures out.exit.Some? ==> (out.rc.value >= 0 <==> out.exit == Some(Converged))
    ensures out.exit == Some(Converged) ==>
              out.rc.value <= maxIter
              && var z := MatTVec(A, n, Residual(A, b, out.x)); sqrt(Dot(z, z)) <= tol
  {
    match CgnrRunOf(m, n, A, b, x0, maxIter, tol, be, sqrt)
    case Early(rc, x, held) => Outcome(Some(rc), x, held, None)
    case Ran(x, exit, k) => Outcome(Some(StatusCorrected(exit, k)), x, {}, Some(exit))
  }

  /** For `A = [1]`, `b = [1]`, `x = [0]` the run takes one step, lands on
      the exact solution and leaves the loop with counter 1. */
  lemma CgnrOneStepSolves(sqrt: real -> real)
    requires sqrt(0.0) == 0.0 && sqrt(1.0) == 1.0
    ensures CgnrRunOf(1, 1, [[1.0]], [1.0], [0.0], 1, 0.5, Healthy(), sqrt) == Ran([1.0], Converged, 1)
  {
    var A: Mat := [[1.0]];
    assert Granted(CgnrOrder(), Healthy()) == 4;
    assert Column(A, 0) == [1.0];
    assert Residual(A, [1.0], [0.0]) == [1.0];
    assert MatTVec(A, 1, [1.0]) == [1.0];
    CgnrOneStepLoop(sqrt);
  }

  lemma CgnrOneStepLoop(sqrt: real -> real)
    requires sqrt(0.0) == 0.0 && sqrt(1.0) == 1.0
    ensures CgnrInv([[1.0]], 1, [1.0], CgnrState([0.0], [1.0], [1.0], [1.0], 1.0, 0))
    ensures CgnrLoop([[1.0]], 1, [1.0], 0.5, 1, sqrt, CgnrState([0.0], [1.0], [1.0], [1.0], 1.0, 0), 0)
            == ([1.0], Converged, 1)
  {
    var A: Mat := [[1.0]];
    assert Column(A, 0) == [1.0];
    assert Residual(A, [1.0], [0.0]) == [1.0];
    assert MatTVec(A, 1, [1.0]) == [1.0];
    assert MatVec(A, [1.0]) == [1.0];
    assert Dot([1.0], [1.0]) == 1.0;
    assert Add([0.0], Scale(1.0, [1.0])) == [1.0];
    assert Sub([1.0], Scale(1.0, [1.0])) == [0.0];
    assert MatTVec(A, 1, [0.0]) == [0.0];
    assert Dot([0.0], [0.0]) == 0.0;
  }

  /** Convergence on the last permitted iteration is reported as -2: for
      `A = [1]`, `b = [1]`, `x = [0]` and one iteration, the first step
      solves the system exactly, yet the call reports no convergence. */
  lemma CgnrLastIterationReportedAsNoConvergence(sqrt: real -> real)
    requires sqrt(0.0) == 0.0 && sqrt(1.0) == 1.0
    ensures CgnrSolve(1, 1, [[1.0]], [1.0], [0.0], 1, 0.5, Healthy(), sqrt)
            == Outcome(Some(NO_CONV), [1.0], {}, Some(Converged))
  {
    CgnrOneStepSolves(sqrt);
  }

  /** Under the corrected status the same run reports one iteration. */
  lemma CgnrLastIterationCorrected(sqrt: real -> real)
    requires sqrt(0.0) == 0.0 && sqrt(1.0) == 1.0
    ensures CgnrSolveCorrected(1, 1, [[1.0]], [1.0], [0.0], 1, 0.5, Healthy(), sqrt).rc == Some(1)
  {
    CgnrOneStepSolves(sqrt);
  }

  // ------------------------------------------------------------------
  // cg_solve_lp64
  // ------------------------------------------------------------------

  /** The starting state of cg_solve_lp64: the residual is `b - A x0`, but
      the first direction is a copy of `b` taken before `A x0` is
      subtracted. */
  function CgStart(A: Mat, b: Vec, x0: Vec): (s: CgState)
    requires IsMat(A, |b|, |b|) && |x0| == |b|
    ensures CgInv(A, b, s) && s.x == x0 && s.p == b
  {
    var r := Residual(A, b, x0);
    CgState(x0, r, b, Dot(r, r))
  }

  /** The first direction equals the first residual exactly when `A x0`
      is zero, as for the zero start the code's comment assumes. */
  lemma CgStartDirection(A: Mat, b: Vec, x0: Vec)
    requires IsMat(A, |b|, |b|) && |x0| == |b|
    ensures CgStart(A, b, x0).p == CgStart(A, b, x0).r <==> IsZero(MatVec(A, x0))
  {
    var y := MatVec(A, x0);
    if Sub(b, y) == b {
      forall i | 0 <= i < |y| ensures y[i] == 0.0 {
        assert Sub(b, y)[i] == b[i];
      }
    }
    if IsZero(y) {
      assert Sub(b, y) == b;
    }
  }

  /** The `for(; k < maxit && sqrt(rsold) > tol; ++k)` loop. */
  function CgLoop(A: Mat, b: Vec, tol: real, maxIter: int, sqrt: real -> real, s: CgState, k: int)
    : (res: (Vec, Exit, int))
    requires CgInv(A, b, s) && 0 <= k
    ensures |res.0| == |b|
    ensures res.1 in {Converged, Exhausted, ZeroDivisor}
    ensures res.1 == Converged ==>
              k <= res.2 <= maxIter
              && var r := Residual(A, b, res.0); sqrt(Dot(r, r)) <= tol
    ensures res.1 == Exhausted ==> res.2 == (if k < maxIter then maxIter else k)
    decreases maxIter - k
  {
    if !(k < maxIter && sqrt(s.rs) > tol) then
      (s.x, if k < maxIter then Converged else Exhausted, k)
    else
      var Ap := MatVec(A, s.p);
      var pAp := Dot(s.p, Ap);
      if pAp == 0.0 then (s.x, ZeroDivisor, k)
      else
        var alpha := s.rs / pAp;
        var x := Add(s.x, Scale(alpha, s.p));
        var r := Sub(s.r, Scale(alpha, Ap));
        ResidualStep(A, b, s.x, alpha, s.p);
        if sqrt(Dot(r, r)) <= tol then (x, Converged, k + 1)
        else if s.rs == 0.0 then (x, ZeroDivisor, k)
        else
          var beta := Dot(r, r) / s.rs;
          CgLoop(A, b, tol, maxIter, sqrt, CgState(x, r, Add(r, Scale(beta, s.p)), Dot(r, r)), k + 1)
  }

  /** cg_solve_lp64 as written: -1 when the handle or a work vector is
      refused, -2 when the counter reached `maxit`, otherwise the counter. */
  function CgSolve(n: nat, A: Mat, b: Vec, x0: Vec, maxIter: int, tol: real,
                   be: Backend, sqrt: real -> real): (out: Outcome)
    requires IsMat(A, n, n) && |b| == n && |x0| == n
    ensures |out.x| == n
    ensures !be.handleOk ==> out == Outcome(Some(ERR_CREATE), x0, {}, None)
    ensures be.handleOk && Granted([WorkR, WorkP, WorkAp], be) < 3 ==>
              out == Outcome(Some(ERR_CREATE), x0,
                             Leaked([WorkR, WorkP, WorkAp], Granted([WorkR, WorkP, WorkAp], be)), None)
    ensures out.rc == None <==> out.exit == Some(ZeroDivisor)
    ensures out.exit.Some? ==> out.held == {}
    ensures out.rc.Some? && out.rc.value >= 0 ==>
              out.exit == Some(Converged) && out.rc.value < maxIter
              && var r := Residual(A, b, out.x); sqrt(Dot(r, r)) <= tol
    ensures out.exit == Some(Exhausted) ==> out.rc == Some(NO_CONV)
    ensures out.rc != Some(-3)
  {
    var order := [WorkR, WorkP, WorkAp];
    if !be.handleOk then Outcome(Some(ERR_CREATE), x0, {}, None)
    else if Granted(order, be) < 3 then
      Outcome(Some(ERR_CREATE), x0, Leaked(order, Granted(order, be)), None)
    else
      var res := CgLoop(A, b, tol, maxIter, sqrt, CgStart(A, b, x0), 0);
      var rc := if res.1 == ZeroDivisor then None
                else if res.2 >= maxIter then Some(NO_CONV) else Some(res.2);
      Outcome(rc, res.0, {}, Some(res.1))
  }

  /** cg_solve_lp64 with the status corrected: a convergence reports its
      iteration count even when it happens on the last permitted step. */
  function CgSolveCorrected(n: nat, A: Mat, b: Vec, x0: Vec, maxIter: int, tol: real,
                            be: Backend, sqrt: real -> real): (out: Outcome)
    requires IsMat(A, n, n) && |b| == n && |x0| == n
    ensures |out.x| == n
    ensures out.rc == None <==> out.exit == Some(ZeroDivisor)
    ensures out.exit.Some? && out.rc.Some? ==> (out.rc.value >= 0 <==> out.exit == Some(Converged))
    ensures out.exit == Some(Converged) ==>
              out.rc.value <= maxIter && var r := Residual(A, b, out.x); sqrt(Dot(r, r)) <= tol
  {
    var order := [WorkR, WorkP, WorkAp];
    if !be.handleOk then Outcome(Some(ERR_CREATE), x0, {}, None)
    else if Granted(order, be) < 3 then
      Outcome(Some(ERR_CREATE), x0, Leaked(order, Granted(order, be)), None)
    else
      var res := CgLoop(A, b, tol, maxIter, sqrt, CgStart(A, b, x0), 0);
      var rc := match res.1
        case Converged => Some(res.2)
        case Exhausted => Some(NO_CONV)
        case _ => None;
      Outcome(rc, res.0, {}, Some(res.1))
  }

  /** The same last-iteration discrepancy in cg_solve_lp64. */
  lemma CgLastIterationReportedAsNoConvergence(sqrt: real -> real)
    requires sqrt(0.0) == 0.0 && sqrt(1.0) == 1.0
    ensures CgSolve(1, [[1.0]], [1.0], [0.0], 1, 0.5, Healthy(), sqrt).rc == Some(NO_CONV)
    ensures CgSolveCorrected(1, [[1.0]], [1.0], [0.0], 1, 0.5, Healthy(), sqrt).rc == Some(1)
  {
    assert Granted([WorkR, WorkP, WorkAp], Healthy()) == 3;
    CgOneStepStart();
    CgOneStepLoop(sqrt);
  }

  lemma CgOneStepStart()
    ensures CgStart([[1.0]], [1.0], [0.0]) == CgState([0.0], [1.0], [1.0], 1.0)
  {
    var A: Mat := [[1.0]];
    assert MatVec(A, [0.0]) == [0.0];
    assert Residual(A, [1.0], [0.0]) == [1.0];
    assert Dot([1.0], [1.0]) == 1.0;
  }

  /** For `A = [1]`, `b = [1]` and the zero start, one step of cg_solve_lp64
      lands on the exact solution and leaves the loop with counter 1. */
  lemma CgOneStepLoop(sqrt: real -> real)
    requires sqrt(0.0) == 0.0 && sqrt(1.0) == 1.0
    ensures CgInv([[1.0]], [1.0], CgState([0.0], [1.0], [1.0], 1.0))
    ensures CgLoop([[1.0]], [1.0], 0.5, 1, sqrt, CgState([0.0], [1.0], [1.0], 1.0), 0) == ([1.0], Converged, 1)
  {
    CgOneStepStart();
    OneByOneStep();
  }

  /** The vectors of that step. */
  lemma OneByOneStep()
    ensures MatVec([[1.0]], [1.0]) == [1.0] && Dot([1.0], [1.0]) == 1.0 && Dot([0.0], [0.0]) == 0.0
    ensures Add([0.0], Scale(1.0, [1.0])) == [1.0] && Sub([1.0], Scale(1.0, [1.0])) == [0.0]
  {
    var A: Mat := [[1.0]];
    assert MatVec(A, [1.0]) == [1.0];
    assert Dot([1.0], [1.0]) == 1.0;
    assert Add([0.0], Scale(1.0, [1.0])) == [1.0];
    assert Sub([1.0], Scale(1.0, [1.0])) == [0.0];
    assert Dot([0.0], [0.0]) == 0.0;
  }
}
