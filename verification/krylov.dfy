/** Vocabulary shared by the four native Krylov solvers (the MKL and ArmPL
    builds of CG and CGNR): the resources a solve acquires, the outcomes of
    the foreign calls it makes, how its loop can end, and the invariants
    exact arithmetic keeps along CG and CGNR iterations. */
module Krylov {
  import opened Common

  /** What a solve acquires: the sparse handle and its work vectors. */
  datatype Resource = Handle | WorkR | WorkZ | WorkP | WorkQ | WorkAp

  /** Results of the foreign calls: handle creation, each work-vector
      allocation, and the status of the c-th sparse product (c from 0). */
  datatype Backend = Backend(handleOk: bool, allocOk: Resource -> bool, spmvOk: nat -> bool)

  /** Why an iteration stopped. */
  datatype Exit = Converged | Breakdown | KernelFailure | Exhausted | ZeroDivisor

  /** What a call returns: the status code (None once a zero divisor is met),
      the solution buffer, the resources still held, and the loop exit
      (None when the call returned before its loop). */
  datatype Outcome = Outcome(rc: Option<int>, x: Vec, held: set<Resource>, exit: Option<Exit>)

  /** The residual `b - A x` of a candidate solution. */
  function Residual(A: Mat, b: Vec, x: Vec): (r: Vec)
    requires |A| == |b| && forall i :: 0 <= i < |A| ==> |A[i]| == |x|
    ensures |r| == |b|
  {
    Sub(b, MatVec(A, x))
  }

  /** The work vectors the allocator returned, of those requested. */
  function Obtained(be: Backend, wanted: set<Resource>): (got: set<Resource>)
    ensures got <= wanted
  {
    set w | w in wanted && be.allocOk(w)
  }

  /** A backend on which every foreign call succeeds. */
  function Healthy(): Backend
  {
    Backend(true, (w: Resource) => true, (c: nat) => true)
  }

  /** CGNR iteration state: iterate, residual, normal residual `A^T r`,
      search direction, `rho = |z|^2`, and sparse products issued so far. */
  datatype CgnrState = CgnrState(x: Vec, r: Vec, z: Vec, p: Vec, rho: real, calls: nat)

  /** What exact arithmetic keeps true along a CGNR run. The last conjunct is
      what makes `beta = rho_new / rho` safe: a zero `rho` forces a zero
      direction, hence a zero denominator, hence a break before `beta`. */
  ghost predicate CgnrInv(A: Mat, n: nat, b: Vec, s: CgnrState)
  {
    IsMat(A, |b|, n) && |s.x| == n && |s.p| == n
    && s.r == Residual(A, b, s.x)
    && s.z == MatTVec(A, n, s.r)
    && s.rho == Dot(s.z, s.z)
    && (s.rho == 0.0 ==> IsZero(s.p))
  }

  /** A zero `rho` means a zero direction and so a zero denominator: when
      the denominator is not zero, neither is `rho`. */
  lemma CgnrRhoNonZero(A: Mat, n: nat, b: Vec, s: CgnrState)
    requires CgnrInv(A, n, b, s)
    requires Dot(MatVec(A, s.p), MatVec(A, s.p)) != 0.0
    ensures s.rho != 0.0
  {
    if s.rho == 0.0 {
      MatVecZero(A, s.p);
      DotZero(MatVec(A, s.p), MatVec(A, s.p));
    }
  }

  /** One full CGNR step re-establishes the invariant. */
  lemma CgnrNextInv(A: Mat, n: nat, b: Vec, s: CgnrState, alpha: real)
    requires CgnrInv(A, n, b, s) && s.rho != 0.0
    ensures
      var x := Add(s.x, Scale(alpha, s.p));
      var r := Sub(s.r, Scale(alpha, MatVec(A, s.p)));
      var z := MatTVec(A, n, r);
      var beta := Dot(z, z) / s.rho;
      CgnrInv(A, n, b, CgnrState(x, r, z, Add(z, Scale(beta, s.p)), Dot(z, z), s.calls + 2))
  {
    var r := Sub(s.r, Scale(alpha, MatVec(A, s.p)));
    ResidualStep(A, b, s.x, alpha, s.p);
    var z := MatTVec(A, n, r);
    if Dot(z, z) == 0.0 {
      DotSelfZero(z);
    }
  }

  /** CG iteration state: iterate, residual, direction, `rsold = r.r`. */
  datatype CgState = CgState(x: Vec, r: Vec, p: Vec, rs: real)

  ghost predicate CgInv(A: Mat, b: Vec, s: CgState)
  {
    IsMat(A, |b|, |b|) && |s.x| == |b| && |s.p| == |b|
    && s.r == Residual(A, b, s.x) && s.rs == Dot(s.r, s.r)
  }

  /** One CG/CGNR step keeps the residual exact:
      `(b - A x) - alpha (A p) == b - A (x + alpha p)`. */
  lemma ResidualStep(A: Mat, b: Vec, x: Vec, alpha: real, p: Vec)
    requires IsMat(A, |b|, |x|) && |p| == |x|
    ensures Sub(Residual(A, b, x), Scale(alpha, MatVec(A, p))) == Residual(A, b, Add(x, Scale(alpha, p)))
  {
    MatVecAxpy(A, x, alpha, p);
  }
}
