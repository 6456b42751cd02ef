/** The managed linear-algebra layer, Crane/Core/LinearAlgebra.cs: the
    weighted Gram matrix and the two sparse solves, each dispatched by
    operating system and processor to a native library or to a managed
    fallback, and the managed CGNR and CG fallbacks themselves.

    The managed solvers compute in IEEE doubles, where a zero divisor does
    not throw but yields an infinite or undefined value that spreads to the
    iterate. A result of None stands for such a non-finite vector. The
    vector norm goes through the `sqrt` parameter; the squared norms the
    source takes with `Math.Pow(norm, 2)` are the exact dot products. */
module LinearAlgebra {
  import opened Common
  import opened Csr
  import opened Krylov
  import CgnrMkl
  import CgnrArmpl
  import GramMkl

  datatype Os = Windows | MacOs | OtherOs
  datatype Arch = X64 | Arm64 | OtherArch

  /** Where a computation is carried out. */
  datatype Kernel = Mkl | Armpl | Managed

  /** Gram dispatch: only Windows on x64 calls the native builder; the
      macOS Arm64 branch has its native call disabled and computes in
      managed code like every other platform. */
  function GramKernel(os: Os, arch: Arch): (k: Kernel)
    ensures k == Mkl <==> os == Windows && arch == X64
    ensures k != Armpl
  {
    if os == Windows then (if arch == X64 then Mkl else Managed)
    else if os == MacOs then (if arch == Arm64 then Managed else Managed)
    else Managed
  }

  /** Solve and SolveSym dispatch: Windows on x64 uses MKL, macOS on Arm64
      uses the Arm Performance Libraries, everything else is managed. */
  function SolveKernel(os: Os, arch: Arch): (k: Kernel)
    ensures k == Mkl <==> os == Windows && arch == X64
    ensures k == Armpl <==> os == MacOs && arch == Arm64
  {
    if os == Windows then (if arch == X64 then Mkl else Managed)
    else if os == MacOs then (if arch == Arm64 then Armpl else Managed)
    else Managed
  }

  /** The Gram product and the solves go to the same place except on macOS
      Arm64, where only the solves are native. */
  lemma KernelsAgreeExceptMacArm(os: Os, arch: Arch)
    ensures GramKernel(os, arch) == SolveKernel(os, arch) <==> !(os == MacOs && arch == Arm64)
  {
  }

  // ---------------------------------------------------------------- Gram

  datatype Failure = ArgumentOutOfRange | ArgumentNull | InvalidOperation

  /** What `Gram` yields: an exception, a non-finite matrix, or a matrix. */
  datatype GramResult = Thrown(e: Failure) | NonFinite | Computed(M: Mat)

  /** The foreign calls of the native path are valid exports of `n x n`
      matrices stored row after row. */
  predicate NativeCallsValid(n: int, calls: GramMkl.Calls)
  {
    GramMkl.CallsValid(n, calls)
    && (calls.exported.Some? ==>
          Contiguous(calls.exported.value) && calls.exported.value.rows == n && calls.exported.value.cols == n)
  }

  /** The native branch of `Gram`: the managed guards on `w` and the row
      pointers, the call, an exception for any non-zero status, and the
      read-back of `n + 1` row pointers and `nnz = row[n]` entries. */
  function NativeGram(A: Mat, B: Mat, n: int, w: real, apNull: bool, bpNull: bool,
                      calls: GramMkl.Calls): (r: GramResult)
    requires n > 0 ==> IsMat(A, |A|, n) && IsMat(B, |B|, n)
    requires NativeCallsValid(n, calls)
    ensures w <= 0.0 ==> r == Thrown(ArgumentOutOfRange)
    ensures w > 0.0 && (apNull || bpNull) ==> r == Thrown(ArgumentNull)
    ensures w > 0.0 && !apNull && !bpNull && n <= 0 ==> r == Thrown(InvalidOperation)
    ensures r != NonFinite
    ensures r.Computed? <==> w > 0.0 && !apNull && !bpNull && GramMkl.Build(A, B, n, w, false, false, calls).rc == 0
    ensures r.Computed? ==> n > 0 && IsMat(r.M, n, n)
  {
    if w <= 0.0 then Thrown(ArgumentOutOfRange)
    else if apNull || bpNull then Thrown(ArgumentNull)
    else
      var built := GramMkl.Build(A, B, n, w, false, false, calls);
      if built.rc != 0 then Thrown(InvalidOperation)
      else
        var ex := calls.exported.value;
        CopyScaledRows(ex, 1.0);
        assert built.out.c == CopyScaled(ex, 1.0);
        Computed(Dense(CopyCsr(built.out.c)))
  }

  /** When the vendor's export describes what its handle holds, the native
      path returns `(1/w) A^T A + ((w-1)/w) B^T B`. */
  lemma NativeGramValue(A: Mat, B: Mat, n: int, w: real, calls: GramMkl.Calls)
    requires n > 0 && IsMat(A, |A|, n) && IsMat(B, |B|, n) && NativeCallsValid(n, calls)
    requires GramMkl.Faithful(A, B, n, calls)
    requires NativeGram(A, B, n, w, false, false, calls).Computed?
    requires DenseOf(calls.exported.value) == GramMkl.Build(A, B, n, w, false, false, calls).value.value
    ensures NativeGram(A, B, n, w, false, false, calls).M == GramCombination(A, B, n, 1.0 / w, (w - 1.0) / w)
  {
    GramMkl.BuildDeliversCombination(A, B, n, w, calls);
  }

  /** The managed expression as written: `(1/w) A^T A + ((1-w)/w) B^T B`,
      with no check on `w` (a zero weight divides by zero). */
  function ManagedGram(A: Mat, B: Mat, n: nat, w: real): (r: GramResult)
    requires IsMat(A, |A|, n) && IsMat(B, |B|, n)
    ensures r.Thrown? == false
    ensures r == NonFinite <==> w == 0.0
    ensures r.Computed? ==> IsMat(r.M, n, n)
  {
    if w == 0.0 then NonFinite
    else Computed(GramCombination(A, B, n, 1.0 / w, (1.0 - w) / w))
  }

  /** The managed expression with the coefficient of the native builders,
      `(w-1)/w`. */
  function ManagedGramCorrected(A: Mat, B: Mat, n: nat, w: real): (r: GramResult)
    requires IsMat(A, |A|, n) && IsMat(B, |B|, n)
    ensures r.Thrown? == false
    ensures r == NonFinite <==> w == 0.0
    ensures r.Computed? ==> IsMat(r.M, n, n)
  {
    if w == 0.0 then NonFinite
    else Computed(GramCombination(A, B, n, 1.0 / w, (w - 1.0) / w))
  }

  /** The corrected managed path agrees with the native one whenever the
      native call succeeds with a faithful export. */
  lemma ManagedGramCorrectedMatchesNative(A: Mat, B: Mat, n: int, w: real, calls: GramMkl.Calls)
    requires n > 0 && IsMat(A, |A|, n) && IsMat(B, |B|, n) && NativeCallsValid(n, calls)
    requires GramMkl.Faithful(A, B, n, calls)
    requires NativeGram(A, B, n, w, false, false, calls).Computed?
    requires DenseOf(calls.exported.value) == GramMkl.Build(A, B, n, w, false, false, calls).value.value
    ensures ManagedGramCorrected(A, B, n, w) == NativeGram(A, B, n, w, false, false, calls)
  {
    NativeGramValue(A, B, n, w, calls);
  }

  /** Entry-level form of the sign comparison: the two weights of the
      `B^T B` term scale an entry alike only at `w = 1` or a zero entry. */
  lemma CoefficientSignEntry(gb: real, w: real)
    requires w != 0.0
    ensures ((1.0 - w) / w) * gb == ((w - 1.0) / w) * gb <==> w == 1.0 || gb == 0.0
  {
    var c := (1.0 - w) / w;
    assert (w - 1.0) / w == -c;
    if w != 1.0 {
      assert c != 0.0;
      if c * gb == -c * gb {
        assert 2.0 * c * gb == 0.0;
        assert gb == 0.0;
      }
    }
  }

  /** Two weighted Gram combinations sharing the first weight agree at an
      entry exactly when their second terms do. */
  lemma CombinationEntriesAgree(A: Mat, B: Mat, n: nat, c1: real, c2: real, c3: real, i: nat, j: nat)
    requires IsMat(A, |A|, n) && IsMat(B, |B|, n) && i < n && j < n
    ensures GramCombination(A, B, n, c1, c2)[i][j] == GramCombination(A, B, n, c1, c3)[i][j]
            <==> c2 * Gram(B, n)[i][j] == c3 * Gram(B, n)[i][j]
  {
    GramCombinationEntry(A, B, n, c1, c2, i, j);
    GramCombinationEntry(A, B, n, c1, c3, i, j);
    assert Gram(B, n)[i][j] == Dot(Column(B, i), Column(B, j));
  }

  /** One entry of the two managed expressions. */
  lemma ManagedGramEntry(A: Mat, B: Mat, n: nat, w: real, i: nat, j: nat)
    requires IsMat(A, |A|, n) && IsMat(B, |B|, n) && w != 0.0 && i < n && j < n
    ensures GramCombination(A, B, n, 1.0 / w, (1.0 - w) / w)[i][j]
            == GramCombination(A, B, n, 1.0 / w, (w - 1.0) / w)[i][j]
            <==> w == 1.0 || Gram(B, n)[i][j] == 0.0
  {
    CombinationEntriesAgree(A, B, n, 1.0 / w, (1.0 - w) / w, (w - 1.0) / w, i, j);
    CoefficientSignEntry(Gram(B, n)[i][j], w);
  }

  /** The managed path as written and the native path's formula agree
      only when `w = 1` or `B^T B` is zero: for any other weight the
      `B^T B` term enters with the opposite sign. */
  lemma ManagedGramSignMismatch(A: Mat, B: Mat, n: nat, w: real)
    requires IsMat(A, |A|, n) && IsMat(B, |B|, n) && w != 0.0
    ensures ManagedGram(A, B, n, w) == ManagedGramCorrected(A, B, n, w)
            <==> w == 1.0 || forall i, j :: 0 <= i < n && 0 <= j < n ==> Gram(B, n)[i][j] == 0.0
  {
    var M1 := GramCombination(A, B, n, 1.0 / w, (1.0 - w) / w);
    var M2 := GramCombination(A, B, n, 1.0 / w, (w - 1.0) / w);
    if M1 == M2 && w != 1.0 {
      forall i, j | 0 <= i < n && 0 <= j < n
        ensures Gram(B, n)[i][j] == 0.0
      {
        ManagedGramEntry(A, B, n, w, i, j);
      }
    }
    if w == 1.0 || forall i, j :: 0 <= i < n && 0 <= j < n ==> Gram(B, n)[i][j] == 0.0 {
      forall i, j | 0 <= i < n && 0 <= j < n
        ensures M1[i][j] == M2[i][j]
      {
        ManagedGramEntry(A, B, n, w, i, j);
      }
      SameEntries(M1, M2, n, n);
    }
  }

  /** A concrete case: with `A = B = [1]` and `w = 2` the native formula
      gives 1 and the managed expression gives 0. */
  lemma ManagedGramSignExample()
    ensures ManagedGramCorrected([[1.0]], [[1.0]], 1, 2.0) == Computed([[1.0]])
    ensures ManagedGram([[1.0]], [[1.0]], 1, 2.0) == Computed([[0.0]])
  {
    var A: Mat := [[1.0]];
    assert Column(A, 0) == [1.0];
    var M1 := GramCombination(A, A, 1, 1.0 / 2.0, (1.0 - 2.0) / 2.0);
    var M2 := GramCombination(A, A, 1, 1.0 / 2.0, (2.0 - 1.0) / 2.0);
    GramCombinationEntry(A, A, 1, 1.0 / 2.0, (1.0 - 2.0) / 2.0, 0, 0);
    GramCombinationEntry(A, A, 1, 1.0 / 2.0, (2.0 - 1.0) / 2.0, 0, 0);
    assert M1[0] == [0.0];
    assert M2[0] == [1.0];
  }

  /** Gram as written: the native builder on Windows x64 and the managed
      expression everywhere else. */
  function GramDispatch(os: Os, arch: Arch, A: Mat, B: Mat, n: nat, w: real, apNull: bool, bpNull: bool,
                        calls: GramMkl.Calls): (r: GramResult)
    requires IsMat(A, |A|, n) && IsMat(B, |B|, n) && NativeCallsValid(n, calls)
    ensures GramKernel(os, arch) == Mkl && w <= 0.0 ==> r == Thrown(ArgumentOutOfRange)
    ensures GramKernel(os, arch) == Managed ==> !r.Thrown?
    ensures GramKernel(os, arch) == Managed && w < 0.0 ==> r.Computed?
  {
    if GramKernel(os, arch) == Mkl then NativeGram(A, B, n, w, apNull, bpNull, calls)
    else ManagedGram(A, B, n, w)
  }

  /** Gram with the managed coefficient corrected. */
  function GramDispatchCorrected(os: Os, arch: Arch, A: Mat, B: Mat, n: nat, w: real, apNull: bool, bpNull: bool,
                                 calls: GramMkl.Calls): (r: GramResult)
    requires IsMat(A, |A|, n) && IsMat(B, |B|, n) && NativeCallsValid(n, calls)
    ensures GramKernel(os, arch) == Mkl && w <= 0.0 ==> r == Thrown(ArgumentOutOfRange)
    ensures GramKernel(os, arch) == Managed ==> !r.Thrown?
    ensures r.Computed? && w != 0.0 ==>
              GramKernel(os, arch) == Managed ==> r.M == GramCombination(A, B, n, 1.0 / w, (w - 1.0) / w)
  {
    if GramKernel(os, arch) == Mkl then NativeGram(A, B, n, w, apNull, bpNull, calls)
    else ManagedGramCorrected(A, B, n, w)
  }

  // --------------------------------------------------------- managed solves

  function Min(a: int, b: int): int { if a <= b then a else b }

  /** The iteration cap of both managed solvers: at most `iterationMax`
      steps and at most one more than the smaller dimension. */
  function ManagedCap(iterationMax: int, rows: nat, cols: nat): (cap: int)
    ensures cap <= iterationMax && cap <= Min(rows, cols) + 1
    ensures cap == iterationMax || cap == Min(rows, cols) + 1
  {
    Min(iterationMax, Min(cols, rows) + 1)
  }

  /** The loop of SolveManaged from iteration `it`. The residual is
      recomputed from `x` at every step. `pFinite` is false once a `0/0`
      has made the direction undefined; the next step then spoils `x`. The
      second component counts the steps taken. */
  function ManagedCgnrLoop(A: Mat, m: nat, n: nat, b: Vec, threshold: real, cap: int, sqrt: real -> real,
                           x: Vec, p: Vec, pFinite: bool, it: nat): (res: (Option<Vec>, int))
    requires IsMat(A, m, n) && |b| == m && |x| == n && |p| == n
    ensures it <= res.1
    ensures res.0.Some? ==>
              |res.0.value| == n
              && (res.1 >= cap || sqrt(Dot(Residual(A, b, res.0.value), Residual(A, b, res.0.value))) <= threshold)
    ensures res.0.Some? && it < cap ==> res.1 <= cap
    decreases cap - it
  {
    var r := Residual(A, b, x);
    if !(it < cap && sqrt(Dot(r, r)) > threshold) then (Some(x), it)
    else if !pFinite then (None, it + 1)
    else
      var z0 := MatTVec(A, n, r);
      var q := MatVec(A, p);
      if Dot(q, q) == 0.0 then (None, it + 1)
      else
        var x1 := Add(x, Scale(Dot(z0, z0) / Dot(q, q), p));
        var z1 := MatTVec(A, n, Residual(A, b, x1));
        if Dot(z0, z0) == 0.0 then
          ManagedCgnrLoop(A, m, n, b, threshold, cap, sqrt, x1, p, false, it + 1)
        else
          ManagedCgnrLoop(A, m, n, b, threshold, cap, sqrt, x1,
                          Add(z1, Scale(Dot(z1, z1) / Dot(z0, z0), p)), true, it + 1)
  }

  /** SolveManaged: CGNR from the caller's `x` with `p = A^T r`. A result
      stops either at the iteration cap or with `|b - A x| <= threshold`. */
  function SolveManaged(A: Mat, m: nat, n: nat, b: Vec, x: Vec, threshold: real, iterationMax: int,
                        sqrt: real -> real): (r: Option<Vec>)
    requires IsMat(A, m, n) && |b| == m && |x| == n
    ensures r.Some? ==> |r.value| == n
  {
    var r0 := Residual(A, b, x);
    ManagedCgnrLoop(A, m, n, b, threshold, ManagedCap(iterationMax, m, n), sqrt,
                    x, MatTVec(A, n, r0), true, 0).0
  }

  /** A managed CGNR result that is not at the cap has met the residual
      threshold. */
  lemma SolveManagedStops(A: Mat, m: nat, n: nat, b: Vec, x: Vec, threshold: real, iterationMax: int,
                          sqrt: real -> real)
    requires IsMat(A, m, n) && |b| == m && |x| == n
    ensures var res := ManagedCgnrLoop(A, m, n, b, threshold, ManagedCap(iterationMax, m, n), sqrt,
                                       x, MatTVec(A, n, Residual(A, b, x)), true, 0);
            res.0 == SolveManaged(A, m, n, b, x, threshold, iterationMax, sqrt)
            && (res.0.Some? ==>
                  res.1 >= ManagedCap(iterationMax, m, n)
                  || sqrt(Dot(Residual(A, b, res.0.value), Residual(A, b, res.0.value))) <= threshold)
  {
  }

  /** Unlike the MKL solver, the managed one honours the caller's guess: a
      guess that already meets the threshold, or a cap of zero, comes back
      unchanged. */
  lemma SolveManagedKeepsGoodGuess(A: Mat, m: nat, n: nat, b: Vec, x: Vec, threshold: real,
                                   iterationMax: int, sqrt: real -> real)
    requires IsMat(A, m, n) && |b| == m && |x| == n
    requires iterationMax <= 0 || sqrt(Dot(Residual(A, b, x), Residual(A, b, x))) <= threshold
    ensures SolveManaged(A, m, n, b, x, threshold, iterationMax, sqrt) == Some(x)
  {
  }

  /** The stopping test looks at `|r|`, not at `|A^T r|`: on an
      inconsistent system whose guess already minimises the residual the
      first step computes `0/0` and the result is not finite. Here
      `A = [0]`, `b = [1]`. */
  lemma SolveManagedNonFiniteAtLeastSquaresOptimum(sqrt: real -> real)
    requires sqrt(1.0) == 1.0
    ensures SolveManaged([[0.0]], 1, 1, [1.0], [0.0], 0.5, 10, sqrt) == None
  {
    var A: Mat := [[0.0]];
    assert Residual(A, [1.0], [0.0]) == [1.0];
    assert Column(A, 0) == [0.0];
    assert MatTVec(A, 1, [1.0]) == [0.0];
    assert MatVec(A, [0.0]) == [0.0];
  }

  /** The loop of SolveSymManaged from iteration `it`; the residual is
      recomputed from `x` at every step. */
  function ManagedCgLoop(A: Mat, n: nat, b: Vec, threshold: real, cap: int, sqrt: real -> real,
                         x: Vec, p: Vec, pFinite: bool, it: nat): (res: (Option<Vec>, int))
    requires IsMat(A, n, n) && |b| == n && |x| == n && |p| == n
    ensures it <= res.1
    ensures res.0.Some? ==>
              |res.0.value| == n
              && (res.1 >= cap || sqrt(Dot(Residual(A, b, res.0.value), Residual(A, b, res.0.value))) <= threshold)
    ensures res.0.Some? && it < cap ==> res.1 <= cap
    decreases cap - it
  {
    var r := Residual(A, b, x);
    if !(it < cap && sqrt(Dot(r, r)) > threshold) then (Some(x), it)
    else if !pFinite then (None, it + 1)
    else
      var rTr := Dot(r, r);
      var pAp := Dot(p, MatVec(A, p));
      if pAp == 0.0 then (None, it + 1)
      else
        var x1 := Add(x, Scale(rTr / pAp, p));
        var r1 := Residual(A, b, x1);
        if rTr == 0.0 then
          ManagedCgLoop(A, n, b, threshold, cap, sqrt, x1, p, false, it + 1)
        else
          ManagedCgLoop(A, n, b, threshold, cap, sqrt, x1, Add(r1, Scale(Dot(r1, r1) / rTr, p)), true, it + 1)
  }

  /** The residual of the zero vector is the right-hand side. */
  lemma ResidualAtZero(A: Mat, n: nat, b: Vec)
    requires IsMat(A, |b|, n)
    ensures Residual(A, b, Zeros(n)) == b
  {
    MatVecZero(A, Zeros(n));
  }

  /** SolveSymManaged: CG from `x = 0` with `r = p = b`. */
  function SolveSymManaged(A: Mat, n: nat, b: Vec, threshold: real, iterationMax: int,
                           sqrt: real -> real): (r: Option<Vec>)
    requires IsMat(A, n, n) && |b| == n
    ensures r.Some? ==> |r.value| == n
  {
    ResidualAtZero(A, n, b);
    ManagedCgLoop(A, n, b, threshold, ManagedCap(iterationMax, n, n), sqrt, Zeros(n), b, true, 0).0
  }

  // ----------------------------------------------------------- dispatch

  /** Solve: CGNR on the dispatched kernel. The native status code is
      discarded; whatever the solver left in the solution buffer is
      returned. */
  function Solve(os: Os, arch: Arch, A: Mat, m: nat, n: nat, b: Vec, x: Vec, threshold: real,
                 iterationMax: int, be: Backend, sqrt: real -> real): (r: Option<Vec>)
    requires IsMat(A, m, n) && |b| == m && |x| == n
    ensures r.Some? ==> |r.value| == n
    ensures SolveKernel(os, arch) != Managed ==> r.Some?
  {
    match SolveKernel(os, arch)
    case Mkl => Some(CgnrMkl.CgnrSolve(m, n, A, b, x, false, iterationMax, threshold, be, sqrt).x)
    case Armpl => Some(CgnrArmpl.CgnrSolve(m, n, A, b, x, iterationMax, threshold, be, sqrt).x)
    case Managed => SolveManaged(A, m, n, b, x, threshold, iterationMax, sqrt)
  }

  /** Because the status is discarded, a native failure before any work is
      indistinguishable from a solution: the caller's guess comes back. */
  lemma SolveReturnsGuessOnNativeFailure(os: Os, arch: Arch, A: Mat, m: nat, n: nat, b: Vec, x: Vec,
                                         threshold: real, iterationMax: int, be: Backend, sqrt: real -> real)
    requires IsMat(A, m, n) && |b| == m && |x| == n
    requires SolveKernel(os, arch) != Managed && !be.handleOk
    ensures Solve(os, arch, A, m, n, b, x, threshold, iterationMax, be, sqrt) == Some(x)
  {
  }

  /** SolveSym: CG on the dispatched kernel. The native solvers always start
      from a zero vector of length `n`; a zero divisor in the native loop
      yields a non-finite result. */
  function SolveSym(os: Os, arch: Arch, A: Mat, n: nat, b: Vec, threshold: real, iterationMax: int,
                    be: Backend, sqrt: real -> real): (r: Option<Vec>)
    requires IsMat(A, n, n) && |b| == n
    ensures r.Some? ==> |r.value| == n
  {
    match SolveKernel(os, arch)
    case Mkl =>
      var out := CgnrMkl.CgSolve(n, A, b, Zeros(n), false, iterationMax, threshold, be, sqrt);
      if out.rc.None? then None else Some(out.x)
    case Armpl =>
      var out := CgnrArmpl.CgSolve(n, A, b, Zeros(n), iterationMax, threshold, be, sqrt);
      if out.rc.None? then None else Some(out.x)
    case Managed => SolveSymManaged(A, n, b, threshold, iterationMax, sqrt)
  }

  /** A native failure before any work hands back the zero start vector. */
  lemma SolveSymStartsFromZero(os: Os, arch: Arch, A: Mat, n: nat, b: Vec, threshold: real,
                               iterationMax: int, be: Backend, sqrt: real -> real)
    requires IsMat(A, n, n) && |b| == n
    requires SolveKernel(os, arch) != Managed && !be.handleOk
    ensures SolveSym(os, arch, A, n, b, threshold, iterationMax, be, sqrt) == Some(Zeros(n))
  {
  }

  /** The three kernels disagree on a zero right-hand side: the managed and
      ArmPL solvers return the zero vector at once, while the MKL solver's
      relative test divides by zero on its first step. */
  lemma SolveSymZeroRightHandSide(A: Mat, n: nat, threshold: real, iterationMax: int, sqrt: real -> real)
    requires n > 0 && IsMat(A, n, n) && iterationMax >= 1 && sqrt(0.0) == 0.0 && threshold >= 0.0
    ensures SolveSym(OtherOs, X64, A, n, Zeros(n), threshold, iterationMax, Healthy(), sqrt) == Some(Zeros(n))
    ensures SolveSym(MacOs, Arm64, A, n, Zeros(n), threshold, iterationMax, Healthy(), sqrt) == Some(Zeros(n))
    ensures SolveSym(Windows, X64, A, n, Zeros(n), threshold, iterationMax, Healthy(), sqrt) == None
  {
    var z := Zeros(n);
    ResidualAtZero(A, n, z);
    DotZero(z, z);
    CgnrMkl.CgZeroRightHandSideDividesByZero(n, A, z, iterationMax, threshold, sqrt);
  }
}
