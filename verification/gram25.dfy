/** The Arm Performance Libraries weighted Gram builder,
    Crane/native/grammix/src/gram25.c: `gram25_build_lp64` accumulates
    `C = (1/w) A^T A + ((w-1)/w) B^T B` into a growable handle with two
    sparse products and copies `C` out with `copy_csr`.

    A vendor handle is represented by the dense matrix it stores. The
    success of each foreign call is an input; the three-array export of the
    result handle is an input as well. */
module Gram25 {
  import opened Common
  import opened Csr

  const OK: int := 0
  const E_ALLOC: int := -1
  const E_ARMPL: int := -2
  const E_ARG: int := -3

  /** The `n x n` zero matrix: the empty growable handle. */
  function ZeroMat(n: nat): (Z: Mat)
    ensures IsMat(Z, n, n)
    ensures forall i, j :: 0 <= i < n && 0 <= j < n ==> Z[i][j] == 0.0
  {
    seq(n, i => Zeros(n))
  }

  /** The vendor product `C := alpha A^T A + beta C`. */
  function Spmm(alpha: real, A: Mat, n: nat, beta: real, C: Mat): (D: Mat)
    requires IsMat(A, |A|, n) && IsMat(C, n, n)
    ensures IsMat(D, n, n)
  {
    MatAdd(MatScale(alpha, Gram(A, n)), MatScale(beta, C), n)
  }

  /** Entry `(i, j)` of a product, in terms of the columns of `A`. */
  lemma SpmmEntry(alpha: real, A: Mat, n: nat, beta: real, C: Mat, i: nat, j: nat)
    requires IsMat(A, |A|, n) && IsMat(C, n, n) && i < n && j < n
    ensures Spmm(alpha, A, n, beta, C)[i][j] == alpha * Dot(Column(A, i), Column(A, j)) + beta * C[i][j]
  {
    assert MatScale(alpha, Gram(A, n))[i] == Scale(alpha, Gram(A, n)[i]);
    assert MatScale(beta, C)[i] == Scale(beta, C[i]);
  }

  /** The two products of the build, the first overwriting the empty handle
      and the second accumulating, leave the weighted Gram combination. */
  lemma ProductsGiveCombination(A: Mat, B: Mat, n: nat, c1: real, c2: real)
    requires IsMat(A, |A|, n) && IsMat(B, |B|, n)
    ensures Spmm(c2, B, n, 1.0, Spmm(c1, A, n, 0.0, ZeroMat(n))) == GramCombination(A, B, n, c1, c2)
  {
    var C1 := Spmm(c1, A, n, 0.0, ZeroMat(n));
    var C2 := Spmm(c2, B, n, 1.0, C1);
    var G := GramCombination(A, B, n, c1, c2);
    forall i | 0 <= i < n
      ensures C2[i] == G[i]
    {
      forall j | 0 <= j < n
        ensures C2[i][j] == G[i][j]
      {
        SpmmEntry(c1, A, n, 0.0, ZeroMat(n), i, j);
        SpmmEntry(c2, B, n, 1.0, C1, i, j);
        GramCombinationEntry(A, B, n, c1, c2, i, j);
      }
    }
  }

  /** The three buffers `copy_csr` allocates. */
  datatype Buffer = RowBuf | ColBuf | ValBuf

  /** copy_csr: the status and the copy. A failed export gives E_ARMPL; a
      failed allocation frees whatever was obtained and gives E_ALLOC, so no
      buffer outlives the call unless the copy is handed out. */
  function CopyOut(exported: Option<Csr>, alloc: Buffer -> bool): (res: (int, Option<Csr>))
    requires exported.Some? ==> Copyable(exported.value)
    ensures res.0 in {OK, E_ALLOC, E_ARMPL}
    ensures res.0 == E_ARMPL <==> exported.None?
    ensures res.0 == E_ALLOC <==> exported.Some? && !(alloc(RowBuf) && alloc(ColBuf) && alloc(ValBuf))
    ensures res.1.Some? <==> res.0 == OK
    ensures res.0 == OK ==> exported.Some? && res.1.value == CopyCsr(exported.value)
  {
    match exported
    case None => (E_ARMPL, None)
    case Some(ex) =>
      if !alloc(RowBuf) || !alloc(ColBuf) || !alloc(ValBuf) then (E_ALLOC, None)
      else (OK, Some(CopyCsr(ex)))
  }

  /** The foreign calls of one build: creation of handles A and B, the
      zeroed row buffer of the empty result, the creation of the result
      handle and the two product executions (whose status the source never
      reads), the export of the result and the copy's allocations. */
  datatype Calls = Calls(handleA: bool, handleB: bool, row0: bool, handleC: bool, productA: bool, productB: bool,
                         exported: Option<Csr>, alloc: Buffer -> bool)

  /** What the caller's three output pointers hold after the call. */
  datatype Output = Untouched | Nulled | Written(c: Csr)

  /** The three vendor handles of a build. */
  datatype Handle = HandleA | HandleB | HandleC

  function AllHandles(): set<Handle>
  {
    {HandleA, HandleB, HandleC}
  }

  /** The status, the outputs, the matrix the result handle holds when the
      build got that far, the handles created and destroyed, and whether
      the zeroed row buffer was allocated and freed. */
  datatype Built = Built(rc: int, out: Output, value: Option<Mat>,
                         created: set<Handle>, destroyed: set<Handle>, rowAllocated: bool, rowFreed: bool)

  /** The handles created before the build stops: A and B first, the
      result handle only once the row buffer exists. */
  function Created(calls: Calls, reachedC: bool): (h: set<Handle>)
    ensures h <= AllHandles()
    ensures HandleA in h <==> calls.handleA
    ensures HandleB in h <==> calls.handleB
    ensures HandleC in h <==> reachedC && calls.handleC
  {
    (if calls.handleA then {HandleA} else {})
    + (if calls.handleB then {HandleB} else {})
    + (if reachedC && calls.handleC then {HandleC} else {})
  }

  /** The matrix held by the result handle after the two products; a product
      that fails leaves the handle as it was. */
  function Accumulated(A: Mat, B: Mat, n: nat, w: real, productA: bool, productB: bool): (C: Mat)
    requires IsMat(A, |A|, n) && IsMat(B, |B|, n) && w != 0.0
    ensures IsMat(C, n, n)
    ensures productA && productB ==> C == GramCombination(A, B, n, 1.0 / w, (w - 1.0) / w)
  {
    var C1 := if productA then Spmm(1.0 / w, A, n, 0.0, ZeroMat(n)) else ZeroMat(n);
    if productB then
      ProductsGiveCombination(A, B, n, 1.0 / w, (w - 1.0) / w);
      Spmm((w - 1.0) / w, B, n, 1.0, C1)
    else C1
  }

  /** gram25_build_lp64. Only the argument check returns before the cleanup
      label. Every later exit destroys all three handles (a null one
      harmlessly), frees the row buffer and, on failure, nulls the
      outputs. */
  function Build(A: Mat, B: Mat, n: int, w: real, apNull: bool, bpNull: bool, calls: Calls): (r: Built)
    requires n > 0 ==> IsMat(A, |A|, n) && IsMat(B, |B|, n)
    requires calls.exported.Some? ==> Copyable(calls.exported.value)
    ensures w <= 0.0 || apNull || bpNull || n <= 0 <==> r.rc == E_ARG
    ensures r.rc == E_ARG ==> r.out == Untouched
    ensures r.rc != OK && r.rc != E_ARG ==> r.out == Nulled
    ensures r.rc in {OK, E_ALLOC, E_ARMPL, E_ARG}
    ensures r.rc != E_ARG && (!calls.handleA || !calls.handleB) ==> r.rc == E_ARMPL && r.value == None
    ensures r.rc != E_ARG && calls.handleA && calls.handleB && !calls.row0 ==> r.rc == E_ALLOC && r.value == None
    ensures r.rc == OK ==> calls.exported.Some? && r.out == Written(CopyCsr(calls.exported.value))
    ensures r.rc == OK && calls.productA && calls.productB
            ==> r.value == Some(GramCombination(A, B, n, 1.0 / w, (w - 1.0) / w))
    ensures r.rc == E_ARG ==> r.created == {} && !r.rowAllocated
    ensures r.rc != E_ARG ==> r.destroyed == AllHandles() && r.rowFreed
    ensures r.rc == OK ==> r.created == Created(calls, true) && r.rowAllocated
    ensures r.created <= r.destroyed && (r.rowAllocated ==> r.rowFreed)
  {
    if w <= 0.0 || apNull || bpNull || n <= 0 then Built(E_ARG, Untouched, None, {}, {}, false, false)
    else if !calls.handleA || !calls.handleB then
      Built(E_ARMPL, Nulled, None, Created(calls, false), AllHandles(), false, true)
    else if !calls.row0 then Built(E_ALLOC, Nulled, None, Created(calls, false), AllHandles(), false, true)
    else
      var value := Accumulated(A, B, n, w, calls.productA, calls.productB);
      var copy := CopyOut(calls.exported, calls.alloc);
      var created := Created(calls, true);
      if copy.0 == OK then Built(OK, Written(copy.1.value), Some(value), created, AllHandles(), true, true)
      else Built(copy.0, Nulled, Some(value), created, AllHandles(), true, true)
  }

  /** When the result handle exports well-formed storage of what it holds,
      the caller receives exactly that storage, and so the weighted Gram
      combination. */
  lemma BuildDeliversCombination(A: Mat, B: Mat, n: int, w: real, calls: Calls)
    requires n > 0 && IsMat(A, |A|, n) && IsMat(B, |B|, n)
    requires calls.exported.Some? && WellFormed(calls.exported.value)
    requires calls.productA && calls.productB
    requires Build(A, B, n, w, false, false, calls).rc == OK
    requires Dense(calls.exported.value) == Build(A, B, n, w, false, false, calls).value.value
    ensures var out := Build(A, B, n, w, false, false, calls).out;
            out.Written? && WellFormed(out.c) && Dense(out.c) == GramCombination(A, B, n, 1.0 / w, (w - 1.0) / w)
  {
  }

  /** A failed product goes unnoticed: with the second product failing, the
      build still reports success while the handle holds only the first
      term (here 1/2 instead of 1). */
  lemma FailedProductReportedOk()
    ensures var calls := Calls(true, true, true, true, true, false,
                               Some(Csr(1, 1, [0, 1], [0], [0.5])), (b: Buffer) => true);
            var r := Build([[1.0]], [[1.0]], 1, 2.0, false, false, calls);
            r.rc == OK && r.value == Some([[0.5]])
            && GramCombination([[1.0]], [[1.0]], 1, 1.0 / 2.0, (2.0 - 1.0) / 2.0) != [[0.5]]
  {
    var A: Mat := [[1.0]];
    var C1 := Spmm(1.0 / 2.0, A, 1, 0.0, ZeroMat(1));
    SpmmEntry(1.0 / 2.0, A, 1, 0.0, ZeroMat(1), 0, 0);
    assert Dot(Column(A, 0), Column(A, 0)) == 1.0 by {
      assert Column(A, 0) == [1.0];
    }
    assert C1[0][0] == 0.5;
    assert C1[0] == [0.5];
    assert C1 == [[0.5]];
    GramCombinationEntry(A, A, 1, 1.0 / 2.0, (2.0 - 1.0) / 2.0, 0, 0);
  }
}
