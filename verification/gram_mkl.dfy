/** The MKL weighted Gram builder, Crane/native/gram_mkl/src/gram_mkl.cpp:
    `gram_mkl_build_lp64` assembles `C = (1/w) A^T A + ((w-1)/w) B^T B`
    through vendor handles and hands `C` back as freshly allocated CSR
    arrays; `copy_and_scale` and `export_csr` are its two copy helpers.

    A vendor handle is represented by the dense matrix it stores. Each
    foreign call's success is an input, in call order; the vendor's export
    of a handle is an input as well. */
module GramMkl {
  import opened Common
  import opened Csr

  const OK: int := 0
  const ERR_MKL: int := -1
  const ERR_ALLOC: int := -2
  const ERR_ARG: int := -3

  /** The three arrays a copy allocates: row pointers, columns, values. */
  datatype Buffer = RowBuf | ColBuf | ValBuf

  function AllBuffers(): set<Buffer> { {RowBuf, ColBuf, ValBuf} }

  /** The buffers the allocator grants. */
  function Granted(alloc: Buffer -> bool): (g: set<Buffer>)
    ensures g <= AllBuffers()
  {
    set b | b in AllBuffers() && alloc(b)
  }

  /** The foreign calls made by one `copy_and_scale`: the export of the
      source handle (None when it fails), the three allocations, and the
      creation of the new handle. */
  datatype ScaleCalls = ScaleCalls(exported: Option<Export>, alloc: Buffer -> bool, create: bool)

  /** copy_and_scale: a new handle with the source's row pointers and column
      indices and every value multiplied by `factor`, or None. The buffers of
      a failed attempt are freed, so nothing is left allocated either way. */
  function CopyAndScale(sc: ScaleCalls, factor: real): (res: (Option<Csr>, set<Buffer>))
    requires sc.exported.Some? ==> Readable(sc.exported.value)
    ensures res.1 == {}
    ensures res.0.Some? <==> sc.exported.Some? && Granted(sc.alloc) == AllBuffers() && sc.create
    ensures res.0.Some? ==> res.0.value == CopyScaled(sc.exported.value, factor)
  {
    match sc.exported
    case None => (None, {})
    case Some(ex) =>
      var got := Granted(sc.alloc);
      // Both failure paths free all three pointers; free of a null one does nothing.
      var freed := got;
      if got != AllBuffers() then (None, got - freed)
      else if !sc.create then (None, got - freed)
      // On success the new handle owns the three arrays, so the caller holds none.
      else (Some(CopyScaled(ex, factor)), {})
  }

  /** export_csr: the status, the copy handed to the caller, and the buffers
      it handed out. On an allocation failure the buffers already obtained
      are handed out too, and nobody frees them. */
  function ExportCsr(exported: Option<Export>, alloc: Buffer -> bool): (res: (int, Option<Csr>, set<Buffer>))
    requires exported.Some? ==> Readable(exported.value)
    ensures exported.None? ==> res == (ERR_MKL, None, {})
    ensures exported.Some? && Granted(alloc) != AllBuffers() ==> res == (ERR_ALLOC, None, Granted(alloc))
    ensures res.0 == OK <==> exported.Some? && Granted(alloc) == AllBuffers()
    ensures res.0 == OK ==>
              res.1.Some? && exported.Some? &&
              var c := res.1.value;
              |c.rowPtr| == c.rows + 1 && c.rowPtr[c.rows] == Nnz(exported.value)
              && |c.colIdx| == |c.vals| == Nnz(exported.value)
              && c.vals == exported.value.vals[..Nnz(exported.value)]
  {
    match exported
    case None => (ERR_MKL, None, {})
    case Some(ex) =>
      if Granted(alloc) != AllBuffers() then (ERR_ALLOC, None, Granted(alloc))
      else
        var c := CopyScaled(ex, 1.0);
        assert c.vals == ex.vals[..Nnz(ex)];
        (OK, Some(c), AllBuffers())
  }

  /** The foreign calls of one build, in call order: creation of handles A
      and B, the two sparse products, the two scaled copies (whose exports
      read the product handles), the sparse add, and the final export of
      the sum handle with its allocations. */
  datatype Calls = Calls(handleA: bool, handleB: bool, productA: bool, productB: bool,
                         scaleA: ScaleCalls, scaleB: ScaleCalls, add: bool,
                         exported: Option<Export>, alloc: Buffer -> bool)

  /** What the vendor's exports look like: the product handles are `n x n`
      and stored row after row, and the final export is readable. */
  predicate CallsValid(n: int, calls: Calls)
  {
    (calls.scaleA.exported.Some? ==> ProductExport(n, calls.scaleA.exported.value))
    && (calls.scaleB.exported.Some? ==> ProductExport(n, calls.scaleB.exported.value))
    && (calls.exported.Some? ==> Readable(calls.exported.value))
  }

  predicate ProductExport(n: int, ex: Export)
  {
    Contiguous(ex) && ex.rows == n && ex.cols == n
  }

  /** The products the vendor computed are the Gram matrices of A and B. */
  predicate Faithful(A: Mat, B: Mat, n: nat, calls: Calls)
    requires IsMat(A, |A|, n) && IsMat(B, |B|, n) && CallsValid(n, calls)
  {
    (calls.scaleA.exported.Some? ==> DenseOf(calls.scaleA.exported.value) == Gram(A, n))
    && (calls.scaleB.exported.Some? ==> DenseOf(calls.scaleB.exported.value) == Gram(B, n))
  }

  /** The matrix a handle made by copy_and_scale holds. */
  function HeldByCopy(ex: Export, factor: real): (M: Mat)
    requires Contiguous(ex)
    ensures M == MatScale(factor, DenseOf(ex))
  {
    CopyScaledDense(ex, factor);
    Dense(CopyScaled(ex, factor))
  }

  /** The seven vendor handles of a build. */
  datatype Handle = HandleA | HandleB | HandleAtA | HandleBtB | HandleC1 | HandleC2 | HandleC

  function AllHandles(): set<Handle>
  {
    {HandleA, HandleB, HandleAtA, HandleBtB, HandleC1, HandleC2, HandleC}
  }

  /** What the caller's three output pointers hold after the call. */
  datatype Output = Untouched | Nulled | Written(c: Csr)

  /** The status, the caller's outputs, the matrix the sum handle holds
      (when the build got that far), buffers left allocated with no owner,
      and the handles created and destroyed. */
  datatype Built = Built(rc: int, out: Output, value: Option<Mat>, leaked: set<Buffer>,
                         created: set<Handle>, destroyed: set<Handle>)

  /** The handles created before the build stops, in call order. */
  function Created(calls: Calls, c1: bool, c2: bool, stage: nat): (h: set<Handle>)
    ensures h <= AllHandles()
  {
    (if calls.handleA then {HandleA} else {})
    + (if calls.handleB then {HandleB} else {})
    + (if stage >= 1 && calls.productA then {HandleAtA} else {})
    + (if stage >= 2 && calls.productB then {HandleBtB} else {})
    + (if stage >= 3 && c1 then {HandleC1} else {})
    + (if stage >= 3 && c2 then {HandleC2} else {})
    + (if stage >= 4 && calls.add then {HandleC} else {})
  }

  /** gram_mkl_build_lp64. The argument check returns before the cleanup
      label, so only that path leaves the outputs untouched; every later
      path passes the cleanup, which destroys all seven handle variables
      (a null one harmlessly), and every later failure nulls the outputs. */
  function Build(A: Mat, B: Mat, n: int, w: real, apNull: bool, bpNull: bool, calls: Calls): (r: Built)
    requires n > 0 ==> IsMat(A, |A|, n) && IsMat(B, |B|, n)
    requires CallsValid(n, calls)
    ensures w <= 0.0 || apNull || bpNull || n <= 0 <==> r.rc == ERR_ARG
    ensures r.rc == ERR_ARG ==> r.out == Untouched && r.leaked == {} && r.created == {}
    ensures r.rc != OK && r.rc != ERR_ARG ==> r.out == Nulled
    ensures r.rc in {OK, ERR_MKL, ERR_ALLOC, ERR_ARG}
    ensures r.created <= r.destroyed
    ensures r.rc == OK ==> r.out.Written? && r.leaked == {} && r.created == AllHandles()
    ensures r.rc == OK ==>
              calls.exported.Some? &&
              var c := r.out.c;
              c.rows == calls.exported.value.rows && c.cols == calls.exported.value.cols
              && |c.rowPtr| == c.rows + 1 && c.rowPtr[c.rows] == |c.colIdx| == |c.vals|
    ensures r.rc == OK ==>
              calls.scaleA.exported.Some? && calls.scaleB.exported.Some?
              && r.value == Some(MatAdd(MatScale(1.0 / w, DenseOf(calls.scaleA.exported.value)),
                                        MatScale((w - 1.0) / w, DenseOf(calls.scaleB.exported.value)), n))
    ensures r.rc == ERR_ALLOC ==> r.leaked == Granted(calls.alloc) && r.leaked != AllBuffers()
    ensures r.rc != ERR_ALLOC ==> r.leaked == {}
    ensures r.rc != ERR_ARG && (!calls.handleA || !calls.handleB) ==> r.rc == ERR_MKL && r.value == None
  {
    if w <= 0.0 || apNull || bpNull || n <= 0 then Built(ERR_ARG, Untouched, None, {}, {}, {})
    else if !calls.handleA || !calls.handleB then
      Built(ERR_MKL, Nulled, None, {}, Created(calls, false, false, 0), AllHandles())
    else if !calls.productA then Built(ERR_MKL, Nulled, None, {}, Created(calls, false, false, 1), AllHandles())
    else if !calls.productB then Built(ERR_MKL, Nulled, None, {}, Created(calls, false, false, 2), AllHandles())
    else
      var c1 := CopyAndScale(calls.scaleA, 1.0 / w);
      var c2 := CopyAndScale(calls.scaleB, (w - 1.0) / w);
      if c1.0.None? || c2.0.None? then
        Built(ERR_MKL, Nulled, None, {}, Created(calls, c1.0.Some?, c2.0.Some?, 3), AllHandles())
      else if !calls.add then Built(ERR_MKL, Nulled, None, {}, Created(calls, true, true, 3), AllHandles())
      else
        var value := MatAdd(HeldByCopy(calls.scaleA.exported.value, 1.0 / w),
                            HeldByCopy(calls.scaleB.exported.value, (w - 1.0) / w), n);
        var e := ExportCsr(calls.exported, calls.alloc);
        if e.0 == OK then Built(OK, Written(e.1.value), Some(value), {}, Created(calls, true, true, 4), AllHandles())
        else Built(e.0, Nulled, Some(value), e.2, Created(calls, true, true, 4), AllHandles())
  }

  /** With faithful products, the sum handle holds the weighted Gram
      combination `(1/w) A^T A + ((w-1)/w) B^T B`. */
  lemma BuildValue(A: Mat, B: Mat, n: nat, w: real, calls: Calls)
    requires n > 0 && IsMat(A, |A|, n) && IsMat(B, |B|, n) && CallsValid(n, calls) && Faithful(A, B, n, calls)
    requires Build(A, B, n, w, false, false, calls).rc == OK
    ensures Build(A, B, n, w, false, false, calls).value == Some(GramCombination(A, B, n, 1.0 / w, (w - 1.0) / w))
  {
  }

  /** The native result is symmetric whenever the build succeeds with
      faithful products. */
  lemma BuildSymmetric(A: Mat, B: Mat, n: nat, w: real, calls: Calls)
    requires n > 0 && IsMat(A, |A|, n) && IsMat(B, |B|, n) && CallsValid(n, calls) && Faithful(A, B, n, calls)
    requires Build(A, B, n, w, false, false, calls).rc == OK
    ensures var C := Build(A, B, n, w, false, false, calls).value.value;
            forall i, j :: 0 <= i < n && 0 <= j < n ==> C[i][j] == C[j][i]
  {
    BuildValue(A, B, n, w, calls);
    GramCombinationSymmetric(A, B, n, 1.0 / w, (w - 1.0) / w);
  }

  /** When the final export describes what the sum handle holds, the caller
      receives well-formed three-array storage of the weighted Gram
      combination. */
  lemma BuildDeliversCombination(A: Mat, B: Mat, n: nat, w: real, calls: Calls)
    requires n > 0 && IsMat(A, |A|, n) && IsMat(B, |B|, n) && CallsValid(n, calls) && Faithful(A, B, n, calls)
    requires calls.exported.Some? && Contiguous(calls.exported.value)
    requires Build(A, B, n, w, false, false, calls).rc == OK
    requires DenseOf(calls.exported.value) == Build(A, B, n, w, false, false, calls).value.value
    ensures var out := Build(A, B, n, w, false, false, calls).out;
            out.Written? && WellFormed(out.c) && Dense(out.c) == GramCombination(A, B, n, 1.0 / w, (w - 1.0) / w)
  {
    BuildValue(A, B, n, w, calls);
    var ex := calls.exported.value;
    assert Build(A, B, n, w, false, false, calls).out == Written(CopyScaled(ex, 1.0));
    CopyScaledDense(ex, 1.0);
    MatScaleOne(DenseOf(ex));
  }
}
