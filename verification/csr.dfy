/** Compressed sparse row storage as the native Gram builders hand it
    across: a three-array form (row pointers of length rows + 1, with the
    last entry the number of stored entries) and the four-array form the
    vendor libraries export (a start and an end offset per row). The dense
    meaning of a stored matrix sums the stored values at each position. */
module Csr {
  import opened Common

  /** Three-array CSR: row `i` holds the entries `rowPtr[i] .. rowPtr[i+1]`. */
  datatype Csr = Csr(rows: nat, cols: nat, rowPtr: seq<int>, colIdx: seq<int>, vals: seq<real>)

  predicate WellFormed(c: Csr)
  {
    |c.rowPtr| == c.rows + 1 && c.rowPtr[0] == 0
    && c.rowPtr[c.rows] == |c.colIdx| == |c.vals|
    && (forall i :: 0 <= i <= c.rows ==> 0 <= c.rowPtr[i] <= |c.colIdx|)
    && (forall i :: 0 <= i < c.rows ==> RowLo(c, i) <= RowHi(c, i))
    && (forall k :: 0 <= k < |c.colIdx| ==> 0 <= c.colIdx[k] < c.cols)
  }

  /** The first slot of row `i`. */
  function RowLo(c: Csr, i: nat): int
    requires i < |c.rowPtr|
  {
    c.rowPtr[i]
  }

  /** One past the last slot of row `i`. */
  function RowHi(c: Csr, i: nat): int
    requires i + 1 < |c.rowPtr|
  {
    c.rowPtr[i + 1]
  }

  /** The sum of the stored values in slots `lo .. hi` whose column is `j`. */
  function RowSum(colIdx: seq<int>, vals: seq<real>, lo: nat, hi: nat, j: int): real
    requires lo <= hi <= |colIdx| && hi <= |vals|
    decreases hi - lo
  {
    if hi == lo then 0.0
    else RowSum(colIdx, vals, lo, hi - 1, j) + (if colIdx[hi - 1] == j then vals[hi - 1] else 0.0)
  }

  /** The dense matrix a well-formed CSR stores. */
  function Dense(c: Csr): (M: Mat)
    requires WellFormed(c)
    ensures IsMat(M, c.rows, c.cols)
    ensures forall i, j :: 0 <= i < c.rows && 0 <= j < c.cols ==> M[i][j] == Entry(c, i, j)
  {
    seq(c.rows, i requires 0 <= i < c.rows => seq(c.cols, j => Entry(c, i, j)))
  }

  /** The stored value at row `i`, column `j`. */
  function Entry(c: Csr, i: nat, j: int): real
    requires WellFormed(c) && i < c.rows
  {
    RowSum(c.colIdx, c.vals, RowLo(c, i), RowHi(c, i), j)
  }

  /** What a three-array copy reads: `rows + 1` row pointers whose last
      entry bounds the index and value arrays. */
  predicate Copyable(ex: Csr)
  {
    |ex.rowPtr| >= ex.rows + 1 && 0 <= ex.rowPtr[ex.rows] <= |ex.colIdx| && ex.rowPtr[ex.rows] <= |ex.vals|
  }

  /** The three-array copy made by `copy_csr` in gram25.c and by the managed
      read-back of a native result: `rows + 1` row pointers and
      `nnz = row[rows]` column indices and values. */
  function CopyCsr(ex: Csr): (c: Csr)
    requires Copyable(ex)
    ensures c.rows == ex.rows && c.cols == ex.cols
    ensures |c.rowPtr| == c.rows + 1 && c.rowPtr[c.rows] == |c.colIdx| == |c.vals|
    ensures WellFormed(ex) ==> c == ex
  {
    var nnz := ex.rowPtr[ex.rows];
    Csr(ex.rows, ex.cols, ex.rowPtr[..ex.rows + 1], ex.colIdx[..nnz], ex.vals[..nnz])
  }

  /** Four-array CSR as exported by MKL: row `i` holds `rowStart[i] .. rowEnd[i]`. */
  datatype Export = Export(rows: nat, cols: nat, rowStart: seq<int>, rowEnd: seq<int>,
                           colIdx: seq<int>, vals: seq<real>)

  /** What the copy routines read of an export: at least one row, and the
      last row's end offset within the index and value arrays. */
  predicate Readable(ex: Export)
  {
    ex.rows >= 1 && |ex.rowStart| >= ex.rows && |ex.rowEnd| >= ex.rows
    && 0 <= ex.rowEnd[ex.rows - 1] <= |ex.colIdx| && ex.rowEnd[ex.rows - 1] <= |ex.vals|
  }

  /** The number of stored entries the copy routines take: the end of the last row. */
  function Nnz(ex: Export): (nnz: nat)
    requires Readable(ex)
    ensures nnz <= |ex.colIdx| && nnz <= |ex.vals|
  {
    ex.rowEnd[ex.rows - 1]
  }

  /** An export whose rows are stored back to back from offset 0, with every
      column in range: then its starts plus one final end form valid
      three-array row pointers. */
  predicate Contiguous(ex: Export)
  {
    Readable(ex) && |ex.rowStart| == |ex.rowEnd| == ex.rows
    && ex.rowStart == [0] + ex.rowEnd[..ex.rows - 1]
    && (forall i :: 0 <= i < ex.rows ==> 0 <= ex.rowStart[i] <= ex.rowEnd[i] <= Nnz(ex))
    && (forall k :: 0 <= k < Nnz(ex) ==> 0 <= ex.colIdx[k] < ex.cols)
  }

  /** The dense matrix a contiguous export stores. */
  function DenseOf(ex: Export): (M: Mat)
    requires Contiguous(ex)
    ensures IsMat(M, ex.rows, ex.cols)
    ensures forall i, j :: 0 <= i < ex.rows && 0 <= j < ex.cols ==> M[i][j] == ExportEntry(ex, i, j)
  {
    seq(ex.rows, i requires 0 <= i < ex.rows => seq(ex.cols, j => ExportEntry(ex, i, j)))
  }

  function ExportEntry(ex: Export, i: nat, j: int): real
    requires Readable(ex) && i < ex.rows && 0 <= ex.rowStart[i] <= ex.rowEnd[i] <= Nnz(ex)
  {
    RowSum(ex.colIdx, ex.vals, ex.rowStart[i], ex.rowEnd[i], j)
  }

  /** The three-array copy of an export with every value multiplied by
      `factor`: the row starts followed by `nnz`, and the first `nnz`
      column indices and values. */
  function CopyScaled(ex: Export, factor: real): (c: Csr)
    requires Readable(ex)
    ensures c.rows == ex.rows && c.cols == ex.cols
    ensures |c.rowPtr| == ex.rows + 1 && c.rowPtr[ex.rows] == Nnz(ex)
    ensures forall i :: 0 <= i < ex.rows ==> c.rowPtr[i] == ex.rowStart[i]
    ensures c.colIdx == ex.colIdx[..Nnz(ex)]
    ensures |c.vals| == Nnz(ex) && forall k :: 0 <= k < Nnz(ex) ==> c.vals[k] == ex.vals[k] * factor
  {
    Csr(ex.rows, ex.cols, ex.rowStart[..ex.rows] + [Nnz(ex)], ex.colIdx[..Nnz(ex)],
        seq(Nnz(ex), k requires 0 <= k < Nnz(ex) => ex.vals[k] * factor))
  }

  /** A row sum over copied indices and scaled values is the scaled row
      sum `t` of the original arrays. */
  lemma {:induction false} RowSumScaledCopy(colIdx: seq<int>, vals: seq<real>, ci: seq<int>, svals: seq<real>,
                                            factor: real, lo: nat, hi: nat, j: int, t: real)
    requires hi <= |colIdx| && hi <= |vals| && hi <= |ci| && hi <= |svals| && lo <= hi
    requires forall k :: 0 <= k < hi ==> ci[k] == colIdx[k] && svals[k] == vals[k] * factor
    requires t == RowSum(colIdx, vals, lo, hi, j)
    ensures RowSum(ci, svals, lo, hi, j) == factor * t
    decreases hi - lo
  {
    if hi > lo {
      var k := hi - 1;
      var v := if colIdx[k] == j then vals[k] else 0.0;
      var sv := if ci[k] == j then svals[k] else 0.0;
      RowSumScaledCopy(colIdx, vals, ci, svals, factor, lo, k, j, RowSum(colIdx, vals, lo, k, j));
      ScaledSumStep(factor, t, RowSum(colIdx, vals, lo, k, j), v, sv, RowSum(ci, svals, lo, k, j));
    }
  }

  /** One step of RowSumScaledCopy: the scaled prefix plus the scaled last term. */
  lemma ScaledSumStep(a: real, t: real, p: real, v: real, sv: real, sp: real)
    requires t == p + v && sv == a * v && sp == a * p
    ensures sp + sv == a * t
  {
  }

  /** The copy's row pointers end each row where the export does. */
  lemma CopyScaledRows(ex: Export, factor: real)
    requires Contiguous(ex)
    ensures WellFormed(CopyScaled(ex, factor))
    ensures forall i :: 0 <= i < ex.rows ==>
              RowLo(CopyScaled(ex, factor), i) == ex.rowStart[i]
              && RowHi(CopyScaled(ex, factor), i) == ex.rowEnd[i]
  {
    var c := CopyScaled(ex, factor);
    forall i | 0 <= i < ex.rows
      ensures RowHi(c, i) == ex.rowEnd[i]
    {
      if i < ex.rows - 1 {
        assert c.rowPtr[i + 1] == ex.rowStart[i + 1] == ex.rowEnd[i];
      }
    }
  }

  /** Each entry of the copy is the scaled entry `t` of the export. */
  lemma CopyScaledEntry(ex: Export, factor: real, i: nat, j: int, t: real)
    requires Contiguous(ex) && i < ex.rows && t == ExportEntry(ex, i, j)
    ensures WellFormed(CopyScaled(ex, factor))
    ensures Entry(CopyScaled(ex, factor), i, j) == factor * t
  {
    CopyScaledRows(ex, factor);
    ScaledRowOfCopy(ex, factor, i, j, t);
  }

  /** The copy's row-`i` slots sum to the scaled export entry `t`. */
  lemma ScaledRowOfCopy(ex: Export, factor: real, i: nat, j: int, t: real)
    requires Readable(ex) && i < ex.rows && 0 <= ex.rowStart[i] <= ex.rowEnd[i] <= Nnz(ex)
    requires t == ExportEntry(ex, i, j)
    ensures var c := CopyScaled(ex, factor);
            RowSum(c.colIdx, c.vals, ex.rowStart[i], ex.rowEnd[i], j) == factor * t
  {
    var c := CopyScaled(ex, factor);
    CopyScaledPrefix(ex, factor, ex.rowEnd[i]);
    RowSumScaledCopy(ex.colIdx, ex.vals, c.colIdx, c.vals, factor, ex.rowStart[i], ex.rowEnd[i], j, t);
  }

  /** The copy's first `hi` slots hold the export's columns and scaled values. */
  lemma CopyScaledPrefix(ex: Export, factor: real, hi: nat)
    requires Readable(ex) && hi <= Nnz(ex)
    ensures hi <= |CopyScaled(ex, factor).colIdx| && hi <= |CopyScaled(ex, factor).vals|
    ensures forall k :: 0 <= k < hi ==>
              CopyScaled(ex, factor).colIdx[k] == ex.colIdx[k] && CopyScaled(ex, factor).vals[k] == ex.vals[k] * factor
  {
  }

  /** Copying a contiguous export with a factor yields valid three-array
      storage of the scaled matrix: the sparsity pattern is kept and only the
      values change. */
  lemma CopyScaledDense(ex: Export, factor: real)
    requires Contiguous(ex)
    ensures WellFormed(CopyScaled(ex, factor))
    ensures Dense(CopyScaled(ex, factor)) == MatScale(factor, DenseOf(ex))
  {
    CopyScaledRows(ex, factor);
    forall i, j | 0 <= i < ex.rows && 0 <= j < ex.cols
      ensures Dense(CopyScaled(ex, factor))[i][j] == MatScale(factor, DenseOf(ex))[i][j]
    {
      CopyScaledDenseAt(ex, factor, i, j);
    }
    SameEntries(Dense(CopyScaled(ex, factor)), MatScale(factor, DenseOf(ex)), ex.rows, ex.cols);
  }

  /** One entry of CopyScaledDense. */
  lemma CopyScaledDenseAt(ex: Export, factor: real, i: nat, j: nat)
    requires Contiguous(ex) && i < ex.rows && j < ex.cols
    ensures WellFormed(CopyScaled(ex, factor))
    ensures Dense(CopyScaled(ex, factor))[i][j] == MatScale(factor, DenseOf(ex))[i][j]
  {
    var S := DenseOf(ex);
    CopyScaledEntry(ex, factor, i, j, S[i][j]);
    assert MatScale(factor, S)[i] == Scale(factor, S[i]);
  }
}
