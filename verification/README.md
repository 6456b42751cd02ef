# Crane, modelled in Dafny

Crane is a Grasshopper plug-in for designing and simulating rigid origami.
A crease pattern is a mesh with labelled edges: mountain, valley,
triangulated, unassigned and boundary. Constraints such as rigid panels,
fold-angle limits, edge lengths and symmetries each give an error vector
and a sparse Jacobian. The solver stacks these, takes Newton steps with
CGNR, and records every frame so the user can undo and redo. Native
libraries (MKL, ArmPL) supply the weighted Gram matrix and the CG and CGNR
solvers. The pattern generators (star, truncated star, tessellations on
surfaces), the mesh welding and unwelding helpers, the paper-network
extraction and the FOLD file mapping are built on the same mesh.

This project states the logic of those parts in Dafny and proves what
they promise. Arithmetic is exact (`real` and unbounded `int`).
Everything Rhino, MathNet or the vendor libraries compute is a parameter
of the model: normals, angles, distances, sparse products, allocations
and the success of each foreign call.

Conventions shared by the modules:

- **The mesh.** A mesh's coordinates are one flat vector: vertex `v`,
  coordinate `k` at `3v + k`, as `CMesh.MeshVerticesVector` lays them out.
- **Jacobians.** A Jacobian is a `SparseBuilder.Builder`: a row count, a
  column count and a list of (row, column, value) elements. Its value at a
  position is the sum of the elements stored there (`Constraint.EntryAt`).
- **Stencils.** A constraint row's gradient is given as a stencil: the
  vertices it touches, each with a gradient. `Constraint.Directional` is
  the derivative a stencil predicts along one coordinate.
- **Exact gradients.** For errors that are quadratic in each coordinate,
  "the gradient is exact" means that moving a coordinate by `+t` and `-t`
  changes the error row by exactly `2t` times the stored entry. Errors
  that are linear or trilinear in each coordinate use a one-sided
  difference `t` instead.
- **Failures.** An IEEE infinity or NaN, a thrown exception and a null
  result are an `Option`'s `None` or a named outcome.
- **Tessellation numbering.** The surface tessellation numbers its points
  u-major but offsets its faces v-major. Each face block is still built
  from one unit cell's faces, and blocks map one-to-one to cells, so the
  face list is a relabelling of the cells. `SurfaceTessellation.FacesUseOtherCellsPoints`
  states which points a cell's faces read.

## Model

| member | source | states |
|---|---|---|
| `CgnrMkl.NormOrOne` | Crane/native/cgnr_mkl/src/cgnr_mkl.cpp:59 | the scaling norm is never zero and equals the norm whenever that is nonzero |
| `CgnrMkl.CgnrLoop` | Crane/native/cgnr_mkl/src/cgnr_mkl.cpp:62-97 | the CGNR loop keeps `r = b - A x`; it stops converged only below the relative tolerance, stops with counter `-ERR_MKL` on a zero `q.q` or a failed product, and otherwise runs the counter up to `maxIter` |
| `CgnrMkl.CgnrRunOf` | Crane/native/cgnr_mkl/src/cgnr_mkl.cpp:29-101 | early exits hold nothing; a run that reaches the loop had valid sizes and pointers; convergence means the relative residual test holds; breakdown leaves counter 1 and exhaustion leaves `maxIter` |
| `CgnrMkl.CgnrSolve` | Crane/native/cgnr_mkl/src/cgnr_mkl.cpp:18-104 | as written: bad arguments give ERR_ALLOC, a failed handle ERR_MKL and a failed allocation ERR_ALLOC; after the loop the code is OK exactly when `maxIter >= 1`, whatever the loop's exit; every path frees everything |
| `CgnrMkl.CgnrSolveCorrected` | Crane/native/cgnr_mkl/src/cgnr_mkl.cpp:99-103 | with the status derived from the exit, OK is returned exactly on convergence, and then the relative residual is below the tolerance |
| `CgnrMkl.CgnrIgnoresInitialGuess` | Crane/native/cgnr_mkl/src/cgnr_mkl.cpp:51 | the solver's result does not depend on the caller's initial `x`, which is zeroed before the loop |
| `CgnrMkl.CgnrBreakdownReportedOk` | Crane/native/cgnr_mkl/src/cgnr_mkl.cpp:70-103 | for the zero 1x1 matrix the loop breaks down on `q.q = 0` and the call still returns OK |
| `CgnrMkl.CgnrBreakdownReportedCorrected` | Crane/native/cgnr_mkl/src/cgnr_mkl.cpp:103 | under the corrected status the same breakdown returns NO_CONV |
| `CgnrMkl.UpperSymmetric` | Crane/native/cgnr_mkl/src/cgnr_mkl.cpp:128-130 | the matrix the symmetric, upper-fill descriptor multiplies by: each entry comes from the upper triangle |
| `CgnrMkl.UpperSymmetricIffSymmetric` | Crane/native/cgnr_mkl/src/cgnr_mkl.cpp:128-130 | that matrix is always symmetric, and it equals `A` exactly when `A` is symmetric |
| `CgnrMkl.CgLoop` | Crane/native/cgnr_mkl/src/cgnr_mkl.cpp:144-168 | the CG loop on the upper-symmetric matrix stops converged only when the relative residual test holds, stops on a zero `p.Ap` as a division by zero, and otherwise exhausts `maxIter` |
| `CgnrMkl.CgSolve` | Crane/native/cgnr_mkl/src/cgnr_mkl.cpp:111-171 | -1 for bad arguments, -2 for a failed handle, -3 exactly when an allocation fails (leaking the vectors obtained), 0 exactly on convergence and 1 exactly on exhaustion |
| `CgnrMkl.CgZeroRightHandSideDividesByZero` | Crane/native/cgnr_mkl/src/cgnr_mkl.cpp:138-150 | with `b = 0` the first step divides by `p.Ap = 0` |
| `CgnrArmpl.Granted` | Crane/native/cgnr_armpl/src/cgnr_solver.c:38-42 | the number of leading work vectors that are allocated before the first failure |
| `CgnrArmpl.Leaked` | Crane/native/cgnr_armpl/src/cgnr_solver.c:8-9 | an early `return -1` from NEWVEC leaves the handle and exactly the vectors already allocated |
| `CgnrArmpl.CgnrLoop` | Crane/native/cgnr_armpl/src/cgnr_solver.c:53-73 | the CGNR loop stops converged only when `sqrt(rho) <= tol`, reports a zero `q.q` as the breakdown counter -3, and otherwise exhausts `maxit` |
| `CgnrArmpl.CgnrRunOf` | Crane/native/cgnr_armpl/src/cgnr_solver.c:34-77 | a failed handle returns -1 holding nothing; a failed allocation returns -1 leaking what was obtained; a run that completes yields an `n`-vector with its exit's counter |
| `CgnrArmpl.CgnrSolve` | Crane/native/cgnr_armpl/src/cgnr_solver.c:30-82 | as written: every completed run frees everything; exhaustion returns -2, breakdown -3, and a non-negative code implies convergence |
| `CgnrArmpl.CgnrSolveCorrected` | Crane/native/cgnr_armpl/src/cgnr_solver.c:79-81 | with the corrected status a code is non-negative exactly on convergence |
| `CgnrArmpl.CgnrOneStepSolves` | Crane/native/cgnr_armpl/src/cgnr_solver.c:44-73 | for `A = [1]`, `b = [1]` and one permitted iteration, the run converges after one step to `x = [1]` |
| `CgnrArmpl.CgnrLastIterationReportedAsNoConvergence` | Crane/native/cgnr_armpl/src/cgnr_solver.c:68-79 | that converged run is reported as -2, "not converged" |
| `CgnrArmpl.CgnrLastIterationCorrected` | Crane/native/cgnr_armpl/src/cgnr_solver.c:79-81 | under the corrected status the same run reports one iteration |
| `CgnrArmpl.CgStart` | Crane/native/cgnr_armpl/src/cg_solver.c:24-30 | the start keeps `x0`, sets the residual to `b - A x0` and the first direction to `b` |
| `CgnrArmpl.CgStartDirection` | Crane/native/cgnr_armpl/src/cg_solver.c:25-28 | the first direction equals the first residual exactly when `A x0 = 0` |
| `CgnrArmpl.CgLoop` | Crane/native/cgnr_armpl/src/cg_solver.c:32-51 | the CG loop stops converged only when `sqrt(rsold) <= tol`, a zero `p.Ap` is a division by zero, and otherwise it exhausts `maxit` |
| `CgnrArmpl.CgSolve` | Crane/native/cgnr_armpl/src/cg_solver.c:13-58 | -1 for a failed handle or allocation, -2 on exhaustion, a non-negative count only on convergence, and never -3 |
| `CgnrArmpl.CgSolveCorrected` | Crane/native/cgnr_armpl/src/cg_solver.c:56-57 | with the corrected status a code is non-negative exactly on convergence |
| `CgnrArmpl.CgLastIterationReportedAsNoConvergence` | Crane/native/cgnr_armpl/src/cg_solver.c:45-56 | a run that converges on its last permitted iteration returns -2, and returns 1 under the corrected status |
| `GramMkl.Granted` | Crane/native/gram_mkl/src/gram_mkl.cpp:38-41 | the buffers the allocator grants are among the three a copy asks for |
| `GramMkl.CopyAndScale` | Crane/native/gram_mkl/src/gram_mkl.cpp:25-55 | a copy exists exactly when the export, all three allocations and the creation succeed; it then holds the export's row pointers and columns with every value times the factor; no buffer is left held |
| `GramMkl.ExportCsr` | Crane/native/gram_mkl/src/gram_mkl.cpp:58-78 | a failed export gives ERR_MKL, a failed allocation gives ERR_ALLOC and keeps the buffers obtained, and OK hands back a well-shaped copy with `rowPtr[rows] = nnz` |
| `GramMkl.HeldByCopy` | Crane/native/gram_mkl/src/gram_mkl.cpp:46 | the matrix a scaled copy holds is the factor times the exported matrix |
| `GramMkl.Created` | Crane/native/gram_mkl/src/gram_mkl.cpp:90-120 | the handles created before the build stops are among its seven handles |
| `GramMkl.Build` | Crane/native/gram_mkl/src/gram_mkl.cpp:82-132 | a bad weight, null row pointers or `n <= 0` give ERR_ARG exactly and touch nothing; every created handle is destroyed; any other failure nulls the outputs; on success the sum handle holds `(1/w) AᵀA + ((w-1)/w) BᵀB` as computed from the two exported products; only a failed final allocation leaks |
| `GramMkl.BuildValue` | Crane/native/gram_mkl/src/gram_mkl.cpp:100-120 | when the vendor's products are `AᵀA` and `BᵀB`, a successful build holds the weighted Gram combination |
| `GramMkl.BuildSymmetric` | Crane/native/gram_mkl/src/gram_mkl.cpp:100-120 | that result is symmetric |
| `GramMkl.BuildDeliversCombination` | Crane/native/gram_mkl/src/gram_mkl.cpp:122-131 | when the final export describes the sum handle, the caller receives well-formed three-array storage of the weighted Gram combination |
| `Gram25.ZeroMat` | Crane/native/grammix/src/gram25.c:67-74 | the empty growable handle is the `n x n` zero matrix |
| `Gram25.SpmmEntry` | Crane/native/grammix/src/gram25.c:84-88 | entry `(i, j)` of `alpha AᵀA + beta C` is alpha times the dot product of columns `i` and `j`, plus beta times `C[i][j]` |
| `Gram25.ProductsGiveCombination` | Crane/native/grammix/src/gram25.c:76-103 | the product into the empty handle followed by the accumulating product gives `c1 AᵀA + c2 BᵀB` |
| `Gram25.CopyOut` | Crane/native/grammix/src/gram25.c:28-47 | E_ARMPL exactly when the export fails, E_ALLOC exactly when an allocation fails, and OK hands back a verbatim copy |
| `Gram25.Accumulated` | Crane/native/grammix/src/gram25.c:76-103 | with both products performed, the result handle holds the weighted Gram combination |
| `Gram25.Build` | Crane/native/grammix/src/gram25.c:50-115 | E_ARG exactly for bad arguments, before any handle or buffer exists; a failed handle gives E_ARMPL and a failed `row0` gives E_ALLOC; every later exit destroys all three handles and frees `row0`, so every handle created is destroyed and the row buffer never outlives the call; other failures null the outputs; OK writes the exported copy, which is the weighted Gram combination when both products ran |
| `Gram25.Created` | Crane/native/grammix/src/gram25.c:62-74 | handles A and B exist exactly when their creation succeeded, and the result handle only once the row buffer was allocated and its creation succeeded |
| `Gram25.BuildDeliversCombination` | Crane/native/grammix/src/gram25.c:105-114 | when the export describes the result handle, the caller receives well-formed storage of the weighted Gram combination |
| `Gram25.FailedProductReportedOk` | Crane/native/grammix/src/gram25.c:99-106 | a failed second product goes unnoticed: the build reports OK while holding only the first term |
| `Csr.Dense` | Crane/native/grammix/src/gram25.c:28-46 | the dense matrix of three-array storage: each entry is the sum of the row's stored values in that column |
| `Csr.CopyCsr` | Crane/native/grammix/src/gram25.c:34-46 | the copy keeps the shape, ends with `rowPtr[rows] = nnz`, and of well-formed storage is the storage itself |
| `Csr.Nnz` | Crane/native/gram_mkl/src/gram_mkl.cpp:35 | the number of entries copied is the end of the last row, within the exported arrays |
| `Csr.DenseOf` | Crane/native/gram_mkl/src/gram_mkl.cpp:28-35 | the dense matrix of a four-array export: each entry sums the values in that row's `rowStart .. rowEnd` slots |
| `Csr.CopyScaled` | Crane/native/gram_mkl/src/gram_mkl.cpp:35-46 | the scaled copy keeps the row starts and columns, ends at `nnz` and multiplies every value by the factor |
| `Csr.CopyScaledDense` | Crane/native/gram_mkl/src/gram_mkl.cpp:35-54 | the scaled copy of a contiguous export is well formed and holds the factor times the exported matrix |
| `Csr.CopyScaledEntry` | Crane/native/gram_mkl/src/gram_mkl.cpp:43-46 | each entry of the scaled copy is the factor times the exported entry |
| `LinearAlgebra.GramKernel` | Crane/Core/LinearAlgebra.cs:15-123 | `Gram` calls the native builder exactly on Windows x64 and never the ArmPL one |
| `LinearAlgebra.SolveKernel` | Crane/Core/LinearAlgebra.cs:126-156 | `Solve` and `SolveSym` use MKL exactly on Windows x64 and ArmPL exactly on macOS Arm64 |
| `LinearAlgebra.KernelsAgreeExceptMacArm` | Crane/Core/LinearAlgebra.cs:70-145 | the Gram product and the solves run on the same kernel except on macOS Arm64 |
| `LinearAlgebra.NativeGram` | Crane/Core/LinearAlgebra.cs:20-64 | a non-positive weight throws out-of-range, a null row pointer throws null-argument, a nonzero native code throws invalid-operation; a result exists exactly when the native build succeeds, and it is `n x n` |
| `LinearAlgebra.NativeGramValue` | Crane/Core/LinearAlgebra.cs:39-64 | when the native export describes its handle, the managed read-back is `(1/w) AᵀA + ((w-1)/w) BᵀB` |
| `LinearAlgebra.ManagedGram` | Crane/Core/LinearAlgebra.cs:68 | the managed expression never throws and is non-finite exactly when `w = 0` |
| `LinearAlgebra.ManagedGramCorrected` | Crane/Core/LinearAlgebra.cs:68 | the managed expression with the native coefficient `(w-1)/w`: non-finite exactly when `w = 0` |
| `LinearAlgebra.ManagedGramCorrectedMatchesNative` | Crane/Core/LinearAlgebra.cs:39-68 | the corrected managed path gives the same matrix as the native path whenever the native build succeeds |
| `LinearAlgebra.CoefficientSignEntry` | Crane/Core/LinearAlgebra.cs:68 | `((1-w)/w) g = ((w-1)/w) g` exactly when `w = 1` or `g = 0` |
| `LinearAlgebra.ManagedGramSignMismatch` | Crane/Core/LinearAlgebra.cs:68 | the managed expression as written equals the corrected one exactly when `w = 1` or `BᵀB = 0` |
| `LinearAlgebra.ManagedGramSignExample` | Crane/Core/LinearAlgebra.cs:68 | for `A = B = [1]` and `w = 2` the corrected expression gives `[1]` while the expression as written gives `[0]` |
| `LinearAlgebra.GramDispatch` | Crane/Core/LinearAlgebra.cs:15-125 | as written: a non-positive weight throws on the native path, while the managed path never throws and computes a matrix for every negative weight |
| `LinearAlgebra.GramDispatchCorrected` | Crane/Core/LinearAlgebra.cs:15-125 | with the managed coefficient corrected, every managed result is the weighted Gram combination the native builders compute |
| `LinearAlgebra.ManagedCap` | Crane/Core/LinearAlgebra.cs:164-166 | the cap is the smaller of `iterationMax` and one more than the smaller dimension |
| `LinearAlgebra.ManagedCgnrLoop` | Crane/Core/LinearAlgebra.cs:166-177 | a finite result has stopped at the cap or with `\|b - A x\| <= threshold`; the step count never exceeds the cap |
| `LinearAlgebra.SolveManaged` | Crane/Core/LinearAlgebra.cs:157-179 | a finite result has `n` entries |
| `LinearAlgebra.SolveManagedStops` | Crane/Core/LinearAlgebra.cs:166 | a managed CGNR result that stopped before the cap meets the residual threshold |
| `LinearAlgebra.SolveManagedKeepsGoodGuess` | Crane/Core/LinearAlgebra.cs:159-166 | a guess that already meets the threshold, or a cap of zero, is returned unchanged |
| `LinearAlgebra.SolveManagedNonFiniteAtLeastSquaresOptimum` | Crane/Core/LinearAlgebra.cs:166-175 | for `A = [0]`, `b = [1]` the loop starts although `Aᵀr = 0`, computes `0/0` and returns a non-finite vector |
| `LinearAlgebra.ManagedCgLoop` | Crane/Core/LinearAlgebra.cs:278-289 | a finite result has stopped at the cap or with `\|b - A x\| <= threshold` |
| `LinearAlgebra.ResidualAtZero` | Crane/Core/LinearAlgebra.cs:269-272 | the residual of the zero start is `b`, as the managed CG assumes |
| `LinearAlgebra.SolveSymManaged` | Crane/Core/LinearAlgebra.cs:267-292 | a finite result has `n` entries |
| `LinearAlgebra.Solve` | Crane/Core/LinearAlgebra.cs:126-209 | the native paths always hand back the solution buffer, whatever their status |
| `LinearAlgebra.SolveReturnsGuessOnNativeFailure` | Crane/Core/LinearAlgebra.cs:180-209 | because the native status is discarded, a native failure before any work returns the caller's guess |
| `LinearAlgebra.SolveSym` | Crane/Core/LinearAlgebra.cs:211-265 | a finite result has `n` entries |
| `LinearAlgebra.SolveSymStartsFromZero` | Crane/Core/LinearAlgebra.cs:242-265 | a native failure before any work returns the zero start vector |
| `LinearAlgebra.SolveSymZeroRightHandSide` | Crane/Core/LinearAlgebra.cs:211-292 | with `b = 0` the managed and ArmPL paths return zero, while the MKL path divides by zero |
| `Krylov.Residual` | Crane/native/cgnr_armpl/src/cgnr_solver.c:44-47 | the residual `b - A x` has one entry per row |
| `Krylov.Obtained` | Crane/native/cgnr_mkl/src/cgnr_mkl.cpp:44-48 | the work vectors obtained are among those requested |
| `Krylov.CgnrRhoNonZero` | Crane/native/cgnr_mkl/src/cgnr_mkl.cpp:70-91 | when `q.q` is nonzero, `rho` is nonzero too, so `beta = rho_new / rho` is defined |
| `Krylov.CgnrNextInv` | Crane/native/cgnr_mkl/src/cgnr_mkl.cpp:73-96 | one CGNR step keeps `r = b - A x`, `z = Aᵀr` and `rho = z.z` |
| `Krylov.ResidualStep` | Crane/native/cgnr_mkl/src/cgnr_mkl.cpp:75-79 | updating `r -= alpha A p` alongside `x += alpha p` keeps `r = b - A x` exactly |
| `SparseBuilder.New` | Crane/Core/SparseMatrixBuilder.cs:12-17 | a new builder has no rows, the given columns and no elements |
| `SparseBuilder.Shifted` | Crane/Core/SparseMatrixBuilder.cs:38-41 | every element moves down by the offset, with its column and value unchanged |
| `SparseBuilder.Append` | Crane/Core/SparseMatrixBuilder.cs:31-44 | a different column count is the exception; otherwise the old elements stay first, the new ones follow shifted by the old row count, and the rows grow by exactly `rows` |
| `SparseBuilder.AppendBuilder` | Crane/Core/SparseMatrixBuilder.cs:27-30 | appending a builder fails exactly on a column mismatch, adds its rows and elements, and keeps the existing elements as a prefix |
| `SparseBuilder.BuildShape` | Crane/Core/SparseMatrixBuilder.cs:22-25 | the matrix is built, `rows x columns`, exactly when every element lies inside it |
| `SparseBuilder.AppendKeepsInRange` | Crane/Core/SparseMatrixBuilder.cs:35-44 | stacking two in-range builders with equal columns gives an in-range builder |
| `SparseBuilder.AppendEmptyBlock` | Crane/Core/SparseMatrixBuilder.cs:35-44 | a block without elements only adds rows |
| `SparseBuilder.ShiftedShifted` | Crane/Core/SparseMatrixBuilder.cs:40 | two shifts add up |
| `SparseBuilder.AppendAssociative` | Crane/Core/SparseMatrixBuilder.cs:27-44 | appending `x` then `y` gives the same builder as appending the stack of `x` and `y` |
| `RigidOrigami.FromMesh` | Crane/Core/RigidOrigami.cs:44-60 | a new solver records exactly one frame, the mesh, shows it, and has every mode and switch off |
| `RigidOrigami.CopyOf` | Crane/Core/RigidOrigami.cs:23-42 | the copy keeps the frames, modes and record switch, clears fold and unfold, and shows frame 0 |
| `RigidOrigami.SaveModes` | Crane/Core/RigidOrigami.cs:549-555 | the four modes take the given values and nothing else changes |
| `RigidOrigami.RecordFrame` | Crane/Core/RigidOrigami.cs:537-545 | as written: the new frame is last; when the cursor is before the last frame everything from the cursor on is removed, otherwise all frames are kept |
| `RigidOrigami.RecordFrameCorrected` | Crane/Core/RigidOrigami.cs:537-545 | the corrected recording keeps the frames up to and including the one on show and then adds the new frame |
| `RigidOrigami.RecordFrameCorrectedUndoReturns` | Crane/Core/RigidOrigami.cs:539-544 | after the corrected recording one undo step returns to the frame the solve started from |
| `RigidOrigami.RecordFrameAgreesOnLastFrame` | Crane/Core/RigidOrigami.cs:539-543 | on the last frame the two recordings agree |
| `RigidOrigami.RecordFrameLosesShownFrame` | Crane/Core/RigidOrigami.cs:539-543 | for every cursor before the last frame, the recording as written is one frame shorter than the corrected one, so one undo step lands before the frame on show; with distinct frames that frame is gone |
| `RigidOrigami.RecordFrameDropsShownFrame` | Crane/Core/RigidOrigami.cs:539-543 | with frames `a, b, c` and `b` on show, recording `g` leaves `a, g` |
| `RigidOrigami.ComputeError` | Crane/Core/RigidOrigami.cs:93-133 | the error starts with one 0 entry, followed by the active groups in order; with every mode off it is just `[0]` |
| `RigidOrigami.AppendBlock` | Crane/Core/RigidOrigami.cs:137-152 | an append succeeds exactly when the block's columns match the builder's, and then adds the block's rows |
| `RigidOrigami.AppendBlocks` | Crane/Core/RigidOrigami.cs:166-169 | a list of appends succeeds exactly when every block's columns match |
| `RigidOrigami.FixedBlocks` | Crane/Core/RigidOrigami.cs:136-152 | the fixed groups stack on a builder with the solver's columns |
| `RigidOrigami.ComputeJacobian` | Crane/Core/RigidOrigami.cs:134-173 | the Jacobian builds exactly when every active block has the solver's column count |
| `RigidOrigami.AppendBlockFits` | Crane/Core/RigidOrigami.cs:137-152 | appending a fitting block keeps all elements in range and below the leading row |
| `RigidOrigami.FixedBlocksFit` | Crane/Core/RigidOrigami.cs:136-152 | the fixed groups stack below the leading row, one row per error entry |
| `RigidOrigami.JacobianMatchesError` | Crane/Core/RigidOrigami.cs:93-173 | when every block fits, the Jacobian builds with one row per error entry and the solver's columns, and nothing sits in its leading row |
| `RigidOrigami.ComputeResidual` | Crane/Core/RigidOrigami.cs:482-489 | the residual is never negative |
| `RigidOrigami.ResidualExact` | Crane/Core/RigidOrigami.cs:482-489 | with an exact square root the residual is `\|e\|² / len(e)²`, and it is zero exactly when the error vanishes |
| `RigidOrigami.IndexOf` | Crane/Core/RigidOrigami.cs:393-401 | the first position of a vertex in the list, or -1 exactly when it is absent |
| `RigidOrigami.GrabMotion` | Crane/Core/RigidOrigami.cs:388-412 | no forces give the zero vector; a shorter force list or an out-of-range vertex throws; otherwise force `i` lands on the three coordinates of vertex `ids[i]` and every other entry is zero |
| `RigidOrigami.FoldForce` | Crane/Core/RigidOrigami.cs:317-342 | one force per inner edge, zero on every edge that is neither mountain nor valley |
| `RigidOrigami.UnfoldForce` | Crane/Core/RigidOrigami.cs:343-368 | one force per inner edge, zero on every edge that is neither mountain nor valley |
| `RigidOrigami.SwapMountainValley` | Crane/Core/RigidOrigami.cs:326-333 | mountain and valley labels are exchanged and every other label is kept |
| `RigidOrigami.ForceMountainValleyOpposite` | Crane/Core/RigidOrigami.cs:317-368 | swapping mountains and valleys negates both the fold and the unfold driving force |
| `RigidOrigami.DrivingForce` | Crane/Core/RigidOrigami.cs:374-382 | fold wins over unfold, and with neither the driving force is zero |
| `RigidOrigami.FoldMotionMatrix` | Crane/Core/RigidOrigami.cs:305-311 | the fold-motion matrix is symmetric and is the corrected weighted Gram combination with weight 10 |
| `RigidOrigami.FoldMotion` | Crane/Core/RigidOrigami.cs:369-387 | a finite motion has one entry per coordinate |
| `RigidOrigami.NoCreasesNoLoad` | Crane/Core/RigidOrigami.cs:312-342 | without mountain and valley edges the right-hand side `Fᵀf` is zero |
| `RigidOrigami.FoldMotionWithoutCreasesManaged` | Crane/Core/RigidOrigami.cs:369-387 | folding with no creases on the managed solver gives the zero motion |
| `RigidOrigami.FoldMotionWithoutCreasesMkl` | Crane/Core/RigidOrigami.cs:369-387 | the same fold on the MKL solver gives a non-finite motion |
| `RigidOrigami.InitialCap` | Crane/Core/RigidOrigami.cs:513 | the initial-move cap is the smallest of the caller's cap and one less than each Jacobian dimension |
| `RigidOrigami.StepCap` | Crane/Core/RigidOrigami.cs:526 | the Newton-step cap is the smallest of the caller's cap and the two Jacobian dimensions |
| `RigidOrigami.InitialMoveWithOnlyDummyRow` | Crane/Core/RigidOrigami.cs:511-515 | with only the leading dummy row the requested move passes through the managed solver unchanged |
| `RigidOrigami.NRSolve` | Crane/Core/RigidOrigami.cs:504-547 | Newton steps run only while the residual exceeds the threshold and stop at the cap; the caps used are the initial cap and then one step cap per step; the final mesh is recorded as written, the cursor is on it, and nothing else changes |
| `InteractiveSolver.Undo` | Crane/Components/Solver/CraneInteractiveSolver.cs:177-184 | undo steps back one frame and shows it, does nothing on the first frame, and changes nothing but the cursor and the mesh on show |
| `InteractiveSolver.Redo` | Crane/Components/Solver/CraneInteractiveSolver.cs:185-193 | redo steps forward one frame and shows it, does nothing on the last frame, and changes nothing but the cursor and the mesh on show |
| `InteractiveSolver.UndoRedo` | Crane/Components/Solver/CraneInteractiveSolver.cs:177-193 | one tick's requests keep the recorded frames, keep the shown mesh in step with the cursor, and move the cursor by at most one |
| `InteractiveSolver.RedoAfterUndo` | Crane/Components/Solver/CraneInteractiveSolver.cs:177-193 | a redo undoes an undo that moved |
| `InteractiveSolver.UndoAfterRedo` | Crane/Components/Solver/CraneInteractiveSolver.cs:177-193 | an undo undoes a redo that moved |
| `InteractiveSolver.BothRequestsOnFirstFrame` | Crane/Components/Solver/CraneInteractiveSolver.cs:177-193 | on the first frame, undo and redo in one tick move forward one frame, while redo followed by undo would return |
| `InteractiveSolver.Reset` | Crane/Components/Solver/CraneInteractiveSolver.cs:150-154 | reset starts a fresh solver on the input mesh with one frame and keeps the current modes |
| `InteractiveSolver.FoldSpeed` | Crane/Components/Solver/CraneInteractiveSolver.cs:142 | the fold-speed input is divided by 50 |
| `InteractiveSolver.Decide` | Crane/Components/Solver/CraneInteractiveSolver.cs:171-248 | a tick freezes exactly when the residual is at least 1e5; it runs a Newton solve exactly when there is a move or excess residual and either the last solve was above the threshold, a fold or grab is on, or constraints are active, so the rigid mode does not matter; it moves directly exactly when there is a move and none of these holds; it idles otherwise, and stops the timer exactly below the threshold with grab mode and fold off |
| `CMesh.SplitFace` | Crane/Core/CMesh.cs:371-400 | a quad becomes two triangles cut along the longer diagonal (0-2 on a tie) that between them use exactly the quad's corners and directed edges plus the diagonal both ways; a triangle is kept unchanged and draws no diagonal |
| `CMesh.Triangulate` | Crane/Core/CMesh.cs:362-407 | the new face list has one more face per quad, contains no quads, and one diagonal is drawn per quad |
| `CMesh.TriangulateDiagonals` | Crane/Core/CMesh.cs:374-395 | every diagonal returned joins two opposite corners of some input quad |
| `CMesh.EdgeIndex` | Crane/Core/CMesh.cs:220 | the edge index found joins the two vertices in either direction, and -1 is returned exactly when no edge joins them |
| `CMesh.Endpoints` | Crane/Core/CMesh.cs:199-220 | the start index is -1 or a point near the line's start, and the end index is -1 or a point near its end but not near its start |
| `CMesh.FindEndpoints` | Crane/Core/CMesh.cs:199-220 | the search loop settles on the endpoints the stop-at-second-hit definition gives; the start index is near the line's start and the end index is near its end but not its start, or -1 |
| `CMesh.HitsStep` | Crane/Core/CMesh.cs:204-219 | one more vertex adds a hit exactly when it is near either end, and updates the last start hit and the last end-only hit accordingly |
| `CMesh.EndpointsOfCleanLine` | Crane/Core/CMesh.cs:199-220 | with one vertex near each end, distinct, the search finds exactly those two vertices |
| `CMesh.DoubleStartHit` | Crane/Core/CMesh.cs:206-215 | a vertex near both ends followed by a second vertex near the start gives the second vertex as start and no end |
| `CMesh.InitialLabels` | Crane/Core/CMesh.cs:181-192 | every edge starts as 'T' inside an n-gon and as 'U' otherwise |
| `CMesh.Apply` | Crane/Core/CMesh.cs:220-224 | exactly the named edges take the new label and every other edge keeps its label |
| `CMesh.LineTargets` | Crane/Core/CMesh.cs:194-225 | each input line names the edge joining the endpoints its search found, or -1 |
| `CMesh.DiagonalTargets` | Crane/Core/CMesh.cs:258-268 | each triangulation diagonal names the edge joining its two corners, or -1 |
| `CMesh.MarkBoundary` | Crane/Core/CMesh.cs:303-312 | exactly the edges with one face become 'B'; the others keep their label |
| `CMesh.EdgeLabelPrecedence` | Crane/Core/CMesh.cs:181-312 | each edge's label comes from the last rule that names it: boundary first, then flat lines and triangulation diagonals ('T'), then valley lines, then mountain lines, then the initial label |
| `CMesh.EdgeLabelsAlphabet` | Crane/Core/CMesh.cs:181-312 | every label is M, V, T, U or B, and 'B' marks exactly the edges with one face |
| `CMesh.EdgeLabels` | Crane/Core/CMesh.cs:305-312 | an edge with exactly one face is labelled boundary, whatever the fold lines say about it |
| `CMesh.InnerEdgeIds` | Crane/Core/CMesh.cs:303-312 | the inner edges are exactly the edges with more than one face, in increasing order |
| `CMesh.InnerAssignment` | Crane/Core/CMesh.cs:467-478 | the inner assignment is no longer than the labels and holds no 'B' |
| `CMesh.InnerAssignmentKeepsLabels` | Crane/Core/CMesh.cs:467-478 | the inner assignment holds every label but 'B' exactly as often as the labels do |
| `CMesh.InnerAssignmentAligned` | Crane/Core/CMesh.cs:467-478 | on a mesh whose boundary is labelled, entry k of the inner assignment is the label of the k-th inner edge |
| `CMesh.FoldAngle` | Crane/Core/CMesh.cs:433-462 | the fold angle is 0 at cosine 1 or above, plus or minus pi at cosine -1 or below, and plus or minus acos of the cosine between, the sign following the sine |
| `CMesh.FoldAngleRange` | Crane/Core/CMesh.cs:433-462 | every fold angle lies in [-pi, pi] and carries the sign of the sine |
| `CMesh.FoldAngleRecoversCosine` | Crane/Core/CMesh.cs:427-462 | the cosine of the fold angle is the normals' dot product clamped to [-1, 1] |
| `CMesh.FoldAngles` | Crane/Core/CMesh.cs:408-466 | one fold angle per inner edge, each computed from that edge's sine and cosine |
| `CMesh.AutoMountainValley` | Crane/Core/CMesh.cs:815-838 | among inner edges not labelled 'T', the negative angles are the mountains and the positive ones the valleys, each list in edge order |
| `CMesh.AutoMountainValleyDisjoint` | Crane/Core/CMesh.cs:821-836 | no edge is both an automatic mountain and an automatic valley, and an edge of angle zero is neither |
| `CMesh.FacePair` | Crane/Core/CMesh.cs:938-968 | the pair is the two connected faces, the first being the one whose corners run along the edge |
| `CMesh.FacePairOrderFree` | Crane/Core/CMesh.cs:938-968 | on a consistently oriented mesh the pair does not depend on the order Rhino lists the faces, and its first face runs along the edge |
| `CMesh.VerticesVector` | Crane/Core/CMesh.cs:1318-1327 | coordinate k of vertex i sits at entry 3i + k of a vector of length three per vertex |
| `CMesh.PointsOf` | Crane/Core/CMesh.cs:1036-1042 | vertex i is read back from entries 3i, 3i + 1 and 3i + 2 |
| `CMesh.PointsOfVerticesVector` | Crane/Core/CMesh.cs:1016-1042 | reading back the vertex vector gives the vertices |
| `CMesh.VerticesVectorOfPoints` | Crane/Core/CMesh.cs:1016-1042 | writing back the read vertices gives the vector |
| `CMesh.ConfigurationVector` | Crane/Core/CMesh.cs:1328-1344 | the configuration vector is the vertex vector followed by four entries of 0.1 |
| `CMesh.ReadPeriodic` | Crane/Core/CMesh.cs:1024-1035 | the periodic state reads the vertices, then the two rotation angles, then the two translation coefficients |
| `CMesh.ReadPeriodicOfConfiguration` | Crane/Core/CMesh.cs:1328-1349 | a fresh configuration vector reads back as the vertices with rotation angles and translation coefficients of 0.1, the values SetPeriodicParameters sets |
| `Utils.SplitIndexPairs` | Crane/Core/Util.cs:246-255 | the two lists hold the pairs' first and second components, in pair order |
| `Utils.MergeIndexPairs` | Crane/Core/Util.cs:257-269 | merging fails (the source's null) exactly when the lengths differ, and otherwise gives one pair per position |
| `Utils.MergeSplit` | Crane/Core/Util.cs:246-269 | merging what was split gives the pairs back |
| `Utils.SplitMerge` | Crane/Core/Util.cs:246-269 | splitting what was merged gives the two lists back |
| `Utils.OffsetIndexPairs` | Crane/Core/Util.cs:312-324 | both components of every pair are shifted by the offset, order kept |
| `Utils.OffsetOffset` | Crane/Core/Util.cs:312-324 | two offsets add up, and shifting back by the same amount undoes a shift |
| `Utils.NumberOfUpperThan` | Crane/Core/Util.cs:385-394 | the count is zero exactly when no entry exceeds the threshold in absolute value, and the full length exactly when every entry does |
| `Utils.NumberOfUpperThanMonotone` | Crane/Core/Util.cs:385-394 | a higher threshold never counts more entries |
| `Utils.SvdRankCounts` | Crane/Core/Util.cs:385-401 | the rank SvdRank counts is NumberOfUpperThan at the tolerance 1e-6 |
| `Utils.CountWhereCounts` | Crane/Core/Util.cs:385-401 | the entries passing the test are as many as NumberOfUpperThan counts |
| `Utils.LastAccepted` | Crane/Core/Util.cs:111-130 | the position found holds an accepted candidate and no later candidate is accepted, or -1 when none is |
| `Utils.Range` | Crane/Core/Util.cs:72-81 | the id list holds 0 .. n-1 in order |
| `Utils.RemoveFirst` | Crane/Core/Util.cs:171-193 | List.Remove drops one occurrence when there is one, keeps every other element, and leaves the list alone otherwise |
| `Utils.RemoveFirstDistinct` | Crane/Core/Util.cs:171-193 | removing from a list without repeats leaves no copy of the removed id and no repeats |
| `Utils.GreedyIndexPairs` | Crane/Core/Util.cs:171-219 | every pair found by the mirror or rotation search joins two different matching ids below n, and no id is in two pairs |
| `Utils.GreedyStep` | Crane/Core/Util.cs:177-190 | each round shortens the id list, so the search ends |
| `Utils.GreedyStepKeeps` | Crane/Core/Util.cs:177-190 | each round keeps the remaining ids distinct and unused, and the pairs good |
| `Utils.TransformPairs` | Crane/Core/Util.cs:221-244 | each pair heads with an examined id and names its last match, which is not itself; each fixed id is its own last match; pairs come in increasing head order |
| `Utils.TransformPairsComplete` | Crane/Core/Util.cs:221-244 | every examined id whose last match is another id heads a pair, and an id is fixed exactly when its last match is itself |
| `Utils.TransformPairsInvolution` | Crane/Core/Util.cs:221-244 | when two ids are each other's last match both orders of the pair are listed |
| `Utils.Intersect` | Crane/Core/Util.cs:343-354 | the intersection has no repeats and holds exactly the ids in both lists |
| `Utils.GetTopologyEdgeIndex` | Crane/Core/Util.cs:343-354 | the edge returned is the only edge incident to both vertices; -1 means there is none or more than one |
| `Utils.ToMeshFace` | Crane/Core/Util.cs:440-455 | three ids make a triangle and four a quad, in order; any other count gives no face |
| `Utils.LocalIndex` | Crane/Core/Util.cs:462-515 | the local index is within the face, names the last corner holding the vertex, and is 0 when no later corner holds it |
| `Utils.AlignFaceOrientation` | Crane/Core/Util.cs:462-515 | the answer is true exactly when the second vertex's local index follows the first's, cyclically |
| `Utils.AlignFaceOrientationEdges` | Crane/Core/Util.cs:462-515 | on a face with distinct corners both lying on it, the answer is true exactly when the two vertices form one of the face's directed edges |
| `Utils.FillPolygonHole` | Crane/Core/Util.cs:541-553 | the hole of n corners gets the n-2 fan triangles from corner 0, numbered after the existing faces |
| `Utils.FillPolygonHoleCoversRim` | Crane/Core/Util.cs:541-553 | every rim edge of the polygon, in its own direction, is an edge of one of the fan triangles |
| `Utils.IsInnerVertex` | Crane/Core/Util.cs:555-571 | a vertex is inner exactly when none of its edges has exactly one face |
| `Utils.SortedFaceIndices` | Crane/Core/Util.cs:524-539 | entry k is the face between incident edges k and k+1, wrapping around only for an inner vertex |
| `Utils.SortedFaceIndicesBoundaryPrefix` | Crane/Core/Util.cs:524-539 | a boundary vertex's face list is its inner list without the wrap-around face |
| `Utils.Multiply` | Crane/Core/Util.cs:42-55 | the upper-left 3x3 block is scaled and every other entry is 0 |
| `Utils.Addition` | Crane/Core/Util.cs:57-70 | the upper-left 3x3 blocks are added and every other entry is 0 |
| `Utils.AdditionCommutes` | Crane/Core/Util.cs:57-70 | Addition does not depend on the order of its operands |
| `Utils.MultiplyDistributes` | Crane/Core/Util.cs:42-70 | scaling distributes over Addition |
| `Utils.OuterProductEntries` | Crane/Core/Util.cs:579-587 | entry (i, j) of the outer product is a_i b_j |
| `Utils.OuterProductApplies` | Crane/Core/Util.cs:579-587 | the outer product maps v to a times (b . v) |
| `PaperNetwork.Add` | Crane/Components/Inputs/PaperMesh.cs:348-355 | both endpoints are appended as new vertices, one new edge of the given colour joins them, and nothing else changes |
| `PaperNetwork.ClearAll` | Crane/Components/Inputs/PaperMesh.cs:615-620 | the vertices, edges and weld list are emptied and the connection lists kept, so no line of any colour can be extracted afterwards |
| `PaperNetwork.ExtractLines` | Crane/Components/Inputs/PaperMesh.cs:622-633 | one segment per edge of the colour, in edge order, between that edge's vertices; it fails only when such an edge does not index the vertices |
| `PaperNetwork.AddThenExtract` | Crane/Components/Inputs/PaperMesh.cs:348-355 | an added line becomes the last line of its colour, and the lines of every other colour are unchanged |
| `PaperNetwork.NeighborLists` | Crane/Components/Inputs/PaperMesh.cs:568-580 | each vertex lists every other end of its edges: w occurs in v's list once per edge between them, and the list is as long as the edge ends at v |
| `PaperNetwork.ConnectedLabels` | Crane/Components/Inputs/PaperMesh.cs:582-593 | each vertex's label list keeps what it held and gains one label per edge end at the vertex |
| `PaperNetwork.MarkBoundary` | Crane/Components/Inputs/PaperMesh.cs:582-598 | a vertex is flagged boundary exactly when it was already flagged or a label-2 edge ends there |
| `PaperNetwork.FaceNumbers` | Crane/Components/Inputs/PaperMesh.cs:600-611 | each vertex has two faces to find per neighbour, one neighbour fewer on the boundary |
| `PaperNetwork.GenerateConnectionInfo` | Crane/Components/Inputs/PaperMesh.cs:566-613 | it fails exactly when an edge does not index the vertices; otherwise the neighbour relation is symmetric, each vertex has one neighbour per edge end, the per-vertex lists grow by one entry per vertex, and vertices, edges and weld list are unchanged |
| `PaperNetwork.FreshConnectionInfo` | Crane/Components/Inputs/PaperMesh.cs:566-613 | on a network with empty lists a vertex is on the boundary exactly when a boundary edge ends there, and it has to find twice its neighbours less the boundary one |
| `PaperNetwork.SecondCallRepeats` | Crane/Components/Inputs/PaperMesh.cs:566-613 | calling it twice appends the face counts a second time and leaves the neighbour lists as the first call made them |
| `PaperNetwork.IndexOf` | Crane/Components/Inputs/PaperMesh.cs:400 | List.IndexOf gives the first position holding the value, or -1 exactly when it is absent |
| `PaperNetwork.RemoveValue` | Crane/Components/Inputs/PaperMesh.cs:398 | List.Remove drops one copy of the value when there is one and keeps everything else |
| `PaperNetwork.Gather` | Crane/Components/Inputs/PaperMesh.cs:378-395 | the group keeps its members first and grows only by points close to the group |
| `PaperNetwork.SearchWeldTolerance` | Crane/Components/Inputs/PaperMesh.cs:489-523 | when the upper end passes checkWeldTolerance, the search returns a tolerance between the two ends that passes it |
| `PaperNetwork.BinarySearchTolerance` | Crane/Components/Inputs/PaperMesh.cs:489-523 | for any pass test, the bisection keeps a passing upper end, so from a passing upper end it returns a passing value within the interval |
| `PaperNetwork.ValueGroups` | Crane/Components/Inputs/PaperMesh.cs:365-413 | no more groups than points, and every group holds at least its seed point |
| `PaperNetwork.ValueGroupsCover` | Crane/Components/Inputs/PaperMesh.cs:365-413 | every grouped point is one of the vertices, and every vertex lands in some group |
| `PaperNetwork.RemoveValuesKeeps` | Crane/Components/Inputs/PaperMesh.cs:396-399 | removing the group's points by value keeps only vertices that were there and keeps every vertex outside the group |
| `PaperNetwork.IndexWeldList` | Crane/Components/Inputs/PaperMesh.cs:366-412 | at most one weld entry per remaining vertex |
| `PaperNetwork.WeldListExtends` | Crane/Components/Inputs/PaperMesh.cs:411 | appending entries that each start with their own index keeps the earlier entries and makes every appended entry start with its new vertex index |
| `PaperNetwork.WeldAsWritten` | Crane/Components/Inputs/PaperMesh.cs:357-436 | weld as written: one new vertex per value group, never more than before, each the centroid of its group; the weld list keeps its earlier entries and gains one per group, headed by that group's new index |
| `PaperNetwork.ReplaceMembers` | Crane/Components/Inputs/PaperMesh.cs:418-432 | an endpoint listed in a weld entry becomes the entry's head; any other endpoint is kept |
| `PaperNetwork.RemapEdges` | Crane/Components/Inputs/PaperMesh.cs:415-433 | every edge keeps its colour and has both endpoints rewritten by the weld list |
| `PaperNetwork.ValueWeldList` | Crane/Components/Inputs/PaperMesh.cs:369-412 | entry k of the weld list is the new index followed by the first position of each group point among the old vertices |
| `PaperNetwork.WeldAsWrittenKeepsLaterCopy` | Crane/Components/Inputs/PaperMesh.cs:398-401 | a vertex at the same position as an earlier one is never listed in the weld list, so the edge update leaves its old index in place |
| `PaperNetwork.WeldAsWrittenFailsOnCopies` | Crane/Components/Inputs/PaperMesh.cs:357-436 | two vertices at one position joined by an edge: weld as written leaves the edge on a vertex that no longer exists, so the connection info it rebuilds fails, while the corrected weld succeeds |
| `PaperNetwork.GatherIndices` | Crane/Components/Inputs/PaperMesh.cs:378-395 | the group keeps its members first and takes only candidates |
| `PaperNetwork.Without` | Crane/Components/Inputs/PaperMesh.cs:396-399 | exactly the entries outside the group remain |
| `PaperNetwork.IndexWeldListGroups` | Crane/Components/Inputs/PaperMesh.cs:366-412 | every weld entry starts with its own new index and lists at least one of the remaining vertices, and every remaining vertex is sent to the entry listing it |
| `PaperNetwork.WeldGroups` | Crane/Components/Inputs/PaperMesh.cs:366-412 | every weld entry starts with its new index and lists old vertices, and every old vertex is listed by the entry its index is remapped to |
| `PaperNetwork.WeldEdgesOnGroups` | Crane/Components/Inputs/PaperMesh.cs:415-433 | after the edge update every edge joins new vertices, and each old endpoint is listed in the group of its new endpoint |
| `PaperNetwork.WeldCorrected` | Crane/Components/Inputs/PaperMesh.cs:357-436 | the corrected weld fails exactly when an edge does not index the vertices; otherwise each new vertex is the centroid of its group, every old vertex is listed in the group it is sent to, and every edge joins the groups of its old endpoints |
| `PaperNetwork.AllIn` | Crane/Components/Inputs/PaperMesh.cs:689-714 | true exactly when every entry of the first list is in the second |
| `PaperNetwork.ListEqual` | Crane/Components/Inputs/PaperMesh.cs:689-714 | despite its name, true exactly when the first list is no longer than the second and each of its entries is in the second |
| `PaperNetwork.ContainsEqual` | Crane/Components/Inputs/PaperMesh.cs:738-746 | true exactly when some kept face is contained in the face |
| `PaperNetwork.KeepNew` | Crane/Components/Inputs/PaperMesh.cs:724-731 | the kept list keeps its prefix, adds only input faces, no added face contains an earlier one, and every input face contains a kept one |
| `PaperNetwork.RemoveDupFace` | Crane/Components/Inputs/PaperMesh.cs:716-736 | the result is empty exactly when the input is, starts with the first face, holds only input faces, no face contains an earlier kept one, and every input face contains a kept one |
| `PaperCycles.Steps` | Crane/Components/Inputs/PaperMesh.cs:644-657 | unit closes faces of `max` vertices, and of one vertex when `max` is below one, since the first step is always taken |
| `PaperCycles.Unit` | Crane/Components/Inputs/PaperMesh.cs:635-687 | every face unit finds has the step count's number of vertices and starts at the root it was started from |
| `PaperCycles.Branch` | Crane/Components/Inputs/PaperMesh.cs:644-670 | every face found while branching over the neighbours has the step count's number of vertices and starts at the path's root |
| `PaperCycles.UnitFindsExactly` | Crane/Components/Inputs/PaperMesh.cs:635-687 | started from one root, unit finds exactly the closed walks of the right length that never step straight back and whose later vertices are remaining roots |
| `PaperCycles.UnitSound` | Crane/Components/Inputs/PaperMesh.cs:635-687 | every face unit returns is such a closed walk |
| `PaperCycles.UnitComplete` | Crane/Components/Inputs/PaperMesh.cs:635-687 | every such closed walk is among the faces unit returns |
| `PaperCycles.Roots` | Crane/Components/Inputs/PaperMesh.cs:533-540 | the roots are exactly the vertices with faces left to find, in increasing order |
| `PaperCycles.DecrementFace` | Crane/Components/Inputs/PaperMesh.cs:549-555 | each vertex's count of faces left drops by the number of times the face visits it |
| `PaperCycles.Decrement` | Crane/Components/Inputs/PaperMesh.cs:549-555 | each vertex's count drops by its visits over all the faces found |
| `PaperCycles.RootLoop` | Crane/Components/Inputs/PaperMesh.cs:543-558 | every face found for one size is a face of that size whose vertices are all remaining roots |
| `PaperCycles.SizeLoop` | Crane/Components/Inputs/PaperMesh.cs:530-559 | every face found lies between the start size and `maxNgon` vertices and is a closed walk of its length |
| `PaperCycles.DetectCycles` | Crane/Components/Inputs/PaperMesh.cs:525-564 | every face returned has three to `maxNgon` vertices and is a closed walk through the neighbour lists that never steps straight back, and no face contains an earlier one |
| `PaperCycles.ConnectionNeighborsValid` | Crane/Components/Inputs/PaperMesh.cs:566-580 | after generateConnectionInfo every neighbour listed is a vertex, so detectCycles can walk the lists |
| `Develop.ShiftFace` | Crane/Core/Util.cs:363-379 | the shifted face keeps its kind and has every corner moved up by the offset |
| `Develop.JoinMesh` | Crane/Core/Util.cs:356-384 | the joined mesh has the mesh's vertices then the development's, the mesh's faces unchanged, then the development's faces moved up by the mesh's vertex count |
| `Develop.JoinMeshFacesInRange` | Crane/Core/Util.cs:356-384 | when both meshes' faces index their own vertices, every joined face indexes the joined vertices |
| `Develop.VertexIndexPairs` | Crane/Core/DevelopMesh.cs:48-58 | pair i joins vertex i to its copy i + n |
| `Develop.VertexIndexPairsJoin` | Crane/Core/DevelopMesh.cs:48-58 | in the joined mesh each pair names a vertex of the mesh and the same vertex of the development |
| `Develop.ConnectedEdges` | Crane/Core/Util.cs:345-346 | the edges listed are exactly the edges touching the vertex |
| `Develop.ShiftEdges` | Crane/Core/DevelopMesh.cs:28-46 | the development's edges are the mesh's edges with both ends moved up by n |
| `Develop.TopologyEdgeIndexFinds` | Crane/Core/Util.cs:343-354 | on topology edges without repeats, the edge found for the two ends of edge k is k itself |
| `Develop.EdgeIndexPairsOfJoin` | Crane/Core/DevelopMesh.cs:28-46 | when the joined mesh lists the mesh's edges and then their copies, edge k is paired with edge k + the edge count |
| `Develop.OriginalFound` | Crane/Core/DevelopMesh.cs:36-40 | in the joined edge list, the ends of edge k lead back to k |
| `Develop.CopyFound` | Crane/Core/DevelopMesh.cs:36-40 | in the joined edge list, the shifted ends of edge k lead to its copy |
| `Develop.IndexOf` | Crane/Core/DevelopMesh.cs:189-190 | Array.IndexOf gives the first position of the value, or -1 exactly when it is absent |
| `Develop.CornerList` | Crane/Core/DevelopMesh.cs:182-243 | three corners for a triangle and four for a quad, in order |
| `Develop.FaceEdgeIndexPair` | Crane/Core/DevelopMesh.cs:182-243 | when the two vertices sit at different positions the pair comes back as given or reversed; when their positions coincide it is the default pair (0, 0) |
| `Develop.FaceEdgeIndexPairOriented` | Crane/Core/DevelopMesh.cs:182-243 | on a face with distinct corners, a side given either way round comes back as the face's own directed edge |
| `Develop.FaceEdgeIndexPairMissing` | Crane/Core/DevelopMesh.cs:182-243 | when only the second vertex is on the face the pair keeps its order |
| `UnWeld.FaceVertexLocalIndex` | Crane/Core/UnWeldMesh.cs:116-130 | the slot found is the first one holding the vertex (slot 3 only on a quad), and -1 is returned exactly when the face does not use it |
| `UnWeld.FaceVertexLocalIndexAgrees` | Crane/Core/UnWeldMesh.cs:116-130 | on a face with distinct corners the slot found is the local index AlignFaceOrientation computes |
| `UnWeld.ReplaceFaceVertexId` | Crane/Core/UnWeldMesh.cs:131-148 | a valid slot gets the new id, the other slots stay and a triangle stays a triangle; an invalid slot gives the default face |
| `UnWeld.ReplaceFaceVertexIdBack` | Crane/Core/UnWeldMesh.cs:131-148 | when the replacement keeps the face's kind, putting the old id back into the same slot restores the face |
| `UnWeld.ReplaceFaceVertexIdMoves` | Crane/Core/UnWeldMesh.cs:131-148 | on a face with distinct corners, replacing the slot of a corner by a fresh id leaves a face without that corner and with the fresh id in its slot |
| `UnWeld.MeshFaceIsRight` | Crane/Core/UnWeldMesh.cs:161-191 | true exactly when the pair is a directed edge of the face's corner cycle |
| `UnWeld.MeshFaceIsRightAgrees` | Crane/Core/UnWeldMesh.cs:161-191 | on a face with distinct corners it agrees with AlignFaceOrientation |
| `UnWeld.AdjacentFaceId` | Crane/Core/UnWeldMesh.cs:222-231 | the face returned is a neighbour that is a candidate; -1 comes back when no neighbour is a candidate, and only then when -1 is not itself a candidate |
| `UnWeld.Walk` | Crane/Core/UnWeldMesh.cs:212-220 | the walk takes at most ten steps and, when it stops early, it has reached the right end face; every face walked is -1 or came from the left list, the left list keeps only faces it had, and when it had no repeats it keeps none of the faces walked |
| `UnWeld.WithoutSeeds` | Crane/Core/UnWeldMesh.cs:204-208 | the list holds only candidate faces and every candidate that is not a seed; without repeats in the candidates, it holds none of the four seeds |
| `UnWeld.RightAndLeftFaceIds` | Crane/Core/UnWeldMesh.cs:202-221 | the right list starts at the right start face, has at most eleven faces and ends at the right end face when it stops early; the left list holds only candidates, and every candidate that is neither a seed nor walked; with distinct candidates it has no repeats, no walked face and no left seed |
| `UnWeld.Repoint` | Crane/Core/UnWeldMesh.cs:108-114 | it fails exactly when a listed face does not exist; otherwise unlisted faces stay and, in a list without repeats, each listed face has its slot of the vertex set to the copy |
| `UnWeld.Seeds` | Crane/Core/UnWeldMesh.cs:80-99 | of the two faces on each path edge, the one the edge runs along is the right seed and the other the left seed |
| `UnWeld.UnWeldEdge` | Crane/Core/UnWeldMesh.cs:72-115 | on success the vertex is copied to the end of the vertex list; every face off the left list stays as it was, and with distinct faces around the vertex every face on the left list exists and has its slot of the vertex pointed at the copy |
| `UnWeld.LeftFacesOmitSeeds` | Crane/Core/UnWeldMesh.cs:202-221 | with distinct faces around the vertex, the re-pointed list has no repeats and holds neither left seed |
| `UnWeld.UnWeldEdgeKeepsLeftSeeds` | Crane/Core/UnWeldMesh.cs:100-114 | as written: the two faces left of the path edges keep the old vertex |
| `UnWeld.UnWeldEdgeCorrected` | Crane/Core/UnWeldMesh.cs:72-115 | corrected: on success the vertex is copied to the end of the vertex list and there are as many faces as before |
| `UnWeld.UnWeldEdgeCorrectedMovesLeftSeeds` | Crane/Core/UnWeldMesh.cs:100-114 | corrected: both faces left of the path edges exist and have their slot of the vertex moved to the copy |
| `UnWeld.UnWeldEdgeCorrectedKeepsOthers` | Crane/Core/UnWeldMesh.cs:100-114 | corrected: a face away from the vertex that is not a left seed stays as it was |
| `FoldFormat.ParseUnit` | Crane/Core/FoldFormat.cs:178-185 | "cm" and "mm" exactly for centimetres and millimetres, and "m" for metres and for every other unit system |
| `FoldFormat.Coords` | Crane/Core/FoldFormat.cs:49-60 | one three-entry coordinate array per vertex, holding x, y and z in that order |
| `FoldFormat.EdgesVertices` | Crane/Core/FoldFormat.cs:62-67 | one pair per topology edge, holding its two topology vertices in order |
| `FoldFormat.AssignmentOf` | Crane/Core/FoldFormat.cs:72-79 | a one-letter assignment: triangulation edges 'T' are written as flat "F", every other label as itself |
| `FoldFormat.Assignments` | Crane/Core/FoldFormat.cs:69-80 | one assignment string per edge label, each as AssignmentOf writes it |
| `FoldFormat.Degrees` | Crane/Core/FoldFormat.cs:89 | the angle in degrees: d times pi equals 180 times the angle in radians |
| `FoldFormat.FoldAngleDegrees` | Crane/Core/FoldFormat.cs:82-96 | null exactly on boundary edges, and every other edge takes the measured angle numbered by the inner edges before it; fails exactly when there are fewer measured angles than inner edges |
| `FoldFormat.AnglesExtend` | Crane/Core/FoldFormat.cs:85-96 | the per-edge angle description extends edge by edge, so the loop's result meets it at every prefix |
| `FoldFormat.FullFold` | Crane/Core/FoldFormat.cs:98-111 | with the full-fold switch, mountain edges fold to -180, valley edges to 180, and every other edge keeps its angle |
| `FoldFormat.FaceVertices` | Crane/Core/FoldFormat.cs:116-124 | a triangle writes its three corners and a quad its four, in order |
| `FoldFormat.FacesVertices` | Crane/Core/FoldFormat.cs:113-125 | one corner list per face, each as FaceVertices writes it |
| `FoldFormat.FromMesh` | Crane/Core/FoldFormat.cs:42-127 | the fixed file, frame and creator fields, the unit, and one entry per vertex, edge and face; fails exactly when the measured angles run out |
| `FoldFormat.FromMeshFoldAngles` | Crane/Core/FoldFormat.cs:82-111 | each written angle: null exactly on a boundary edge, +-180 on valley and mountain edges under the full-fold switch, otherwise the edge's measured angle in degrees |
| `FoldFormat.ToPoint` | Crane/Core/Util.cs:435-438 | a point from the first three entries, and an error exactly when the array is shorter than three |
| `FoldFormat.ReadVertices` | Crane/Core/FoldFormat.cs:132-135 | every coordinate array read as ToPoint reads it; fails exactly when one is too short |
| `FoldFormat.ReadFaces` | Crane/Core/FoldFormat.cs:137-140 | every corner list read as ToMeshFace reads it; fails exactly when one has neither 3 nor 4 entries |
| `FoldFormat.LinesOf` | Crane/Core/FoldFormat.cs:145-164 | the lines of one assignment, no more than there are edges; fails exactly when one such edge lacks two existing vertices |
| `FoldFormat.ToCMesh` | Crane/Core/FoldFormat.cs:128-170 | as many vertices and faces as the file lists; fails exactly on a short coordinate array, a face of the wrong size, or a mountain, valley or flat assignment whose edge vertex list is missing or names a missing vertex |
| `FoldFormat.LinesOfWritten` | Crane/Core/FoldFormat.cs:145-164 | reading the mountain or valley lines back from written labels gives exactly the edges with that label, in edge order |
| `FoldFormat.FlatLinesOfWritten` | Crane/Core/FoldFormat.cs:160-164 | reading the flat lines back gives exactly the triangulation edges, since 'T' is written as "F" |
| `FoldFormat.WriteThenRead` | Crane/Core/FoldFormat.cs:42-170 | writing a mesh and reading it back gives the same vertices and faces, and as lines exactly its mountain, valley and triangulation edges |
| `CommutativeTransform.CopyMatrix` | Crane/Misc/CalculateCommutativeTransform.cs:243-250 | the top-left 3x3 block, entry for entry; an error exactly when the array has fewer than three rows or columns |
| `CommutativeTransform.CopyVector` | Crane/Misc/CalculateCommutativeTransform.cs:252-258 | the first three entries; an error exactly when there are fewer |
| `CommutativeTransform.CopyMatrixExact` | Crane/Misc/CalculateCommutativeTransform.cs:243-250 | copying a 3x3 matrix gives the same matrix |
| `CommutativeTransform.PackAt` | Crane/Misc/CalculateCommutativeTransform.cs:260-273 | the step vector's layout: L1[i][j] at 3i+j, L2[i][j] at 9+3i+j, D1[i] at 18+i, D2[i] at 21+i |
| `CommutativeTransform.Update` | Crane/Misc/CalculateCommutativeTransform.cs:260-273 | the update keeps both maps three-by-three with three-entry translations |
| `CommutativeTransform.UpdateIsAddition` | Crane/Misc/CalculateCommutativeTransform.cs:260-273 | the update adds the first 24 entries of the step to the packed unknowns |
| `CommutativeTransform.LeviCivitaIsDeterminant` | Crane/Misc/CalculateCommutativeTransform.cs:148-160 | the Levi-Civita sum over the rows is the 3x3 determinant |
| `CommutativeTransform.Error` | Crane/Misc/CalculateCommutativeTransform.cs:130-166 | 14 entries: the commutator, the translation gap and the two switchable determinant conditions, each entry as laid out |
| `CommutativeTransform.CommuteIffBalanced` | Crane/Misc/CalculateCommutativeTransform.cs:133-146 | the two homogeneous 4x4 maps commute exactly when the commutator and the translation gap vanish |
| `CommutativeTransform.ZeroErrorMeans` | Crane/Misc/CalculateCommutativeTransform.cs:130-166 | the error is zero exactly when the two maps commute and each switched-on determinant meets its goal |
| `CommutativeTransform.MinorIsCofactor` | Crane/Misc/CalculateCommutativeTransform.cs:198-225 | the determinant rows' Jacobian sum is the cofactor of the entry |
| `CommutativeTransform.JacobianAsWritten` | Crane/Misc/CalculateCommutativeTransform.cs:168-229 | a 14 x 24 matrix whose entries are the loops' sums as written, the translation-column terms included |
| `CommutativeTransform.Jacobian` | Crane/Misc/CalculateCommutativeTransform.cs:168-229 | a 14 x 24 matrix whose translation columns have the terms outside the j loop and with the right sign |
| `CommutativeTransform.JacobianExact` | Crane/Misc/CalculateCommutativeTransform.cs:168-229 | moving one unknown by t changes each error entry by exactly t times the corrected Jacobian entry; the error is affine in every single unknown |
| `CommutativeTransform.JacobianAsWrittenOvercounts` | Crane/Misc/CalculateCommutativeTransform.cs:191-192 | the written entry for the gap row and the D1 column is 3 - L2[0][0], while moving D1[0] by t changes the gap by t (1 - L2[0][0]) |
| `CommutativeTransform.JacobianAsWrittenSignOfD2` | Crane/Misc/CalculateCommutativeTransform.cs:191-192 | the written entry for the gap row and the D2 column is L1[0][0] + 3, where the derivative is L1[0][0] - 1 |
| `CommutativeTransform.JacobianAsWrittenElsewhere` | Crane/Misc/CalculateCommutativeTransform.cs:171-225 | away from the translation-gap rows' translation columns, the written Jacobian is the corrected one |
| `CommutativeTransform.Create` | Crane/Misc/CalculateCommutativeTransform.cs:13-23 | the initial maps are the 3x3 blocks and three-entry prefixes of the arguments, nothing solved yet, and an error exactly when an argument is too small |
| `CommutativeTransform.NewtonLoop` | Crane/Misc/CalculateCommutativeTransform.cs:94-107 | each step solves with the Jacobian as written (or, when asked, the exact one); the loop keeps the shapes, runs no further than iterationMax, and stopping early means the residual norm is within the tolerance |
| `CommutativeTransform.LoopsAgreeWhenMatrixUnused` | Crane/Misc/CalculateCommutativeTransform.cs:94-107 | the as-written and corrected loops differ only in the matrix handed to the least-squares solver |
| `CommutativeTransform.Solve` | Crane/Misc/CalculateCommutativeTransform.cs:87-112 | solving keeps the initial maps and switches and records a result; with no iterations allowed the result is the initial maps |
| `CommutativeTransform.SolveAgainRepeats` | Crane/Misc/CalculateCommutativeTransform.cs:89-92 | solving again starts from the initial maps, so it gives the same result |
| `CommutativeTransform.A1` | Crane/Misc/CalculateCommutativeTransform.cs:24-42 | the first map as a homogeneous 4x4 matrix with bottom row (0, 0, 0, 1), present exactly after a solve |
| `CommutativeTransform.A2` | Crane/Misc/CalculateCommutativeTransform.cs:43-61 | the second map as a homogeneous 4x4 matrix with bottom row (0, 0, 0, 1), present exactly after a solve |
| `CommutativeTransform.ErrorOf` | Crane/Misc/CalculateCommutativeTransform.cs:62-68 | the 14 error entries of the solved maps, all zero exactly when A1 and A2 commute and the switched-on determinants meet their goals |
| `CommutativeTransform.DetL1` | Crane/Misc/CalculateCommutativeTransform.cs:71-77 | the determinant of the solved L1, which the error's entry 12 compares with its goal when switched on |
| `CommutativeTransform.DetL2` | Crane/Misc/CalculateCommutativeTransform.cs:78-84 | the determinant of the solved L2, which the error's entry 13 compares with its goal when switched on |
| `Approx2dSymmetry.Update` | Crane/Misc/Approx2dSymmetry.cs:74-84 | each of the eight unknowns, A row by row, then r, then b, grows by its entry of the step |
| `Approx2dSymmetry.BumpIsUpdate` | Crane/Misc/Approx2dSymmetry.cs:74-84 | updating by t times a unit vector moves that unknown alone |
| `Approx2dSymmetry.Residual` | Crane/Misc/Approx2dSymmetry.cs:86-93 | entries 2i and 2i+1 are the x and y gaps between the image of first point i and second point i |
| `Approx2dSymmetry.Error` | Crane/Misc/Approx2dSymmetry.cs:86-95 | the residual divided by the number of point pairs |
| `Approx2dSymmetry.Slopes` | Crane/Misc/Approx2dSymmetry.cs:97-112 | rows 2i and 2i+1 are the derivatives of the image of first point i, as two rows of eight |
| `Approx2dSymmetry.Jacobian` | Crane/Misc/Approx2dSymmetry.cs:97-115 | a 2n x 8 matrix, each row the slopes divided by the number of pairs |
| `Approx2dSymmetry.ImageAlongUnknown` | Crane/Misc/Approx2dSymmetry.cs:102-111 | moving one unknown by t moves the image of a point by t times that unknown's slope entry |
| `Approx2dSymmetry.JacobianExact` | Crane/Misc/Approx2dSymmetry.cs:86-115 | moving one unknown by t changes each error entry by exactly t times the Jacobian entry |
| `Approx2dSymmetry.Symmetry` | Crane/Misc/Approx2dSymmetry.cs:63-71 | the fitted transform is a 4x4 matrix |
| `Approx2dSymmetry.SymmetryIsImage` | Crane/Misc/Approx2dSymmetry.cs:63-70 | the transform maps a point as A (p - r) + r + b does in the plane and keeps its z |
| `Approx2dSymmetry.ZeroErrorIffExact` | Crane/Misc/Approx2dSymmetry.cs:86-95 | the error is zero exactly when the map carries every first point onto its second point |
| `Approx2dSymmetry.ExactFitMapsPoints` | Crane/Misc/Approx2dSymmetry.cs:63-95 | with a zero error, the transform carries each first point, at any height, onto its second point |
| `Approx2dSymmetry.NewtonLoop` | Crane/Misc/Approx2dSymmetry.cs:53-61 | the loop runs no further than iterationMax, and stopping early means the error's norm is within the tolerance |
| `Approx2dSymmetry.Points` | Crane/Misc/Approx2dSymmetry.cs:15-28 | the planar projections of the listed first and second points, one pair per first id; an error exactly when an id is missing or out of range |
| `Approx2dSymmetry.Approx` | Crane/Misc/Approx2dSymmetry.cs:15-72 | a transform of the fitted form, with z kept and the bottom row (0, 0, 0, 1) |
| `Approx2dSymmetry.NoStepWhenConverged` | Crane/Misc/Approx2dSymmetry.cs:41-72 | when the starting error is already within the tolerance, the transform comes from the zero unknowns |
| `Star.BlockIdInjective` | Crane/Patterns/StarOrigamize.cs:42-63 | the running vertex counter gives every (face, corner) pair its own id below the total number of corners |
| `Star.BlockIdOnto` | Crane/Patterns/StarOrigamize.cs:42-63 | every id below the total number of corners is given to some (face, corner) pair |
| `Star.CornerSizes` | Crane/Patterns/StarOrigamize.cs:50-51 | one corner count per face: 4 for a quad, 3 otherwise |
| `Star.CornerVertexRange` | Crane/Patterns/StarOrigamize.cs:42-63 | each shrunk corner's id lies after the offset original vertices and before the end of the shrunk vertices |
| `Star.ShrunkFaces` | Crane/Patterns/StarOrigamize.cs:47-68 | one shrunk face per face, a quad exactly when the face is, whose corners are the ids the vertex map gives |
| `Star.ShrunkFacesDisjoint` | Crane/Patterns/StarOrigamize.cs:47-68 | shrunk faces share no vertex, and no shrunk face repeats a vertex |
| `Star.FaceLeftVertexIndexPair` | Crane/Patterns/StarOrigamize.cs:103-124 | the local index of the vertex, and the slot before it cyclically, so the pair is a directed side of the face ending at that slot |
| `Star.IsCounterclockwise` | Crane/Patterns/StarOrigamize.cs:143-168 | true exactly when `to` sits in the slot after `from`, cyclically |
| `Star.IsCounterclockwiseEdges` | Crane/Patterns/StarOrigamize.cs:143-168 | on a face with distinct corners both on it, true exactly when from -> to is a directed side of the face |
| `Star.SortFacePair` | Crane/Patterns/StarOrigamize.cs:126-141 | the same two faces, swapped exactly when the first one holds the edge from -> to |
| `Star.SortFacePairCorners` | Crane/Patterns/StarOrigamize.cs:84-91 | after sorting, the first face holds to -> from and the second from -> to, and the left pairs pick the corners `from` and `to` in the first face and `from` in the second |
| `Star.PreviousCorner` | Crane/Patterns/StarOrigamize.cs:103-124 | on a face with distinct corners, only one corner comes right before a given one |
| `Star.InsertedCorners` | Crane/Patterns/StarOrigamize.cs:87-91 | the three shrunk corners the inserted triangles use are shrunk vertices |
| `Star.Inserted` | Crane/Patterns/StarOrigamize.cs:92-93 | an inserted triangle starts at the original vertex, and its second corner is a shrunk vertex different from it |
| `Star.StarVisitFaces` | Crane/Patterns/StarOrigamize.cs:83-94 | two inserted triangles for an edge with two faces and none otherwise, each joining the vertex to shrunk vertices |
| `Star.StarVertexFaces` | Crane/Patterns/StarOrigamize.cs:76-95 | two triangles for every edge around the vertex that has two faces |
| `Star.StarInsertedFaces` | Crane/Patterns/StarOrigamize.cs:73-96 | two triangles for every two-faced edge around every vertex, each starting at its own original vertex |
| `Star.CreateStar` | Crane/Patterns/StarOrigamize.cs:21-101 | the star mesh has the original vertices plus one per face corner, and the shrunk faces plus two triangles for every two-faced edge visit |
| `Star.CreateStarInRange` | Crane/Patterns/StarOrigamize.cs:21-101 | every corner of every face of the star mesh is one of its vertices |
| `TruncatedStar.VisitSizes` | Crane/Patterns/TessellationOnMesh/TruncatedStarOrigamize.cs:49-57 | one block size per vertex: the number of edges around it |
| `TruncatedStar.TopVertex` | Crane/Patterns/TessellationOnMesh/TruncatedStarOrigamize.cs:56-63 | the top vertex id of a (vertex, edge) pair comes after the offset vertices and before the shrunk corners |
| `TruncatedStar.TopVertexDistinct` | Crane/Patterns/TessellationOnMesh/TruncatedStarOrigamize.cs:56-63 | the top vertex id of each (vertex, edge) pair lies between the offset vertices and the shrunk corners, and no two pairs share one |
| `TruncatedStar.TopVertexNext` | Crane/Patterns/TessellationOnMesh/TruncatedStarOrigamize.cs:63-95 | the next edge around a vertex has the next top vertex id, which topNext relies on |
| `TruncatedStar.ShrunkIndexMapsBack` | Crane/Patterns/TessellationOnMesh/TruncatedStarOrigamize.cs:108-142 | subtracting the top and offset vertex counts from a shrunk corner's id gives its position in the shrunk vertex list |
| `TruncatedStar.RingStep` | Crane/Patterns/TessellationOnMesh/TruncatedStarOrigamize.cs:79-94 | at the last edge one triangle on the boundary and two otherwise, at every other edge but the first one triangle; the first joins the vertex to the previous and current top vertices, the second closes the ring back to the first top vertex |
| `TruncatedStar.RingFaces` | Crane/Patterns/TessellationOnMesh/TruncatedStarOrigamize.cs:79-94 | for a vertex of degree two or more, a triangle from the vertex to each two consecutive top vertices, and the closing triangle unless the vertex is on the boundary |
| `TruncatedStar.RingCoversTops` | Crane/Patterns/TessellationOnMesh/TruncatedStarOrigamize.cs:79-94 | the ring uses every top vertex of its block, and only those and the vertex itself |
| `TruncatedStar.RingOfDegreeOne` | Crane/Patterns/TessellationOnMesh/TruncatedStarOrigamize.cs:85-88 | a boundary vertex with one edge gets a single triangle that reaches back to the id before its block |
| `TruncatedStar.PreviousTop` | Crane/Patterns/TessellationOnMesh/TruncatedStarOrigamize.cs:200-213 | the top vertex before the current one, cyclically within the vertex's block |
| `TruncatedStar.TruncatedVisitFaces` | Crane/Patterns/TessellationOnMesh/TruncatedStarOrigamize.cs:191-237 | no triangle for an edge without two faces; otherwise three, or four at the second-to-last edge of a boundary vertex, all using only the block's top vertices and shrunk corners |
| `TruncatedStar.Marked` | Crane/Patterns/TessellationOnMesh/TruncatedStarOrigamize.cs:178-186 | an edge and its reverse are never both marked unless the edge is a loop |
| `TruncatedStar.MarkedVisited` | Crane/Patterns/TessellationOnMesh/TruncatedStarOrigamize.cs:178-186 | only a directed edge that has been visited can be marked |
| `TruncatedStar.MarkedGrows` | Crane/Patterns/TessellationOnMesh/TruncatedStarOrigamize.cs:178-186 | marks are never removed |
| `TruncatedStar.SeenBeforeIff` | Crane/Patterns/TessellationOnMesh/TruncatedStarOrigamize.cs:178-186 | with distinct directed edges, an edge counts as visited exactly when its reverse came earlier |
| `TruncatedStar.FirstVisitDrawsOnce` | Crane/Patterns/TessellationOnMesh/TruncatedStarOrigamize.cs:233-236 | of an edge and its reverse, only the first visit draws the shared mountain line |
| `TruncatedStar.DrawsMountain` | Crane/Patterns/TessellationOnMesh/TruncatedStarOrigamize.cs:178-236 | with distinct directed edges, a visit draws the mountain line exactly when the edge has two faces and its reverse was not visited before it |
| `TruncatedStar.DirectedVisits` | Crane/Patterns/TessellationOnMesh/TruncatedStarOrigamize.cs:166-176 | one directed edge per top vertex |
| `TruncatedStar.DirectedVisitsAt` | Crane/Patterns/TessellationOnMesh/TruncatedStarOrigamize.cs:56-63 | the directed edge visited at a top vertex's position is the (vertex, far end) pair the id map keys it by |
| `TruncatedStar.LastLargePiece` | Crane/Patterns/TessellationOnMesh/TruncatedStarOrigamize.cs:245-250 | the last piece with more than ten vertices, and none exactly when no piece has more than ten |
| `GridTessellation.GridParameter` | Crane/Patterns/TessellationOnDoubleSurface.cs:227-237 | the i-th grid parameter, and an error exactly when the grid has no intervals, where the source divides by zero |
| `GridTessellation.GridParameterSpansDomain` | Crane/Patterns/TessellationOnDoubleSurface.cs:215-243 | the grid parameters start at the domain's start, end at its end and never decrease |
| `GridTessellation.BuildVertexMap` | Crane/Patterns/TessellationOnDoubleSurface.cs:29-44 | every (layer, i, j) key of the grid and only those gets an id, ids number the vertices 0 .. 2 rows cols - 1 in row order with the bottom layer after the top, and the vertex list and the map invert each other |
| `GridTessellation.FillRow` | Crane/Patterns/TessellationOnDoubleSurface.cs:34-43 | one more grid row keeps the map and the vertex list mutually inverse and adds exactly that row's keys |
| `GridTessellation.UnitFace` | Crane/Patterns/TessellationOnDoubleSurface.cs:72-99 | a unit face of 3 or 4 entries gives one mesh face whose corners are the ids of its shifted keys, others give none, and a key missing from the map is an error |
| `GridTessellation.ListFaces` | Crane/Patterns/TessellationOnDoubleSurface.cs:70-100 | one list's faces for one cell, every corner an id from the map; an error exactly when a usable face has a key missing from the map |
| `GridTessellation.CellLists` | Crane/Patterns/TessellationOnDoubleSurface.cs:70-205 | a cell stamps the first face list always, the second unless it is in the last column, the third unless in the last row, and the fourth unless in either |
| `GridTessellation.CellsFaces` | Crane/Patterns/TessellationOnDoubleSurface.cs:66-207 | the faces of the first k cells in row order, every corner an id from the map; an error exactly when one of those cells fails |
| `GridTessellation.CellFacesResolve` | Crane/Patterns/TessellationOnDoubleSurface.cs:63-208 | when the unit pattern's keys stay within its reach, every key a cell looks up is in the map |
| `GridTessellation.GridFacesResolve` | Crane/Patterns/TessellationOnDoubleSurface.cs:63-208 | for such a pattern, stamping every cell succeeds |
| `GridTessellation.CornersBelow` | Crane/Patterns/TessellationOnDoubleSurface.cs:63-208 | faces whose corners come from the map use only vertex ids below the vertex count |
| `GridTessellation.CreateGridMesh` | Crane/Patterns/TessellationOnDoubleSurface.cs:20-52 | two vertices per grid point, and for a fitting pattern a face list whose every corner is a vertex |
| `SurfaceTessellation.UnitLength` | Crane/Patterns/TessellationOnSurface/TessellationOnDoubleSurface.cs:61-69 | the parameter length of one cell: count cells of it make up the domain, and an error exactly when the count is zero |
| `SurfaceTessellation.ParameterInCell` | Crane/Patterns/TessellationOnSurface/TessellationOnDoubleSurface.cs:112-126 | a unit parameter in [0, 1] of cell c lands inside that cell's interval and inside the domain |
| `SurfaceTessellation.SurfacePoint` | Crane/Patterns/TessellationOnSurface/TessellationOnDoubleSurface.cs:112-126 | a unit point of layer 0 is sampled on the top surface and any other layer on the bottom one, at its cell's shifted u and v parameters |
| `SurfaceTessellation.PointIndexRoundTrip` | Crane/Patterns/TessellationOnSurface/TessellationOnDoubleSurface.cs:72-82 | the triple loop gives each (u, v, unit point) its own position below the point count, and the position gives it back |
| `SurfaceTessellation.CellFaces` | Crane/Patterns/TessellationOnSurface/TessellationOnDoubleSurface.cs:91-102 | exactly the unit faces of 3 or 4 entries, each shifted by the offset, and no more faces than the unit has |
| `SurfaceTessellation.FacesUpTo` | Crane/Patterns/TessellationOnSurface/TessellationOnDoubleSurface.cs:87-104 | the faces of the first k cells in loop order, each cell's faces shifted by its offset UnitPointCount (u + UCount v) |
| `SurfaceTessellation.FaceBlockBijective` | Crane/Patterns/TessellationOnSurface/TessellationOnDoubleSurface.cs:93 | the face offsets (u, v) -> u + UCount v send the cells one-to-one onto the point blocks |
| `SurfaceTessellation.FaceBlockAt` | Crane/Patterns/TessellationOnSurface/TessellationOnDoubleSurface.cs:93 | cell (u, v), visited at loop position u VCount + v, takes its faces at block v UCount + u |
| `SurfaceTessellation.TessellationFacesOnBlocks` | Crane/Patterns/TessellationOnSurface/TessellationOnDoubleSurface.cs:87-104 | the tessellation's faces are exactly the unit faces shifted onto each point block once |
| `SurfaceTessellation.TessellationFacesInRange` | Crane/Patterns/TessellationOnSurface/TessellationOnDoubleSurface.cs:72-104 | when the unit faces use only unit points, every face corner is one of the mesh's points |
| `SurfaceTessellation.CellFacesCorner` | Crane/Patterns/TessellationOnSurface/TessellationOnDoubleSurface.cs:91-102 | each corner of a shifted unit face is the offset plus a unit point index |
| `SurfaceTessellation.FacesUseOtherCellsPoints` | Crane/Patterns/TessellationOnSurface/TessellationOnDoubleSurface.cs:75-93 | on a 2 x 3 grid, the faces added for cell (1, 0) lie on the points sampled for cell (0, 1), since points are numbered u-major and faces v-major |
| `RigidEdge.Error` | Crane/Constraints/RigidEdge.cs:48-60 | one entry per topology edge, zero exactly when the edge's squared length equals the one recorded for it |
| `RigidEdge.Jacobian` | Crane/Constraints/RigidEdge.cs:14-47 | one row per topology edge and three columns per vertex |
| `RigidEdge.BlockFits` | Crane/Constraints/RigidEdge.cs:14-47 | every element lies inside the declared rows and columns, as the solver's stacking needs |
| `RigidEdge.JacobianEntry` | Crane/Constraints/RigidEdge.cs:20-45 | the value stored at each row and column is the derivative the edge's two-end gradient predicts |
| `RigidEdge.GradientExact` | Crane/Constraints/RigidEdge.cs:14-60 | nudging one coordinate by +t and -t changes the row's error by exactly 2t times the stored Jacobian entry, so the Jacobian is the error's derivative |
| `SetMinEdgeLength.Flags` | Crane/Constraints/SetMinEdgeLength.cs:25-33 | one flag per topology edge, set exactly when the edge is shorter than the minimum |
| `SetMinEdgeLength.Kept` | Crane/Constraints/SetMinEdgeLength.cs:25-55 | the rows are the short edges, every one of them, in increasing edge order |
| `SetMinEdgeLength.GoalSq` | Crane/Constraints/SetMinEdgeLength.cs:32 | the goal length, the minimum plus 0.1, squared, is positive for a positive minimum |
| `SetMinEdgeLength.Error` | Crane/Constraints/SetMinEdgeLength.cs:60-78 | one entry per short edge |
| `SetMinEdgeLength.ErrorNegative` | Crane/Constraints/SetMinEdgeLength.cs:69-74 | every entry is negative: a short edge is below the goal length |
| `SetMinEdgeLength.Jacobian` | Crane/Constraints/SetMinEdgeLength.cs:19-58 | as many rows as the error has entries, and three columns per vertex |
| `SetMinEdgeLength.BlockFits` | Crane/Constraints/SetMinEdgeLength.cs:19-58 | every element lies inside the declared rows and columns |
| `SetMinEdgeLength.GradientExactWhileKept` | Crane/Constraints/SetMinEdgeLength.cs:19-78 | while a nudge of +t and -t keeps the same short edges, each error entry changes by exactly 2t times its Jacobian entry |
| `FixEdgeLength.Average` | Crane/Constraints/FixEdgeLength.cs:19 | the mean of the goal lengths, and an error exactly for an empty list, where the source's Average throws |
| `FixEdgeLength.FromLengths` | Crane/Constraints/FixEdgeLength.cs:14-23 | every chosen edge gets stiffness one; an error exactly when no goal lengths are given |
| `FixEdgeLength.WithStiffness` | Crane/Constraints/FixEdgeLength.cs:24-32 | the given stiffnesses, used whatever the edge length; an error exactly when no goal lengths are given |
| `FixEdgeLength.WithSwitch` | Crane/Constraints/FixEdgeLength.cs:33-43 | the longer and shorter stiffness lists, switched by edge length; an error exactly when no goal lengths are given |
| `FixEdgeLength.FromLengthsIsUnitStiffness` | Crane/Constraints/FixEdgeLength.cs:14-32 | the first constructor is the second with all stiffnesses one |
| `FixEdgeLength.StiffnessesAgree` | Crane/Constraints/FixEdgeLength.cs:59-130 | the Jacobian and the error pick the same stiffness for each edge |
| `FixEdgeLength.SwitchChoosesByLength` | Crane/Constraints/FixEdgeLength.cs:116-119 | with the switch, an edge shorter than its goal takes its shorter stiffness and any other its longer one |
| `FixEdgeLength.Error` | Crane/Constraints/FixEdgeLength.cs:108-136 | one entry per chosen edge; an error exactly when an id is not an edge of the mesh, the average goal length is zero while there is an edge, or a stiffness or goal length a row reads is missing |
| `FixEdgeLength.UnknownEdgeFails` | Crane/Constraints/FixEdgeLength.cs:16 | an edge the mesh lookup did not find (id -1) makes both the error and the Jacobian fail |
| `FixEdgeLength.ZeroAverageFails` | Crane/Constraints/FixEdgeLength.cs:19 | a zero average goal length makes both the error and the Jacobian fail as soon as one edge is chosen |
| `FixEdgeLength.ErrorZero` | Crane/Constraints/FixEdgeLength.cs:120-130 | an entry is zero exactly when the edge has its goal length or its stiffness is zero |
| `FixEdgeLength.ErrorSign` | Crane/Constraints/FixEdgeLength.cs:120-130 | with a positive stiffness, an entry is negative exactly when the edge is shorter than its goal |
| `FixEdgeLength.Jacobian` | Crane/Constraints/FixEdgeLength.cs:52-107 | one row per chosen edge and three columns per vertex; an error exactly when an id is not an edge, the average is zero while there is an edge, or a stiffness a row reads is missing |
| `FixEdgeLength.JacobianWithoutGoals` | Crane/Constraints/FixEdgeLength.cs:84-130 | with uniform stiffness and fewer goal lengths than edges, the Jacobian is built but the error fails, since only the error reads the goals |
| `FixEdgeLength.JacobianEntry` | Crane/Constraints/FixEdgeLength.cs:61-102 | the value stored at each row and column is the derivative the edge's two-end gradient predicts at the row's stiffness |
| `FixEdgeLength.GradientExactWhileStiffnessHolds` | Crane/Constraints/FixEdgeLength.cs:52-136 | while a nudge of +t and -t keeps the row's stiffness, the error entry changes by exactly 2t times its Jacobian entry |
| `FixEdgeLength.UniformStiffnessHolds` | Crane/Constraints/FixEdgeLength.cs:125-131 | without the switch, the stiffness does not depend on the mesh |
| `EqualEdgeLength.New` | Crane/Constraints/EqualEdgeLength.cs:16-31 | the pairs' edge ids, each pair's ratio, or the first ratio for all when the counts differ, and the average of the two mean lengths; an error exactly for unequal list lengths, empty lists or no ratios |
| `EqualEdgeLength.Error` | Crane/Constraints/EqualEdgeLength.cs:75-93 | one entry per edge pair; an error exactly when an id is not an edge of the mesh or the average length is zero while there is a pair |
| `EqualEdgeLength.UnknownEdgeFails` | Crane/Constraints/EqualEdgeLength.cs:18-19 | an edge of either list that the mesh lookup did not find (id -1) makes both the error and the Jacobian fail |
| `EqualEdgeLength.ZeroAverageFails` | Crane/Constraints/EqualEdgeLength.cs:29-30 | a zero average length makes both the error and the Jacobian fail as soon as there is a pair |
| `EqualEdgeLength.ErrorZero` | Crane/Constraints/EqualEdgeLength.cs:84-88 | an entry is zero exactly when the ratio squared times the first edge's squared length equals the second's |
| `EqualEdgeLength.Jacobian` | Crane/Constraints/EqualEdgeLength.cs:39-73 | one row per edge pair and three columns per vertex; an error exactly when the error is one |
| `EqualEdgeLength.BlockFits` | Crane/Constraints/EqualEdgeLength.cs:39-73 | whenever the error is defined, every element lies inside the declared rows and columns |
| `EqualEdgeLength.GradientDirectional` | Crane/Constraints/EqualEdgeLength.cs:52-69 | the four-end gradient's derivative along a coordinate is the ratio squared times the first edge's slope minus the second edge's, over the squared average |
| `EqualEdgeLength.GradientExact` | Crane/Constraints/EqualEdgeLength.cs:39-93 | nudging one coordinate by +t and -t changes each error entry by exactly 2t times the stored Jacobian entry |
| `Hinge.ApexFrom` | Crane/Constraints/SetMaxFoldAngle.cs:71-81 | the corner loop ends with its start value when no remaining corner is off the edge, and otherwise with the last corner off the edge |
| `Hinge.Apex` | Crane/Constraints/SetMaxFoldAngle.cs:69-81 | the last corner of the face not on the edge, or 0, the loop's start value, when every corner is on it |
| `Hinge.ApexOfTriangle` | Crane/Constraints/MountainIntersectPenalty.cs:47-64 | for a triangle with distinct corners and the edge one of its sides, the apex is the third corner |
| `Hinge.HingeOf` | Crane/Constraints/SetMaxFoldAngle.cs:60-81 | u and v are the edge's ends and p and q the apexes of the first and second face of the pair |
| `Hinge.HingeVertices` | Crane/Constraints/MountainIntersectPenalty.cs:38-64 | all four hinge vertices are vertices of the mesh, the apexes included when they fall back to vertex 0 |
| `Hinge.RolesDirectional` | Crane/Constraints/SetMaxFoldAngle.cs:125-175 | the derivative along one coordinate is the sum of each role's gradient along it, tested in the order p, q, u, v |
| `Hinge.ScannedRow` | Crane/Constraints/SetMaxFoldAngle.cs:125-175 | the vertex scan stores at each column exactly the derivative the hinge's roles predict, adding up roles that share a vertex |
| `SetMaxFoldAngle.Violation` | Crane/Constraints/SetMaxFoldAngle.cs:186-189 | the excess of the angle's magnitude over the limit, nonzero and signed like the angle |
| `SetMaxFoldAngle.Flags` | Crane/Constraints/SetMaxFoldAngle.cs:31-41 | one flag per inner edge, set exactly when the angle is beyond the limit and its sign class is switched on |
| `SetMaxFoldAngle.Kept` | Crane/Constraints/SetMaxFoldAngle.cs:31-41 | the rows are those edges, every one of them, in increasing edge order |
| `SetMaxFoldAngle.KeptIff` | Crane/Constraints/SetMaxFoldAngle.cs:31-41 | an edge gets a row exactly when its angle is beyond the limit in a switched-on class |
| `SetMaxFoldAngle.Error` | Crane/Constraints/SetMaxFoldAngle.cs:180-194 | no more entries than angles, each positive only with valleys on and negative only with mountains on |
| `SetMaxFoldAngle.ErrorFollowsKept` | Crane/Constraints/SetMaxFoldAngle.cs:26-194 | the error's entries are the violations of the Jacobian's rows, in the same order |
| `SetMaxFoldAngle.ErrorMatchesJacobian` | Crane/Constraints/SetMaxFoldAngle.cs:26-194 | the error has one entry per Jacobian row, the violation of that row's edge |
| `SetMaxFoldAngle.DisabledClass` | Crane/Constraints/SetMaxFoldAngle.cs:36 | with valleys off only negative entries remain, with mountains off only positive ones, and with both off no rows at all |
| `SetMaxFoldAngle.Jacobian` | Crane/Constraints/SetMaxFoldAngle.cs:26-178 | one row per exceeding edge and three columns per vertex |
| `SetMaxFoldAngle.BlockFits` | Crane/Constraints/SetMaxFoldAngle.cs:26-178 | every element lies inside the declared rows and columns |
| `SetMaxFoldAngle.JacobianEntry` | Crane/Constraints/SetMaxFoldAngle.cs:54-176 | the value stored at each row and column is the derivative the fold-angle gradient at that row's hinge predicts |
| `SetMaxFoldAngle.GradientBalanced` | Crane/Constraints/SetMaxFoldAngle.cs:120-173 | the four vertex gradients of the fold angle sum to zero, since the cotangent weights of u and v sum to -1 on each side |
| `SetMaxFoldAngle.TranslationFree` | Crane/Constraints/SetMaxFoldAngle.cs:125-175 | for a hinge of four distinct vertices, each row's entries along any one axis sum to zero: moving the whole hinge does not change its angle |
| `MountainIntersectPenalty.Flags` | Crane/Constraints/MountainIntersectPenalty.cs:35-75 | one flag per mountain edge, set exactly when its hinge's signed volume is positive |
| `MountainIntersectPenalty.Kept` | Crane/Constraints/MountainIntersectPenalty.cs:35-146 | the rows are those edges, every one of them, in increasing edge order |
| `MountainIntersectPenalty.NoneKept` | Crane/Constraints/MountainIntersectPenalty.cs:148-151 | there are no rows exactly when no mountain edge has a positive volume |
| `MountainIntersectPenalty.Error` | Crane/Constraints/MountainIntersectPenalty.cs:154-212 | a throw exactly when the mountain edges are missing, null exactly when none qualifies, and otherwise one entry per qualifying edge |
| `MountainIntersectPenalty.Jacobian` | Crane/Constraints/MountainIntersectPenalty.cs:19-153 | never a throw; null exactly when the mountain edges are missing or none qualifies; otherwise one row per qualifying edge and three columns per vertex |
| `MountainIntersectPenalty.ErrorMatchesJacobian` | Crane/Constraints/MountainIntersectPenalty.cs:19-212 | without mountain edges the error throws while the Jacobian is null; otherwise both are null together, and when built the error has one entry per Jacobian row |
| `MountainIntersectPenalty.NullIffNoneQualifies` | Crane/Constraints/MountainIntersectPenalty.cs:148-151 | both the error and the Jacobian are null exactly when no mountain edge has a positive volume |
| `MountainIntersectPenalty.ErrorPositive` | Crane/Constraints/MountainIntersectPenalty.cs:199-204 | with positive recorded heights and lengths, every entry is positive |
| `MountainIntersectPenalty.BlockFits` | Crane/Constraints/MountainIntersectPenalty.cs:19-153 | every element lies inside the declared rows and columns |
| `MountainIntersectPenalty.JacobianEntry` | Crane/Constraints/MountainIntersectPenalty.cs:79-143 | the value stored at each row and column is the volume's derivative over the recorded scale |
| `MountainIntersectPenalty.GradientExact` | Crane/Constraints/MountainIntersectPenalty.cs:66-143 | for a hinge of four distinct vertices, nudging one coordinate by t changes the scaled volume by exactly t times the Jacobian entry |
| `MountainIntersectPenalty.GradientExactWhileKept` | Crane/Constraints/MountainIntersectPenalty.cs:19-212 | while a nudge keeps the same qualifying edges, each error entry changes by exactly t times its Jacobian entry |
| `EqualBoundarySectorAngle.AngleSum` | Crane/Constraints/EqualBoundarySectorAngle.cs:77-90 | the sum of the sector angles around a vertex, never negative when no angle is |
| `EqualBoundarySectorAngle.Error` | Crane/Constraints/EqualBoundarySectorAngle.cs:59-75 | one entry per primary vertex; an error exactly when there are fewer secondary vertices than primary ones |
| `EqualBoundarySectorAngle.ErrorSwap` | Crane/Constraints/EqualBoundarySectorAngle.cs:59-75 | swapping the primary and secondary lists negates every entry |
| `EqualBoundarySectorAngle.ErrorSelf` | Crane/Constraints/EqualBoundarySectorAngle.cs:59-75 | pairing each vertex with itself gives the zero error |
| `EqualBoundarySectorAngle.IndexOf` | Crane/Constraints/EqualBoundarySectorAngle.cs:104 | the position holding the key in the dictionary's entries, and -1 exactly when no entry has it |
| `EqualBoundarySectorAngle.Accumulate` | Crane/Constraints/EqualBoundarySectorAngle.cs:102-126 | keys stay unique and keep their insertion order, and a key is appended at the end exactly when it was not there |
| `EqualBoundarySectorAngle.SetDerivative` | Crane/Constraints/EqualBoundarySectorAngle.cs:92-128 | adding a vertex's sectors keeps the keys unique and the earlier keys where they were |
| `EqualBoundarySectorAngle.RowValue` | Crane/Constraints/EqualBoundarySectorAngle.cs:30-40 | the value a row's dictionary holds for each vertex is the primary vertex's sector gradients there minus the secondary's |
| `EqualBoundarySectorAngle.SelfPairZero` | Crane/Constraints/EqualBoundarySectorAngle.cs:30-40 | a vertex paired with itself gets a zero gradient for every key |
| `EqualBoundarySectorAngle.RowSwap` | Crane/Constraints/EqualBoundarySectorAngle.cs:30-40 | swapping the pair negates the gradient at every vertex |
| `EqualBoundarySectorAngle.Jacobian` | Crane/Constraints/EqualBoundarySectorAngle.cs:23-57 | one row per pair and three columns per vertex; an error exactly when there are fewer secondary vertices than primary ones |
| `EqualBoundarySectorAngle.JacobianEntry` | Crane/Constraints/EqualBoundarySectorAngle.cs:23-57 | the value stored at each row and column is the primary vertex's sector-angle derivative along it minus the secondary vertex's |
| `EqualBoundarySectorAngle.BlockFits` | Crane/Constraints/EqualBoundarySectorAngle.cs:23-57 | when every sector's vertices are mesh vertices, every element lies inside the declared rows and columns |
| `TransformSymmetryBase.Initial` | Crane/Constraints/TransformSymmetryBase.cs:13-22 | a fresh constraint has no pairs, no fixed points and an average edge length of one |
| `TransformSymmetryBase.SetIndexPairs` | Crane/Constraints/TransformSymmetryBase.cs:25-29 | the pairs are replaced and the fixed-point rows are switched off; the transform and average stay |
| `TransformSymmetryBase.SetFixedPointConstraint` | Crane/Constraints/TransformSymmetryBase.cs:30-34 | the fixed-point rows are switched on and nothing else changes |
| `TransformSymmetryBase.SetTransform` | Crane/Constraints/TransformSymmetryBase.cs:35-43 | the transform and its inverse are stored and nothing else changes |
| `TransformSymmetryBase.PairsAfterFixedDropsIt` | Crane/Constraints/TransformSymmetryBase.cs:25-34 | setting the pairs after the fixed-point constraint drops it again, while setting the transform does not |
| `TransformSymmetryBase.Error` | Crane/Constraints/TransformSymmetryBase.cs:46-72 | six rows per pair, followed by the fixed-point constraint's error exactly when it is switched on |
| `TransformSymmetryBase.HalvesAgree` | Crane/Constraints/TransformSymmetryBase.cs:46-72 | when the two transforms are inverse to each other, a pair's forward three rows vanish exactly when its backward three do |
| `TransformSymmetryBase.PairJacobian` | Crane/Constraints/TransformSymmetryBase.cs:73-136 | six rows per pair and one column per coordinate |
| `TransformSymmetryBase.Jacobian` | Crane/Constraints/TransformSymmetryBase.cs:73-136 | fails exactly when a switched-on fixed-point Jacobian has the wrong number of columns; otherwise it starts with the pair rows unchanged |
| `TransformSymmetryBase.Pairs` | Crane/Constraints/TransformSymmetryBase.cs:73-136 | the pair rows come in bands of six rows, one band per pair in order |
| `TransformSymmetryBase.PairJacobianEntry` | Crane/Constraints/TransformSymmetryBase.cs:73-136 | each stored value is the slope of that row's error along that column |
| `TransformSymmetryBase.GradientExact` | Crane/Constraints/TransformSymmetryBase.cs:46-136 | moving one coordinate by t moves each pair row of the error by exactly t times the Jacobian entry there |
| `TransformSymmetryBase.JacobianKeepsPairRows` | Crane/Constraints/TransformSymmetryBase.cs:73-136 | appending the fixed-point rows below changes no pair-row entry |
| `TransformSymmetryBase.BlockFits` | Crane/Constraints/TransformSymmetryBase.cs:73-136 | when the fixed-point block fits the mesh, the whole block exists and every element lies inside it |

## Left out

- Floating point: IEEE infinities and NaN are not values here. A division by zero that would spread an infinity or NaN through a result is `None` in `Common` and `LinearAlgebra`, `NonFinite` in the Gram results, and the `ZeroDivisor` outcome in `Krylov`. Rounding and convergence rates are not modelled.
- Rhino geometry is passed in as functions or flags, never computed. This covers face normals, cotangents and sector-angle gradients (the constraints' `fan` and gradient inputs), fold angles, `DistanceTo` (the weld's `dist`), quad diagonal lengths (`CMesh`'s `diag`), whether a vertex lies near a line's ends (`nearFrom` and `nearTo`), and the unweld mesh queries (`UnWeld.Queries`: the faces of the path edges, the faces around the vertex and face adjacency).
- `Parallel.For` and its locks (RigidEdge and the other constraint loops) are modelled as sequential loops. Element order does not change the matrix a builder describes.
- SparseMatrixBuilder appending a builder to itself: the source enumerates the list it is adding to and throws, while `SparseBuilder.AppendBuilder` on equal arguments just doubles the elements. This aliasing is not modelled.
- RigidOrigami.GrabMotion: requires distinct vertex ids. With a repeated id the source passes MathNet's `SparseOfIndexed` two entries for one index, and which one the library keeps is not fixed by this model.
- GramMkl.CopyAndScale: treats the arrays handed to the new vendor handle as owned by it, as a comment in the source says. No modelled free backs this, so the empty set of held buffers it promises on success rests on that ownership rule.
- CgnrMkl.CgSolve multiplies by the upper triangle of `A` mirrored below the diagonal (`CgnrMkl.UpperSymmetric`), as the vendor does under the symmetric, upper-fill descriptor. The vendor's internal storage of that descriptor is not modelled.
- MountainIntersectPenalty.GradientExact: proved only for hinges whose four vertices are distinct. A degenerate hinge repeats a vertex, and the scan then adds several roles' gradients into one column block, which that lemma and `MountainIntersectPenalty.GradientExactWhileKept` do not cover.
- EqualBoundarySectorAngle.BlockFits: requires every sector's vertices to be mesh vertices. For an id out of range the source lays down an element outside the matrix, and MathNet rejects it later.
- GridTessellation.CreateGridMesh: requires a unit pattern that fits its cells. For other patterns the source's dictionary lookup throws; `GridTessellation.GridFaces` returns `None` for that case, but the method does not cover it.
- TransformSymmetryBase stores only affine transforms with a given inverse. `TryGetInverse` and `DecomposeAffine` are Rhino. `transLinear`, `invLinear` and the translations are computed but never read, so they are left out. The concrete subclasses that build the pairs are not part of this model.
- The order of .NET dictionaries is taken to be insertion order where the source relies on it (EqualBoundarySectorAngle's per-pair dictionary). Elsewhere only the key set matters.
- Where the source compares a length with a bound (SetMinEdgeLength, FixEdgeLength), the model decides it on squares. That is equivalent for non-negative lengths and needs no square root. Elsewhere the square root is a parameter, because an exact real square root is not available.
- UnWeld's top-level entry points (`UnWeld` and its sorting helper `SortUnWeldVertexIndicesList`) only throw `NotImplementedException`. Only `UnWeldEdge` and its helpers are modelled.
- DevelopMesh's unfolding (the spanning tree of faces laid out in the plane) is transcendental geometry. Only the join and the vertex and edge pairing are modelled.
- FoldFormat: JSON reading and writing and file I/O are left out. The active Rhino document's unit system is an input (the `unit` argument of `FoldFormat.FromMesh`), and `FoldFormat.ParseUnit` turns it into the frame unit string. Coordinates are written as they are, with no unit conversion, as in the source.
- Star and TruncatedStar: the offset positions, normals, face centres and the final `Compact` are geometry. Only the index bookkeeping is modelled.
- The tessellations: surface evaluation, normals and the final `Weld` are Rhino. Only the index arithmetic is modelled.
- PaperMesh's OpenCV image processing and line extraction, the Grasshopper components, previews, mouse and timer callbacks, and the asynchronous solver are left out. So are the P/Invoke declarations, whose names and argument order do not match the exported C functions. `LinearAlgebra.Solve` is the member they affect: it calls the models of the C functions directly, with the C functions' own argument order, not through the mismatched declarations.
- CgnrMkl.CgSolve: when p·Ap is 0 the model stops with the `ZeroDivisor` exit and rc `None`. The source divides by zero there, carries NaN through the remaining iterations and returns 1, because the NaN test never passes (cgnr_mkl.cpp:150-170).
- CgnrArmpl.CgSolve: when p·Ap is 0 the model stops with the `ZeroDivisor` exit and rc `None`. The source carries NaN through the remaining iterations and returns -2, as for any run that reaches the cap (cg_solver.c:45-56).
- TruncatedStar.DirectedVisits: the source keys its top-vertex dictionary with `Add`, which throws when a (vertex, far end) pair repeats, as on a mesh with a doubled edge. The model does not fail there. `TruncatedStar.SeenBeforeIff` and `TruncatedStar.DrawsMountain` state their results only for distinct pairs.
- PaperCycles.DetectCycles: returns only the faces. The source also leaves `faceNumRemain` decremented by every face's visits. `PaperCycles.Decrement` computes that count, but `DetectCycles` does not hand it back.
- TransformSymmetryBase.Initial: starts with an empty pair list where the source leaves the list null until SetIndexPairs. Reading the error before that call throws in the source and gives no rows here.
- RigidOrigami.NRSolve: the CGNR solver and the residual norm are passed in as functions, like the Rhino oracles. Its contract says what the Newton loop does with their results, not what they compute. The solvers themselves are modelled in `Krylov`, `CgnrMkl` and `CgnrArmpl`.
- CommutativeTransform.NewtonLoop: the CGNR solver (`cgnr`) and the norm (`norm`) are parameters, so the contract speaks of whatever they return.
- Utils.FillPolygonHole: the source also groups the new faces into one Ngon of the mesh (Util.cs:551-552). Mesh Ngons are not modelled.
- The SVD- and transcendental-heavy constraints (FixSingularValue, DeformationGradient, ScaleRotation and the like) are left out, as are the per-pattern unit tables.

## Findings

| source | as written | input that shows it | evidently intended | confidence | as-written member | corrected member |
|---|---|---|---|---|---|---|
| Crane/native/cgnr_mkl/src/cgnr_mkl.cpp:103 | the status tests only the iteration counter, so a loop that stops on a breakdown (`q.q = 0`) returns OK | the 1x1 zero matrix with `b = [1]`: the loop breaks down at once and returns OK | OK only when the relative residual is below the tolerance | not executed; medium | `CgnrMkl.CgnrBreakdownReportedOk` | `CgnrMkl.CgnrSolveCorrected` |
| Crane/native/cgnr_armpl/src/cgnr_solver.c:79 | `iter >= maxit` is tested after `++iter; break` on convergence, so convergence on the last permitted iteration returns -2 | `A = [1]`, `b = [1]`, `maxit = 1`: solved in one step, reported as -2 | return the iteration count whenever the tolerance was met | not executed; medium | `CgnrArmpl.CgnrLastIterationReportedAsNoConvergence` | `CgnrArmpl.CgnrLastIterationCorrected` |
| Crane/native/cgnr_armpl/src/cg_solver.c:56 | the same test after `++k; break`: convergence on the last permitted iteration returns -2 | `A = [1]`, `b = [1]`, `maxit = 1`: solved in one step, reported as -2 | return the iteration count whenever the tolerance was met | not executed; medium | `CgnrArmpl.CgLastIterationReportedAsNoConvergence` | `CgnrArmpl.CgSolveCorrected` |
| Crane/Core/LinearAlgebra.cs:68 | the managed fallback weights `BᵀB` by `(1-w)/w`, while both native builders use `(w-1)/w` | `A = B = [1]`, `w = 2`: `[0]` managed against `[1]` native | the native coefficient `(w-1)/w` on every platform | not executed; high | `LinearAlgebra.ManagedGramSignMismatch` | `LinearAlgebra.ManagedGramCorrectedMatchesNative` |
| Crane/Misc/CalculateCommutativeTransform.cs:191-192 | the identity terms of the translation-gap rows sit inside the `j` loop and are added three times, and the D2 term has a plus sign | gap row 9, column of `D1[0]`: entry `3 - L2[0][0]`, derivative `1 - L2[0][0]` | entries `δ(i,m) - L2[i][m]` for D1 and `L1[i][m] - δ(i,m)` for D2 | not executed; high | `CommutativeTransform.JacobianAsWrittenOvercounts` | `CommutativeTransform.JacobianExact` |
| Crane/Core/RigidOrigami.cs:541 | after an undo, recording removes the frames from the cursor on, the frame on show included | frames `a, b, c` with `b` on show, recording `g`: `a, g` | keep the frames up to the one on show, then add the new one | not executed; low | `RigidOrigami.RecordFrameLosesShownFrame` | `RigidOrigami.RecordFrameCorrectedUndoReturns` |
| Crane/Components/Inputs/PaperMesh.cs:398-400 | `Remove` and `IndexOf` work by value, so of two endpoints at exactly one position only the first is listed for the weld, and an edge keeps pointing at the second's old index | two lines sharing an endpoint exactly | every vertex of a group is listed and every edge re-pointed to its group's vertex | not executed; medium | `PaperNetwork.WeldAsWrittenFailsOnCopies` | `PaperNetwork.WeldCorrected` |
| Crane/Core/UnWeldMesh.cs:202-208 | the left list drops all four seed faces, so the two faces left of the path edges keep the old vertex | any path whose left seed faces touch the vertex once | re-point every face on the left of the path, the left seeds included | not executed; low | `UnWeld.UnWeldEdgeKeepsLeftSeeds` | `UnWeld.UnWeldEdgeCorrectedMovesLeftSeeds` |
