/** The rigid-origami solver state, Crane/Core/RigidOrigami.cs: the
    recorded-frame history with its cursor, the stacking of constraint
    errors and Jacobian blocks under one leading dummy row, the grab and
    fold driving motions, the residual, and the Newton loop with its CGNR
    iteration caps.

    The mesh is its flat coordinate vector (vertex `i`, coordinate `k` at
    `3i + k`). What a constraint computes from the mesh, the mesh and
    residual after each line search, the fold-angle Jacobian and the cosine
    are inputs. */
module RigidOrigami {
  import opened Common
  import opened SparseBuilder
  import LinearAlgebra
  import Krylov

  // ------------------------------------------------------------------ state

  /** The four switches that choose which constraint groups are active. */
  datatype Modes = Modes(rigid: bool, panelFlat: bool, foldBlock: bool, constraint: bool)

  function AllOff(): Modes { Modes(false, false, false, false) }

  /** The recorded frames, the index of the frame on show, the fold and
      unfold requests, the modes and the record switch. */
  datatype Origami = Origami(history: seq<Vec>, cursor: int, fold: bool, unfold: bool,
                             modes: Modes, record: bool)

  /** The cursor names a recorded frame. */
  predicate ValidCursor(o: Origami)
  {
    0 <= o.cursor < |o.history|
  }

  /** Construction from a mesh: one recorded frame, the mesh itself, on
      show; no fold request; every mode off. */
  function FromMesh(mesh: Vec): (o: Origami)
    ensures ValidCursor(o) && |o.history| == 1 && o.history[o.cursor] == mesh
    ensures !o.fold && !o.unfold && o.modes == AllOff() && !o.record
  {
    Origami([mesh], 0, false, false, AllOff(), false)
  }

  /** The copy constructor: the frames, modes and record switch are kept,
      the fold requests are dropped and the cursor goes back to the first
      frame wherever it was. */
  function CopyOf(o: Origami): (c: Origami)
    ensures c.history == o.history && c.modes == o.modes && c.record == o.record
    ensures c.cursor == 0 && !c.fold && !c.unfold
    ensures |o.history| > 0 ==> ValidCursor(c)
  {
    Origami(o.history, 0, false, false, o.modes, o.record)
  }

  /** SaveModes: the four modes change and nothing else does. */
  function SaveModes(o: Origami, rigid: bool, panelFlat: bool, foldBlock: bool, constraint: bool): (s: Origami)
    ensures s.modes == Modes(rigid, panelFlat, foldBlock, constraint)
    ensures s.(modes := o.modes) == o
  {
    o.(modes := Modes(rigid, panelFlat, foldBlock, constraint))
  }

  // ------------------------------------------------------------- history

  /** The frame recording at the end of NRSolve, as written: when the
      cursor is not on the last frame, everything from the cursor on is
      removed, the frame on show included; the new frame is appended. */
  function RecordFrame(history: seq<Vec>, cursor: int, frame: Vec): (h: seq<Vec>)
    requires 0 <= cursor < |history|
    ensures |h| >= 1 && h[|h| - 1] == frame
    ensures cursor < |history| - 1 ==> h[..|h| - 1] == history[..cursor]
    ensures cursor == |history| - 1 ==> h[..|h| - 1] == history
  {
    var kept := if cursor < |history| - 1 then history[..cursor] else history;
    kept + [frame]
  }

  /** The recording that keeps the frame on show: only the frames after the
      cursor are discarded. */
  function RecordFrameCorrected(history: seq<Vec>, cursor: int, frame: Vec): (h: seq<Vec>)
    requires 0 <= cursor < |history|
    ensures |h| == cursor + 2 && h[cursor + 1] == frame
    ensures h[..cursor + 1] == history[..cursor + 1]
  {
    history[..cursor + 1] + [frame]
  }

  /** After the corrected recording, one undo step returns to the frame the
      solve started from, whichever frame was on show. */
  lemma RecordFrameCorrectedUndoReturns(history: seq<Vec>, cursor: int, frame: Vec)
    requires 0 <= cursor < |history|
    ensures var h := RecordFrameCorrected(history, cursor, frame);
            |h| >= 2 && h[|h| - 2] == history[cursor] && h[|h| - 1] == frame
  {
    var h := RecordFrameCorrected(history, cursor, frame);
    assert h[cursor] == h[..cursor + 1][cursor];
  }

  /** On the last frame the two recordings agree. */
  lemma RecordFrameAgreesOnLastFrame(history: seq<Vec>, frame: Vec)
    requires |history| > 0
    ensures RecordFrame(history, |history| - 1, frame) == RecordFrameCorrected(history, |history| - 1, frame)
  {
    assert history[..|history|] == history;
  }

  /** As written, recording away from the last frame loses the frame on
      show: the history is one frame shorter than the corrected one, one
      undo step goes to the frame before the one on show, and when frames
      differ from one another that frame is gone altogether. */
  lemma {:induction false} RecordFrameLosesShownFrame(history: seq<Vec>, cursor: int, frame: Vec)
    requires 0 <= cursor < |history| - 1
    ensures |RecordFrame(history, cursor, frame)| == cursor + 1
    ensures RecordFrame(history, cursor, frame) != RecordFrameCorrected(history, cursor, frame)
    ensures cursor > 0 ==> RecordFrame(history, cursor, frame)[cursor - 1] == history[cursor - 1]
    ensures (forall i, j :: 0 <= i < j < |history| ==> history[i] != history[j]) && frame != history[cursor]
            ==> history[cursor] !in RecordFrame(history, cursor, frame)
  {
    var h := RecordFrame(history, cursor, frame);
    assert h == history[..cursor] + [frame];
    if cursor > 0 {
      assert h[cursor - 1] == history[..cursor][cursor - 1];
    }
    if (forall i, j :: 0 <= i < j < |history| ==> history[i] != history[j]) && frame != history[cursor] {
      forall k | 0 <= k < |h|
        ensures h[k] != history[cursor]
      {
        if k < cursor {
          assert h[k] == history[k];
        }
      }
    }
  }

  /** As written, after an undo the frame on show is lost: with frames
      `a, b, c` and `b` on show, recording `g` leaves `a, g`, so one undo
      step shows `a` instead of `b`. */
  lemma RecordFrameDropsShownFrame()
    ensures var h := RecordFrame([[0.0], [1.0], [2.0]], 1, [3.0]);
            h == [[0.0], [3.0]] && h[|h| - 2] != [1.0]
  {
  }

  // ---------------------------------------------------- error and Jacobian

  /** One constraint evaluated on the current mesh: its error entries and
      its Jacobian block. */
  datatype Block = Block(err: Vec, jac: Builder)

  /** The blocks the solver can stack: edge rigidity, panel flatness, the
      mountain and valley penalties (None when no edge qualifies), and the
      user's constraints in order. */
  datatype Blocks = Blocks(rigid: Block, flat: Block, mountain: Option<Block>, valley: Option<Block>,
                           user: seq<Block>)

  /** A block whose Jacobian has one row per error entry, the solver's
      column count, and its elements inside its own rows and columns. */
  predicate Fits(b: Block, dof: int)
  {
    b.jac.cols == dof && b.jac.rows == |b.err| && InRange(b.jac)
  }

  predicate AllFit(bs: Blocks, dof: int)
  {
    Fits(bs.rigid, dof) && Fits(bs.flat, dof)
    && (bs.mountain.Some? ==> Fits(bs.mountain.value, dof))
    && (bs.valley.Some? ==> Fits(bs.valley.value, dof))
    && forall i :: 0 <= i < |bs.user| ==> Fits(bs.user[i], dof)
  }

  /** The error entries of a list of blocks, in order. */
  function Errors(blocks: seq<Block>): Vec
  {
    if |blocks| == 0 then [] else blocks[0].err + Errors(blocks[1..])
  }

  function OptionalErrors(b: Option<Block>): Vec
  {
    if b.Some? then b.value.err else []
  }

  /** The error entries of the fixed groups, in stacking order. */
  function FixedErrors(md: Modes, bs: Blocks): Vec
  {
    (if md.rigid then bs.rigid.err else [])
    + (if md.panelFlat then bs.flat.err else [])
    + (if md.foldBlock then OptionalErrors(bs.mountain) + OptionalErrors(bs.valley) else [])
  }

  /** ComputeError: a single 0 entry, then the rigid, flat-panel,
      fold-block (mountain before valley, absent parts skipped) and user
      errors of the active modes, in that order. */
  function ComputeError(md: Modes, bs: Blocks): (e: Vec)
    ensures |e| >= 1 && e[0] == 0.0
    ensures md == AllOff() ==> e == [0.0]
  {
    [0.0] + FixedErrors(md, bs) + (if md.constraint then Errors(bs.user) else [])
  }

  /** One append of a block's Jacobian; None carries an earlier exception
      along. */
  function AppendBlock(b: Option<Builder>, blk: Block): (r: Option<Builder>)
    ensures b.None? ==> r.None?
    ensures b.Some? ==> (r.Some? <==> blk.jac.cols == b.value.cols)
    ensures r.Some? ==> r.value.cols == b.value.cols && r.value.rows == b.value.rows + blk.jac.rows
  {
    if b.None? then None else AppendBuilder(b.value, blk.jac)
  }

  /** Appends of a list of blocks, in order. The stack succeeds exactly
      when every block has the builder's column count. */
  function AppendBlocks(b: Option<Builder>, blocks: seq<Block>): (r: Option<Builder>)
    ensures b.None? ==> r.None?
    ensures b.Some? ==> (r.Some? <==> forall i :: 0 <= i < |blocks| ==> blocks[i].jac.cols == b.value.cols)
    ensures r.Some? ==> r.value.cols == b.value.cols
    decreases |blocks|
  {
    if |blocks| == 0 then b
    else
      var r := AppendBlocks(AppendBlock(b, blocks[0]), blocks[1..]);
      assert forall i :: 1 <= i < |blocks| ==> blocks[i] == blocks[1..][i - 1];
      r
  }

  /** The columns of every active block agree with the solver's. */
  predicate ActiveColumnsAgree(md: Modes, dof: int, bs: Blocks)
  {
    (md.rigid ==> bs.rigid.jac.cols == dof)
    && (md.panelFlat ==> bs.flat.jac.cols == dof)
    && (md.foldBlock && bs.mountain.Some? ==> bs.mountain.value.jac.cols == dof)
    && (md.foldBlock && bs.valley.Some? ==> bs.valley.value.jac.cols == dof)
    && (md.constraint ==> forall i :: 0 <= i < |bs.user| ==> bs.user[i].jac.cols == dof)
  }

  /** The builder after the leading empty row and the blocks of the fixed
      groups: rigid, flat panel, mountain, valley. */
  function FixedBlocks(md: Modes, dof: int, bs: Blocks): (r: Option<Builder>)
    ensures r.Some? ==> r.value.cols == dof
  {
    var b0 := Some(Builder(1, dof, []));
    var b1 := if md.rigid then AppendBlock(b0, bs.rigid) else b0;
    var b2 := if md.panelFlat then AppendBlock(b1, bs.flat) else b1;
    var b3 := if md.foldBlock && bs.mountain.Some? then AppendBlock(b2, bs.mountain.value) else b2;
    if md.foldBlock && bs.valley.Some? then AppendBlock(b3, bs.valley.value) else b3
  }

  /** ComputeJacobian: a builder with one empty row and the solver's
      columns, then the blocks of the active modes in the same order as the
      errors. A block of another width throws (None). */
  function ComputeJacobian(md: Modes, dof: int, bs: Blocks): (r: Option<Builder>)
    ensures r.Some? <==> ActiveColumnsAgree(md, dof, bs)
    ensures r.Some? ==> r.value.cols == dof
  {
    var b := FixedBlocks(md, dof, bs);
    if md.constraint then AppendBlocks(b, bs.user) else b
  }

  /** Every element lies in rows `lo` up to the builder's row count and
      inside its columns. */
  predicate RowsFrom(b: Builder, lo: int)
  {
    lo <= b.rows
    && forall k :: 0 <= k < |b.elems| ==> lo <= b.elems[k].row < b.rows && 0 <= b.elems[k].col < b.cols
  }

  /** Appending a fitting block keeps the elements in rows `lo` onwards
      and adds one row per error entry. */
  lemma AppendBlockFits(b: Builder, blk: Block, lo: int)
    requires RowsFrom(b, lo) && Fits(blk, b.cols)
    ensures var r := AppendBlock(Some(b), blk);
            r.Some? && RowsFrom(r.value, lo) && r.value.rows == b.rows + |blk.err|
  {
    var moved := Shifted(blk.jac.elems, b.rows);
    var r := Builder(b.rows + blk.jac.rows, b.cols, b.elems + moved);
    assert AppendBlock(Some(b), blk) == Some(r);
    forall k | 0 <= k < |r.elems|
      ensures lo <= r.elems[k].row < r.rows && 0 <= r.elems[k].col < r.cols
    {
      if k >= |b.elems| {
        var i := k - |b.elems|;
        assert r.elems[k] == moved[i];
        assert 0 <= blk.jac.elems[i].row < blk.jac.rows;
      } else {
        assert r.elems[k] == b.elems[k];
      }
    }
  }

  /** Appending fitting blocks adds one row per error entry. */
  lemma {:induction false} AppendBlocksFit(b: Builder, blocks: seq<Block>, lo: int)
    requires RowsFrom(b, lo)
    requires forall i :: 0 <= i < |blocks| ==> Fits(blocks[i], b.cols)
    ensures var r := AppendBlocks(Some(b), blocks);
            r.Some? && RowsFrom(r.value, lo) && r.value.rows == b.rows + |Errors(blocks)|
    decreases |blocks|
  {
    if |blocks| > 0 {
      AppendBlockFits(b, blocks[0], lo);
      var b1 := AppendBlock(Some(b), blocks[0]).value;
      assert forall i :: 0 <= i < |blocks[1..]| ==> blocks[1..][i] == blocks[i + 1];
      AppendBlocksFit(b1, blocks[1..], lo);
    }
  }

  /** The fixed groups stack below the leading row, one row per error
      entry. */
  lemma FixedBlocksFit(md: Modes, dof: int, bs: Blocks)
    requires AllFit(bs, dof)
    ensures var b := FixedBlocks(md, dof, bs);
            b.Some? && RowsFrom(b.value, 1) && b.value.rows == 1 + |FixedErrors(md, bs)|
  {
    var b0 := Builder(1, dof, []);
    var e1 := if md.rigid then bs.rigid.err else [];
    var b1 := if md.rigid then AppendBlock(Some(b0), bs.rigid) else Some(b0);
    if md.rigid { AppendBlockFits(b0, bs.rigid, 1); }
    var e2 := if md.panelFlat then bs.flat.err else [];
    var b2 := if md.panelFlat then AppendBlock(b1, bs.flat) else b1;
    if md.panelFlat { AppendBlockFits(b1.value, bs.flat, 1); }
    var e3 := if md.foldBlock then OptionalErrors(bs.mountain) else [];
    var b3 := if md.foldBlock && bs.mountain.Some? then AppendBlock(b2, bs.mountain.value) else b2;
    if md.foldBlock && bs.mountain.Some? { AppendBlockFits(b2.value, bs.mountain.value, 1); }
    var e4 := if md.foldBlock then OptionalErrors(bs.valley) else [];
    if md.foldBlock && bs.valley.Some? { AppendBlockFits(b3.value, bs.valley.value, 1); }
    assert |FixedErrors(md, bs)| == |e1| + |e2| + |e3| + |e4|;
  }

  /** The layout agrees: when every block fits, the Jacobian builds, has
      exactly one row per error entry, the solver's columns, and nothing in
      the leading row, which matches the leading 0 of the error. */
  lemma JacobianMatchesError(md: Modes, dof: int, bs: Blocks)
    requires AllFit(bs, dof)
    ensures var J := ComputeJacobian(md, dof, bs);
            J.Some? && J.value.rows == |ComputeError(md, bs)| && J.value.cols == dof
            && InRange(J.value)
            && forall k :: 0 <= k < |J.value.elems| ==> J.value.elems[k].row != 0
  {
    FixedBlocksFit(md, dof, bs);
    var b := FixedBlocks(md, dof, bs).value;
    if md.constraint { AppendBlocksFit(b, bs.user, 1); }
    var e5 := if md.constraint then Errors(bs.user) else [];
    assert |ComputeError(md, bs)| == 1 + |FixedErrors(md, bs)| + |e5|;
  }

  // ---------------------------------------------------------------- residual

  /** ComputeResidual: the square of the error's norm divided by its
      length. The error always has its leading entry, so the division is
      defined. */
  function ComputeResidual(e: Vec, sqrt: real -> real): (r: real)
    requires |e| > 0
    ensures r >= 0.0
  {
    var a := sqrt(Dot(e, e)) / (|e| as real);
    SquareNonNegative(a);
    Mul(a, a)
  }

  /** With an exact square root the residual is `|e|^2 / len(e)^2`, zero
      exactly when every error entry is zero. */
  lemma ResidualExact(e: Vec, sqrt: real -> real)
    requires |e| > 0 && sqrt(Dot(e, e)) >= 0.0 && sqrt(Dot(e, e)) * sqrt(Dot(e, e)) == Dot(e, e)
    ensures ComputeResidual(e, sqrt) == Dot(e, e) / ((|e| as real) * (|e| as real))
    ensures ComputeResidual(e, sqrt) == 0.0 <==> IsZero(e)
  {
    var s := sqrt(Dot(e, e));
    var len := |e| as real;
    var a := s / len;
    assert a * len == s;
    assert Mul(a, a) * (len * len) == (a * len) * (a * len);
    assert Mul(a, a) == Dot(e, e) / (len * len);
    if IsZero(e) {
      DotZero(e, e);
    }
    if ComputeResidual(e, sqrt) == 0.0 {
      assert Dot(e, e) == 0.0;
      DotSelfZero(e);
    }
  }

  // ------------------------------------------------------------ grab motion

  datatype Force = Force(x: real, y: real, z: real)

  /** Coordinate `k` of a force: 0 for x, 1 for y, 2 for z. */
  function Component(f: Force, k: int): real
  {
    if k == 0 then f.x else if k == 1 then f.y else f.z
  }

  predicate Distinct(ids: seq<int>)
  {
    forall i, j :: 0 <= i < j < |ids| ==> ids[i] != ids[j]
  }

  /** The position of the first `v` in `ids`, or -1. */
  function IndexOf(ids: seq<int>, v: int): (i: int)
    ensures -1 <= i < |ids|
    ensures i >= 0 ==> ids[i] == v
    ensures i == -1 <==> forall j :: 0 <= j < |ids| ==> ids[j] != v
    ensures i >= 0 ==> forall j :: 0 <= j < i ==> ids[j] != v
  {
    if |ids| == 0 then -1
    else if ids[0] == v then 0
    else
      var k := IndexOf(ids[1..], v);
      if k == -1 then -1 else k + 1
  }

  /** Every grabbed vertex has its three coordinates inside the vector. */
  predicate IdsInRange(dof: int, ids: seq<int>)
  {
    forall i :: 0 <= i < |ids| ==> 0 <= ids[i] && 3 * ids[i] + 2 < dof
  }

  lemma DivMod3(v: int, k: int)
    requires 0 <= v && 0 <= k < 3
    ensures (3 * v + k) / 3 == v && (3 * v + k) % 3 == k
  {
  }

  /** ComputeGrabMotion: with no forces the zero vector; otherwise force `i`
      goes to the three coordinates of vertex `ids[i]` and every other
      entry is zero. A force list shorter than the vertex list, or a vertex
      outside the vector, throws (None). */
  function GrabMotion(dof: nat, ids: seq<int>, forces: seq<Force>): (r: Option<Vec>)
    requires Distinct(ids)
    ensures |forces| == 0 ==> r == Some(Zeros(dof))
    ensures |forces| > 0 ==> (r.Some? <==> |ids| <= |forces| && IdsInRange(dof, ids))
    ensures r.Some? ==> |r.value| == dof
    ensures r.Some? && |forces| > 0 ==>
              forall i, k :: 0 <= i < |ids| && 0 <= k < 3 ==> r.value[3 * ids[i] + k] == Component(forces[i], k)
    ensures r.Some? ==>
              forall j :: 0 <= j < dof && (forall i :: 0 <= i < |ids| ==> ids[i] != j / 3) ==> r.value[j] == 0.0
  {
    if |forces| == 0 then Some(Zeros(dof))
    else if |forces| < |ids| || !IdsInRange(dof, ids) then None
    else
      var v := seq(dof, j requires 0 <= j < dof =>
                     var i := IndexOf(ids, j / 3);
                     if i >= 0 then Component(forces[i], j % 3) else 0.0);
      assert forall i, k :: 0 <= i < |ids| && 0 <= k < 3 ==> v[3 * ids[i] + k] == Component(forces[i], k) by {
        forall i, k | 0 <= i < |ids| && 0 <= k < 3
          ensures v[3 * ids[i] + k] == Component(forces[i], k)
        {
          DivMod3(ids[i], k);
          var f := IndexOf(ids, ids[i]);
          assert f == i;
        }
      }
      Some(v)
  }

  // ------------------------------------------------------- fold driving force

  /** The fold driving force of one edge: `+s cos(t/2)` for a mountain,
      its negation for a valley, 0 for any other label. */
  function FoldForceAt(mark: char, speed: real, angle: real, cos: real -> real): real
  {
    if mark == 'V' then -(speed * cos(angle / 2.0))
    else if mark == 'M' then speed * cos(angle / 2.0)
    else 0.0
  }

  /** The unfold driving force of one edge: `+s cos((pi - |t|)/2)` for a
      valley, its negation for a mountain, 0 for any other label. */
  function UnfoldForceAt(mark: char, speed: real, angle: real, cos: real -> real): real
  {
    if mark == 'V' then speed * cos(0.5 * (Pi - Abs(angle)))
    else if mark == 'M' then -(speed * cos(0.5 * (Pi - Abs(angle))))
    else 0.0
  }

  /** ComputeInitialFoldAngleVectorForFold: one force per inner edge. */
  function FoldForce(labels: seq<char>, angles: seq<real>, speed: real, cos: real -> real): (f: Vec)
    requires |angles| >= |labels|
    ensures |f| == |labels|
    ensures forall i :: 0 <= i < |f| && labels[i] != 'M' && labels[i] != 'V' ==> f[i] == 0.0
  {
    seq(|labels|, i requires 0 <= i < |labels| => FoldForceAt(labels[i], speed, angles[i], cos))
  }

  /** ComputeInitialFoldAngleVectorForUnFold: one force per inner edge. */
  function UnfoldForce(labels: seq<char>, angles: seq<real>, speed: real, cos: real -> real): (f: Vec)
    requires |angles| >= |labels|
    ensures |f| == |labels|
    ensures forall i :: 0 <= i < |f| && labels[i] != 'M' && labels[i] != 'V' ==> f[i] == 0.0
  {
    seq(|labels|, i requires 0 <= i < |labels| => UnfoldForceAt(labels[i], speed, angles[i], cos))
  }

  /** Mountain and valley labels exchanged, every other label kept. */
  function SwapMountainValley(labels: seq<char>): (s: seq<char>)
    ensures |s| == |labels|
    ensures forall i :: 0 <= i < |s| ==>
              s[i] == (if labels[i] == 'M' then 'V' else if labels[i] == 'V' then 'M' else labels[i])
  {
    seq(|labels|, i requires 0 <= i < |labels| =>
      if labels[i] == 'M' then 'V' else if labels[i] == 'V' then 'M' else labels[i])
  }

  /** A valley is driven exactly opposite to a mountain at the same angle,
      when folding and when unfolding. */
  lemma ForceMountainValleyOpposite(labels: seq<char>, angles: seq<real>, speed: real, cos: real -> real)
    requires |angles| >= |labels|
    ensures FoldForce(SwapMountainValley(labels), angles, speed, cos) == Scale(-1.0, FoldForce(labels, angles, speed, cos))
    ensures UnfoldForce(SwapMountainValley(labels), angles, speed, cos) == Scale(-1.0, UnfoldForce(labels, angles, speed, cos))
  {
    var s := SwapMountainValley(labels);
    var f := FoldForce(labels, angles, speed, cos);
    var u := UnfoldForce(labels, angles, speed, cos);
    forall i | 0 <= i < |labels|
      ensures FoldForce(s, angles, speed, cos)[i] == Scale(-1.0, f)[i]
      ensures UnfoldForce(s, angles, speed, cos)[i] == Scale(-1.0, u)[i]
    {
    }
  }

  /** The driving force of ComputeFoldMotion: fold wins over unfold, and
      with neither request the force is zero. */
  function DrivingForce(fold: bool, unfold: bool, labels: seq<char>, angles: seq<real>, speed: real,
                        cos: real -> real): (f: Vec)
    requires |angles| >= |labels|
    ensures |f| == |labels|
    ensures fold ==> f == FoldForce(labels, angles, speed, cos)
    ensures !fold && unfold ==> f == UnfoldForce(labels, angles, speed, cos)
    ensures !fold && !unfold ==> IsZero(f)
  {
    if fold then FoldForce(labels, angles, speed, cos)
    else if unfold then UnfoldForce(labels, angles, speed, cos)
    else Zeros(|labels|)
  }

  /** The fold-motion weight. */
  const FoldWeight: real := 10.0

  /** ComputeFoldMotionMatrix with weight 10: `(1/10) F^T F + (9/10) J^T J`.
      It is symmetric and uses the native builders' coefficient sign. */
  function FoldMotionMatrix(F: Mat, J: Mat, n: nat): (M: Mat)
    requires IsMat(F, |F|, n) && IsMat(J, |J|, n)
    ensures IsMat(M, n, n)
    ensures forall i, j :: 0 <= i < n && 0 <= j < n ==> M[i][j] == M[j][i]
    ensures LinearAlgebra.ManagedGramCorrected(F, J, n, FoldWeight) == LinearAlgebra.Computed(M)
  {
    GramCombinationSymmetric(F, J, n, 1.0 / FoldWeight, (FoldWeight - 1.0) / FoldWeight);
    GramCombination(F, J, n, 1.0 / FoldWeight, (FoldWeight - 1.0) / FoldWeight)
  }

  /** ComputeFoldMotion: the negated symmetric solve of the fold-motion
      matrix against `F^T f`, tolerance `1e-6`; None is a non-finite
      result. */
  function FoldMotion(os: LinearAlgebra.Os, arch: LinearAlgebra.Arch, F: Mat, J: Mat, n: nat,
                      fold: bool, unfold: bool, labels: seq<char>, angles: seq<real>, speed: real,
                      cos: real -> real, iterationMax: int, be: Krylov.Backend, sqrt: real -> real): (r: Option<Vec>)
    requires IsMat(F, |labels|, n) && IsMat(J, |J|, n) && |angles| >= |labels|
    ensures r.Some? ==> |r.value| == n
  {
    var A := FoldMotionMatrix(F, J, n);
    var b := MatTVec(F, n, DrivingForce(fold, unfold, labels, angles, speed, cos));
    var x := LinearAlgebra.SolveSym(os, arch, A, n, b, 1.0 / 1000000.0, iterationMax, be, sqrt);
    if x.None? then None else Some(Scale(-1.0, x.value))
  }

  /** No edge is a mountain or a valley. */
  predicate NoCreases(labels: seq<char>)
  {
    forall i :: 0 <= i < |labels| ==> labels[i] != 'M' && labels[i] != 'V'
  }

  /** Without mountain and valley edges the right-hand side `F^T f` of the
      fold motion is zero. */
  lemma NoCreasesNoLoad(F: Mat, n: nat, labels: seq<char>, angles: seq<real>, speed: real, cos: real -> real)
    requires IsMat(F, |labels|, n) && |angles| >= |labels| && NoCreases(labels)
    ensures MatTVec(F, n, DrivingForce(true, false, labels, angles, speed, cos)) == Zeros(n)
  {
    var f := DrivingForce(true, false, labels, angles, speed, cos);
    assert IsZero(f);
    var b := MatTVec(F, n, f);
    forall j | 0 <= j < n
      ensures b[j] == 0.0
    {
      DotZero(Column(F, j), f);
    }
  }

  /** Folding a pattern with no mountain or valley edge on the managed
      solver: the force is zero and so is the motion. */
  lemma FoldMotionWithoutCreasesManaged(F: Mat, J: Mat, n: nat, labels: seq<char>, angles: seq<real>,
                                        speed: real, cos: real -> real, iterationMax: int, sqrt: real -> real)
    requires n > 0 && IsMat(F, |labels|, n) && IsMat(J, |J|, n) && |angles| >= |labels|
    requires NoCreases(labels) && iterationMax >= 1 && sqrt(0.0) == 0.0
    ensures FoldMotion(LinearAlgebra.OtherOs, LinearAlgebra.X64, F, J, n, true, false, labels, angles, speed,
                       cos, iterationMax, Krylov.Healthy(), sqrt) == Some(Zeros(n))
  {
    NoCreasesNoLoad(F, n, labels, angles, speed, cos);
    var A := FoldMotionMatrix(F, J, n);
    LinearAlgebra.SolveSymZeroRightHandSide(A, n, 1.0 / 1000000.0, iterationMax, sqrt);
    assert LinearAlgebra.SolveSym(LinearAlgebra.OtherOs, LinearAlgebra.X64, A, n, Zeros(n), 1.0 / 1000000.0,
                                  iterationMax, Krylov.Healthy(), sqrt) == Some(Zeros(n));
    NegatedZero(n);
  }

  lemma NegatedZero(n: nat)
    ensures Scale(-1.0, Zeros(n)) == Zeros(n)
  {
  }

  /** The same fold on the MKL solver: its relative stopping test divides
      by the zero norm of the right-hand side, and the motion is
      non-finite. */
  lemma FoldMotionWithoutCreasesMkl(F: Mat, J: Mat, n: nat, labels: seq<char>, angles: seq<real>,
                                    speed: real, cos: real -> real, iterationMax: int, sqrt: real -> real)
    requires n > 0 && IsMat(F, |labels|, n) && IsMat(J, |J|, n) && |angles| >= |labels|
    requires NoCreases(labels) && iterationMax >= 1 && sqrt(0.0) == 0.0
    ensures FoldMotion(LinearAlgebra.Windows, LinearAlgebra.X64, F, J, n, true, false, labels, angles, speed,
                       cos, iterationMax, Krylov.Healthy(), sqrt) == None
  {
    NoCreasesNoLoad(F, n, labels, angles, speed, cos);
    var A := FoldMotionMatrix(F, J, n);
    LinearAlgebra.SolveSymZeroRightHandSide(A, n, 1.0 / 1000000.0, iterationMax, sqrt);
    assert LinearAlgebra.SolveSym(LinearAlgebra.Windows, LinearAlgebra.X64, A, n, Zeros(n), 1.0 / 1000000.0,
                                  iterationMax, Krylov.Healthy(), sqrt) == None;
  }

  // ------------------------------------------------------------- NRSolve

  /** The CGNR cap of the initial move: one less than the smaller Jacobian
      dimension, and at most the caller's cap. */
  function InitialCap(rows: int, cols: int, iterationMaxCgnr: int): (cap: int)
    ensures cap <= iterationMaxCgnr && cap < rows && cap < cols
    ensures cap == iterationMaxCgnr || cap == rows - 1 || cap == cols - 1
  {
    LinearAlgebra.Min(LinearAlgebra.Min(rows, cols) - 1, iterationMaxCgnr)
  }

  /** The CGNR cap of a Newton step: the smaller Jacobian dimension, and at
      most the caller's cap. */
  function StepCap(rows: int, cols: int, iterationMaxCgnr: int): (cap: int)
    ensures cap <= iterationMaxCgnr && cap <= rows && cap <= cols
    ensures cap == iterationMaxCgnr || cap == rows || cap == cols
  {
    LinearAlgebra.Min(LinearAlgebra.Min(rows, cols), iterationMaxCgnr)
  }

  /** With only the leading dummy row the initial move passes through the
      managed solver untouched: the cap is at most 0, the caller's guess
      (the negated move) comes back, and its negation is the move itself. */
  lemma InitialMoveWithOnlyDummyRow(J: Mat, n: nat, e: Vec, move: Vec, residual: real, iterationMaxCgnr: int,
                                    sqrt: real -> real)
    requires IsMat(J, 1, n) && |e| == 1 && |move| == n
    ensures var x := LinearAlgebra.SolveManaged(J, 1, n, e, Scale(-1.0, move), residual,
                                                InitialCap(1, n, iterationMaxCgnr), sqrt);
            x.Some? && Scale(-1.0, x.value) == move
  {
    LinearAlgebra.SolveManagedKeepsGoodGuess(J, 1, n, e, Scale(-1.0, move), residual,
                                             InitialCap(1, n, iterationMaxCgnr), sqrt);
    assert Scale(-1.0, Scale(-1.0, move)) == move;
  }

  /** What a linear search leaves: the mesh vector, the residual, and the
      Jacobian's row count. */
  datatype Probe = Probe(mesh: Vec, residual: real, rows: int)

  /** The state before Newton step `k + 1` (or after the last one): the
      initial move's result when a move was requested, else the start, for
      `k = 0`; the result of step `k` otherwise. */
  function ProbeAt(start: Probe, moved: bool, afterMove: Probe, afterStep: nat -> Probe, k: nat): Probe
  {
    if k > 0 then afterStep(k) else if moved then afterMove else start
  }

  /** NRSolve. A non-zero requested move is first solved with the initial
      cap; then Newton steps, each with the step cap, run while fewer than
      `iterationMaxNewton` have run and the residual exceeds `threshold`.
      The final mesh is recorded. Returned: the new state, the residual,
      the number of Newton steps and the CGNR caps used, in order. */
  method NRSolve(o: Origami, dof: int, start: Probe, moved: bool, afterMove: Probe, afterStep: nat -> Probe,
                 threshold: real, iterationMaxNewton: int, iterationMaxCgnr: int)
    returns (next: Origami, residual: real, steps: nat, caps: seq<int>)
    requires ValidCursor(o)
    ensures steps == 0 || steps <= iterationMaxNewton
    ensures var last := ProbeAt(start, moved, afterMove, afterStep, steps);
            residual == last.residual
            && (steps < iterationMaxNewton ==> residual <= threshold)
            && next.history == RecordFrame(o.history, o.cursor, last.mesh)
    ensures forall k :: 0 <= k < steps ==> ProbeAt(start, moved, afterMove, afterStep, k).residual > threshold
    ensures |caps| == (if moved then 1 else 0) + steps
    ensures moved ==> caps[0] == InitialCap(start.rows, dof, iterationMaxCgnr)
    ensures forall k :: 0 <= k < steps ==>
              caps[|caps| - steps + k] == StepCap(ProbeAt(start, moved, afterMove, afterStep, k).rows, dof, iterationMaxCgnr)
    ensures ValidCursor(next) && next.cursor == |next.history| - 1
    ensures next.(history := o.history, cursor := o.cursor) == o
  {
    var probe := start;
    caps := [];
    if moved {
      caps := [InitialCap(start.rows, dof, iterationMaxCgnr)];
      probe := afterMove;
    }
    var offset := |caps|;
    steps := 0;
    while steps < iterationMaxNewton && probe.residual > threshold
      invariant steps == 0 || steps <= iterationMaxNewton
      invariant probe == ProbeAt(start, moved, afterMove, afterStep, steps)
      invariant offset == (if moved then 1 else 0) && |caps| == offset + steps
      invariant moved ==> caps[0] == InitialCap(start.rows, dof, iterationMaxCgnr)
      invariant forall k :: 0 <= k < steps ==> ProbeAt(start, moved, afterMove, afterStep, k).residual > threshold
      invariant forall k :: 0 <= k < steps ==>
                  caps[offset + k] == StepCap(ProbeAt(start, moved, afterMove, afterStep, k).rows, dof, iterationMaxCgnr)
      decreases iterationMaxNewton - steps
    {
      caps := caps + [StepCap(probe.rows, dof, iterationMaxCgnr)];
      steps := steps + 1;
      probe := afterStep(steps);
    }
    residual := probe.residual;
    var h := RecordFrame(o.history, o.cursor, probe.mesh);
    next := o.(history := h, cursor := |h| - 1);
  }
}
