/** The per-tick rules of the interactive solver component,
    Crane/Components/Solver/CraneInteractiveSolver.cs `SolveInstance`:
    reset, undo and redo over the recorded frames, the fold-speed scaling,
    and the choice between a Newton solve, a direct move and idling.

    Residuals and the norm of the requested move are inputs; the mouse,
    keyboard and timer are not modelled. */
module InteractiveSolver {
  import opened Common
  import opened RigidOrigami

  /** The solver state and the mesh on show. */
  datatype Session = Session(origami: Origami, mesh: Vec)

  /** The cursor names a recorded frame and that frame is on show. */
  predicate Synced(s: Session)
  {
    ValidCursor(s.origami) && s.mesh == s.origami.history[s.origami.cursor]
  }

  /** Undo: step back one frame and show it, unless on the first frame. */
  function Undo(s: Session): (t: Session)
    ensures s.origami.cursor > 0 && ValidCursor(s.origami) ==>
              t.origami.cursor == s.origami.cursor - 1 && Synced(t)
    ensures s.origami.cursor <= 0 ==> t == s
    ensures t.origami.(cursor := s.origami.cursor) == s.origami
  {
    var o := s.origami;
    if o.cursor > 0 && o.cursor - 1 < |o.history| then
      Session(o.(cursor := o.cursor - 1), o.history[o.cursor - 1])
    else s
  }

  /** Redo: step forward one frame and show it, unless on the last frame. */
  function Redo(s: Session): (t: Session)
    ensures ValidCursor(s.origami) && s.origami.cursor < |s.origami.history| - 1 ==>
              t.origami.cursor == s.origami.cursor + 1 && Synced(t)
    ensures s.origami.cursor >= |s.origami.history| - 1 ==> t == s
    ensures t.origami.(cursor := s.origami.cursor) == s.origami
  {
    var o := s.origami;
    if 0 <= o.cursor + 1 && o.cursor < |o.history| - 1 then
      Session(o.(cursor := o.cursor + 1), o.history[o.cursor + 1])
    else s
  }

  /** Both requests of one tick: undo first, then redo. */
  function UndoRedo(s: Session, undo: bool, redo: bool): (t: Session)
    ensures Synced(s) ==> Synced(t)
    ensures t.origami.history == s.origami.history
    ensures ValidCursor(s.origami) ==> s.origami.cursor - 1 <= t.origami.cursor <= s.origami.cursor + 1
  {
    var u := if undo then Undo(s) else s;
    if redo then Redo(u) else u
  }

  /** Redo undoes an undo that moved. */
  lemma RedoAfterUndo(s: Session)
    requires Synced(s) && s.origami.cursor > 0
    ensures Redo(Undo(s)) == s
  {
  }

  /** Undo undoes a redo that moved. */
  lemma UndoAfterRedo(s: Session)
    requires Synced(s) && s.origami.cursor < |s.origami.history| - 1
    ensures Undo(Redo(s)) == s
  {
  }

  /** The order matters on the first frame: with both requests the undo
      does nothing and the redo moves on, where the other order would end
      where it began. */
  lemma BothRequestsOnFirstFrame(s: Session)
    requires Synced(s) && s.origami.cursor == 0 && |s.origami.history| > 1
    ensures UndoRedo(s, true, true).origami.cursor == 1
    ensures Undo(Redo(s)) == s
  {
  }

  /** Reset: a fresh solver on the input mesh that keeps the current modes.
      The recorded frames go, and so do the fold requests and the record
      switch, which the fresh solver has off. */
  function Reset(current: Origami, mesh: Vec): (o: Origami)
    ensures o.history == [mesh] && o.cursor == 0 && ValidCursor(o)
    ensures o.modes == current.modes
    ensures !o.fold && !o.unfold && !o.record
  {
    var m := current.modes;
    CopyOf(SaveModes(FromMesh(mesh), m.rigid, m.panelFlat, m.foldBlock, m.constraint))
  }

  /** The fold-speed input is divided by 50 before use. */
  function FoldSpeed(input: real): (speed: real)
    ensures 50.0 * speed == input
  {
    input / 50.0
  }

  /** What one tick does with the mesh. */
  datatype Step = Frozen | NewtonSolve | DirectMove | Idle(stop: bool)

  /** The decision of one tick. `resi` is the residual before undo and redo,
      `moveNorm` the norm of the requested move, `resiNow` the residual
      when the move is known, and `lastResidual` the residual the previous
      Newton solve returned. */
  function Decide(resi: real, moveNorm: real, resiNow: real, lastResidual: real, threshold: real,
                  rigidMode: bool, constraintMode: bool, hasConstraints: bool,
                  isFold: bool, isGrab: bool, grabMode: bool): (a: Step)
    ensures a == Frozen <==> resi >= 100000.0
    ensures a == NewtonSolve <==>
              resi < 100000.0 && (moveNorm > 0.00001 || resiNow > threshold)
              && (lastResidual > threshold || isFold || isGrab || (hasConstraints && constraintMode))
    ensures a == DirectMove <==>
              resi < 100000.0 && (moveNorm > 0.00001 || resiNow > threshold)
              && !(lastResidual > threshold || isFold || isGrab) && !(hasConstraints && constraintMode)
    ensures a.Idle? <==> resi < 100000.0 && moveNorm <= 0.00001 && resiNow <= threshold
    ensures a.Idle? ==> (a.stop <==> resiNow < threshold && !grabMode && !isFold)
  {
    if !(resi < 100000.0) then Frozen
    else if moveNorm > 0.00001 || resiNow > threshold then
      var isCompute := lastResidual > threshold || isFold || isGrab;
      if rigidMode && isCompute then NewtonSolve
      else if (hasConstraints && constraintMode) || isCompute then NewtonSolve
      else DirectMove
    else Idle(resiNow < threshold && !grabMode && !isFold)
  }
}
