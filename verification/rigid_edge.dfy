/** Edge rigidity, Crane/Constraints/RigidEdge.cs: one row per topology
    edge whose error is half the relative change of the edge's squared
    length against the squared length recorded for it, and whose Jacobian
    row holds that error's gradient at the edge's two ends. */
module RigidEdge {
  import opened Common
  import opened SparseBuilder
  import opened Constraint
  import RigidOrigami

  /** The mesh as the constraint reads it: each topology edge joins two
      vertices of `x`, and each has a recorded nonzero squared length. */
  predicate Mesh(x: Vec, edges: seq<IndexPair>, restSq: seq<real>)
  {
    |restSq| == |edges|
    && forall i :: 0 <= i < |edges| ==> IsVertex(x, edges[i].i) && IsVertex(x, edges[i].j) && restSq[i] != 0.0
  }

  /** The error of one edge: `(|a - b|^2 / rest - 1) / 2`. */
  function Stretch(x: Vec, e: IndexPair, rest: real): real
    requires IsVertex(x, e.i) && IsVertex(x, e.j) && rest != 0.0
  {
    (EdgeSq(x, e.i, e.j) / rest - 1.0) / 2.0
  }

  /** The edge's gradient stencil: `(a - b) / rest` at its start and
      `(b - a) / rest` at its end. */
  function Gradient(x: Vec, e: IndexPair, rest: real): Stencil
    requires IsVertex(x, e.i) && IsVertex(x, e.j) && rest != 0.0
  {
    var a, b := Vertex(x, e.i), Vertex(x, e.j);
    Pair(e.i, Over3(Minus(a, b), rest), e.j, Over3(Minus(b, a), rest))
  }

  /** Error: one entry per topology edge, zero exactly when the edge has
      its recorded squared length. */
  function Error(x: Vec, edges: seq<IndexPair>, restSq: seq<real>): (err: Vec)
    requires Mesh(x, edges, restSq)
    ensures |err| == |edges|
    ensures forall i :: 0 <= i < |edges| ==> (err[i] == 0.0 <==> EdgeSq(x, edges[i].i, edges[i].j) == restSq[i])
  {
    seq(|edges|, i requires 0 <= i < |edges| => Stretch(x, edges[i], restSq[i]))
  }

  /** The rows of the Jacobian, row `i` holding edge `i`'s elements with
      the two ends interleaved coordinate by coordinate. */
  function Rows(x: Vec, edges: seq<IndexPair>, restSq: seq<real>): (rows: seq<seq<Element>>)
    requires Mesh(x, edges, restSq)
    ensures |rows| == |edges| && Tagged(rows)
  {
    seq(|edges|, i requires 0 <= i < |edges| => Interleaved(i, Gradient(x, edges[i], restSq[i])))
  }

  /** Jacobian: as many rows as edges, one column per coordinate. */
  function Jacobian(x: Vec, edges: seq<IndexPair>, restSq: seq<real>): (b: Builder)
    requires Mesh(x, edges, restSq)
    ensures b.rows == |edges| && b.cols == |x|
  {
    Builder(|edges|, |x|, Stack(Rows(x, edges, restSq)))
  }

  function Block(x: Vec, edges: seq<IndexPair>, restSq: seq<real>): RigidOrigami.Block
    requires Mesh(x, edges, restSq)
  {
    RigidOrigami.Block(Error(x, edges, restSq), Jacobian(x, edges, restSq))
  }

  /** The block stacks into the solver: one Jacobian row per error entry,
      the solver's columns, every element inside. */
  lemma BlockFits(x: Vec, edges: seq<IndexPair>, restSq: seq<real>)
    requires Mesh(x, edges, restSq)
    ensures RigidOrigami.Fits(Block(x, edges, restSq), |x|)
  {
    var rows := Rows(x, edges, restSq);
    forall k | 0 <= k < |rows|
      ensures Inside(rows[k], |rows|, |x|)
    {
      InterleavedInside(k, Gradient(x, edges[k], restSq[k]), |rows|, |x|);
    }
    StackInside(rows, |x|);
  }

  /** What the Jacobian stores at row `r`, column `c` is the derivative of
      edge `r`'s error along `c`. */
  lemma JacobianEntry(x: Vec, edges: seq<IndexPair>, restSq: seq<real>, r: int, c: int)
    requires Mesh(x, edges, restSq) && 0 <= r < |edges|
    ensures EntryAt(Jacobian(x, edges, restSq).elems, r, c) == Directional(Gradient(x, edges[r], restSq[r]), c)
  {
    StackEntry(Rows(x, edges, restSq), r, c);
    InterleavedEntry(r, Gradient(x, edges[r], restSq[r]), c);
  }

  /** One edge's error is quadratic in every coordinate, so its central
      difference along `c` is exactly `2t` times the derivative its
      gradient stencil predicts. */
  lemma StretchExact(x: Vec, e: IndexPair, rest: real, c: int, t: real)
    requires IsVertex(x, e.i) && IsVertex(x, e.j) && rest != 0.0 && 0 <= c < |x|
    ensures Stretch(Nudge(x, c, t), e, rest) - Stretch(Nudge(x, c, -t), e, rest)
            == Times(2.0 * t, Directional(Gradient(x, e, rest), c))
  {
    var a, b := Vertex(x, e.i), Vertex(x, e.j);
    EdgeStencilDirectional(a, b, e.i, e.j, rest, c);
    EdgeSqDifference(x, e.i, e.j, c, t);
    StretchStep(EdgeSq(Nudge(x, c, t), e.i, e.j), EdgeSq(Nudge(x, c, -t), e.i, e.j), rest, t,
                Inner(Minus(a, b), Along(e.i, e.j, c)));
  }

  /** The Jacobian is the exact gradient of the error: nudging coordinate
      `c` by `t` either way changes entry `r` by `2t` times what the
      Jacobian stores at `(r, c)`. */
  lemma GradientExact(x: Vec, edges: seq<IndexPair>, restSq: seq<real>, r: int, c: int, t: real)
    requires Mesh(x, edges, restSq) && 0 <= r < |edges| && 0 <= c < |x|
    ensures Error(Nudge(x, c, t), edges, restSq)[r] - Error(Nudge(x, c, -t), edges, restSq)[r]
            == Times(2.0 * t, EntryAt(Jacobian(x, edges, restSq).elems, r, c))
  {
    JacobianEntry(x, edges, restSq, r, c);
    StretchExact(x, edges[r], restSq[r], c, t);
  }

  /** The arithmetic of StretchExact, on plain reals. */
  lemma StretchStep(qp: real, qm: real, rest: real, t: real, p: real)
    requires rest != 0.0
    requires qp - qm == Times(4.0 * t, p)
    ensures (qp / rest - 1.0) / 2.0 - (qm / rest - 1.0) / 2.0 == Times(2.0 * t, Over(p, rest))
  {
    assert (qp / rest - 1.0) / 2.0 - (qm / rest - 1.0) / 2.0 == (qp - qm) / (2.0 * rest);
  }
}
