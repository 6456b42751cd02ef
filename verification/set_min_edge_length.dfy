/** The minimum edge length, Crane/Constraints/SetMinEdgeLength.cs: only
    the edges shorter than the minimum get a row, numbered in edge order,
    and each such row pulls its edge towards the goal length, the minimum
    plus 0.1, with the same error and gradient as edge rigidity. */
module SetMinEdgeLength {
  import opened Common
  import opened SparseBuilder
  import opened Constraint
  import RigidEdge
  import RigidOrigami

  /** The mesh as the constraint reads it: each topology edge joins two
      vertices of `x`. */
  predicate Mesh(x: Vec, edges: seq<IndexPair>)
  {
    forall i :: 0 <= i < |edges| ==> IsVertex(x, edges[i].i) && IsVertex(x, edges[i].j)
  }

  /** The length the constraint aims for. */
  function Goal(minLength: real): real { minLength + 0.1 }

  /** `a.DistanceTo(b) < minLength`, decided exactly on the squared
      length: a length is never negative, so it is below the minimum
      exactly when the minimum is positive and the squared length is below
      the minimum's square. */
  predicate Short(x: Vec, e: IndexPair, minLength: real)
    requires IsVertex(x, e.i) && IsVertex(x, e.j)
  {
    minLength > 0.0 && EdgeSq(x, e.i, e.j) < minLength * minLength
  }

  /** Which edges are short, edge by edge. */
  function Flags(x: Vec, edges: seq<IndexPair>, minLength: real): (f: seq<bool>)
    requires Mesh(x, edges)
    ensures |f| == |edges| && forall i :: 0 <= i < |edges| ==> (f[i] <==> Short(x, edges[i], minLength))
  {
    seq(|edges|, i requires 0 <= i < |edges| => Short(x, edges[i], minLength))
  }

  /** The ids of the short edges, in increasing order: the rows. */
  function Kept(x: Vec, edges: seq<IndexPair>, minLength: real): (ids: seq<int>)
    requires Mesh(x, edges)
    ensures forall k :: 0 <= k < |ids| ==> 0 <= ids[k] < |edges| && Short(x, edges[ids[k]], minLength)
    ensures forall k, l :: 0 <= k < l < |ids| ==> ids[k] < ids[l]
    ensures forall i :: 0 <= i < |edges| && Short(x, edges[i], minLength) ==> i in ids
  {
    Selected(Flags(x, edges, minLength), |edges|)
  }

  function Row(x: Vec, e: IndexPair, minLength: real, r: int): (es: seq<Element>)
    requires IsVertex(x, e.i) && IsVertex(x, e.j) && Short(x, e, minLength)
    ensures OnRow(es, r)
  {
    Interleaved(r, RigidEdge.Gradient(x, e, GoalSq(minLength)))
  }

  /** The goal's square, nonzero whenever some edge is short. */
  function GoalSq(minLength: real): (s: real)
    requires minLength > 0.0
    ensures s > 0.0
  {
    Goal(minLength) * Goal(minLength)
  }

  /** The error of the `k`th short edge. */
  function Entry(x: Vec, edges: seq<IndexPair>, minLength: real, k: int): real
    requires Mesh(x, edges) && 0 <= k < |Kept(x, edges, minLength)|
  {
    var e := edges[Kept(x, edges, minLength)[k]];
    RigidEdge.Stretch(x, e, GoalSq(minLength))
  }

  /** Error: one entry per short edge, in edge order. */
  function Error(x: Vec, edges: seq<IndexPair>, minLength: real): (err: Vec)
    requires Mesh(x, edges)
    ensures |err| == |Kept(x, edges, minLength)|
  {
    var ids := Kept(x, edges, minLength);
    seq(|ids|, k requires 0 <= k < |ids| => Entry(x, edges, minLength, k))
  }

  /** Every error entry is negative: a short edge is shorter than the
      goal, so the constraint only ever asks for longer edges. */
  lemma ErrorNegative(x: Vec, edges: seq<IndexPair>, minLength: real, k: int)
    requires Mesh(x, edges) && 0 <= k < |Kept(x, edges, minLength)|
    ensures Error(x, edges, minLength)[k] < 0.0
  {
    var e := edges[Kept(x, edges, minLength)[k]];
    BelowGoal(EdgeSq(x, e.i, e.j), minLength);
  }

  lemma BelowGoal(q: real, m: real)
    requires m > 0.0 && q < m * m
    ensures (q / GoalSq(m) - 1.0) / 2.0 < 0.0
  {
    var g, gs := Goal(m), GoalSq(m);
    assert gs == m * m + 0.2 * m + 0.01;
    assert q < gs;
    assert q / gs * gs == q;
    assert q / gs < 1.0;
  }

  function Rows(x: Vec, edges: seq<IndexPair>, minLength: real): (rows: seq<seq<Element>>)
    requires Mesh(x, edges)
    ensures |rows| == |Kept(x, edges, minLength)| && Tagged(rows)
  {
    var ids := Kept(x, edges, minLength);
    seq(|ids|, k requires 0 <= k < |ids| => Row(x, edges[ids[k]], minLength, k))
  }

  /** Jacobian: one row per short edge, one column per coordinate. */
  function Jacobian(x: Vec, edges: seq<IndexPair>, minLength: real): (b: Builder)
    requires Mesh(x, edges)
    ensures b.rows == |Error(x, edges, minLength)| && b.cols == |x|
  {
    Builder(|Kept(x, edges, minLength)|, |x|, Stack(Rows(x, edges, minLength)))
  }

  function Block(x: Vec, edges: seq<IndexPair>, minLength: real): RigidOrigami.Block
    requires Mesh(x, edges)
  {
    RigidOrigami.Block(Error(x, edges, minLength), Jacobian(x, edges, minLength))
  }

  /** The error and the Jacobian select the same edges, so the block
      stacks into the solver. */
  lemma BlockFits(x: Vec, edges: seq<IndexPair>, minLength: real)
    requires Mesh(x, edges)
    ensures RigidOrigami.Fits(Block(x, edges, minLength), |x|)
  {
    var rows, ids := Rows(x, edges, minLength), Kept(x, edges, minLength);
    forall k | 0 <= k < |rows|
      ensures Inside(rows[k], |rows|, |x|)
    {
      var st := RigidEdge.Gradient(x, edges[ids[k]], GoalSq(minLength));
      assert rows[k] == Interleaved(k, st);
      InterleavedInside(k, st, |rows|, |x|);
    }
    StackInside(rows, |x|);
  }

  /** Row `k` is exact for its edge: the central difference of the `k`th
      short edge's error along `c` is `2t` times what the Jacobian stores
      at `(k, c)`. */
  lemma GradientExact(x: Vec, edges: seq<IndexPair>, minLength: real, k: int, c: int, t: real)
    requires Mesh(x, edges) && 0 <= k < |Kept(x, edges, minLength)| && 0 <= c < |x|
    ensures var e := edges[Kept(x, edges, minLength)[k]];
            RigidEdge.Stretch(Nudge(x, c, t), e, GoalSq(minLength)) - RigidEdge.Stretch(Nudge(x, c, -t), e, GoalSq(minLength))
            == Times(2.0 * t, EntryAt(Jacobian(x, edges, minLength).elems, k, c))
  {
    var e := edges[Kept(x, edges, minLength)[k]];
    var st := RigidEdge.Gradient(x, e, GoalSq(minLength));
    StackEntry(Rows(x, edges, minLength), k, c);
    assert Rows(x, edges, minLength)[k] == Interleaved(k, st);
    InterleavedEntry(k, st, c);
    RigidEdge.StretchExact(x, e, GoalSq(minLength), c, t);
  }

  /** When the nudges keep the same edges short, row `k` is the exact
      gradient of error entry `k` itself. */
  lemma GradientExactWhileKept(x: Vec, edges: seq<IndexPair>, minLength: real, k: int, c: int, t: real)
    requires Mesh(x, edges) && 0 <= k < |Kept(x, edges, minLength)| && 0 <= c < |x|
    requires Kept(Nudge(x, c, t), edges, minLength) == Kept(x, edges, minLength)
    requires Kept(Nudge(x, c, -t), edges, minLength) == Kept(x, edges, minLength)
    ensures Error(Nudge(x, c, t), edges, minLength)[k] - Error(Nudge(x, c, -t), edges, minLength)[k]
            == Times(2.0 * t, EntryAt(Jacobian(x, edges, minLength).elems, k, c))
  {
    GradientExact(x, edges, minLength, k, c, t);
  }
}
