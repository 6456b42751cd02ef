/** Fixed edge lengths, Crane/Constraints/FixEdgeLength.cs: one row per
    chosen edge, whose error is the stiffness-weighted difference between
    the edge's squared length and its goal's square, over twice the
    squared average goal length. The stiffness is either one per edge, or
    switches between a "longer" and a "shorter" value by whether the edge
    is currently shorter than its goal. */
module FixEdgeLength {
  import opened Common
  import opened SparseBuilder
  import opened Constraint
  import RigidOrigami

  /** The per-edge stiffnesses, or the longer/shorter pair of the third
      constructor. */
  datatype Stiffness = Uniform(values: seq<real>) | Switched(longer: seq<real>, shorter: seq<real>)

  datatype Fix = Fix(ids: seq<int>, lengths: seq<real>, average: real, stiffness: Stiffness)

  /** LINQ's `Average`, which throws on an empty sequence. */
  function Average(s: seq<real>): (a: Option<real>)
    ensures a.Some? <==> |s| > 0
  {
    if |s| == 0 then None else Some(Sum(s) / (|s| as real))
  }

  /** The first constructor: every stiffness 1. None is the exception of
      an empty goal list. */
  function FromLengths(ids: seq<int>, lengths: seq<real>): (f: Option<Fix>)
    ensures f.None? <==> |lengths| == 0
    ensures f.Some? ==> f.value.stiffness.Uniform? && |f.value.stiffness.values| == |ids|
                        && forall i :: 0 <= i < |ids| ==> f.value.stiffness.values[i] == 1.0
  {
    var a := Average(lengths);
    if a.None? then None else Some(Fix(ids, lengths, a.value, Uniform(seq(|ids|, i => 1.0))))
  }

  /** The second constructor: the given stiffnesses. */
  function WithStiffness(ids: seq<int>, lengths: seq<real>, stiffnesses: seq<real>): (f: Option<Fix>)
    ensures f.None? <==> |lengths| == 0
    ensures f.Some? ==> f.value.stiffness == Uniform(stiffnesses) && f.value.ids == ids
  {
    var a := Average(lengths);
    if a.None? then None else Some(Fix(ids, lengths, a.value, Uniform(stiffnesses)))
  }

  /** The third constructor: stiffnesses that switch with the edge's
      length. */
  function WithSwitch(ids: seq<int>, lengths: seq<real>, longer: seq<real>, shorter: seq<real>): (f: Option<Fix>)
    ensures f.None? <==> |lengths| == 0
    ensures f.Some? ==> f.value.stiffness == Switched(longer, shorter) && f.value.ids == ids
  {
    var a := Average(lengths);
    if a.None? then None else Some(Fix(ids, lengths, a.value, Switched(longer, shorter)))
  }

  /** The first constructor is the second with unit stiffnesses. */
  lemma FromLengthsIsUnitStiffness(ids: seq<int>, lengths: seq<real>)
    ensures FromLengths(ids, lengths) == WithStiffness(ids, lengths, seq(|ids|, i => 1.0))
  {
  }

  /** Each chosen id names a topology edge joining two vertices of `x`. */
  predicate Mesh(f: Fix, x: Vec, edges: seq<IndexPair>)
  {
    forall i :: 0 <= i < |f.ids| ==>
      0 <= f.ids[i] < |edges| && IsVertex(x, edges[f.ids[i]].i) && IsVertex(x, edges[f.ids[i]].j)
  }

  function EdgeOf(f: Fix, edges: seq<IndexPair>, i: int): IndexPair
    requires 0 <= i < |f.ids| && 0 <= f.ids[i] < |edges|
  {
    edges[f.ids[i]]
  }

  /** `edgeLength < goalLength`, decided exactly on squares: a length is
      never negative. */
  predicate Shorter(q: real, goal: real)
  {
    goal > 0.0 && q < goal * goal
  }

  /** The stiffness Error uses for edge `i`; None is an index outside an
      array it reads (the goal length, then the stiffness). */
  function ErrorStiffness(f: Fix, x: Vec, edges: seq<IndexPair>, i: int): (s: Option<real>)
    requires Mesh(f, x, edges) && 0 <= i < |f.ids|
  {
    var e := EdgeOf(f, edges, i);
    if i >= |f.lengths| then None
    else match f.stiffness
      case Uniform(values) => if i < |values| then Some(values[i]) else None
      case Switched(longer, shorter) =>
        if i >= |longer| then None
        else if Shorter(EdgeSq(x, e.i, e.j), f.lengths[i]) then (if i < |shorter| then Some(shorter[i]) else None)
        else Some(longer[i])
  }

  /** The stiffness Jacobian uses for edge `i`. With uniform stiffnesses
      it does not read the goal lengths at all. */
  function JacobianStiffness(f: Fix, x: Vec, edges: seq<IndexPair>, i: int): (s: Option<real>)
    requires Mesh(f, x, edges) && 0 <= i < |f.ids|
  {
    match f.stiffness
      case Uniform(values) => if i < |values| then Some(values[i]) else None
      case Switched(_, _) => ErrorStiffness(f, x, edges, i)
  }

  /** Whenever Error can read edge `i`, Jacobian reads the same
      stiffness. */
  lemma StiffnessesAgree(f: Fix, x: Vec, edges: seq<IndexPair>, i: int)
    requires Mesh(f, x, edges) && 0 <= i < |f.ids| && ErrorStiffness(f, x, edges, i).Some?
    ensures JacobianStiffness(f, x, edges, i) == ErrorStiffness(f, x, edges, i)
  {
  }

  /** With switching stiffnesses, a shorter edge uses its shorter value and
      any other its longer value. */
  lemma SwitchChoosesByLength(f: Fix, x: Vec, edges: seq<IndexPair>, i: int)
    requires Mesh(f, x, edges) && 0 <= i < |f.ids| && f.stiffness.Switched?
    requires i < |f.lengths| && i < |f.stiffness.longer| && i < |f.stiffness.shorter|
    ensures var e := EdgeOf(f, edges, i);
            ErrorStiffness(f, x, edges, i)
            == Some(if Shorter(EdgeSq(x, e.i, e.j), f.lengths[i]) then f.stiffness.shorter[i] else f.stiffness.longer[i])
  {
  }

  /** One edge's error: `s (q - goal^2) / (2 average^2)`. */
  function Deviation(s: real, q: real, goal: real, average: real): real
    requires average != 0.0
  {
    s * (q - goal * goal) / (2.0 * Square(average))
  }

  /** The rows divide by the squared average goal length; with no row
      there is nothing to divide. */
  predicate Divisible(f: Fix)
  {
    |f.ids| == 0 || f.average != 0.0
  }

  /** Error: None when an id is not an edge of the mesh (the lookup of
      GetEdgeIndex's -1 throws), when the average is zero (every entry is
      then IEEE inf or NaN), or when an array it reads is too short;
      otherwise one entry per chosen edge. */
  function Error(f: Fix, x: Vec, edges: seq<IndexPair>): (err: Option<Vec>)
    ensures err.Some? <==> Mesh(f, x, edges) && Divisible(f)
                           && forall i :: 0 <= i < |f.ids| ==> ErrorStiffness(f, x, edges, i).Some?
    ensures err.Some? ==> |err.value| == |f.ids|
  {
    if !Mesh(f, x, edges) || !Divisible(f) then None
    else if exists i :: 0 <= i < |f.ids| && ErrorStiffness(f, x, edges, i).None? then None
    else if |f.ids| == 0 then Some([])
    else Some(seq(|f.ids|, i requires 0 <= i < |f.ids| => Entry(f, x, edges, i)))
  }

  /** An id GetEdgeIndex did not find makes Error fail. */
  lemma UnknownEdgeFails(f: Fix, x: Vec, edges: seq<IndexPair>, i: int)
    requires 0 <= i < |f.ids| && f.ids[i] == -1
    ensures Error(f, x, edges).None? && Jacobian(f, x, edges).None?
  {
  }

  /** A zero average makes Error and Jacobian fail as soon as there is an
      edge. */
  lemma ZeroAverageFails(f: Fix, x: Vec, edges: seq<IndexPair>)
    requires |f.ids| > 0 && f.average == 0.0
    ensures Error(f, x, edges).None? && Jacobian(f, x, edges).None?
  {
  }

  /** The error of edge `i`, when Error can read it. */
  function Entry(f: Fix, x: Vec, edges: seq<IndexPair>, i: int): real
    requires Mesh(f, x, edges) && f.average != 0.0 && 0 <= i < |f.ids|
    requires ErrorStiffness(f, x, edges, i).Some?
  {
    var e := EdgeOf(f, edges, i);
    Deviation(ErrorStiffness(f, x, edges, i).value, EdgeSq(x, e.i, e.j), f.lengths[i], f.average)
  }

  /** An error entry is zero exactly when the edge has its goal length or
      its stiffness is zero. */
  lemma ErrorZero(f: Fix, x: Vec, edges: seq<IndexPair>, i: int)
    requires Mesh(f, x, edges) && f.average != 0.0 && Error(f, x, edges).Some? && 0 <= i < |f.ids|
    ensures ErrorStiffness(f, x, edges, i).Some? && i < |f.lengths|
    ensures var e := EdgeOf(f, edges, i);
            Error(f, x, edges).value[i] == 0.0
            <==> EdgeSq(x, e.i, e.j) == f.lengths[i] * f.lengths[i] || ErrorStiffness(f, x, edges, i).value == 0.0
  {
    var e := EdgeOf(f, edges, i);
    DeviationZero(ErrorStiffness(f, x, edges, i).value, EdgeSq(x, e.i, e.j), f.lengths[i], f.average);
  }

  /** With positive stiffness an entry is negative exactly when the edge is
      shorter than its goal, so the switch and the sign agree. */
  lemma ErrorSign(f: Fix, x: Vec, edges: seq<IndexPair>, i: int)
    requires Mesh(f, x, edges) && f.average != 0.0 && Error(f, x, edges).Some? && 0 <= i < |f.ids|
    requires ErrorStiffness(f, x, edges, i).value > 0.0
    ensures ErrorStiffness(f, x, edges, i).Some? && i < |f.lengths|
    ensures var e := EdgeOf(f, edges, i);
            Error(f, x, edges).value[i] < 0.0 <==> EdgeSq(x, e.i, e.j) < f.lengths[i] * f.lengths[i]
  {
    var e := EdgeOf(f, edges, i);
    DeviationSign(ErrorStiffness(f, x, edges, i).value, EdgeSq(x, e.i, e.j), f.lengths[i], f.average);
  }

  lemma DeviationZero(s: real, q: real, goal: real, average: real)
    requires average != 0.0
    ensures Deviation(s, q, goal, average) == 0.0 <==> q == goal * goal || s == 0.0
  {
    var d, n := 2.0 * Square(average), s * (q - goal * goal);
    assert d > 0.0;
    assert Deviation(s, q, goal, average) == n / d;
    assert n / d * d == n;
    assert n == 0.0 <==> q - goal * goal == 0.0 || s == 0.0;
  }

  lemma DeviationSign(s: real, q: real, goal: real, average: real)
    requires average != 0.0 && s > 0.0
    ensures Deviation(s, q, goal, average) < 0.0 <==> q < goal * goal
  {
    var d, n := 2.0 * Square(average), s * (q - goal * goal);
    assert d > 0.0;
    assert Deviation(s, q, goal, average) == n / d;
    assert n / d * d == n;
    assert n < 0.0 <==> q - goal * goal < 0.0;
  }

  /** The gradient stencil of edge `i` with stiffness `s`:
      `s (a - b) / average^2` at the start, `s (b - a) / average^2` at
      the end. */
  function Gradient(f: Fix, x: Vec, edges: seq<IndexPair>, i: int, s: real): Stencil
    requires Mesh(f, x, edges) && 0 <= i < |f.ids| && f.average != 0.0
  {
    var e := EdgeOf(f, edges, i);
    var w, d := Minus(Vertex(x, e.i), Vertex(x, e.j)), Square(f.average);
    Pair(e.i, Over3(Scaled(s, w), d), e.j, Over3(Scaled(s, Neg(w)), d))
  }

  function Rows(f: Fix, x: Vec, edges: seq<IndexPair>): (rows: seq<seq<Element>>)
    requires Mesh(f, x, edges) && Divisible(f)
    requires forall i :: 0 <= i < |f.ids| ==> JacobianStiffness(f, x, edges, i).Some?
    ensures |rows| == |f.ids| && Tagged(rows)
  {
    seq(|f.ids|, i requires 0 <= i < |f.ids| =>
      Interleaved(i, Gradient(f, x, edges, i, JacobianStiffness(f, x, edges, i).value)))
  }

  /** Jacobian: None when an id is not an edge, when the average is zero,
      or when an array it reads is too short; otherwise one row per chosen
      edge and one column per coordinate. */
  function Jacobian(f: Fix, x: Vec, edges: seq<IndexPair>): (b: Option<Builder>)
    ensures b.Some? <==> Mesh(f, x, edges) && Divisible(f)
                         && forall i :: 0 <= i < |f.ids| ==> JacobianStiffness(f, x, edges, i).Some?
    ensures b.Some? ==> b.value.rows == |f.ids| && b.value.cols == |x|
  {
    if !Mesh(f, x, edges) || !Divisible(f) then None
    else if exists i :: 0 <= i < |f.ids| && JacobianStiffness(f, x, edges, i).None? then None
    else Some(Builder(|f.ids|, |x|, Stack(Rows(f, x, edges))))
  }

  /** Uniform stiffnesses and too few goal lengths: the Jacobian builds
      while the error throws. */
  lemma JacobianWithoutGoals(f: Fix, x: Vec, edges: seq<IndexPair>)
    requires Mesh(f, x, edges) && f.average != 0.0 && f.stiffness.Uniform?
    requires |f.stiffness.values| >= |f.ids| > |f.lengths|
    ensures Jacobian(f, x, edges).Some? && Error(f, x, edges).None?
  {
    assert ErrorStiffness(f, x, edges, |f.lengths|).None?;
  }

  /** Whenever the error is defined the Jacobian is too, and the block
      stacks into the solver. */
  lemma BlockFits(f: Fix, x: Vec, edges: seq<IndexPair>)
    requires Mesh(f, x, edges) && f.average != 0.0 && Error(f, x, edges).Some?
    ensures Jacobian(f, x, edges).Some?
    ensures RigidOrigami.Fits(RigidOrigami.Block(Error(f, x, edges).value, Jacobian(f, x, edges).value), |x|)
  {
    forall i | 0 <= i < |f.ids| ensures JacobianStiffness(f, x, edges, i).Some? {
      StiffnessesAgree(f, x, edges, i);
    }
    var rows := Rows(f, x, edges);
    forall k | 0 <= k < |rows|
      ensures Inside(rows[k], |rows|, |x|)
    {
      var st := Gradient(f, x, edges, k, JacobianStiffness(f, x, edges, k).value);
      assert rows[k] == Interleaved(k, st);
      InterleavedInside(k, st, |rows|, |x|);
    }
    StackInside(rows, |x|);
  }

  /** What the Jacobian stores at `(i, c)` is the derivative edge `i`'s
      gradient stencil predicts along `c`. */
  lemma JacobianEntry(f: Fix, x: Vec, edges: seq<IndexPair>, i: int, c: int)
    requires Mesh(f, x, edges) && f.average != 0.0 && Jacobian(f, x, edges).Some? && 0 <= i < |f.ids|
    ensures EntryAt(Jacobian(f, x, edges).value.elems, i, c)
            == Directional(Gradient(f, x, edges, i, JacobianStiffness(f, x, edges, i).value), c)
  {
    var rows := Rows(f, x, edges);
    var st := Gradient(f, x, edges, i, JacobianStiffness(f, x, edges, i).value);
    StackEntry(rows, i, c);
    assert rows[i] == Interleaved(i, st);
    InterleavedEntry(i, st, c);
  }

  /** The stencil predicts `s` times the inner product of the edge with
      the segment's motion, over the squared average. */
  lemma GradientDirectional(f: Fix, x: Vec, edges: seq<IndexPair>, i: int, s: real, c: int)
    requires Mesh(f, x, edges) && 0 <= i < |f.ids| && f.average != 0.0
    ensures var e := EdgeOf(f, edges, i);
            Directional(Gradient(f, x, edges, i, s), c)
            == Over(Times(s, Inner(Minus(Vertex(x, e.i), Vertex(x, e.j)), Along(e.i, e.j, c))), Square(f.average))
  {
    var e := EdgeOf(f, edges, i);
    var w := Minus(Vertex(x, e.i), Vertex(x, e.j));
    ScaledOpposed(s, w);
    OpposedDirectional(Scaled(s, w), e.i, e.j, Square(f.average), c);
    InnerScaled(s, w, Along(e.i, e.j, c));
  }

  lemma ScaledOpposed(s: real, w: Point)
    ensures Scaled(s, Neg(w)) == Neg(Scaled(s, w))
  {
  }

  /** Row `i` is exact for its edge: with the stiffness the Jacobian used,
      the central difference of edge `i`'s error along `c` is `2t` times
      what the Jacobian stores at `(i, c)`. */
  lemma GradientExact(f: Fix, x: Vec, edges: seq<IndexPair>, i: int, c: int, t: real)
    requires Mesh(f, x, edges) && f.average != 0.0 && Jacobian(f, x, edges).Some?
    requires 0 <= i < |f.ids| && i < |f.lengths| && 0 <= c < |x|
    ensures var e, s := EdgeOf(f, edges, i), JacobianStiffness(f, x, edges, i).value;
            Deviation(s, EdgeSq(Nudge(x, c, t), e.i, e.j), f.lengths[i], f.average)
            - Deviation(s, EdgeSq(Nudge(x, c, -t), e.i, e.j), f.lengths[i], f.average)
            == Times(2.0 * t, EntryAt(Jacobian(f, x, edges).value.elems, i, c))
  {
    var e, s := EdgeOf(f, edges, i), JacobianStiffness(f, x, edges, i).value;
    var qp, qm := EdgeSq(Nudge(x, c, t), e.i, e.j), EdgeSq(Nudge(x, c, -t), e.i, e.j);
    JacobianEntry(f, x, edges, i, c);
    GradientDirectional(f, x, edges, i, s, c);
    EdgeSqDifference(x, e.i, e.j, c, t);
    DeviationStep(s, qp, qm, f.lengths[i], f.average, t, Inner(Minus(Vertex(x, e.i), Vertex(x, e.j)), Along(e.i, e.j, c)));
  }

  lemma DeviationStep(s: real, qp: real, qm: real, goal: real, average: real, t: real, p: real)
    requires average != 0.0
    requires qp - qm == Times(4.0 * t, p)
    ensures Deviation(s, qp, goal, average) - Deviation(s, qm, goal, average)
            == Times(2.0 * t, Over(Times(s, p), Square(average)))
  {
    var d := 2.0 * Square(average);
    assert Deviation(s, qp, goal, average) - Deviation(s, qm, goal, average) == s * (qp - qm) / d;
  }

  /** While the nudges keep edge `i`'s stiffness (always, when it does not
      switch), row `i` is the exact gradient of error entry `i` itself. */
  lemma GradientExactWhileStiffnessHolds(f: Fix, x: Vec, edges: seq<IndexPair>, i: int, c: int, t: real)
    requires Mesh(f, x, edges) && f.average != 0.0 && Error(f, x, edges).Some?
    requires 0 <= i < |f.ids| && 0 <= c < |x|
    requires Error(f, Nudge(x, c, t), edges).Some? && Error(f, Nudge(x, c, -t), edges).Some?
    requires ErrorStiffness(f, Nudge(x, c, t), edges, i) == ErrorStiffness(f, x, edges, i)
    requires ErrorStiffness(f, Nudge(x, c, -t), edges, i) == ErrorStiffness(f, x, edges, i)
    ensures Jacobian(f, x, edges).Some?
    ensures Error(f, Nudge(x, c, t), edges).value[i] - Error(f, Nudge(x, c, -t), edges).value[i]
            == Times(2.0 * t, EntryAt(Jacobian(f, x, edges).value.elems, i, c))
  {
    BlockFits(f, x, edges);
    StiffnessesAgree(f, x, edges, i);
    GradientExact(f, x, edges, i, c, t);
  }

  /** Uniform stiffnesses never switch, so the premise above always holds
      for them. */
  lemma UniformStiffnessHolds(f: Fix, x: Vec, edges: seq<IndexPair>, i: int, c: int, t: real)
    requires Mesh(f, x, edges) && f.stiffness.Uniform? && 0 <= i < |f.ids| && 0 <= c < |x|
    ensures ErrorStiffness(f, Nudge(x, c, t), edges, i) == ErrorStiffness(f, x, edges, i)
  {
  }
}
