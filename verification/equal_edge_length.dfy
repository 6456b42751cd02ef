/** Equal edge lengths, Crane/Constraints/EqualEdgeLength.cs: one row per
    pair of edges, asking the first edge, scaled by the pair's ratio, to be
    as long as the second. Both are compared on squared lengths over twice
    the squared average length of the picked edges. */
module EqualEdgeLength {
  import opened Common
  import opened SparseBuilder
  import opened Constraint
  import RigidOrigami

  /** A picked line: the id the mesh gives it and its length. */
  datatype Picked = Picked(id: int, length: real)

  datatype Equal = Equal(first: seq<int>, second: seq<int>, ratios: seq<real>, average: real)

  function Lengths(ls: seq<Picked>): (r: seq<real>)
    ensures |r| == |ls| && forall k :: 0 <= k < |ls| ==> r[k] == ls[k].length
  {
    seq(|ls|, k requires 0 <= k < |ls| => ls[k].length)
  }

  function Ids(ls: seq<Picked>): (r: seq<int>)
    ensures |r| == |ls| && forall k :: 0 <= k < |ls| ==> r[k] == ls[k].id
  {
    seq(|ls|, k requires 0 <= k < |ls| => ls[k].id)
  }

  /** The constructor. None is one of its exceptions: the two lists differ
      in length; the ratios need spreading and there is none to spread; or
      there is no pair, so the average of no lengths throws. A ratio list of
      the wrong length is replaced by its first ratio for every pair. */
  function New(first: seq<Picked>, second: seq<Picked>, ratios: seq<real>): (q: Option<Equal>)
    ensures q.None? <==> |first| != |second| || |first| == 0 || |ratios| == 0
    ensures q.Some? ==> |q.value.first| == |q.value.second| == |q.value.ratios| == |first|
    ensures q.Some? ==> forall i :: 0 <= i < |first| ==>
              q.value.first[i] == first[i].id && q.value.second[i] == second[i].id
              && q.value.ratios[i] == (if |ratios| == |first| then ratios[i] else ratios[0])
    ensures q.Some? ==> q.value.average * 2.0 * (|first| as real) == Sum(Lengths(first)) + Sum(Lengths(second))
  {
    if |first| != |second| then None
    else
      var n := |first|;
      if |ratios| != n && n > 0 && |ratios| == 0 then None
      else
        var spread := if |ratios| != n then seq(n, i => ratios[0]) else ratios;
        if n == 0 then None
        else
          var a := (Sum(Lengths(first)) / (n as real) + Sum(Lengths(second)) / (n as real)) / 2.0;
          MeanOfMeans(Sum(Lengths(first)), Sum(Lengths(second)), n as real);
          Some(Equal(Ids(first), Ids(second), spread, a))
  }

  lemma MeanOfMeans(s1: real, s2: real, m: real)
    requires m > 0.0
    ensures (s1 / m + s2 / m) / 2.0 * 2.0 * m == s1 + s2
  {
    assert s1 / m * m == s1 && s2 / m * m == s2;
  }

  /** Each pair names two topology edges, each joining two vertices of
      `x`. */
  predicate Mesh(q: Equal, x: Vec, edges: seq<IndexPair>)
  {
    |q.first| == |q.second| == |q.ratios|
    && (forall i :: 0 <= i < |q.first| ==> 0 <= q.first[i] < |edges| && 0 <= q.second[i] < |edges|)
    && forall e :: 0 <= e < |edges| ==> IsVertex(x, edges[e].i) && IsVertex(x, edges[e].j)
  }

  /** The rows divide by the squared average length; with no pair there
      is nothing to divide. */
  predicate Divisible(q: Equal)
  {
    |q.first| == 0 || q.average != 0.0
  }

  /** One pair's error: `(r^2 q1 - q2) / (2 average^2)`. */
  function Mismatch(r: real, q1: real, q2: real, average: real): real
    requires average != 0.0
  {
    (r * r * q1 - q2) / (2.0 * Square(average))
  }

  function Entry(q: Equal, x: Vec, edges: seq<IndexPair>, i: int): real
    requires Mesh(q, x, edges) && Divisible(q) && 0 <= i < |q.first|
  {
    var f, s := edges[q.first[i]], edges[q.second[i]];
    Mismatch(q.ratios[i], EdgeSq(x, f.i, f.j), EdgeSq(x, s.i, s.j), q.average)
  }

  /** Error: None when an id is not an edge of the mesh (the lookup of
      GetEdgeIndex's -1 throws) or when the average is zero (every entry is
      then IEEE inf or NaN); otherwise one entry per pair. */
  function Error(q: Equal, x: Vec, edges: seq<IndexPair>): (err: Option<Vec>)
    ensures err.Some? <==> Mesh(q, x, edges) && Divisible(q)
    ensures err.Some? ==> |err.value| == |q.first|
  {
    if !Mesh(q, x, edges) || !Divisible(q) then None
    else Some(seq(|q.first|, i requires 0 <= i < |q.first| => Entry(q, x, edges, i)))
  }

  /** A first or second id GetEdgeIndex did not find makes Error and
      Jacobian fail. */
  lemma UnknownEdgeFails(q: Equal, x: Vec, edges: seq<IndexPair>, i: int)
    requires 0 <= i < |q.first| && (q.first[i] == -1 || (i < |q.second| && q.second[i] == -1))
    ensures Error(q, x, edges).None? && Jacobian(q, x, edges).None?
  {
  }

  /** A zero average makes Error and Jacobian fail as soon as there is a
      pair. */
  lemma ZeroAverageFails(q: Equal, x: Vec, edges: seq<IndexPair>)
    requires |q.first| > 0 && q.average == 0.0
    ensures Error(q, x, edges).None? && Jacobian(q, x, edges).None?
  {
  }

  /** An entry is zero exactly when the first edge's squared length times
      the squared ratio equals the second's. */
  lemma ErrorZero(q: Equal, x: Vec, edges: seq<IndexPair>, i: int)
    requires Mesh(q, x, edges) && q.average != 0.0 && 0 <= i < |q.first|
    ensures Error(q, x, edges).Some?
    ensures var f, s := edges[q.first[i]], edges[q.second[i]];
            Error(q, x, edges).value[i] == 0.0 <==> q.ratios[i] * q.ratios[i] * EdgeSq(x, f.i, f.j) == EdgeSq(x, s.i, s.j)
  {
    var f, s := edges[q.first[i]], edges[q.second[i]];
    MismatchZero(q.ratios[i], EdgeSq(x, f.i, f.j), EdgeSq(x, s.i, s.j), q.average);
  }

  lemma MismatchZero(r: real, q1: real, q2: real, average: real)
    requires average != 0.0
    ensures Mismatch(r, q1, q2, average) == 0.0 <==> r * r * q1 == q2
  {
    var d, n := 2.0 * Square(average), r * r * q1 - q2;
    assert d > 0.0;
    assert Mismatch(r, q1, q2, average) * d == n;
  }

  /** Pair `i`'s stencil: `r^2 (a - b) / average^2` and its opposite at
      the first edge's ends, `-(c - d) / average^2` and its opposite at the
      second's. (The source writes the opposites as `r^2 (b - a)` and
      `-(d - c)`; negation commutes with both exactly.) */
  function Gradient(q: Equal, x: Vec, edges: seq<IndexPair>, i: int): Stencil
    requires Mesh(q, x, edges) && Divisible(q) && 0 <= i < |q.first|
  {
    var f := edges[q.first[i]];
    var s := edges[q.second[i]];
    Stencil4(Square(q.ratios[i]), Minus(Vertex(x, f.i), Vertex(x, f.j)), Minus(Vertex(x, s.i), Vertex(x, s.j)),
             f.i, f.j, s.i, s.j, Square(q.average))
  }

  /** `r2 w1 / d` and its opposite at `fi`, `fj`; `-w2 / d` and its
      opposite at `si`, `sj`. */
  function Stencil4(r2: real, w1: Point, w2: Point, fi: int, fj: int, si: int, sj: int, d: real): Stencil
    requires d != 0.0
  {
    Pair(fi, Over3(Scaled(r2, w1), d), fj, Over3(Neg(Scaled(r2, w1)), d))
    + Pair(si, Over3(Neg(w2), d), sj, Over3(Neg(Neg(w2)), d))
  }

  function Rows(q: Equal, x: Vec, edges: seq<IndexPair>): (rows: seq<seq<Element>>)
    requires Mesh(q, x, edges) && Divisible(q)
    ensures |rows| == |q.first| && Tagged(rows)
  {
    seq(|q.first|, i requires 0 <= i < |q.first| => Interleaved(i, Gradient(q, x, edges, i)))
  }

  /** Jacobian: None exactly when Error is; otherwise one row per pair
      and one column per coordinate. */
  function Jacobian(q: Equal, x: Vec, edges: seq<IndexPair>): (b: Option<Builder>)
    ensures b.Some? <==> Error(q, x, edges).Some?
    ensures b.Some? ==> b.value.rows == |Error(q, x, edges).value| && b.value.cols == |x|
  {
    if !Mesh(q, x, edges) || !Divisible(q) then None
    else Some(Builder(|q.first|, |x|, Stack(Rows(q, x, edges))))
  }

  function Block(q: Equal, x: Vec, edges: seq<IndexPair>): RigidOrigami.Block
    requires Error(q, x, edges).Some?
  {
    RigidOrigami.Block(Error(q, x, edges).value, Jacobian(q, x, edges).value)
  }

  /** Whenever the error is defined, the block stacks into the solver. */
  lemma BlockFits(q: Equal, x: Vec, edges: seq<IndexPair>)
    requires Error(q, x, edges).Some?
    ensures RigidOrigami.Fits(Block(q, x, edges), |x|)
  {
    var rows := Rows(q, x, edges);
    forall k | 0 <= k < |rows|
      ensures Inside(rows[k], |rows|, |x|)
    {
      assert rows[k] == Interleaved(k, Gradient(q, x, edges, k));
      InterleavedInside(k, Gradient(q, x, edges, k), |rows|, |x|);
    }
    StackInside(rows, |x|);
  }

  /** What the Jacobian stores at `(i, c)` is the derivative pair `i`'s
      stencil predicts along `c`. */
  lemma JacobianEntry(q: Equal, x: Vec, edges: seq<IndexPair>, i: int, c: int)
    requires Mesh(q, x, edges) && q.average != 0.0 && 0 <= i < |q.first|
    ensures Jacobian(q, x, edges).Some?
    ensures EntryAt(Jacobian(q, x, edges).value.elems, i, c) == Directional(Gradient(q, x, edges, i), c)
  {
    var rows := Rows(q, x, edges);
    StackEntry(rows, i, c);
    assert rows[i] == Interleaved(i, Gradient(q, x, edges, i));
    InterleavedEntry(i, Gradient(q, x, edges, i), c);
  }

  /** The stencil predicts `(r^2 p1 - p2) / average^2`, where `p1` and
      `p2` are the inner products of each edge with its motion along `c`. */
  lemma GradientDirectional(q: Equal, x: Vec, edges: seq<IndexPair>, i: int, c: int)
    requires Mesh(q, x, edges) && q.average != 0.0 && 0 <= i < |q.first|
    ensures var f, s := edges[q.first[i]], edges[q.second[i]];
            var p1 := Inner(Minus(Vertex(x, f.i), Vertex(x, f.j)), Along(f.i, f.j, c));
            var p2 := Inner(Minus(Vertex(x, s.i), Vertex(x, s.j)), Along(s.i, s.j, c));
            Directional(Gradient(q, x, edges, i), c) == Over(Times(Square(q.ratios[i]), p1) - p2, Square(q.average))
  {
    var f, s := edges[q.first[i]], edges[q.second[i]];
    var w1, w2 := Minus(Vertex(x, f.i), Vertex(x, f.j)), Minus(Vertex(x, s.i), Vertex(x, s.j));
    PairsDirectional(Square(q.ratios[i]), w1, w2, f.i, f.j, s.i, s.j, Square(q.average), c);
  }

  /** GradientDirectional over plain points. */
  lemma PairsDirectional(r2: real, w1: Point, w2: Point, fi: int, fj: int, si: int, sj: int, d: real, c: int)
    requires d != 0.0
    ensures Directional(Stencil4(r2, w1, w2, fi, fj, si, sj, d), c)
            == Over(Times(r2, Inner(w1, Along(fi, fj, c))) - Inner(w2, Along(si, sj, c)), d)
  {
    TwoOpposedDirectional(Scaled(r2, w1), fi, fj, Neg(w2), si, sj, d, c);
    InnerScaled(r2, w1, Along(fi, fj, c));
    InnerNeg(w2, Along(si, sj, c));
  }

  lemma InnerNeg(w: Point, e: Point)
    ensures Inner(Neg(w), e) == -Inner(w, e)
  {
  }

  /** The derivative row `i` states: `(r^2 p1 - p2) / average^2`. */
  function Slope(q: Equal, x: Vec, edges: seq<IndexPair>, i: int, c: int): real
    requires Mesh(q, x, edges) && q.average != 0.0 && 0 <= i < |q.first|
  {
    var f, s := edges[q.first[i]], edges[q.second[i]];
    var p1 := Inner(Minus(Vertex(x, f.i), Vertex(x, f.j)), Along(f.i, f.j, c));
    var p2 := Inner(Minus(Vertex(x, s.i), Vertex(x, s.j)), Along(s.i, s.j, c));
    Over(Times(Square(q.ratios[i]), p1) - p2, Square(q.average))
  }

  lemma JacobianSlope(q: Equal, x: Vec, edges: seq<IndexPair>, i: int, c: int)
    requires Mesh(q, x, edges) && q.average != 0.0 && 0 <= i < |q.first|
    ensures Jacobian(q, x, edges).Some?
    ensures EntryAt(Jacobian(q, x, edges).value.elems, i, c) == Slope(q, x, edges, i, c)
  {
    JacobianEntry(q, x, edges, i, c);
    GradientDirectional(q, x, edges, i, c);
  }

  /** Error entry `i` changes by `2t` times the slope when coordinate `c`
      is nudged by `t` either way. */
  lemma ErrorSlope(q: Equal, x: Vec, edges: seq<IndexPair>, i: int, c: int, t: real)
    requires Mesh(q, x, edges) && q.average != 0.0 && 0 <= i < |q.first| && 0 <= c < |x|
    ensures Error(q, Nudge(x, c, t), edges).Some? && Error(q, Nudge(x, c, -t), edges).Some?
    ensures Error(q, Nudge(x, c, t), edges).value[i] - Error(q, Nudge(x, c, -t), edges).value[i] == Times(2.0 * t, Slope(q, x, edges, i, c))
  {
    var f, s := edges[q.first[i]], edges[q.second[i]];
    var xp, xm := Nudge(x, c, t), Nudge(x, c, -t);
    assert Error(q, xp, edges).value[i] == Mismatch(q.ratios[i], EdgeSq(xp, f.i, f.j), EdgeSq(xp, s.i, s.j), q.average);
    assert Error(q, xm, edges).value[i] == Mismatch(q.ratios[i], EdgeSq(xm, f.i, f.j), EdgeSq(xm, s.i, s.j), q.average);
    EdgeSqDifference(x, f.i, f.j, c, t);
    EdgeSqDifference(x, s.i, s.j, c, t);
    MismatchStep(q.ratios[i], EdgeSq(xp, f.i, f.j), EdgeSq(xm, f.i, f.j), EdgeSq(xp, s.i, s.j), EdgeSq(xm, s.i, s.j),
                 q.average, t, Inner(Minus(Vertex(x, f.i), Vertex(x, f.j)), Along(f.i, f.j, c)),
                 Inner(Minus(Vertex(x, s.i), Vertex(x, s.j)), Along(s.i, s.j, c)));
  }

  /** Row `i` is the exact gradient of error entry `i`: nudging coordinate
      `c` by `t` either way changes the entry by `2t` times what the
      Jacobian stores at `(i, c)`. */
  lemma GradientExact(q: Equal, x: Vec, edges: seq<IndexPair>, i: int, c: int, t: real)
    requires Mesh(q, x, edges) && q.average != 0.0 && 0 <= i < |q.first| && 0 <= c < |x|
    ensures Error(q, Nudge(x, c, t), edges).Some? && Error(q, Nudge(x, c, -t), edges).Some?
    ensures Jacobian(q, x, edges).Some?
    ensures Error(q, Nudge(x, c, t), edges).value[i] - Error(q, Nudge(x, c, -t), edges).value[i]
            == Times(2.0 * t, EntryAt(Jacobian(q, x, edges).value.elems, i, c))
  {
    JacobianSlope(q, x, edges, i, c);
    ErrorSlope(q, x, edges, i, c, t);
  }

  lemma MismatchStep(r: real, ap: real, am: real, bp: real, bm: real, average: real, t: real, p1: real, p2: real)
    requires average != 0.0
    requires ap - am == Times(4.0 * t, p1) && bp - bm == Times(4.0 * t, p2)
    ensures Mismatch(r, ap, bp, average) - Mismatch(r, am, bm, average)
            == Times(2.0 * t, Over(Times(Square(r), p1) - p2, Square(average)))
  {
    var d := 2.0 * Square(average);
    assert Mismatch(r, ap, bp, average) - Mismatch(r, am, bm, average) == (r * r * (ap - am) - (bp - bm)) / d;
  }
}
