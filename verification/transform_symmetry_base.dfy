/** Transform symmetry, Crane/Constraints/TransformSymmetryBase.cs: for
    each pair of vertices `(v1, v2)` and a transform `T` with inverse
    `T'`, six rows asking `v1 = T' v2` and `v2 = T v1`, each measured over
    the average edge length; optionally followed by the rows of a
    fixed-point constraint. */
module TransformSymmetryBase {
  import opened Common
  import opened SparseBuilder
  import opened Constraint
  import RigidOrigami

  /** An affine transform: the three rows of its linear part and its
      translation. */
  datatype Affine = Affine(r0: Point, r1: Point, r2: Point, tr: Point)

  function Row(a: Affine, j: int): Point
  {
    if j == 0 then a.r0 else if j == 1 then a.r1 else a.r2
  }

  /** `a[j, k]`, an entry of the linear part. */
  function At(a: Affine, j: int, k: int): real
  {
    Coord(Row(a, j), k)
  }

  /** The linear part applied to `u`. */
  function Linear(a: Affine, u: Point): Point
  {
    Point(Inner(a.r0, u), Inner(a.r1, u), Inner(a.r2, u))
  }

  /** `a * p` for a point `p`. */
  function Apply(a: Affine, p: Point): Point
  {
    Plus(Linear(a, p), a.tr)
  }

  /** The constraint's state: the vertex pairs, the average edge length,
      the transform and what its inversion produced, and whether a
      fixed-point constraint follows. */
  datatype Symmetry = Symmetry(pairs: seq<IndexPair>, average: real, trans: Affine, inv: Affine, fixed: bool)

  /** A fresh constraint: average length 1, no pairs, no fixed points. The
      source leaves its pair list null until SetIndexPairs; the empty list
      stands for it here. */
  function Initial(zero: Affine): (s: Symmetry)
    ensures s.average == 1.0 && s.pairs == [] && !s.fixed
  {
    Symmetry([], 1.0, zero, zero, false)
  }

  /** SetIndexPairs: the pairs replaced, and any fixed-point constraint
      forgotten. */
  function SetIndexPairs(s: Symmetry, pairs: seq<IndexPair>): (r: Symmetry)
    ensures r.pairs == pairs && !r.fixed
    ensures r.average == s.average && r.trans == s.trans && r.inv == s.inv
  {
    s.(pairs := pairs, fixed := false)
  }

  /** SetFixedPointConstraint: the fixed-point rows switched on. */
  function SetFixedPointConstraint(s: Symmetry): (r: Symmetry)
    ensures r.fixed && r.pairs == s.pairs && r.average == s.average && r.trans == s.trans && r.inv == s.inv
  {
    s.(fixed := true)
  }

  /** SetTransform: the transform and the inverse its inversion gives. */
  function SetTransform(s: Symmetry, trans: Affine, inverse: Affine): (r: Symmetry)
    ensures r.trans == trans && r.inv == inverse
    ensures r.pairs == s.pairs && r.average == s.average && r.fixed == s.fixed
  {
    s.(trans := trans, inv := inverse)
  }

  /** Setting the pairs after the fixed-point constraint drops it: only the
      order pairs, transform, fixed points keeps it. */
  lemma PairsAfterFixedDropsIt(s: Symmetry, pairs: seq<IndexPair>)
    ensures !SetIndexPairs(SetFixedPointConstraint(s), pairs).fixed
    ensures SetFixedPointConstraint(SetTransform(SetIndexPairs(s, pairs), s.trans, s.inv)).fixed
  {
  }

  predicate Mesh(s: Symmetry, x: Vec)
  {
    forall i :: 0 <= i < |s.pairs| ==> IsVertex(x, s.pairs[i].i) && IsVertex(x, s.pairs[i].j)
  }

  /** `(v1 - T' v2) / L`. */
  function Forward(s: Symmetry, x: Vec, i: int): Point
    requires Mesh(s, x) && s.average != 0.0 && 0 <= i < |s.pairs|
  {
    Over3(Minus(Vertex(x, s.pairs[i].i), Apply(s.inv, Vertex(x, s.pairs[i].j))), s.average)
  }

  /** `(v2 - T v1) / L`. */
  function Backward(s: Symmetry, x: Vec, i: int): Point
    requires Mesh(s, x) && s.average != 0.0 && 0 <= i < |s.pairs|
  {
    Over3(Minus(Vertex(x, s.pairs[i].j), Apply(s.trans, Vertex(x, s.pairs[i].i))), s.average)
  }

  /** Entry `m` (0 to 5) of pair `i`'s six: the forward residual's three
      coordinates, then the backward one's. */
  function Residual(s: Symmetry, x: Vec, i: int, m: int): real
    requires Mesh(s, x) && s.average != 0.0 && 0 <= i < |s.pairs|
  {
    if m < 3 then Coord(Forward(s, x, i), m) else Coord(Backward(s, x, i), m - 3)
  }

  /** Error: six entries per pair, in pair order, then the fixed-point
      constraint's error when one is set. */
  function Error(s: Symmetry, x: Vec, fixedError: Vec): (err: Vec)
    requires Mesh(s, x) && s.average != 0.0
    ensures |err| == 6 * |s.pairs| + (if s.fixed then |fixedError| else 0)
    ensures s.fixed ==> err[6 * |s.pairs|..] == fixedError
  {
    var own := seq(6 * |s.pairs|, r requires 0 <= r < 6 * |s.pairs| => Residual(s, x, r / 6, r % 6));
    if s.fixed then own + fixedError else own
  }

  /** When the inverse really inverts the transform, a pair's forward
      residual vanishes exactly when its backward one does. */
  lemma HalvesAgree(s: Symmetry, x: Vec, i: int)
    requires Mesh(s, x) && s.average != 0.0 && 0 <= i < |s.pairs|
    requires forall p :: Apply(s.trans, Apply(s.inv, p)) == p
    requires forall p :: Apply(s.inv, Apply(s.trans, p)) == p
    ensures Forward(s, x, i) == Origin() <==> Backward(s, x, i) == Origin()
  {
    var p, q := Vertex(x, s.pairs[i].i), Vertex(x, s.pairs[i].j);
    OverOrigin(Minus(p, Apply(s.inv, q)), s.average);
    OverOrigin(Minus(q, Apply(s.trans, p)), s.average);
    assert Apply(s.trans, Apply(s.inv, q)) == q;
    assert Apply(s.inv, Apply(s.trans, p)) == p;
  }

  lemma OverOrigin(p: Point, d: real)
    requires d != 0.0
    ensures Over3(p, d) == Origin() <==> p == Origin()
  {
    assert p.x / d * d == p.x && p.y / d * d == p.y && p.z / d * d == p.z;
  }

  /** The two derivative elements of a pair's `j`th coordinate with
      respect to the other vertex's `k`th. */
  function Cross(s: Symmetry, i: int, j: int, k: int): seq<Element>
    requires s.average != 0.0 && 0 <= i < |s.pairs|
  {
    var p := s.pairs[i];
    [Element(6 * i + j, 3 * p.j + k, -At(s.inv, j, k) / s.average),
     Element(6 * i + j + 3, 3 * p.i + k, -At(s.trans, j, k) / s.average)]
  }

  /** The elements of a pair's `j`th coordinate: the two diagonal ones,
      then the cross terms in `k` order. */
  function Coordinate(s: Symmetry, i: int, j: int): seq<Element>
    requires s.average != 0.0 && 0 <= i < |s.pairs|
  {
    var p := s.pairs[i];
    [Element(6 * i + j, 3 * p.i + j, 1.0 / s.average), Element(6 * i + j + 3, 3 * p.j + j, 1.0 / s.average)]
    + Cross(s, i, j, 0) + Cross(s, i, j, 1) + Cross(s, i, j, 2)
  }

  function PairElements(s: Symmetry, i: int): seq<Element>
    requires s.average != 0.0 && 0 <= i < |s.pairs|
  {
    Coordinate(s, i, 0) + Coordinate(s, i, 1) + Coordinate(s, i, 2)
  }

  /** The symmetric part of the Jacobian, before any fixed-point rows. */
  function PairJacobian(s: Symmetry, x: Vec): (b: Builder)
    requires s.average != 0.0
    ensures b.rows == 6 * |s.pairs| && b.cols == |x|
  {
    Builder(6 * |s.pairs|, |x|, Stack(seq(|s.pairs|, i requires 0 <= i < |s.pairs| => PairElements(s, i))))
  }

  /** Jacobian: the pair rows, with the fixed-point constraint's Jacobian
      stacked below when one is set; None is the exception stacking throws
      when that Jacobian has a different column count. */
  function Jacobian(s: Symmetry, x: Vec, fixedJacobian: Builder): (b: Option<Builder>)
    requires s.average != 0.0
    ensures b.None? <==> s.fixed && fixedJacobian.cols != |x|
    ensures b.Some? ==> b.value.cols == |x|
    ensures b.Some? ==> |PairJacobian(s, x).elems| <= |b.value.elems|
                        && b.value.elems[..|PairJacobian(s, x).elems|] == PairJacobian(s, x).elems
  {
    if s.fixed then AppendBuilder(PairJacobian(s, x), fixedJacobian) else Some(PairJacobian(s, x))
  }

  // ---------------------------------------------------------------- rows

  /** The derivative of entry `m` of pair `i` along coordinate `c`. */
  function Slope(s: Symmetry, i: int, m: int, c: int): real
    requires s.average != 0.0 && 0 <= i < |s.pairs|
  {
    var p := s.pairs[i];
    if m < 3 then (Coord(Unit(p.i, c), m) - Inner(Row(s.inv, m), Unit(p.j, c))) / s.average
    else (Coord(Unit(p.j, c), m - 3) - Inner(Row(s.trans, m - 3), Unit(p.i, c))) / s.average
  }

  lemma CrossEntry(s: Symmetry, i: int, j: int, k: int, r: int, c: int)
    requires s.average != 0.0 && 0 <= i < |s.pairs| && 0 <= j < 3 && 0 <= k < 3
    ensures EntryAt(Cross(s, i, j, k), r, c)
            == if r == 6 * i + j then -Coord(Unit(s.pairs[i].j, c), k) * At(s.inv, j, k) / s.average
               else if r == 6 * i + j + 3 then -Coord(Unit(s.pairs[i].i, c), k) * At(s.trans, j, k) / s.average
               else 0.0
  {
    var p := s.pairs[i];
    EntryAtTwo(Element(6 * i + j, 3 * p.j + k, -At(s.inv, j, k) / s.average),
               Element(6 * i + j + 3, 3 * p.i + k, -At(s.trans, j, k) / s.average), r, c);
  }

  lemma InnerByCoords(a: Point, u: Point)
    ensures Inner(a, u) == Coord(u, 0) * Coord(a, 0) + Coord(u, 1) * Coord(a, 1) + Coord(u, 2) * Coord(a, 2)
  {
  }

  /** The two diagonal elements of a pair's `j`th coordinate. */
  function Diagonal(s: Symmetry, i: int, j: int): seq<Element>
    requires s.average != 0.0 && 0 <= i < |s.pairs|
  {
    var p := s.pairs[i];
    [Element(6 * i + j, 3 * p.i + j, 1.0 / s.average), Element(6 * i + j + 3, 3 * p.j + j, 1.0 / s.average)]
  }

  lemma DiagonalEntry(s: Symmetry, i: int, j: int, r: int, c: int)
    requires s.average != 0.0 && 0 <= i < |s.pairs| && 0 <= j < 3
    ensures EntryAt(Diagonal(s, i, j), r, c)
            == if r == 6 * i + j then Coord(Unit(s.pairs[i].i, c), j) * (1.0 / s.average)
               else if r == 6 * i + j + 3 then Coord(Unit(s.pairs[i].j, c), j) * (1.0 / s.average)
               else 0.0
  {
    var p := s.pairs[i];
    EntryAtTwo(Element(6 * i + j, 3 * p.i + j, 1.0 / s.average), Element(6 * i + j + 3, 3 * p.j + j, 1.0 / s.average), r, c);
  }

  /** The row-specific readings of the diagonal and cross elements. */
  lemma ForwardTerms(s: Symmetry, i: int, j: int, c: int)
    requires s.average != 0.0 && 0 <= i < |s.pairs| && 0 <= j < 3
    ensures EntryAt(Diagonal(s, i, j), 6 * i + j, c) == Coord(Unit(s.pairs[i].i, c), j) * (1.0 / s.average)
    ensures forall k :: 0 <= k < 3 ==>
              EntryAt(Cross(s, i, j, k), 6 * i + j, c) == -Coord(Unit(s.pairs[i].j, c), k) * At(s.inv, j, k) / s.average
  {
    DiagonalEntry(s, i, j, 6 * i + j, c);
    forall k | 0 <= k < 3
      ensures EntryAt(Cross(s, i, j, k), 6 * i + j, c) == -Coord(Unit(s.pairs[i].j, c), k) * At(s.inv, j, k) / s.average
    {
      CrossEntry(s, i, j, k, 6 * i + j, c);
    }
  }

  lemma BackwardTerms(s: Symmetry, i: int, j: int, c: int)
    requires s.average != 0.0 && 0 <= i < |s.pairs| && 0 <= j < 3
    ensures EntryAt(Diagonal(s, i, j), 6 * i + j + 3, c) == Coord(Unit(s.pairs[i].j, c), j) * (1.0 / s.average)
    ensures forall k :: 0 <= k < 3 ==>
              EntryAt(Cross(s, i, j, k), 6 * i + j + 3, c) == -Coord(Unit(s.pairs[i].i, c), k) * At(s.trans, j, k) / s.average
  {
    DiagonalEntry(s, i, j, 6 * i + j + 3, c);
    forall k | 0 <= k < 3
      ensures EntryAt(Cross(s, i, j, k), 6 * i + j + 3, c) == -Coord(Unit(s.pairs[i].i, c), k) * At(s.trans, j, k) / s.average
    {
      CrossEntry(s, i, j, k, 6 * i + j + 3, c);
    }
  }

  lemma CoordinateSplit(s: Symmetry, i: int, j: int, r: int, c: int)
    requires s.average != 0.0 && 0 <= i < |s.pairs|
    ensures EntryAt(Coordinate(s, i, j), r, c)
            == EntryAt(Diagonal(s, i, j), r, c) + EntryAt(Cross(s, i, j, 0), r, c)
               + EntryAt(Cross(s, i, j, 1), r, c) + EntryAt(Cross(s, i, j, 2), r, c)
  {
    var diag := Diagonal(s, i, j);
    assert Coordinate(s, i, j) == diag + Cross(s, i, j, 0) + Cross(s, i, j, 1) + Cross(s, i, j, 2);
    EntryAtConcat(diag + Cross(s, i, j, 0) + Cross(s, i, j, 1), Cross(s, i, j, 2), r, c);
    EntryAtConcat(diag + Cross(s, i, j, 0), Cross(s, i, j, 1), r, c);
    EntryAtConcat(diag, Cross(s, i, j, 0), r, c);
  }

  /** What a pair's `j`th coordinate elements store on row `r`. */
  lemma CoordinateEntry(s: Symmetry, i: int, j: int, r: int, c: int)
    requires s.average != 0.0 && 0 <= i < |s.pairs| && 0 <= j < 3
    ensures EntryAt(Coordinate(s, i, j), r, c)
            == if r == 6 * i + j then Slope(s, i, j, c)
               else if r == 6 * i + j + 3 then Slope(s, i, j + 3, c)
               else 0.0
  {
    if r == 6 * i + j {
      CoordinateForward(s, i, j, c);
    } else if r == 6 * i + j + 3 {
      CoordinateBackward(s, i, j, c);
    } else {
      CoordinateSplit(s, i, j, r, c);
      DiagonalEntry(s, i, j, r, c);
      CrossEntry(s, i, j, 0, r, c);
      CrossEntry(s, i, j, 1, r, c);
      CrossEntry(s, i, j, 2, r, c);
    }
  }

  lemma CoordinateForward(s: Symmetry, i: int, j: int, c: int)
    requires s.average != 0.0 && 0 <= i < |s.pairs| && 0 <= j < 3
    ensures EntryAt(Coordinate(s, i, j), 6 * i + j, c) == Slope(s, i, j, c)
  {
    var r := 6 * i + j;
    CoordinateSplit(s, i, j, r, c);
    ForwardTerms(s, i, j, c);
    ForwardAlgebra(s, i, j, c, EntryAt(Diagonal(s, i, j), r, c), EntryAt(Cross(s, i, j, 0), r, c),
                   EntryAt(Cross(s, i, j, 1), r, c), EntryAt(Cross(s, i, j, 2), r, c));
  }

  lemma CoordinateBackward(s: Symmetry, i: int, j: int, c: int)
    requires s.average != 0.0 && 0 <= i < |s.pairs| && 0 <= j < 3
    ensures EntryAt(Coordinate(s, i, j), 6 * i + j + 3, c) == Slope(s, i, j + 3, c)
  {
    var r := 6 * i + j + 3;
    CoordinateSplit(s, i, j, r, c);
    BackwardTerms(s, i, j, c);
    BackwardAlgebra(s, i, j, c, EntryAt(Diagonal(s, i, j), r, c), EntryAt(Cross(s, i, j, 0), r, c),
                    EntryAt(Cross(s, i, j, 1), r, c), EntryAt(Cross(s, i, j, 2), r, c));
  }

  /** The forward row's four stored values add up to its slope. */
  lemma ForwardAlgebra(s: Symmetry, i: int, j: int, c: int, g: real, c0: real, c1: real, c2: real)
    requires s.average != 0.0 && 0 <= i < |s.pairs| && 0 <= j < 3
    requires g == Coord(Unit(s.pairs[i].i, c), j) * (1.0 / s.average)
    requires c0 == -Coord(Unit(s.pairs[i].j, c), 0) * At(s.inv, j, 0) / s.average
    requires c1 == -Coord(Unit(s.pairs[i].j, c), 1) * At(s.inv, j, 1) / s.average
    requires c2 == -Coord(Unit(s.pairs[i].j, c), 2) * At(s.inv, j, 2) / s.average
    ensures g + c0 + c1 + c2 == Slope(s, i, j, c)
  {
    var w := Unit(s.pairs[i].j, c);
    RowSum(g, c0, c1, c2, Coord(Unit(s.pairs[i].i, c), j), Coord(w, 0), Coord(w, 1), Coord(w, 2),
           At(s.inv, j, 0), At(s.inv, j, 1), At(s.inv, j, 2), s.average);
    InnerByCoords(Row(s.inv, j), w);
  }

  /** The backward row's four stored values add up to its slope. */
  lemma BackwardAlgebra(s: Symmetry, i: int, j: int, c: int, g: real, c0: real, c1: real, c2: real)
    requires s.average != 0.0 && 0 <= i < |s.pairs| && 0 <= j < 3
    requires g == Coord(Unit(s.pairs[i].j, c), j) * (1.0 / s.average)
    requires c0 == -Coord(Unit(s.pairs[i].i, c), 0) * At(s.trans, j, 0) / s.average
    requires c1 == -Coord(Unit(s.pairs[i].i, c), 1) * At(s.trans, j, 1) / s.average
    requires c2 == -Coord(Unit(s.pairs[i].i, c), 2) * At(s.trans, j, 2) / s.average
    ensures g + c0 + c1 + c2 == Slope(s, i, j + 3, c)
  {
    var u := Unit(s.pairs[i].i, c);
    RowSum(g, c0, c1, c2, Coord(Unit(s.pairs[i].j, c), j), Coord(u, 0), Coord(u, 1), Coord(u, 2),
           At(s.trans, j, 0), At(s.trans, j, 1), At(s.trans, j, 2), s.average);
    InnerByCoords(Row(s.trans, j), u);
  }

  /** The arithmetic of one row: a diagonal term and three cross terms. */
  lemma RowSum(g: real, c0: real, c1: real, c2: real, e: real, u0: real, u1: real, u2: real,
               a0: real, a1: real, a2: real, d: real)
    requires d != 0.0
    requires g == e * (1.0 / d) && c0 == -u0 * a0 / d && c1 == -u1 * a1 / d && c2 == -u2 * a2 / d
    ensures g + c0 + c1 + c2 == (e - (u0 * a0 + u1 * a1 + u2 * a2)) / d
  {
  }

  // ------------------------------------------------------- pair blocks

  /** A pair's elements store on each of its six rows the derivative of
      that row's residual. */
  lemma PairEntry(s: Symmetry, i: int, r: int, c: int)
    requires s.average != 0.0 && 0 <= i < |s.pairs| && 6 * i <= r < 6 * i + 6
    ensures EntryAt(PairElements(s, i), r, c) == Slope(s, i, r - 6 * i, c)
  {
    EntryAtConcat(Coordinate(s, i, 0) + Coordinate(s, i, 1), Coordinate(s, i, 2), r, c);
    EntryAtConcat(Coordinate(s, i, 0), Coordinate(s, i, 1), r, c);
    CoordinateEntry(s, i, 0, r, c);
    CoordinateEntry(s, i, 1, r, c);
    CoordinateEntry(s, i, 2, r, c);
  }

  /** Where a pair's `j`th coordinate elements sit: on the pair's own six
      rows, in the columns of its two vertices. */
  lemma CoordinateShape(s: Symmetry, i: int, j: int)
    requires s.average != 0.0 && 0 <= i < |s.pairs| && 0 <= j < 3
    ensures forall m :: 0 <= m < |Coordinate(s, i, j)| ==>
              6 * i <= Coordinate(s, i, j)[m].row < 6 * i + 6
              && (3 * s.pairs[i].i <= Coordinate(s, i, j)[m].col < 3 * s.pairs[i].i + 3
                  || 3 * s.pairs[i].j <= Coordinate(s, i, j)[m].col < 3 * s.pairs[i].j + 3)
  {
  }

  lemma PairShape(s: Symmetry, i: int)
    requires s.average != 0.0 && 0 <= i < |s.pairs|
    ensures forall m :: 0 <= m < |PairElements(s, i)| ==>
              6 * i <= PairElements(s, i)[m].row < 6 * i + 6
              && (3 * s.pairs[i].i <= PairElements(s, i)[m].col < 3 * s.pairs[i].i + 3
                  || 3 * s.pairs[i].j <= PairElements(s, i)[m].col < 3 * s.pairs[i].j + 3)
  {
    CoordinateShape(s, i, 0);
    CoordinateShape(s, i, 1);
    CoordinateShape(s, i, 2);
    var a, b, e := Coordinate(s, i, 0), Coordinate(s, i, 1), Coordinate(s, i, 2);
    forall m | 0 <= m < |PairElements(s, i)|
      ensures PairElements(s, i)[m] == if m < |a| then a[m] else if m < |a| + |b| then b[m - |a|] else e[m - |a| - |b|]
    {
    }
  }

  /** The pair blocks, pair `i`'s on rows `6i .. 6i + 5`. */
  function Pairs(s: Symmetry): (bs: seq<seq<Element>>)
    requires s.average != 0.0
    ensures |bs| == |s.pairs| && Banded(bs, 6)
    ensures PairJacobian(s, []).elems == Stack(bs)
  {
    var bs := seq(|s.pairs|, i requires 0 <= i < |s.pairs| => PairElements(s, i));
    assert Banded(bs, 6) by {
      forall k | 0 <= k < |bs| {
        PairShape(s, k);
      }
    }
    bs
  }

  /** Row `r` of the pair Jacobian holds the derivative of error entry
      `r`: the entry for pair `r / 6`, coordinate `r % 6`. */
  lemma PairJacobianEntry(s: Symmetry, x: Vec, r: int, c: int)
    requires s.average != 0.0 && 0 <= r < 6 * |s.pairs|
    ensures EntryAt(PairJacobian(s, x).elems, r, c) == Slope(s, r / 6, r % 6, c)
  {
    var bs := Pairs(s);
    assert PairJacobian(s, x).elems == Stack(bs);
    BandEntry(bs, 6, r / 6, r, c);
    PairEntry(s, r / 6, r, c);
  }

  /** Every pair element lies inside the pair Jacobian's shape. */
  lemma PairJacobianInRange(s: Symmetry, x: Vec)
    requires Mesh(s, x) && s.average != 0.0
    ensures InRange(PairJacobian(s, x))
  {
    var bs := Pairs(s);
    forall k | 0 <= k < |bs|
      ensures Inside(bs[k], 6 * |s.pairs|, |x|)
    {
      PairShape(s, k);
    }
    StackInsideAll(bs, 6 * |s.pairs|, |x|);
  }

  // ------------------------------------------------------- exactness

  /** Coordinate `m` of an affine image: row `m` of the linear part against
      the point, plus the translation's coordinate. */
  lemma ApplyCoord(a: Affine, p: Point, m: int)
    requires 0 <= m < 3
    ensures Coord(Apply(a, p), m) == Inner(Row(a, m), p) + Coord(a.tr, m)
  {
  }

  /** An inner product moves linearly with its second argument. */
  lemma InnerStep(a: Point, q: Point, w: Point, t: real)
    ensures Inner(a, Plus(q, Scaled(t, w))) == Inner(a, q) + Times(t, Inner(a, w))
  {
    assert a.x * (q.x + t * w.x) == a.x * q.x + t * (a.x * w.x);
    assert a.y * (q.y + t * w.y) == a.y * q.y + t * (a.y * w.y);
    assert a.z * (q.z + t * w.z) == a.z * q.z + t * (a.z * w.z);
  }

  /** One side's residual coordinate `m`: `(a - T b) / L` for the vertices
      `a`, `b`; nudging moves it by `t` times its slope. */
  lemma SideStep(x: Vec, a: int, b: int, tf: Affine, d: real, m: int, c: int, t: real)
    requires IsVertex(x, a) && IsVertex(x, b) && d != 0.0 && 0 <= m < 3 && 0 <= c < |x|
    ensures Coord(Over3(Minus(Vertex(Nudge(x, c, t), a), Apply(tf, Vertex(Nudge(x, c, t), b))), d), m)
            - Coord(Over3(Minus(Vertex(x, a), Apply(tf, Vertex(x, b))), d), m)
            == Times(t, (Coord(Unit(a, c), m) - Inner(Row(tf, m), Unit(b, c))) / d)
  {
    var p, q, u, w := Vertex(x, a), Vertex(x, b), Unit(a, c), Unit(b, c);
    NudgeMovesVertex(x, a, c, t);
    NudgeMovesVertex(x, b, c, t);
    NumeratorStep(p, q, u, w, tf, m, t);
    OverStep(Minus(Plus(p, Scaled(t, u)), Apply(tf, Plus(q, Scaled(t, w)))), Minus(p, Apply(tf, q)),
             Coord(u, m), Inner(Row(tf, m), w), d, m, t);
  }

  /** The numerator `a - T b` moves by `t u - t (T w)` in coordinate `m`. */
  lemma NumeratorStep(p: Point, q: Point, u: Point, w: Point, tf: Affine, m: int, t: real)
    requires 0 <= m < 3
    ensures Coord(Minus(Plus(p, Scaled(t, u)), Apply(tf, Plus(q, Scaled(t, w)))), m)
            == Coord(Minus(p, Apply(tf, q)), m) + t * Coord(u, m) - Times(t, Inner(Row(tf, m), w))
  {
    var p2, q2 := Plus(p, Scaled(t, u)), Plus(q, Scaled(t, w));
    Numerator(p2, q2, tf, m);
    Numerator(p, q, tf, m);
    InnerStep(Row(tf, m), q, w, t);
    CoordMoved(p, u, t, m);
  }

  /** Dividing a numerator step by the average length. */
  lemma OverStep(moved: Point, still: Point, u: real, w: real, d: real, m: int, t: real)
    requires d != 0.0 && 0 <= m < 3
    requires Coord(moved, m) == Coord(still, m) + t * u - Times(t, w)
    ensures Coord(Over3(moved, d), m) - Coord(Over3(still, d), m) == Times(t, (u - w) / d)
  {
    CoordOver(moved, d, m);
    CoordOver(still, d, m);
    ResidualArithmetic(Coord(moved, m), Coord(still, m), u, w, d, t);
  }

  /** The arithmetic of one residual coordinate under a nudge: the
      numerator moves by `t u - t w`. */
  lemma ResidualArithmetic(moved: real, still: real, u: real, w: real, d: real, t: real)
    requires d != 0.0
    requires moved == still + t * u - Times(t, w)
    ensures moved / d - still / d == Times(t, (u - w) / d)
  {
    assert moved - still == t * (u - w);
    DivAdd(moved, -still, d);
  }

  /** Coordinate `m` of `a - T b`. */
  lemma Numerator(a: Point, b: Point, tf: Affine, m: int)
    requires 0 <= m < 3
    ensures Coord(Minus(a, Apply(tf, b)), m) == Coord(a, m) - (Inner(Row(tf, m), b) + Coord(tf.tr, m))
  {
    CoordMinus(a, Apply(tf, b), m);
    ApplyCoord(tf, b, m);
  }

  lemma CoordMinus(a: Point, b: Point, m: int)
    requires 0 <= m < 3
    ensures Coord(Minus(a, b), m) == Coord(a, m) - Coord(b, m)
  {
  }

  lemma CoordMoved(p: Point, u: Point, t: real, m: int)
    requires 0 <= m < 3
    ensures Coord(Plus(p, Scaled(t, u)), m) == Coord(p, m) + t * Coord(u, m)
  {
  }

  lemma CoordOver(v: Point, d: real, m: int)
    requires d != 0.0 && 0 <= m < 3
    ensures Coord(Over3(v, d), m) == Coord(v, m) / d
  {
  }

  /** The residuals are affine in the configuration, so nudging coordinate
      `c` by `t` moves residual `m` of pair `i` by exactly `t` times its
      slope. */
  lemma ResidualStep(s: Symmetry, x: Vec, i: int, m: int, c: int, t: real)
    requires Mesh(s, x) && s.average != 0.0 && 0 <= i < |s.pairs| && 0 <= m < 6 && 0 <= c < |x|
    ensures Mesh(s, Nudge(x, c, t))
    ensures Residual(s, Nudge(x, c, t), i, m) - Residual(s, x, i, m) == Times(t, Slope(s, i, m, c))
  {
    var p := s.pairs[i];
    if m < 3 {
      SideStep(x, p.i, p.j, s.inv, s.average, m, c, t);
    } else {
      SideStep(x, p.j, p.i, s.trans, s.average, m - 3, c, t);
    }
  }

  /** The pair Jacobian is the exact derivative of the pair residuals:
      nudging coordinate `c` by `t` changes error entry `r` by `t` times
      what the Jacobian stores at `(r, c)`, for every affine transform. */
  lemma GradientExact(s: Symmetry, x: Vec, fixedError: Vec, r: int, c: int, t: real)
    requires Mesh(s, x) && s.average != 0.0 && 0 <= r < 6 * |s.pairs| && 0 <= c < |x|
    ensures Mesh(s, Nudge(x, c, t))
    ensures Error(s, Nudge(x, c, t), fixedError)[r] - Error(s, x, fixedError)[r]
            == Times(t, EntryAt(PairJacobian(s, x).elems, r, c))
  {
    ResidualStep(s, x, r / 6, r % 6, c, t);
    PairJacobianEntry(s, x, r, c);
  }

  /** The fixed-point rows stacked below leave the pair rows as they are. */
  lemma JacobianKeepsPairRows(s: Symmetry, x: Vec, fixedJacobian: Builder, r: int, c: int)
    requires s.average != 0.0 && 0 <= r < 6 * |s.pairs|
    requires Jacobian(s, x, fixedJacobian).Some?
    requires forall k :: 0 <= k < |fixedJacobian.elems| ==> 0 <= fixedJacobian.elems[k].row
    ensures EntryAt(Jacobian(s, x, fixedJacobian).value.elems, r, c) == EntryAt(PairJacobian(s, x).elems, r, c)
  {
    if s.fixed {
      var own := PairJacobian(s, x);
      var moved := Shifted(fixedJacobian.elems, own.rows);
      assert Jacobian(s, x, fixedJacobian).value.elems == own.elems + moved;
      EntryAtConcat(own.elems, moved, r, c);
      EntryAtAbsent(moved, r, c);
    }
  }

  function Block(s: Symmetry, x: Vec, fixedBlock: RigidOrigami.Block): (b: Option<RigidOrigami.Block>)
    requires Mesh(s, x) && s.average != 0.0
    ensures b.None? <==> Jacobian(s, x, fixedBlock.jac).None?
  {
    var jac := Jacobian(s, x, fixedBlock.jac);
    if jac.None? then None else Some(RigidOrigami.Block(Error(s, x, fixedBlock.err), jac.value))
  }

  /** With a fixed-point block that fits, the whole block stacks into the
      solver: six rows per pair, then the fixed-point rows. */
  lemma BlockFits(s: Symmetry, x: Vec, fixedBlock: RigidOrigami.Block)
    requires Mesh(s, x) && s.average != 0.0
    requires s.fixed ==> RigidOrigami.Fits(fixedBlock, |x|)
    ensures Block(s, x, fixedBlock).Some? && RigidOrigami.Fits(Block(s, x, fixedBlock).value, |x|)
  {
    PairJacobianInRange(s, x);
    if s.fixed {
      AppendKeepsInRange(PairJacobian(s, x), fixedBlock.jac);
    }
  }
}
