/** Shared vocabulary of the constraint models (Crane/Constraints): the
    mesh as its flat coordinate vector (vertex `v`, coordinate `k` at
    `3v + k`), point algebra in three-space, a nudge of one coordinate, and
    the value a Jacobian's element list stores at a position.

    A constraint's Jacobian row is described by a stencil: the vertices it
    touches, each with the gradient of the row's error with respect to that
    vertex. `Directional` is the derivative the stencil predicts along one
    coordinate; the element lists the constraints build are shown to store
    exactly that value. */
module Constraint {
  import opened Common
  import opened SparseBuilder

  // ------------------------------------------------------------ point algebra

  function Plus(p: Point, q: Point): Point { Point(p.x + q.x, p.y + q.y, p.z + q.z) }

  function Minus(p: Point, q: Point): Point { Point(p.x - q.x, p.y - q.y, p.z - q.z) }

  function Neg(p: Point): Point { Point(-p.x, -p.y, -p.z) }

  function Scaled(t: real, p: Point): Point { Point(t * p.x, t * p.y, t * p.z) }

  /** Each coordinate divided by `d`, as the sources divide a vector. */
  function Over3(p: Point, d: real): Point
    requires d != 0.0
  {
    Point(p.x / d, p.y / d, p.z / d)
  }

  function Inner(p: Point, q: Point): real { p.x * q.x + p.y * q.y + p.z * q.z }

  function Cross(p: Point, q: Point): Point
  {
    Point(p.y * q.z - p.z * q.y, p.z * q.x - p.x * q.z, p.x * q.y - p.y * q.x)
  }

  /** Rhino's `DistanceToSquared`. */
  function NormSq(p: Point): real { Inner(p, p) }

  function Origin(): Point { Point(0.0, 0.0, 0.0) }

  /** `a * b` behind a name, so that contracts which cross a call carry
      a product the caller's terms can match without arithmetic. */
  function Times(a: real, b: real): (s: real)
    ensures a != 0.0 && b != 0.0 ==> s != 0.0
  {
    ProductNonzero(a, b);
    a * b
  }

  lemma ProductNonzero(a: real, b: real)
    ensures a != 0.0 && b != 0.0 ==> a * b != 0.0
  {
    if a != 0.0 && b != 0.0 {
      assert a * b / b == a;
    }
  }

  /** A square, nonzero for a nonzero base. */
  function Square(a: real): (s: real)
    ensures a != 0.0 ==> s != 0.0
  {
    Times(a, a)
  }

  lemma SquarePositive(a: real)
    ensures Square(a) >= 0.0 && (a != 0.0 ==> Square(a) > 0.0)
  {
    if a > 0.0 {
      assert a * a > 0.0 * a;
    } else if a < 0.0 {
      var b := -a;
      assert b * b > 0.0 * b;
      assert a * a == b * b;
    }
  }

  /** Division distributes over a sum. */
  lemma DivAdd(a: real, b: real, d: real)
    requires d != 0.0
    ensures a / d + b / d == (a + b) / d
  {
    var u, v, w := a / d, b / d, (a + b) / d;
    assert u * d == a && v * d == b && w * d == a + b;
    assert (u + v - w) * d == 0.0;
  }

  function Over(a: real, d: real): real
    requires d != 0.0
  {
    a / d
  }

  lemma InnerOver3(g: Point, d: real, e: Point)
    requires d != 0.0
    ensures Inner(Over3(g, d), e) == Over(Inner(g, e), d)
  {
    assert Inner(Over3(g, d), e) * d == Inner(g, e);
  }

  // ------------------------------------------------------ the configuration

  /** `v` is a vertex of the configuration `x`. */
  predicate IsVertex(x: Vec, v: int)
  {
    0 <= v && 3 * v + 2 < |x|
  }

  function Vertex(x: Vec, v: int): Point
    requires IsVertex(x, v)
  {
    Point(x[3 * v], x[3 * v + 1], x[3 * v + 2])
  }

  /** The configuration with coordinate `c` moved by `t`. */
  function Nudge(x: Vec, c: int, t: real): (y: Vec)
    requires 0 <= c < |x|
    ensures |y| == |x| && y[c] == x[c] + t
    ensures forall k :: 0 <= k < |x| && k != c ==> y[k] == x[k]
  {
    x[c := x[c] + t]
  }

  /** How vertex `v` moves per unit of coordinate `c`: a unit axis when `c`
      is one of its coordinates, the origin otherwise. */
  function Unit(v: int, c: int): Point
  {
    Point(if c == 3 * v then 1.0 else 0.0, if c == 3 * v + 1 then 1.0 else 0.0,
          if c == 3 * v + 2 then 1.0 else 0.0)
  }

  lemma NudgeMovesVertex(x: Vec, v: int, c: int, t: real)
    requires IsVertex(x, v) && 0 <= c < |x|
    ensures Vertex(Nudge(x, c, t), v) == Plus(Vertex(x, v), Scaled(t, Unit(v, c)))
  {
  }

  /** A coordinate belongs to at most one vertex. */
  lemma UnitElsewhere(v: int, w: int, c: int)
    requires v != w && Unit(v, c) != Origin()
    ensures Unit(w, c) == Origin()
  {
  }

  // ---------------------------------------------------------- edge lengths

  /** The squared length of the segment from vertex `i` to vertex `j`. */
  function EdgeSq(x: Vec, i: int, j: int): real
    requires IsVertex(x, i) && IsVertex(x, j)
  {
    NormSq(Minus(Vertex(x, i), Vertex(x, j)))
  }

  /** How the segment from `j` to `i` changes per unit of coordinate `c`. */
  function Along(i: int, j: int, c: int): Point
  {
    Minus(Unit(i, c), Unit(j, c))
  }

  lemma SquareDifference(w: Point, d: Point, t: real)
    ensures NormSq(Plus(w, Scaled(t, d))) - NormSq(Plus(w, Scaled(-t, d))) == Times(4.0 * t, Inner(w, d))
  {
    assert (w.x + t * d.x) * (w.x + t * d.x) - (w.x + -t * d.x) * (w.x + -t * d.x) == 4.0 * t * (w.x * d.x);
    assert (w.y + t * d.y) * (w.y + t * d.y) - (w.y + -t * d.y) * (w.y + -t * d.y) == 4.0 * t * (w.y * d.y);
    assert (w.z + t * d.z) * (w.z + t * d.z) - (w.z + -t * d.z) * (w.z + -t * d.z) == 4.0 * t * (w.z * d.z);
  }

  lemma MovedSegment(a: Point, b: Point, da: Point, db: Point, t: real)
    ensures Minus(Plus(a, Scaled(t, da)), Plus(b, Scaled(t, db))) == Plus(Minus(a, b), Scaled(t, Minus(da, db)))
  {
  }

  /** A squared edge length is quadratic in every coordinate, so its
      central difference is exact: nudging coordinate `c` by `t` either way
      changes it by `4t` times its half-gradient along `c`. */
  lemma EdgeSqDifference(x: Vec, i: int, j: int, c: int, t: real)
    requires IsVertex(x, i) && IsVertex(x, j) && 0 <= c < |x|
    ensures EdgeSq(Nudge(x, c, t), i, j) - EdgeSq(Nudge(x, c, -t), i, j)
            == Times(4.0 * t, Inner(Minus(Vertex(x, i), Vertex(x, j)), Along(i, j, c)))
  {
    var a, b := Vertex(x, i), Vertex(x, j);
    NudgeMovesVertex(x, i, c, t);
    NudgeMovesVertex(x, j, c, t);
    NudgeMovesVertex(x, i, c, -t);
    NudgeMovesVertex(x, j, c, -t);
    MovedSegment(a, b, Unit(i, c), Unit(j, c), t);
    MovedSegment(a, b, Unit(i, c), Unit(j, c), -t);
    SquareDifference(Minus(a, b), Along(i, j, c), t);
  }

  /** An edge's two-vertex stencil. */
  function Pair(i: int, g: Point, j: int, h: Point): (st: Stencil)
    ensures |st| == 2
  {
    [(i, g), (j, h)]
  }

  lemma PairDirectional(i: int, g: Point, j: int, h: Point, c: int)
    ensures Directional(Pair(i, g, j, h), c) == Inner(g, Unit(i, c)) + Inner(h, Unit(j, c))
  {
    var tail := Pair(i, g, j, h)[1..];
    assert tail == [(j, h)] && tail[1..] == [];
    assert Directional(tail, c) == Inner(h, Unit(j, c)) + Directional(tail[1..], c);
  }

  /** The stencil `(a - b) / d` at `i`, `(b - a) / d` at `j` predicts the
      inner product of `a - b` with the segment's motion, over `d`. */
  lemma EdgeStencilDirectional(a: Point, b: Point, i: int, j: int, d: real, c: int)
    requires d != 0.0
    ensures Directional(Pair(i, Over3(Minus(a, b), d), j, Over3(Minus(b, a), d)), c)
            == Over(Inner(Minus(a, b), Along(i, j, c)), d)
  {
    PairDirectional(i, Over3(Minus(a, b), d), j, Over3(Minus(b, a), d), c);
    EdgeGradientSplit(a, b, d, Unit(i, c), Unit(j, c));
  }

  lemma EdgeGradientSplit(a: Point, b: Point, d: real, ui: Point, uj: Point)
    requires d != 0.0
    ensures Inner(Over3(Minus(a, b), d), ui) + Inner(Over3(Minus(b, a), d), uj) == Over(Inner(Minus(a, b), Minus(ui, uj)), d)
  {
    InnerOver3(Minus(a, b), d, ui);
    InnerOver3(Minus(b, a), d, uj);
    var p, q := Inner(Minus(a, b), ui), Inner(Minus(b, a), uj);
    assert Inner(Minus(a, b), Minus(ui, uj)) == p + q;
    DivAdd(p, q, d);
  }

  /** The stencil `g / d` at `i`, `-g / d` at `j` predicts the inner
      product of `g` with the segment's motion, over `d`. */
  lemma OpposedDirectional(g: Point, i: int, j: int, d: real, c: int)
    requires d != 0.0
    ensures Directional(Pair(i, Over3(g, d), j, Over3(Neg(g), d)), c) == Over(Inner(g, Along(i, j, c)), d)
  {
    PairDirectional(i, Over3(g, d), j, Over3(Neg(g), d), c);
    OpposedSplit(g, d, Unit(i, c), Unit(j, c));
  }

  /** Two opposed pairs predict the sum of their two inner products. */
  lemma TwoOpposedDirectional(g: Point, i: int, j: int, h: Point, k: int, l: int, d: real, c: int)
    requires d != 0.0
    ensures Directional(Pair(i, Over3(g, d), j, Over3(Neg(g), d)) + Pair(k, Over3(h, d), l, Over3(Neg(h), d)), c)
            == Over(Inner(g, Along(i, j, c)) + Inner(h, Along(k, l, c)), d)
  {
    OpposedDirectional(g, i, j, d, c);
    OpposedDirectional(h, k, l, d, c);
    ConcatOver(Pair(i, Over3(g, d), j, Over3(Neg(g), d)), Pair(k, Over3(h, d), l, Over3(Neg(h), d)),
               Inner(g, Along(i, j, c)), Inner(h, Along(k, l, c)), d, c);
  }

  lemma ConcatOver(one: Stencil, two: Stencil, a: real, b: real, d: real, c: int)
    requires d != 0.0 && Directional(one, c) == Over(a, d) && Directional(two, c) == Over(b, d)
    ensures Directional(one + two, c) == Over(a + b, d)
  {
    DirectionalConcat(one, two, c);
    DivAdd(a, b, d);
  }

  lemma OpposedSplit(g: Point, d: real, ui: Point, uj: Point)
    requires d != 0.0
    ensures Inner(Over3(g, d), ui) + Inner(Over3(Neg(g), d), uj) == Over(Inner(g, Minus(ui, uj)), d)
  {
    InnerOver3(g, d, ui);
    InnerOver3(Neg(g), d, uj);
    var p, q := Inner(g, ui), Inner(Neg(g), uj);
    assert Inner(g, Minus(ui, uj)) == p + q;
    DivAdd(p, q, d);
  }

  lemma InnerScaled(s: real, w: Point, e: Point)
    ensures Inner(Scaled(s, w), e) == Times(s, Inner(w, e))
  {
  }

  // ------------------------------------------------------------- stencils

  /** The vertices a row touches, each with its gradient. */
  type Stencil = seq<(int, Point)>

  /** The derivative the stencil predicts along coordinate `c`. */
  function Directional(st: Stencil, c: int): real
  {
    if |st| == 0 then 0.0 else Inner(st[0].1, Unit(st[0].0, c)) + Directional(st[1..], c)
  }

  /** The part of the stencil whose vertices lie in `lo .. hi - 1`. */
  function Between(st: Stencil, lo: int, hi: int): (b: Stencil)
    ensures |b| <= |st|
    ensures forall k :: 0 <= k < |b| ==> lo <= b[k].0 < hi
  {
    if |st| == 0 then []
    else (if lo <= st[0].0 < hi then [st[0]] else []) + Between(st[1..], lo, hi)
  }

  lemma {:induction false} DirectionalConcat(a: Stencil, b: Stencil, c: int)
    ensures Directional(a + b, c) == Directional(a, c) + Directional(b, c)
    decreases |a|
  {
    if |a| == 0 {
      assert a + b == b;
    } else {
      assert (a + b)[1..] == a[1..] + b;
      DirectionalConcat(a[1..], b, c);
    }
  }

  /** Splitting the vertex range splits the predicted derivative. */
  lemma {:induction false} BetweenSplit(st: Stencil, lo: int, mid: int, hi: int, c: int)
    requires lo <= mid <= hi
    ensures Directional(Between(st, lo, hi), c)
            == Directional(Between(st, lo, mid), c) + Directional(Between(st, mid, hi), c)
    decreases |st|
  {
    if |st| > 0 {
      var h := if lo <= st[0].0 < hi then [st[0]] else [];
      var h1 := if lo <= st[0].0 < mid then [st[0]] else [];
      var h2 := if mid <= st[0].0 < hi then [st[0]] else [];
      DirectionalConcat(h, Between(st[1..], lo, hi), c);
      DirectionalConcat(h1, Between(st[1..], lo, mid), c);
      DirectionalConcat(h2, Between(st[1..], mid, hi), c);
      BetweenSplit(st[1..], lo, mid, hi, c);
    }
  }

  /** A stencil whose vertices all lie in the range is kept whole. */
  lemma {:induction false} BetweenAll(st: Stencil, lo: int, hi: int)
    requires forall k :: 0 <= k < |st| ==> lo <= st[k].0 < hi
    ensures Between(st, lo, hi) == st
    decreases |st|
  {
    if |st| > 0 {
      BetweenAll(st[1..], lo, hi);
      assert [st[0]] + st[1..] == st;
    }
  }

  // ------------------------------------------------------- stored entries

  function Stored(e: Element, r: int, c: int): real
  {
    if e.row == r && e.col == c then e.val else 0.0
  }

  /** The value the element list stores at row `r`, column `c`. A position
      given more than once reads as the sum of its values. */
  function EntryAt(es: seq<Element>, r: int, c: int): real
  {
    if |es| == 0 then 0.0 else Stored(es[0], r, c) + EntryAt(es[1..], r, c)
  }

  lemma {:induction false} EntryAtConcat(xs: seq<Element>, ys: seq<Element>, r: int, c: int)
    ensures EntryAt(xs + ys, r, c) == EntryAt(xs, r, c) + EntryAt(ys, r, c)
    decreases |xs|
  {
    if |xs| == 0 {
      assert xs + ys == ys;
    } else {
      assert (xs + ys)[1..] == xs[1..] + ys;
      EntryAtConcat(xs[1..], ys, r, c);
    }
  }

  lemma EntryAtOne(e: Element, r: int, c: int)
    ensures EntryAt([e], r, c) == Stored(e, r, c)
  {
    assert [e][1..] == [];
  }

  lemma EntryAtTwo(a: Element, b: Element, r: int, c: int)
    ensures EntryAt([a, b], r, c) == Stored(a, r, c) + Stored(b, r, c)
  {
    assert [a, b] == [a] + [b];
    EntryAtConcat([a], [b], r, c);
    EntryAtOne(a, r, c);
    EntryAtOne(b, r, c);
  }

  /** Every element sits on row `r`. */
  predicate OnRow(es: seq<Element>, r: int)
  {
    forall k :: 0 <= k < |es| ==> es[k].row == r
  }

  lemma {:induction false} EntryAtOtherRow(es: seq<Element>, r: int, c: int, s: int)
    requires OnRow(es, r) && s != r
    ensures EntryAt(es, s, c) == 0.0
    decreases |es|
  {
    if |es| > 0 {
      EntryAtOtherRow(es[1..], r, c, s);
    }
  }

  /** Every element lies in a row below `rows` and a column below `cols`. */
  predicate Inside(es: seq<Element>, rows: int, cols: int)
  {
    forall k :: 0 <= k < |es| ==> 0 <= es[k].row < rows && 0 <= es[k].col < cols
  }

  // ------------------------------------------------------ element layouts

  /** A vertex's three elements on row `r`, coordinate by coordinate. */
  function Cells(r: int, v: int, g: Point): (es: seq<Element>)
    ensures |es| == 3 && OnRow(es, r)
  {
    [Element(r, 3 * v, g.x), Element(r, 3 * v + 1, g.y), Element(r, 3 * v + 2, g.z)]
  }

  lemma CellsEntry(r: int, v: int, g: Point, c: int)
    ensures EntryAt(Cells(r, v, g), r, c) == Inner(g, Unit(v, c))
  {
    var es := Cells(r, v, g);
    assert es == [es[0]] + [es[1], es[2]];
    EntryAtConcat([es[0]], [es[1], es[2]], r, c);
    EntryAtOne(es[0], r, c);
    EntryAtTwo(es[1], es[2], r, c);
  }

  /** The stencil's elements on row `r` vertex by vertex, as the loops
      that add three coordinates per vertex produce them. */
  function Grouped(r: int, st: Stencil): (es: seq<Element>)
    ensures |es| == 3 * |st| && OnRow(es, r)
  {
    if |st| == 0 then [] else Cells(r, st[0].0, st[0].1) + Grouped(r, st[1..])
  }

  /** Grouped elements store the stencil's derivative. */
  lemma {:induction false} GroupedEntry(r: int, st: Stencil, c: int)
    ensures EntryAt(Grouped(r, st), r, c) == Directional(st, c)
    decreases |st|
  {
    if |st| > 0 {
      EntryAtConcat(Cells(r, st[0].0, st[0].1), Grouped(r, st[1..]), r, c);
      CellsEntry(r, st[0].0, st[0].1, c);
      GroupedEntry(r, st[1..], c);
    }
  }

  /** Coordinate `j` of every stencil vertex, in stencil order. */
  function Layer(r: int, st: Stencil, j: int): (es: seq<Element>)
    ensures |es| == |st| && OnRow(es, r)
  {
    if |st| == 0 then [] else [Element(r, 3 * st[0].0 + j, Coord(st[0].1, j))] + Layer(r, st[1..], j)
  }

  /** The stencil's elements on row `r` coordinate by coordinate: for each
      `j`, coordinate `j` of every vertex, as the loops over `j` that add
      one element per vertex produce them. */
  function Interleaved(r: int, st: Stencil): (es: seq<Element>)
    ensures |es| == 3 * |st| && OnRow(es, r)
  {
    Layer(r, st, 0) + Layer(r, st, 1) + Layer(r, st, 2)
  }

  /** The part of the derivative along `c` that coordinate `j` carries. */
  function LayerPart(st: Stencil, j: int, c: int): real
  {
    if |st| == 0 then 0.0
    else (if c == 3 * st[0].0 + j then Coord(st[0].1, j) else 0.0) + LayerPart(st[1..], j, c)
  }

  lemma {:induction false} LayerEntry(r: int, st: Stencil, j: int, c: int)
    ensures EntryAt(Layer(r, st, j), r, c) == LayerPart(st, j, c)
    decreases |st|
  {
    if |st| > 0 {
      var e := Element(r, 3 * st[0].0 + j, Coord(st[0].1, j));
      EntryAtConcat([e], Layer(r, st[1..], j), r, c);
      EntryAtOne(e, r, c);
      LayerEntry(r, st[1..], j, c);
    }
  }

  lemma {:induction false} LayersMakeDirectional(st: Stencil, c: int)
    ensures Directional(st, c) == LayerPart(st, 0, c) + LayerPart(st, 1, c) + LayerPart(st, 2, c)
    decreases |st|
  {
    if |st| > 0 {
      LayersMakeDirectional(st[1..], c);
    }
  }

  /** Interleaved elements store the stencil's derivative too: the order of
      a row's elements does not change what it stores. */
  lemma InterleavedEntry(r: int, st: Stencil, c: int)
    ensures EntryAt(Interleaved(r, st), r, c) == Directional(st, c)
  {
    EntryAtConcat(Layer(r, st, 0) + Layer(r, st, 1), Layer(r, st, 2), r, c);
    EntryAtConcat(Layer(r, st, 0), Layer(r, st, 1), r, c);
    LayerEntry(r, st, 0, c);
    LayerEntry(r, st, 1, c);
    LayerEntry(r, st, 2, c);
    LayersMakeDirectional(st, c);
  }

  /** Interleaved elements lie inside row `r` and the columns of the
      stencil's vertices. */
  lemma InterleavedInside(r: int, st: Stencil, rows: int, cols: int)
    requires 0 <= r < rows
    requires forall k :: 0 <= k < |st| ==> 0 <= st[k].0 && 3 * st[k].0 + 2 < cols
    ensures Inside(Interleaved(r, st), rows, cols)
  {
    LayerInside(r, st, 0, rows, cols);
    LayerInside(r, st, 1, rows, cols);
    LayerInside(r, st, 2, rows, cols);
  }

  lemma {:induction false} LayerInside(r: int, st: Stencil, j: int, rows: int, cols: int)
    requires 0 <= r < rows && 0 <= j < 3
    requires forall k :: 0 <= k < |st| ==> 0 <= st[k].0 && 3 * st[k].0 + 2 < cols
    ensures Inside(Layer(r, st, j), rows, cols)
    decreases |st|
  {
    if |st| > 0 {
      LayerInside(r, st[1..], j, rows, cols);
    }
  }

  /** The scan over vertex ids `0 .. n - 1` that, for each id, adds the
      three elements of every stencil role played by that id, in role
      order. Roles whose vertex lies outside the scan add nothing. */
  function Scan(r: int, st: Stencil, n: nat): (es: seq<Element>)
    ensures OnRow(es, r)
  {
    if n == 0 then [] else Scan(r, st, n - 1) + Grouped(r, Between(st, n - 1, n))
  }

  lemma ScanEntry(r: int, st: Stencil, n: nat, c: int)
    ensures EntryAt(Scan(r, st, n), r, c) == Directional(Between(st, 0, n), c)
  {
    ScanNone(r, st, c);
    var m := 0;
    while m < n
      invariant 0 <= m <= n
      invariant EntryAt(Scan(r, st, m), r, c) == Directional(Between(st, 0, m), c)
    {
      ScanMore(r, st, m, c);
      m := m + 1;
    }
  }

  lemma ScanNone(r: int, st: Stencil, c: int)
    ensures EntryAt(Scan(r, st, 0), r, c) == Directional(Between(st, 0, 0), c)
  {
    BetweenEmpty(st, 0, c);
  }

  /** What the scan of the first `m` ids stores carries over to `m + 1`. */
  lemma ScanMore(r: int, st: Stencil, m: nat, c: int)
    requires EntryAt(Scan(r, st, m), r, c) == Directional(Between(st, 0, m), c)
    ensures EntryAt(Scan(r, st, m + 1), r, c) == Directional(Between(st, 0, m + 1), c)
  {
    ScanStep(r, st, m, c);
    BetweenSplit(st, 0, m, m + 1, c);
  }

  /** Scanning one more vertex id adds the derivative of its roles. */
  lemma ScanStep(r: int, st: Stencil, m: nat, c: int)
    ensures EntryAt(Scan(r, st, m + 1), r, c)
            == EntryAt(Scan(r, st, m), r, c) + Directional(Between(st, m, m + 1), c)
  {
    var front, last := Scan(r, st, m), Between(st, m, m + 1);
    assert Scan(r, st, m + 1) == front + Grouped(r, last);
    EntryAtConcat(front, Grouped(r, last), r, c);
    GroupedEntry(r, last, c);
  }

  lemma {:induction false} BetweenEmpty(st: Stencil, lo: int, c: int)
    ensures Directional(Between(st, lo, lo), c) == 0.0
    decreases |st|
  {
    if |st| > 0 {
      DirectionalConcat([], Between(st[1..], lo, lo), c);
      BetweenEmpty(st[1..], lo, c);
    }
  }

  /** The scan lays every element inside row `r` and the columns of the
      scanned vertices. */
  lemma ScanInside(r: int, st: Stencil, n: nat, rows: int)
    requires 0 <= r < rows
    ensures Inside(Scan(r, st, n), rows, 3 * n)
  {
    var m := 0;
    while m < n
      invariant 0 <= m <= n
      invariant Inside(Scan(r, st, m), rows, 3 * m)
    {
      ScanInsideMore(r, st, m, rows);
      m := m + 1;
    }
  }

  lemma ScanInsideMore(r: int, st: Stencil, m: nat, rows: int)
    requires 0 <= r < rows
    requires Inside(Scan(r, st, m), rows, 3 * m)
    ensures Inside(Scan(r, st, m + 1), rows, 3 * (m + 1))
  {
    var front, last := Scan(r, st, m), Grouped(r, Between(st, m, m + 1));
    assert Scan(r, st, m + 1) == front + last;
    BetweenInside(r, st, m, rows);
  }

  lemma BetweenInside(r: int, st: Stencil, v: nat, rows: int)
    requires 0 <= r < rows
    ensures Inside(Grouped(r, Between(st, v, v + 1)), rows, 3 * (v + 1))
  {
    GroupedInside(r, Between(st, v, v + 1), v, rows);
  }

  lemma {:induction false} GroupedInside(r: int, st: Stencil, v: nat, rows: int)
    requires 0 <= r < rows
    requires forall k :: 0 <= k < |st| ==> 0 <= st[k].0 <= v
    ensures Inside(Grouped(r, st), rows, 3 * (v + 1))
    decreases |st|
  {
    if |st| > 0 {
      GroupedInside(r, st[1..], v, rows);
    }
  }

  /** The positions of the true flags among the first `n`, in increasing
      order: the rows of a constraint that keeps only some of its
      candidates. */
  function Selected(flags: seq<bool>, n: int): (ids: seq<int>)
    requires 0 <= n <= |flags|
    ensures forall k :: 0 <= k < |ids| ==> 0 <= ids[k] < n && flags[ids[k]]
    ensures forall k, l :: 0 <= k < l < |ids| ==> ids[k] < ids[l]
    ensures forall i :: 0 <= i < n && flags[i] ==> i in ids
    decreases n
  {
    if n == 0 then []
    else if flags[n - 1] then Selected(flags, n - 1) + [n - 1]
    else Selected(flags, n - 1)
  }

  /** Nothing is selected exactly when no flag among the first `n` is set. */
  lemma SelectedNone(flags: seq<bool>, n: int)
    requires 0 <= n <= |flags|
    ensures |Selected(flags, n)| == 0 <==> forall i :: 0 <= i < n ==> !flags[i]
  {
    var ids := Selected(flags, n);
    if |ids| > 0 {
      assert flags[ids[0]];
    }
  }

  /** Rows stacked in order, row `k` holding the elements of `rows[k]`. */
  function Stack(rows: seq<seq<Element>>): seq<Element>
  {
    if |rows| == 0 then [] else Stack(rows[..|rows| - 1]) + rows[|rows| - 1]
  }

  predicate Tagged(rows: seq<seq<Element>>)
  {
    forall k :: 0 <= k < |rows| ==> OnRow(rows[k], k)
  }

  /** What a stack stores on row `r` is what row `r`'s own list stores. */
  lemma {:induction false} StackEntry(rows: seq<seq<Element>>, r: int, c: int)
    requires Tagged(rows)
    ensures EntryAt(Stack(rows), r, c) == if 0 <= r < |rows| then EntryAt(rows[r], r, c) else 0.0
    decreases |rows|
  {
    if |rows| > 0 {
      var n := |rows| - 1;
      var front := rows[..n];
      assert Tagged(front) by {
        forall k | 0 <= k < |front| ensures OnRow(front[k], k) {
          assert front[k] == rows[k];
        }
      }
      StackEntry(front, r, c);
      EntryAtConcat(Stack(front), rows[n], r, c);
      if r != n {
        EntryAtOtherRow(rows[n], n, c, r);
      }
      if 0 <= r < n {
        assert front[r] == rows[r];
      }
    }
  }

  lemma {:induction false} StackInside(rows: seq<seq<Element>>, cols: int)
    requires Tagged(rows)
    requires forall k :: 0 <= k < |rows| ==> Inside(rows[k], |rows|, cols)
    ensures Inside(Stack(rows), |rows|, cols)
    decreases |rows|
  {
    if |rows| > 0 {
      var n := |rows| - 1;
      var front := rows[..n];
      forall k | 0 <= k < |front|
        ensures OnRow(front[k], k) && Inside(front[k], |front|, cols)
      {
        assert front[k] == rows[k];
      }
      StackInside(front, cols);
    }
  }

  /** Block `k` of `bs` only touches rows `h k .. h k + h - 1`. */
  predicate Banded(bs: seq<seq<Element>>, h: int)
  {
    forall k, m :: 0 <= k < |bs| && 0 <= m < |bs[k]| ==> h * k <= bs[k][m].row < h * k + h
  }

  /** A list none of whose elements is on row `r` stores nothing there. */
  lemma {:induction false} EntryAtAbsent(es: seq<Element>, r: int, c: int)
    requires forall k :: 0 <= k < |es| ==> es[k].row != r
    ensures EntryAt(es, r, c) == 0.0
  {
    if |es| > 0 {
      EntryAtAbsent(es[1..], r, c);
    }
  }

  /** What a banded stack stores on row `r` is what the band holding `r`
      stores. */
  lemma {:induction false} BandEntry(bs: seq<seq<Element>>, h: int, k: int, r: int, c: int)
    requires h > 0 && Banded(bs, h) && 0 <= k < |bs| && h * k <= r < h * k + h
    ensures EntryAt(Stack(bs), r, c) == EntryAt(bs[k], r, c)
    decreases |bs|
  {
    var n := |bs| - 1;
    var front := bs[..n];
    assert Banded(front, h) by {
      forall k, m | 0 <= k < |front| && 0 <= m < |front[k]| ensures h * k <= front[k][m].row < h * k + h {
        assert front[k] == bs[k];
      }
    }
    EntryAtConcat(Stack(front), bs[n], r, c);
    if k < n {
      BandEntry(front, h, k, r, c);
      assert front[k] == bs[k];
      MulMono(h, k, n);
      assert forall m :: 0 <= m < |bs[n]| ==> bs[n][m].row != r;
      EntryAtAbsent(bs[n], r, c);
    } else {
      StackAbsent(front, h, r, c);
    }
  }

  lemma {:induction false} MulMono(h: int, k: int, n: int)
    requires h > 0 && k < n
    ensures h * k + h <= h * n
    decreases n - k
  {
    assert h * (k + 1) == h * k + h;
    if k + 1 < n {
      MulMono(h, k + 1, n);
    }
  }

  lemma {:induction false} StackAbsent(bs: seq<seq<Element>>, h: int, r: int, c: int)
    requires h > 0 && Banded(bs, h) && r >= h * |bs|
    ensures EntryAt(Stack(bs), r, c) == 0.0
    decreases |bs|
  {
    if |bs| > 0 {
      var n := |bs| - 1;
      var front := bs[..n];
      assert Banded(front, h) by {
        forall k, m | 0 <= k < |front| && 0 <= m < |front[k]| ensures h * k <= front[k][m].row < h * k + h {
          assert front[k] == bs[k];
        }
      }
      StackAbsent(front, h, r, c);
      assert forall m :: 0 <= m < |bs[n]| ==> bs[n][m].row != r;
      EntryAtAbsent(bs[n], r, c);
      EntryAtConcat(Stack(front), bs[n], r, c);
    }
  }

  /** Blocks that each lie inside a shape stack inside it. */
  lemma {:induction false} StackInsideAll(bs: seq<seq<Element>>, rows: int, cols: int)
    requires forall k :: 0 <= k < |bs| ==> Inside(bs[k], rows, cols)
    ensures Inside(Stack(bs), rows, cols)
    decreases |bs|
  {
    if |bs| > 0 {
      var n := |bs| - 1;
      var front := bs[..n];
      assert forall k :: 0 <= k < |front| ==> front[k] == bs[k];
      StackInsideAll(front, rows, cols);
    }
  }
}
