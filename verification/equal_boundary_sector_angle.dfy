/** Equal boundary sector angles, Crane/Constraints/EqualBoundarySectorAngle.cs:
    for each pair of a primary and a secondary vertex, the sum of the
    sector angles around the primary minus the sum around the secondary.
    The Jacobian accumulates, per pair, a dictionary from vertex id to
    gradient: every sector of the primary adds its three corner gradients,
    every sector of the secondary subtracts them, and a key seen for the
    first time starts at plus or minus the gradient. The dictionary's keys
    are then laid down in insertion order, three coordinates each. */
module EqualBoundarySectorAngle {
  import opened Common
  import opened SparseBuilder
  import opened Constraint
  import RigidOrigami

  /** The sector of one face at a vertex: the face's other two corners in
      the order `GetOtherVertexIdPair` gives them, the sector angle, and the
      angle's gradient at the first corner, the vertex itself and the second
      corner, as `ComputeDerivativeOfSectorAngle` returns them. */
  datatype Sector = Sector(v1: int, v3: int, angle: real, d1: Point, d2: Point, d3: Point)

  /** The sectors around each vertex, one per connected face, in the
      order the mesh topology lists the faces. */
  type Fan = int -> seq<Sector>

  // -------------------------------------------------------------- error

  /** `SectorAngleSum`: the loop adding every sector's angle. */
  function AngleSum(sectors: seq<Sector>): (s: real)
    ensures (forall k :: 0 <= k < |sectors| ==> sectors[k].angle >= 0.0) ==> s >= 0.0
    decreases |sectors|
  {
    if |sectors| == 0 then 0.0
    else AngleSum(sectors[..|sectors| - 1]) + sectors[|sectors| - 1].angle
  }

  /** Error: one entry per pair, primary sum minus secondary sum. Reading a
      secondary id past the end of its array throws. */
  function Error(primary: seq<int>, secondary: seq<int>, fan: Fan): (r: Option<Vec>)
    ensures r.None? <==> |secondary| < |primary|
    ensures r.Some? ==> |r.value| == |primary|
  {
    if |secondary| < |primary| then None
    else Some(seq(|primary|, i requires 0 <= i < |primary| =>
                AngleSum(fan(primary[i])) - AngleSum(fan(secondary[i]))))
  }

  /** Swapping the roles of the two lists negates every entry. */
  lemma ErrorSwap(primary: seq<int>, secondary: seq<int>, fan: Fan)
    requires |primary| == |secondary|
    ensures Error(secondary, primary, fan).Some? && Error(primary, secondary, fan).Some?
    ensures forall i :: 0 <= i < |primary| ==>
              Error(secondary, primary, fan).value[i] == -Error(primary, secondary, fan).value[i]
  {
  }

  /** A vertex paired with itself has no error. */
  lemma ErrorSelf(ids: seq<int>, fan: Fan)
    ensures Error(ids, ids, fan).Some? && IsZero(Error(ids, ids, fan).value)
  {
  }

  // --------------------------------------------------------- dictionary

  /** A `Dictionary<int, Vector3d>` that is only ever added to: its entries
      in insertion order. */
  type Derivative = seq<(int, Point)>

  predicate UniqueKeys(d: Derivative)
  {
    forall i, j :: 0 <= i < j < |d| ==> d[i].0 != d[j].0
  }

  /** Where `key` sits, or -1 when it is missing. */
  function IndexOf(d: Derivative, key: int): (i: int)
    ensures -1 <= i < |d|
    ensures i >= 0 ==> d[i].0 == key
    ensures i == -1 <==> forall k :: 0 <= k < |d| ==> d[k].0 != key
    decreases |d|
  {
    if |d| == 0 then -1
    else if d[|d| - 1].0 == key then |d| - 1
    else IndexOf(d[..|d| - 1], key)
  }

  /** Everything stored under `key`, summed; for unique keys, the value the
      dictionary holds for it, and the origin when it holds none. */
  function ValueAt(d: Derivative, key: int): Point
    decreases |d|
  {
    if |d| == 0 then Origin()
    else Plus(if d[0].0 == key then d[0].1 else Origin(), ValueAt(d[1..], key))
  }

  /** `g` for the primary vertex, `-g` for the secondary. */
  function Signed(g: Point, primary: bool): Point
  {
    if primary then g else Neg(g)
  }

  /** One update of the dictionary: add to (or, for the secondary, subtract
      from) the value a present key holds, or insert a missing key at the
      end with plus or minus the gradient. Keys already present keep their
      place. */
  function Accumulate(d: Derivative, key: int, g: Point, primary: bool): (d2: Derivative)
    requires UniqueKeys(d)
    ensures UniqueKeys(d2)
    ensures |d| <= |d2| <= |d| + 1 && forall i :: 0 <= i < |d| ==> d2[i].0 == d[i].0
    ensures |d2| == |d| + 1 <==> forall i :: 0 <= i < |d| ==> d[i].0 != key
    ensures |d2| == |d| + 1 ==> d2[|d|].0 == key
  {
    var i := IndexOf(d, key);
    if i >= 0 then d[i := (key, if primary then Plus(d[i].1, g) else Minus(d[i].1, g))]
    else d + [(key, if primary then g else Neg(g))]
  }

  /** The three updates one sector makes, corner by corner. */
  function AddSector(d: Derivative, v: int, s: Sector, primary: bool): (d2: Derivative)
    requires UniqueKeys(d)
    ensures UniqueKeys(d2) && |d| <= |d2| && forall i :: 0 <= i < |d| ==> d2[i].0 == d[i].0
  {
    Accumulate(Accumulate(Accumulate(d, s.v1, s.d1, primary), v, s.d2, primary), s.v3, s.d3, primary)
  }

  /** `SetDerivative`: the loop over a vertex's sectors. */
  function SetDerivative(d: Derivative, v: int, sectors: seq<Sector>, primary: bool): (d2: Derivative)
    requires UniqueKeys(d)
    ensures UniqueKeys(d2) && |d| <= |d2| && forall i :: 0 <= i < |d| ==> d2[i].0 == d[i].0
    decreases |sectors|
  {
    if |sectors| == 0 then d
    else AddSector(SetDerivative(d, v, sectors[..|sectors| - 1], primary), v, sectors[|sectors| - 1], primary)
  }

  /** The dictionary of one pair: the primary's sectors added, then the
      secondary's subtracted. */
  function Row(pv: int, sv: int, fan: Fan): (d: Derivative)
    ensures UniqueKeys(d)
  {
    SetDerivative(SetDerivative([], pv, fan(pv), true), sv, fan(sv), false)
  }

  /** Jacobian: one row per pair, the row's dictionary laid down key by
      key, one column per degree of freedom of the `n` vertices. Reading a
      secondary id past the end of its array throws. */
  function Jacobian(primary: seq<int>, secondary: seq<int>, fan: Fan, n: nat): (r: Option<Builder>)
    ensures r.None? <==> |secondary| < |primary|
    ensures r.Some? ==> r.value.rows == |primary| && r.value.cols == 3 * n
  {
    if |secondary| < |primary| then None
    else Some(Builder(|primary|, 3 * n, Stack(Rows(primary, secondary, fan))))
  }

  /** Row `i`'s elements: pair `i`'s dictionary, key by key. */
  function Rows(primary: seq<int>, secondary: seq<int>, fan: Fan): (rows: seq<seq<Element>>)
    requires |secondary| >= |primary|
    ensures |rows| == |primary| && Tagged(rows)
  {
    seq(|primary|, i requires 0 <= i < |primary| => Grouped(i, Row(primary[i], secondary[i], fan)))
  }

  // ------------------------------------------------------------- values

  /** The gradients a vertex's sectors contribute, corner by corner. */
  function Contributions(v: int, sectors: seq<Sector>): (st: Stencil)
    ensures |st| == 3 * |sectors|
    decreases |sectors|
  {
    if |sectors| == 0 then []
    else
      var s := sectors[|sectors| - 1];
      Contributions(v, sectors[..|sectors| - 1]) + [(s.v1, s.d1), (v, s.d2), (s.v3, s.d3)]
  }

  /** For unique keys, `ValueAt` reads the entry. */
  lemma ValueAtEntry(d: Derivative, i: int)
    requires UniqueKeys(d) && 0 <= i < |d|
    ensures ValueAt(d, d[i].0) == d[i].1
  {
    var key := d[i].0;
    var before, after := d[..i], d[i + 1..];
    forall k | 0 <= k < |before|
      ensures before[k].0 != key
    {
      assert before[k] == d[k];
    }
    forall k | 0 <= k < |after|
      ensures after[k].0 != key
    {
      assert after[k] == d[i + 1 + k];
    }
    assert d == before + ([d[i]] + after);
    ValueAtConcat(before, [d[i]] + after, key);
    ValueAtConcat([d[i]], after, key);
    ValueAtMissing(before, key);
    ValueAtMissing(after, key);
    ValueAtOne(d[i]);
    PlusOrigin(d[i].1);
  }

  /** A single entry reads as its value under its own key. */
  lemma ValueAtOne(e: (int, Point))
    ensures ValueAt([e], e.0) == e.1
  {
    assert [e][1..] == [];
    PlusOrigin(e.1);
  }

  /** A key with no entry reads as the origin. */
  lemma {:induction false} ValueAtMissing(d: Derivative, key: int)
    requires forall k :: 0 <= k < |d| ==> d[k].0 != key
    ensures ValueAt(d, key) == Origin()
    decreases |d|
  {
    if |d| > 0 {
      ValueAtMissing(d[1..], key);
      PlusOrigin(Origin());
    }
  }

  lemma {:induction false} ValueAtConcat(a: Derivative, b: Derivative, key: int)
    ensures ValueAt(a + b, key) == Plus(ValueAt(a, key), ValueAt(b, key))
    decreases |a|
  {
    if |a| > 0 {
      assert (a + b)[0] == a[0];
      assert (a + b)[1..] == a[1..] + b;
      ValueAtConcat(a[1..], b, key);
      PlusAssociative(if a[0].0 == key then a[0].1 else Origin(), ValueAt(a[1..], key), ValueAt(b, key));
    } else {
      assert a + b == b;
      PlusOrigin(ValueAt(b, key));
    }
  }

  lemma PlusOrigin(a: Point)
    ensures Plus(a, Origin()) == a && Plus(Origin(), a) == a
  {
  }

  lemma PlusAssociative(a: Point, b: Point, c: Point)
    ensures Plus(a, Plus(b, c)) == Plus(Plus(a, b), c)
  {
  }

  /** Replacing entry `i`'s value by itself plus `g` adds `g` under its key
      and nothing elsewhere. */
  lemma {:induction false} ValueAtUpdate(d: Derivative, i: int, g: Point, key: int)
    requires 0 <= i < |d|
    ensures ValueAt(d[i := (d[i].0, Plus(d[i].1, g))], key)
            == Plus(ValueAt(d, key), if key == d[i].0 then g else Origin())
    decreases |d|
  {
    var d2 := d[i := (d[i].0, Plus(d[i].1, g))];
    if i > 0 {
      assert d2[1..] == d[1..][i - 1 := (d[i].0, Plus(d[i].1, g))];
      ValueAtUpdate(d[1..], i - 1, g, key);
    } else {
      assert d2[1..] == d[1..];
    }
  }

  /** One update adds plus or minus `g` under its key and nothing under
      any other: a missing key starts at plus or minus `g`, a present one
      moves by it. */
  lemma AccumulateValue(d: Derivative, key: int, g: Point, primary: bool, k: int)
    requires UniqueKeys(d)
    ensures ValueAt(Accumulate(d, key, g, primary), k)
            == Plus(ValueAt(d, k), if k == key then Signed(g, primary) else Origin())
  {
    var i := IndexOf(d, key);
    if i >= 0 {
      var s := Signed(g, primary);
      assert (if primary then Plus(d[i].1, g) else Minus(d[i].1, g)) == Plus(d[i].1, s);
      ValueAtUpdate(d, i, s, k);
    } else {
      ValueAtConcat(d, [(key, Signed(g, primary))], k);
    }
  }

  /** One sector adds plus or minus its own three contributions. */
  lemma AddSectorValue(d: Derivative, v: int, s: Sector, primary: bool, k: int)
    requires UniqueKeys(d)
    ensures ValueAt(AddSector(d, v, s, primary), k)
            == Plus(ValueAt(d, k), Signed(ValueAt([(s.v1, s.d1), (v, s.d2), (s.v3, s.d3)], k), primary))
  {
    var d1 := Accumulate(d, s.v1, s.d1, primary);
    var d2 := Accumulate(d1, v, s.d2, primary);
    AccumulateValue(d, s.v1, s.d1, primary, k);
    AccumulateValue(d1, v, s.d2, primary, k);
    AccumulateValue(d2, s.v3, s.d3, primary, k);
    var e1 := if s.v1 == k then s.d1 else Origin();
    var e2 := if v == k then s.d2 else Origin();
    var e3 := if s.v3 == k then s.d3 else Origin();
    SignedPicked(k, s.v1, s.d1, primary);
    SignedPicked(k, v, s.d2, primary);
    SignedPicked(k, s.v3, s.d3, primary);
    ValueAtThree((s.v1, s.d1), (v, s.d2), (s.v3, s.d3), k);
    SignedThree(ValueAt(d, k), e1, e2, e3, primary);
  }

  /** What three entries hold under `k`. */
  lemma ValueAtThree(a: (int, Point), b: (int, Point), c: (int, Point), k: int)
    ensures ValueAt([a, b, c], k)
            == Plus(if a.0 == k then a.1 else Origin(),
                    Plus(if b.0 == k then b.1 else Origin(), Plus(if c.0 == k then c.1 else Origin(), Origin())))
  {
    var three, two, one: Derivative := [a, b, c], [b, c], [c];
    assert three[1..] == two && two[1..] == one && one[1..] == [];
    assert ValueAt(one, k) == Plus(if c.0 == k then c.1 else Origin(), ValueAt([], k));
    assert ValueAt(two, k) == Plus(if b.0 == k then b.1 else Origin(), ValueAt(one, k));
    assert ValueAt(three, k) == Plus(if a.0 == k then a.1 else Origin(), ValueAt(two, k));
  }

  /** Picking a gradient commutes with signing it. */
  lemma SignedPicked(k: int, key: int, g: Point, primary: bool)
    ensures (if k == key then Signed(g, primary) else Origin()) == Signed(if key == k then g else Origin(), primary)
  {
  }

  /** Signing three terms one at a time signs their sum. */
  lemma SignedThree(v: Point, e1: Point, e2: Point, e3: Point, primary: bool)
    ensures Plus(Plus(Plus(v, Signed(e1, primary)), Signed(e2, primary)), Signed(e3, primary))
            == Plus(v, Signed(Plus(e1, Plus(e2, Plus(e3, Origin()))), primary))
  {
  }

  /** Signing two sums one after the other signs their sum. */
  lemma SignedStep(v: Point, a: Point, b: Point, primary: bool)
    ensures Plus(Plus(v, Signed(a, primary)), Signed(b, primary)) == Plus(v, Signed(Plus(a, b), primary))
  {
  }

  /** The loop over a vertex's sectors adds plus or minus everything they
      contribute. */
  lemma {:induction false} SetDerivativeValue(d: Derivative, v: int, sectors: seq<Sector>, primary: bool, k: int)
    requires UniqueKeys(d)
    ensures ValueAt(SetDerivative(d, v, sectors, primary), k)
            == Plus(ValueAt(d, k), Signed(ValueAt(Contributions(v, sectors), k), primary))
    decreases |sectors|
  {
    if |sectors| > 0 {
      var rest, s := sectors[..|sectors| - 1], sectors[|sectors| - 1];
      var three: Stencil := [(s.v1, s.d1), (v, s.d2), (s.v3, s.d3)];
      SetDerivativeValue(d, v, rest, primary, k);
      AddSectorValue(SetDerivative(d, v, rest, primary), v, s, primary, k);
      ValueAtConcat(Contributions(v, rest), three, k);
      SignedStep(ValueAt(d, k), ValueAt(Contributions(v, rest), k), ValueAt(three, k), primary);
    } else {
      assert Contributions(v, sectors) == [];
      PlusOrigin(ValueAt(d, k));
    }
  }

  /** What a pair's dictionary holds under every key: the primary's
      contributions to it minus the secondary's. */
  lemma RowValue(pv: int, sv: int, fan: Fan, k: int)
    ensures ValueAt(Row(pv, sv, fan), k)
            == Minus(ValueAt(Contributions(pv, fan(pv)), k), ValueAt(Contributions(sv, fan(sv)), k))
  {
    SetDerivativeValue([], pv, fan(pv), true, k);
    SetDerivativeValue(SetDerivative([], pv, fan(pv), true), sv, fan(sv), false, k);
    PrimaryMinusSecondary(ValueAt(Contributions(pv, fan(pv)), k), ValueAt(Contributions(sv, fan(sv)), k));
  }

  lemma PrimaryMinusSecondary(a: Point, b: Point)
    ensures Plus(Plus(Origin(), Signed(a, true)), Signed(b, false)) == Minus(a, b)
  {
  }

  /** When primary and secondary coincide, every value the dictionary holds
      is zero. */
  lemma SelfPairZero(v: int, fan: Fan)
    ensures forall i :: 0 <= i < |Row(v, v, fan)| ==> Row(v, v, fan)[i].1 == Origin()
  {
    var d := Row(v, v, fan);
    forall i | 0 <= i < |d|
      ensures d[i].1 == Origin()
    {
      ValueAtEntry(d, i);
      RowValue(v, v, fan, d[i].0);
    }
  }

  /** Swapping primary and secondary negates every value. */
  lemma RowSwap(pv: int, sv: int, fan: Fan, k: int)
    ensures ValueAt(Row(sv, pv, fan), k) == Neg(ValueAt(Row(pv, sv, fan), k))
  {
    RowValue(pv, sv, fan, k);
    RowValue(sv, pv, fan, k);
    MinusSwap(ValueAt(Contributions(pv, fan(pv)), k), ValueAt(Contributions(sv, fan(sv)), k));
  }

  lemma MinusSwap(a: Point, b: Point)
    ensures Minus(b, a) == Neg(Minus(a, b))
  {
  }

  // ------------------------------------------------------------ entries

  /** Only the entries of vertex `c / 3` move coordinate `c`. */
  lemma {:induction false} DirectionalByValue(st: Stencil, c: int)
    ensures Directional(st, c) == Inner(ValueAt(st, c / 3), Unit(c / 3, c))
    decreases |st|
  {
    if |st| > 0 {
      DirectionalByValue(st[1..], c);
      if st[0].0 != c / 3 {
        assert Unit(st[0].0, c) == Origin();
      }
    }
  }

  /** Row `i` of the Jacobian stores, at column `c`, the primary's
      sector gradients minus the secondary's along `c`: the derivative of
      error entry `i` as the sector-angle gradients give it. */
  lemma JacobianEntry(primary: seq<int>, secondary: seq<int>, fan: Fan, n: nat, i: int, c: int)
    requires |secondary| >= |primary| && 0 <= i < |primary|
    ensures EntryAt(Jacobian(primary, secondary, fan, n).value.elems, i, c)
            == Directional(Contributions(primary[i], fan(primary[i])), c)
               - Directional(Contributions(secondary[i], fan(secondary[i])), c)
  {
    var rows := Rows(primary, secondary, fan);
    StackEntry(rows, i, c);
    GroupedEntry(i, Row(primary[i], secondary[i], fan), c);
    RowDirectional(primary[i], secondary[i], fan, c);
  }

  /** A pair's dictionary predicts, along `c`, the primary's sector
      gradients minus the secondary's. */
  lemma RowDirectional(pv: int, sv: int, fan: Fan, c: int)
    ensures Directional(Row(pv, sv, fan), c)
            == Directional(Contributions(pv, fan(pv)), c) - Directional(Contributions(sv, fan(sv)), c)
  {
    var pc, sc := Contributions(pv, fan(pv)), Contributions(sv, fan(sv));
    DirectionalByValue(Row(pv, sv, fan), c);
    DirectionalByValue(pc, c);
    DirectionalByValue(sc, c);
    RowValue(pv, sv, fan, c / 3);
    InnerMinus(ValueAt(pc, c / 3), ValueAt(sc, c / 3), Unit(c / 3, c));
  }

  lemma InnerMinus(a: Point, b: Point, e: Point)
    ensures Inner(Minus(a, b), e) == Inner(a, e) - Inner(b, e)
  {
  }

  // ------------------------------------------------------------- layout

  /** Every key of `d` is a vertex of the mesh. */
  predicate KeysBelow(d: Derivative, n: int)
  {
    forall i :: 0 <= i < |d| ==> 0 <= d[i].0 < n
  }

  /** Every id a vertex's fan names is a vertex. */
  predicate FanBelow(v: int, sectors: seq<Sector>, n: int)
  {
    0 <= v < n && forall k :: 0 <= k < |sectors| ==> 0 <= sectors[k].v1 < n && 0 <= sectors[k].v3 < n
  }

  lemma AccumulateBelow(d: Derivative, key: int, g: Point, primary: bool, n: int)
    requires UniqueKeys(d) && KeysBelow(d, n) && 0 <= key < n
    ensures KeysBelow(Accumulate(d, key, g, primary), n)
  {
  }

  lemma {:induction false} SetDerivativeBelow(d: Derivative, v: int, sectors: seq<Sector>, primary: bool, n: int)
    requires UniqueKeys(d) && KeysBelow(d, n) && FanBelow(v, sectors, n)
    ensures KeysBelow(SetDerivative(d, v, sectors, primary), n)
    decreases |sectors|
  {
    if |sectors| > 0 {
      var rest, s := sectors[..|sectors| - 1], sectors[|sectors| - 1];
      SetDerivativeBelow(d, v, rest, primary, n);
      var d0 := SetDerivative(d, v, rest, primary);
      AccumulateBelow(d0, s.v1, s.d1, primary, n);
      var d1 := Accumulate(d0, s.v1, s.d1, primary);
      AccumulateBelow(d1, v, s.d2, primary, n);
      AccumulateBelow(Accumulate(d1, v, s.d2, primary), s.v3, s.d3, primary, n);
    }
  }

  /** When every fan names only vertices, the block stacks into the solver
      with one column per degree of freedom. */
  lemma BlockFits(primary: seq<int>, secondary: seq<int>, fan: Fan, n: nat)
    requires |secondary| >= |primary|
    requires forall i :: 0 <= i < |primary| ==> FanBelow(primary[i], fan(primary[i]), n)
    requires forall i :: 0 <= i < |primary| ==> FanBelow(secondary[i], fan(secondary[i]), n)
    ensures RigidOrigami.Fits(RigidOrigami.Block(Error(primary, secondary, fan).value,
                                                 Jacobian(primary, secondary, fan, n).value), 3 * n)
  {
    var rows := Rows(primary, secondary, fan);
    forall i | 0 <= i < |rows|
      ensures Inside(rows[i], |rows|, 3 * n)
    {
      RowInside(primary[i], secondary[i], fan, n, i, |rows|);
    }
    StackInside(rows, 3 * n);
  }

  lemma RowInside(pv: int, sv: int, fan: Fan, n: nat, r: int, rows: int)
    requires FanBelow(pv, fan(pv), n) && FanBelow(sv, fan(sv), n) && 0 <= r < rows
    ensures Inside(Grouped(r, Row(pv, sv, fan)), rows, 3 * n)
  {
    SetDerivativeBelow([], pv, fan(pv), true, n);
    SetDerivativeBelow(SetDerivative([], pv, fan(pv), true), sv, fan(sv), false, n);
    GroupedInside(r, Row(pv, sv, fan), n - 1, rows);
  }
}
