/** CalculateCommutativeTransform: two affine maps x -> L1 x + D1 and
    x -> L2 x + D2 of three-space are adjusted by Newton steps until they
    commute, optionally with prescribed determinants of L1 and L2.

    The 24 unknowns are laid out as update() reads its step vector:
    L1[i][j] at 3i+j, L2[i][j] at 9+3i+j, D1[i] at 18+i, D2[i] at 21+i.
    The error has 14 entries: the commutator L1 L2 - L2 L1 (entry 3i+j),
    the translation gap (L1 D2 + D1) - (L2 D1 + D2) (entry 9+i), and the
    two determinant conditions (entries 12 and 13, zero when switched off). */
module CommutativeTransform {
  import opened Common

  /** The unknowns: the linear parts and translations of the two maps. */
  datatype Pair = Pair(l1: seq<seq<real>>, l2: seq<seq<real>>, d1: seq<real>, d2: seq<real>)

  /** The determinant switches and goals given to the constructor. */
  datatype Config = Config(detL1is1: bool, detL2is1: bool, detL1Goal: real, detL2Goal: real)

  predicate Is3(a: seq<seq<real>>)
  {
    |a| == 3 && forall i :: 0 <= i < 3 ==> |a[i]| == 3
  }

  predicate Shaped(s: Pair)
  {
    Is3(s.l1) && Is3(s.l2) && |s.d1| == 3 && |s.d2| == 3
  }

  /** `x` times a product of Kronecker deltas (del) that is 1 exactly when
      `c` holds: the form every summand of the jacobian loops takes. */
  function When(c: bool, x: real): real
  {
    if c then x else 0.0
  }

  /** eps: the Levi-Civita symbol, as the table the class holds. */
  function Eps(i: int, j: int, k: int): (e: real)
    ensures e == 0.0 || e == 1.0 || e == -1.0
  {
    if i == 0 && j == 1 && k == 2 then 1.0
    else if i == 0 && j == 2 && k == 1 then -1.0
    else if i == 1 && j == 0 && k == 2 then -1.0
    else if i == 1 && j == 2 && k == 0 then 1.0
    else if i == 2 && j == 0 && k == 1 then 1.0
    else if i == 2 && j == 1 && k == 0 then -1.0
    else 0.0
  }

  // ------------------------------------------------------------ copy and update

  /** copy of a two-dimensional array: its leading 3 x 3 block; an array
      with fewer rows or columns makes the copy fail. */
  function CopyMatrix(a: seq<seq<real>>): (r: Option<seq<seq<real>>>)
    ensures r.Some? <==> |a| >= 3 && forall i :: 0 <= i < 3 ==> |a[i]| >= 3
    ensures r.Some? ==> Is3(r.value) && forall i, j :: 0 <= i < 3 && 0 <= j < 3 ==> r.value[i][j] == a[i][j]
  {
    if |a| >= 3 && forall i :: 0 <= i < 3 ==> |a[i]| >= 3 then
      var c := seq(3, i requires 0 <= i < 3 => a[i][..3]);
      assert forall i, j :: 0 <= i < 3 && 0 <= j < 3 ==> c[i][j] == a[i][..3][j];
      Some(c)
    else None
  }

  /** copy of a one-dimensional array: its first three entries. */
  function CopyVector(a: seq<real>): (r: Option<seq<real>>)
    ensures r.Some? <==> |a| >= 3
    ensures r.Some? ==> r.value == a[..3]
  {
    if |a| >= 3 then Some(a[..3]) else None
  }

  /** Copying something already 3 x 3 gives it back unchanged. */
  lemma CopyMatrixExact(a: seq<seq<real>>)
    requires Is3(a)
    ensures CopyMatrix(a) == Some(a)
  {
    var c := CopyMatrix(a).value;
    forall i | 0 <= i < 3
      ensures c[i] == a[i]
    {
      assert c[i] == a[i][..3];
      assert a[i][..3] == a[i];
    }
    assert c == a;
  }

  /** The unknowns as one vector of 24, in the layout of the step vector. */
  function Pack(s: Pair): (x: seq<real>)
    requires Shaped(s)
    ensures |x| == 24
  {
    s.l1[0] + s.l1[1] + s.l1[2] + s.l2[0] + s.l2[1] + s.l2[2] + s.d1 + s.d2
  }

  lemma PackAt(s: Pair, i: int, j: int)
    requires Shaped(s) && 0 <= i < 3 && 0 <= j < 3
    ensures Pack(s)[3 * i + j] == s.l1[i][j] && Pack(s)[9 + 3 * i + j] == s.l2[i][j]
    ensures Pack(s)[18 + i] == s.d1[i] && Pack(s)[21 + i] == s.d2[i]
  {
  }

  /** update: the step `diff` is added to each unknown at its place in the
      layout (entries of `diff` past 24 are not read). */
  function Update(s: Pair, diff: seq<real>): (r: Pair)
    requires Shaped(s) && |diff| >= 24
    ensures Shaped(r)
  {
    Pair(seq(3, i requires 0 <= i < 3 => seq(3, j requires 0 <= j < 3 => s.l1[i][j] + diff[3 * i + j])),
         seq(3, i requires 0 <= i < 3 => seq(3, j requires 0 <= j < 3 => s.l2[i][j] + diff[3 * i + j + 9])),
         seq(3, i requires 0 <= i < 3 => s.d1[i] + diff[18 + i]),
         seq(3, i requires 0 <= i < 3 => s.d2[i] + diff[21 + i]))
  }

  lemma UpdateAt(s: Pair, diff: seq<real>, q: int)
    requires Shaped(s) && |diff| >= 24 && 0 <= q < 24
    ensures Pack(Update(s, diff))[q] == Pack(s)[q] + diff[q]
  {
    var r := Update(s, diff);
    if q < 9 {
      PackAt(s, q / 3, q % 3);
      PackAt(r, q / 3, q % 3);
    } else if q < 18 {
      PackAt(s, (q - 9) / 3, (q - 9) % 3);
      PackAt(r, (q - 9) / 3, (q - 9) % 3);
    } else if q < 21 {
      PackAt(s, q - 18, 0);
      PackAt(r, q - 18, 0);
    } else {
      PackAt(s, q - 21, 0);
      PackAt(r, q - 21, 0);
    }
  }

  /** update is vector addition in the packed layout. */
  lemma UpdateIsAddition(s: Pair, diff: seq<real>)
    requires Shaped(s) && |diff| >= 24
    ensures Pack(Update(s, diff)) == Add(Pack(s), diff[..24])
  {
    forall q | 0 <= q < 24
      ensures Pack(Update(s, diff))[q] == Pack(s)[q] + diff[q]
    {
      UpdateAt(s, diff, q);
    }
  }

  // ------------------------------------------------------------ error

  /** Entry (i, j) of the product a b. */
  function Prod3(a: seq<seq<real>>, b: seq<seq<real>>, i: int, j: int): real
    requires Is3(a) && Is3(b) && 0 <= i < 3 && 0 <= j < 3
  {
    a[i][0] * b[0][j] + a[i][1] * b[1][j] + a[i][2] * b[2][j]
  }

  /** Entry i of the product a d. */
  function Apply3(a: seq<seq<real>>, d: seq<real>, i: int): real
    requires Is3(a) && |d| == 3 && 0 <= i < 3
  {
    a[i][0] * d[0] + a[i][1] * d[1] + a[i][2] * d[2]
  }

  function LeviCivitaRow(a: seq<seq<real>>, i: int, j: int): real
    requires Is3(a) && 0 <= i < 3 && 0 <= j < 3
  {
    Eps(i, j, 0) * a[0][i] * a[1][j] * a[2][0]
    + Eps(i, j, 1) * a[0][i] * a[1][j] * a[2][1]
    + Eps(i, j, 2) * a[0][i] * a[1][j] * a[2][2]
  }

  function LeviCivitaBlock(a: seq<seq<real>>, i: int): real
    requires Is3(a) && 0 <= i < 3
  {
    LeviCivitaRow(a, i, 0) + LeviCivitaRow(a, i, 1) + LeviCivitaRow(a, i, 2)
  }

  /** The sum over i, j, k of eps(i, j, k) a[0][i] a[1][j] a[2][k] the error
      accumulates for a determinant condition. */
  function LeviCivita(a: seq<seq<real>>): real
    requires Is3(a)
  {
    LeviCivitaBlock(a, 0) + LeviCivitaBlock(a, 1) + LeviCivitaBlock(a, 2)
  }

  /** The determinant, by the rule of Sarrus (the value DetL1 and DetL2
      report). */
  function Det3(a: seq<seq<real>>): real
    requires Is3(a)
  {
    a[0][0] * a[1][1] * a[2][2] + a[0][1] * a[1][2] * a[2][0] + a[0][2] * a[1][0] * a[2][1]
    - a[0][2] * a[1][1] * a[2][0] - a[0][1] * a[1][0] * a[2][2] - a[0][0] * a[1][2] * a[2][1]
  }

  /** The Levi-Civita sum the error uses is the determinant. */
  lemma LeviCivitaIsDeterminant(a: seq<seq<real>>)
    requires Is3(a)
    ensures LeviCivita(a) == Det3(a)
  {
  }

  /** Entry 3i+j of the error: entry (i, j) of L1 L2 - L2 L1. */
  function CommutatorAt(s: Pair, i: int, j: int): real
    requires Shaped(s) && 0 <= i < 3 && 0 <= j < 3
  {
    Prod3(s.l1, s.l2, i, j) - Prod3(s.l2, s.l1, i, j)
  }

  /** Entry 9+i of the error: entry i of (L1 D2 + D1) - (L2 D1 + D2). */
  function TranslationGapAt(s: Pair, i: int): real
    requires Shaped(s) && 0 <= i < 3
  {
    Apply3(s.l1, s.d2, i) - Apply3(s.l2, s.d1, i) + s.d1[i] - s.d2[i]
  }

  /** Entry 12 or 13: the determinant condition when switched on, else 0.
      The class accumulates the determinant as the Levi-Civita sum, which
      LeviCivitaIsDeterminant shows to be Det3. */
  function DetCondition(on: bool, a: seq<seq<real>>, goal: real): real
    requires Is3(a)
  {
    if on then Det3(a) - goal else 0.0
  }

  function ErrorAt(s: Pair, cfg: Config, r: int): real
    requires Shaped(s) && 0 <= r < 14
  {
    if r < 9 then CommutatorAt(s, r / 3, r % 3)
    else if r < 12 then TranslationGapAt(s, r - 9)
    else if r == 12 then DetCondition(cfg.detL1is1, s.l1, cfg.detL1Goal)
    else DetCondition(cfg.detL2is1, s.l2, cfg.detL2Goal)
  }

  /** error: the 14 residuals of the commuting and determinant conditions. */
  function Error(s: Pair, cfg: Config): (e: seq<real>)
    requires Shaped(s)
    ensures |e| == 14
    ensures forall r :: 0 <= r < 14 ==> e[r] == ErrorAt(s, cfg, r)
  {
    seq(14, r requires 0 <= r < 14 => ErrorAt(s, cfg, r))
  }

  // ------------------------------------------------------------ A1, A2 and commuting

  /** A1 / A2: the 4 x 4 homogeneous matrix of x -> l x + d. */
  function Homogeneous(l: seq<seq<real>>, d: seq<real>): (a: seq<seq<real>>)
    requires Is3(l) && |d| == 3
    ensures IsMat(a, 4, 4)
    ensures forall i, j :: 0 <= i < 3 && 0 <= j < 3 ==> a[i][j] == l[i][j]
    ensures forall i :: 0 <= i < 3 ==> a[i][3] == d[i]
    ensures a[3] == [0.0, 0.0, 0.0, 1.0]
  {
    seq(4, i requires 0 <= i < 4 => seq(4, j requires 0 <= j < 4 =>
      if i < 3 && j < 3 then l[i][j] else if i < 3 then d[i] else if j == 3 then 1.0 else 0.0))
  }

  /** The product of two 4 x 4 matrices. */
  function Compose(a: seq<seq<real>>, b: seq<seq<real>>): (c: seq<seq<real>>)
    requires IsMat(a, 4, 4) && IsMat(b, 4, 4)
    ensures IsMat(c, 4, 4)
    ensures forall i, j :: 0 <= i < 4 && 0 <= j < 4 ==>
              c[i][j] == a[i][0] * b[0][j] + a[i][1] * b[1][j] + a[i][2] * b[2][j] + a[i][3] * b[3][j]
  {
    seq(4, i requires 0 <= i < 4 => seq(4, j requires 0 <= j < 4 =>
      a[i][0] * b[0][j] + a[i][1] * b[1][j] + a[i][2] * b[2][j] + a[i][3] * b[3][j]))
  }

  /** The commuting conditions of the error: every entry before 12 is zero. */
  predicate Balanced(s: Pair, cfg: Config)
    requires Shaped(s)
  {
    forall r :: 0 <= r < 12 ==> Error(s, cfg)[r] == 0.0
  }

  lemma ProductTopLeft(a: seq<seq<real>>, b: seq<seq<real>>, l1: seq<seq<real>>, l2: seq<seq<real>>, i: int, j: int)
    requires IsMat(a, 4, 4) && IsMat(b, 4, 4) && Is3(l1) && Is3(l2) && 0 <= i < 3 && 0 <= j < 3
    requires a[i][0] == l1[i][0] && a[i][1] == l1[i][1] && a[i][2] == l1[i][2]
    requires b[0][j] == l2[0][j] && b[1][j] == l2[1][j] && b[2][j] == l2[2][j] && b[3][j] == 0.0
    ensures Compose(a, b)[i][j] == Prod3(l1, l2, i, j)
  {
    var c := Compose(a, b);
    assert c[i][j] == a[i][0] * b[0][j] + a[i][1] * b[1][j] + a[i][2] * b[2][j] + a[i][3] * b[3][j];
    DropZeroTerm(a[i][0], a[i][1], a[i][2], a[i][3], b[0][j], b[1][j], b[2][j], b[3][j]);
  }

  /** A four-term dot product whose last factor is zero is its first three
      terms. */
  lemma DropZeroTerm(x0: real, x1: real, x2: real, x3: real, y0: real, y1: real, y2: real, y3: real)
    requires y3 == 0.0
    ensures x0 * y0 + x1 * y1 + x2 * y2 + x3 * y3 == x0 * y0 + x1 * y1 + x2 * y2
  {
  }

  lemma ComposeTopLeft(l1: seq<seq<real>>, d1: seq<real>, l2: seq<seq<real>>, d2: seq<real>, i: int, j: int)
    requires Is3(l1) && Is3(l2) && |d1| == 3 && |d2| == 3 && 0 <= i < 3 && 0 <= j < 3
    ensures Compose(Homogeneous(l1, d1), Homogeneous(l2, d2))[i][j] == Prod3(l1, l2, i, j)
  {
    ProductTopLeft(Homogeneous(l1, d1), Homogeneous(l2, d2), l1, l2, i, j);
  }

  lemma ComposeTopRight(l1: seq<seq<real>>, d1: seq<real>, l2: seq<seq<real>>, d2: seq<real>, i: int)
    requires Is3(l1) && Is3(l2) && |d1| == 3 && |d2| == 3 && 0 <= i < 3
    ensures Compose(Homogeneous(l1, d1), Homogeneous(l2, d2))[i][3] == Apply3(l1, d2, i) + d1[i]
  {
    ProductTopRight(Homogeneous(l1, d1), Homogeneous(l2, d2), l1, d1, d2, i);
  }

  lemma ProductTopRight(a: seq<seq<real>>, b: seq<seq<real>>, l1: seq<seq<real>>, d1: seq<real>, d2: seq<real>, i: int)
    requires IsMat(a, 4, 4) && IsMat(b, 4, 4) && Is3(l1) && |d1| == 3 && |d2| == 3 && 0 <= i < 3
    requires a[i][0] == l1[i][0] && a[i][1] == l1[i][1] && a[i][2] == l1[i][2] && a[i][3] == d1[i]
    requires b[0][3] == d2[0] && b[1][3] == d2[1] && b[2][3] == d2[2] && b[3][3] == 1.0
    ensures Compose(a, b)[i][3] == Apply3(l1, d2, i) + d1[i]
  {
  }

  lemma ComposeBottom(l1: seq<seq<real>>, d1: seq<real>, l2: seq<seq<real>>, d2: seq<real>, j: int)
    requires Is3(l1) && Is3(l2) && |d1| == 3 && |d2| == 3 && 0 <= j < 4
    ensures Compose(Homogeneous(l1, d1), Homogeneous(l2, d2))[3][j] == if j == 3 then 1.0 else 0.0
  {
    var a, b := Homogeneous(l1, d1), Homogeneous(l2, d2);
    assert a[3] == [0.0, 0.0, 0.0, 1.0];
    assert b[3][j] == if j == 3 then 1.0 else 0.0;
  }

  lemma ComposeEntries(s: Pair, i: int, j: int)
    requires Shaped(s) && 0 <= i < 3 && 0 <= j < 3
    ensures Compose(Homogeneous(s.l1, s.d1), Homogeneous(s.l2, s.d2))[i][j]
            - Compose(Homogeneous(s.l2, s.d2), Homogeneous(s.l1, s.d1))[i][j] == CommutatorAt(s, i, j)
    ensures Compose(Homogeneous(s.l1, s.d1), Homogeneous(s.l2, s.d2))[i][3]
            - Compose(Homogeneous(s.l2, s.d2), Homogeneous(s.l1, s.d1))[i][3] == TranslationGapAt(s, i)
  {
    ComposeTopLeft(s.l1, s.d1, s.l2, s.d2, i, j);
    ComposeTopLeft(s.l2, s.d2, s.l1, s.d1, i, j);
    ComposeTopRight(s.l1, s.d1, s.l2, s.d2, i);
    ComposeTopRight(s.l2, s.d2, s.l1, s.d1, i);
  }

  /** Two 4 x 4 matrices with equal last rows are equal exactly when the
      twelve differences `e` of their other entries all vanish. */
  lemma EqualIffDifferencesVanish(x: seq<seq<real>>, y: seq<seq<real>>, e: seq<real>)
    requires IsMat(x, 4, 4) && IsMat(y, 4, 4) && |e| >= 12
    requires forall i, j :: 0 <= i < 3 && 0 <= j < 3 ==> x[i][j] - y[i][j] == e[3 * i + j]
    requires forall i :: 0 <= i < 3 ==> x[i][3] - y[i][3] == e[9 + i]
    requires x[3] == y[3]
    ensures x == y <==> forall r :: 0 <= r < 12 ==> e[r] == 0.0
  {
    if forall r :: 0 <= r < 12 ==> e[r] == 0.0 {
      forall i | 0 <= i < 3
        ensures x[i] == y[i]
      {
        assert e[9 + i] == 0.0;
        forall j | 0 <= j < 3
          ensures x[i][j] == y[i][j]
        {
          assert e[3 * i + j] == 0.0;
        }
      }
      assert x == y;
    }
    if x == y {
      forall r | 0 <= r < 12
        ensures e[r] == 0.0
      {
        if r < 9 {
          assert r == 3 * (r / 3) + r % 3;
          assert x[r / 3][r % 3] == y[r / 3][r % 3];
        } else {
          assert x[r - 9][3] == y[r - 9][3];
        }
      }
    }
  }

  /** The two maps commute exactly when the first twelve error entries
      vanish, whatever the determinant settings. */
  lemma CommuteIffBalanced(s: Pair, cfg: Config)
    requires Shaped(s)
    ensures Compose(Homogeneous(s.l1, s.d1), Homogeneous(s.l2, s.d2))
            == Compose(Homogeneous(s.l2, s.d2), Homogeneous(s.l1, s.d1))
            <==> Balanced(s, cfg)
  {
    var x := Compose(Homogeneous(s.l1, s.d1), Homogeneous(s.l2, s.d2));
    var y := Compose(Homogeneous(s.l2, s.d2), Homogeneous(s.l1, s.d1));
    forall i, j | 0 <= i < 3 && 0 <= j < 3
      ensures x[i][j] - y[i][j] == Error(s, cfg)[3 * i + j]
      ensures x[i][3] - y[i][3] == Error(s, cfg)[9 + i]
    {
      ErrorDifferences(s, cfg, i, j);
    }
    BottomRowsAgree(s);
    EqualIffDifferencesVanish(x, y, Error(s, cfg));
  }

  lemma ErrorDifferences(s: Pair, cfg: Config, i: int, j: int)
    requires Shaped(s) && 0 <= i < 3 && 0 <= j < 3
    ensures Compose(Homogeneous(s.l1, s.d1), Homogeneous(s.l2, s.d2))[i][j]
            - Compose(Homogeneous(s.l2, s.d2), Homogeneous(s.l1, s.d1))[i][j] == Error(s, cfg)[3 * i + j]
    ensures Compose(Homogeneous(s.l1, s.d1), Homogeneous(s.l2, s.d2))[i][3]
            - Compose(Homogeneous(s.l2, s.d2), Homogeneous(s.l1, s.d1))[i][3] == Error(s, cfg)[9 + i]
  {
    ComposeEntries(s, i, j);
    ErrorRows(s, cfg, i, j);
  }

  /** Where the commutator and translation entries sit in the error. */
  lemma ErrorRows(s: Pair, cfg: Config, i: int, j: int)
    requires Shaped(s) && 0 <= i < 3 && 0 <= j < 3
    ensures Error(s, cfg)[3 * i + j] == CommutatorAt(s, i, j)
    ensures Error(s, cfg)[9 + i] == TranslationGapAt(s, i)
  {
    var r := 3 * i + j;
    assert r < 9 && r / 3 == i && r % 3 == j;
  }

  lemma BottomRowsAgree(s: Pair)
    requires Shaped(s)
    ensures Compose(Homogeneous(s.l1, s.d1), Homogeneous(s.l2, s.d2))[3]
            == Compose(Homogeneous(s.l2, s.d2), Homogeneous(s.l1, s.d1))[3]
  {
    var x := Compose(Homogeneous(s.l1, s.d1), Homogeneous(s.l2, s.d2));
    var y := Compose(Homogeneous(s.l2, s.d2), Homogeneous(s.l1, s.d1));
    forall j | 0 <= j < 4
      ensures x[3][j] == y[3][j]
    {
      ComposeBottom(s.l1, s.d1, s.l2, s.d2, j);
      ComposeBottom(s.l2, s.d2, s.l1, s.d1, j);
    }
  }

  /** A zero error means: the maps commute, and each determinant that is
      switched on has its goal value. */
  lemma ZeroErrorMeans(s: Pair, cfg: Config)
    requires Shaped(s)
    ensures IsZero(Error(s, cfg)) <==>
              Compose(Homogeneous(s.l1, s.d1), Homogeneous(s.l2, s.d2))
                == Compose(Homogeneous(s.l2, s.d2), Homogeneous(s.l1, s.d1))
              && (cfg.detL1is1 ==> Det3(s.l1) == cfg.detL1Goal)
              && (cfg.detL2is1 ==> Det3(s.l2) == cfg.detL2Goal)
  {
    CommuteIffBalanced(s, cfg);
    LeviCivitaIsDeterminant(s.l1);
    LeviCivitaIsDeterminant(s.l2);
    var e := Error(s, cfg);
    assert e[12] == DetCondition(cfg.detL1is1, s.l1, cfg.detL1Goal);
    assert e[13] == DetCondition(cfg.detL2is1, s.l2, cfg.detL2Goal);
  }

  // ------------------------------------------------------------ jacobian

  /** The summand the innermost (k) loop adds to row 3i+j, column
      3m+n+9p. */
  function CommutatorTerm(s: Pair, i: int, j: int, p: int, m: int, n: int, k: int): real
    requires Shaped(s) && 0 <= i < 3 && 0 <= j < 3 && 0 <= k < 3
  {
    When(p == 0 && i == m && k == n, s.l2[k][j]) + When(p == 1 && k == m && j == n, s.l1[i][k])
    - When(p == 1 && i == m && k == n, s.l1[k][j]) - When(p == 0 && k == m && j == n, s.l2[i][k])
  }

  function CommutatorSlope(s: Pair, i: int, j: int, p: int, m: int, n: int): real
    requires Shaped(s) && 0 <= i < 3 && 0 <= j < 3
  {
    CommutatorTerm(s, i, j, p, m, n, 0) + CommutatorTerm(s, i, j, p, m, n, 1) + CommutatorTerm(s, i, j, p, m, n, 2)
  }

  /** The summand row 9+i, column 3m+n+9p receives once per j. */
  function GapLinearTerm(s: Pair, i: int, j: int, p: int, m: int, n: int): real
    requires Shaped(s) && 0 <= j < 3
  {
    When(p == 0 && i == m && j == n, s.d2[j]) - When(p == 1 && i == m && j == n, s.d1[j])
  }

  function GapLinearSlope(s: Pair, i: int, p: int, m: int, n: int): real
    requires Shaped(s)
  {
    GapLinearTerm(s, i, 0, p, m, n) + GapLinearTerm(s, i, 1, p, m, n) + GapLinearTerm(s, i, 2, p, m, n)
  }

  /** The summand row 9+i, column 18+m+3p receives once per j, as the
      class writes it: the identity term sits inside the j loop, and the
      D2 one is added instead of subtracted. */
  function GapShiftTermAsWritten(s: Pair, i: int, j: int, p: int, m: int): real
    requires Shaped(s) && 0 <= i < 3 && 0 <= j < 3
  {
    When(p == 1 && j == m, s.l1[i][j]) + When(p == 0 && i == m, 1.0)
    - When(p == 0 && j == m, s.l2[i][j]) + When(p == 1 && i == m, 1.0)
  }

  function GapShiftSlopeAsWritten(s: Pair, i: int, p: int, m: int): real
    requires Shaped(s) && 0 <= i < 3
  {
    GapShiftTermAsWritten(s, i, 0, p, m) + GapShiftTermAsWritten(s, i, 1, p, m) + GapShiftTermAsWritten(s, i, 2, p, m)
  }

  /** The corrected summand: only the L1 and L2 parts stay in the j loop. */
  function GapShiftTerm(s: Pair, i: int, j: int, p: int, m: int): real
    requires Shaped(s) && 0 <= i < 3 && 0 <= j < 3
  {
    When(p == 1 && j == m, s.l1[i][j]) - When(p == 0 && j == m, s.l2[i][j])
  }

  /** The corrected slope: the identity parts of D1 (+) and D2 (-) once. */
  function GapShiftSlope(s: Pair, i: int, p: int, m: int): real
    requires Shaped(s) && 0 <= i < 3
  {
    GapShiftTerm(s, i, 0, p, m) + GapShiftTerm(s, i, 1, p, m) + GapShiftTerm(s, i, 2, p, m)
    + When(p == 0 && i == m, 1.0) - When(p == 1 && i == m, 1.0)
  }

  /** The summand the determinant row receives for (i, j, k) at column
      3m+n of its own matrix. */
  function MinorTerm(a: seq<seq<real>>, i: int, j: int, k: int, m: int, n: int): real
    requires Is3(a) && 0 <= i < 3 && 0 <= j < 3 && 0 <= k < 3
  {
    Eps(i, j, k) * (When(m == 0 && i == n, a[1][j] * a[2][k])
                    + When(m == 1 && j == n, a[0][i] * a[2][k])
                    + When(m == 2 && k == n, a[0][i] * a[1][j]))
  }

  function MinorRow(a: seq<seq<real>>, i: int, j: int, m: int, n: int): real
    requires Is3(a) && 0 <= i < 3 && 0 <= j < 3
  {
    MinorTerm(a, i, j, 0, m, n) + MinorTerm(a, i, j, 1, m, n) + MinorTerm(a, i, j, 2, m, n)
  }

  function MinorBlock(a: seq<seq<real>>, i: int, m: int, n: int): real
    requires Is3(a) && 0 <= i < 3
  {
    MinorRow(a, i, 0, m, n) + MinorRow(a, i, 1, m, n) + MinorRow(a, i, 2, m, n)
  }

  /** The sum over i, j, k of the determinant row's summands: the cofactor
      of entry (m, n). */
  function Minor(a: seq<seq<real>>, m: int, n: int): real
    requires Is3(a)
  {
    MinorBlock(a, 0, m, n) + MinorBlock(a, 1, m, n) + MinorBlock(a, 2, m, n)
  }

  /** The cofactor of entry (m, n): the 2 x 2 determinant of the other
      rows and columns, taken cyclically. */
  function Cofactor(a: seq<seq<real>>, m: int, n: int): real
    requires Is3(a) && 0 <= m < 3 && 0 <= n < 3
  {
    var m1, m2, n1, n2 := Cyclic(m, 1), Cyclic(m, 2), Cyclic(n, 1), Cyclic(n, 2);
    a[m1][n1] * a[m2][n2] - a[m1][n2] * a[m2][n1]
  }

  /** (m + k) mod 3, for indices below 3. */
  function Cyclic(m: int, k: int): (r: int)
    requires 0 <= m < 3 && 0 <= k < 3
    ensures 0 <= r < 3 && r == (m + k) % 3
  {
    if m + k >= 3 then m + k - 3 else m + k
  }

  lemma MinorIsCofactorFirstRow(a: seq<seq<real>>, n: int)
    requires Is3(a) && 0 <= n < 3
    ensures Minor(a, 0, n) == Cofactor(a, 0, n)
  {
    if n == 0 { } else if n == 1 { } else { }
  }

  lemma MinorIsCofactorSecondRow(a: seq<seq<real>>, n: int)
    requires Is3(a) && 0 <= n < 3
    ensures Minor(a, 1, n) == Cofactor(a, 1, n)
  {
    if n == 0 { } else if n == 1 { } else { }
  }

  lemma MinorIsCofactorThirdRow(a: seq<seq<real>>, n: int)
    requires Is3(a) && 0 <= n < 3
    ensures Minor(a, 2, n) == Cofactor(a, 2, n)
  {
    if n == 0 { } else if n == 1 { } else { }
  }

  /** The determinant row's loop sum is the cofactor. */
  lemma MinorIsCofactor(a: seq<seq<real>>, m: int, n: int)
    requires Is3(a) && 0 <= m < 3 && 0 <= n < 3
    ensures Minor(a, m, n) == Cofactor(a, m, n)
  {
    if m == 0 {
      MinorIsCofactorFirstRow(a, n);
    } else if m == 1 {
      MinorIsCofactorSecondRow(a, n);
    } else {
      MinorIsCofactorThirdRow(a, n);
    }
  }

  /** Entry (r, c) of the Jacobian, with the translation columns of rows
      9..11 as written (`asWritten`) or corrected. */
  function JacobianAt(s: Pair, cfg: Config, r: int, c: int, asWritten: bool): real
    requires Shaped(s) && 0 <= r < 14 && 0 <= c < 24
  {
    if c < 18 then
      var p, m, n := c / 9, (c % 9) / 3, c % 3;
      if r < 9 then CommutatorSlope(s, r / 3, r % 3, p, m, n)
      else if r < 12 then GapLinearSlope(s, r - 9, p, m, n)
      else if r == 12 then (if cfg.detL1is1 then When(p == 0, Cofactor(s.l1, m, n)) else 0.0)
      else (if cfg.detL2is1 then When(p == 1, Cofactor(s.l2, m, n)) else 0.0)
    else
      var p, m := (c - 18) / 3, (c - 18) % 3;
      if 9 <= r < 12 then
        (if asWritten then GapShiftSlopeAsWritten(s, r - 9, p, m) else GapShiftSlope(s, r - 9, p, m))
      else 0.0
  }

  /** jacobian as the class computes it: 14 rows of 24. */
  function JacobianAsWritten(s: Pair, cfg: Config): (J: seq<seq<real>>)
    requires Shaped(s)
    ensures IsMat(J, 14, 24)
    ensures forall r, c :: 0 <= r < 14 && 0 <= c < 24 ==> J[r][c] == JacobianAt(s, cfg, r, c, true)
  {
    seq(14, r requires 0 <= r < 14 => seq(24, c requires 0 <= c < 24 => JacobianAt(s, cfg, r, c, true)))
  }

  /** jacobian with the translation columns corrected. */
  function Jacobian(s: Pair, cfg: Config): (J: seq<seq<real>>)
    requires Shaped(s)
    ensures IsMat(J, 14, 24)
    ensures forall r, c :: 0 <= r < 14 && 0 <= c < 24 ==> J[r][c] == JacobianAt(s, cfg, r, c, false)
  {
    seq(14, r requires 0 <= r < 14 => seq(24, c requires 0 <= c < 24 => JacobianAt(s, cfg, r, c, false)))
  }

  // ---- exactness: each error entry is affine in each single unknown

  /** The step that moves unknown `c` alone by `t`. */
  function Unit(c: int, t: real): (u: seq<real>)
    ensures |u| == 24
    ensures forall q :: 0 <= q < 24 ==> u[q] == if q == c then t else 0.0
  {
    seq(24, q => if q == c then t else 0.0)
  }

  /** `a` with entry (m, n) moved by `t`. */
  function Moved(a: seq<seq<real>>, m: int, n: int, t: real): (b: seq<seq<real>>)
    requires Is3(a) && 0 <= m < 3 && 0 <= n < 3
    ensures Is3(b)
  {
    a[m := a[m][n := a[m][n] + t]]
  }

  lemma MovedMatrix(a: seq<seq<real>>, b: seq<seq<real>>, m: int, n: int, t: real)
    requires Is3(a) && Is3(b) && 0 <= m < 3 && 0 <= n < 3
    requires forall i, j :: 0 <= i < 3 && 0 <= j < 3 ==> b[i][j] == a[i][j] + (if i == m && j == n then t else 0.0)
    ensures b == Moved(a, m, n, t)
  {
    var c := Moved(a, m, n, t);
    forall i | 0 <= i < 3
      ensures b[i] == c[i]
    {
      assert forall j :: 0 <= j < 3 ==> b[i][j] == c[i][j];
    }
  }

  lemma SameMatrix(a: seq<seq<real>>, b: seq<seq<real>>)
    requires Is3(a) && Is3(b)
    requires forall i, j :: 0 <= i < 3 && 0 <= j < 3 ==> b[i][j] == a[i][j]
    ensures b == a
  {
    forall i | 0 <= i < 3
      ensures b[i] == a[i]
    {
      assert forall j :: 0 <= j < 3 ==> b[i][j] == a[i][j];
    }
  }

  /** Unknown `c` alone moved by `t`: one entry of L1, L2, D1 or D2.
      BumpIsUpdate shows that this is what update does with the step that
      is `t` at `c` and zero elsewhere. */
  function Bump(s: Pair, c: int, t: real): (r: Pair)
    requires Shaped(s) && 0 <= c < 24
    ensures Shaped(r)
  {
    if c < 18 then MovedPair(s, c / 9, (c % 9) / 3, c % 3, t)
    else ShiftedPair(s, (c - 18) / 3, (c - 18) % 3, t)
  }

  /** Moving matrix unknown `c` by `t` through update moves one entry:
      entry ((c % 9) / 3, c % 3) of L1 when c < 9, of L2 otherwise. */
  lemma UpdateMatrixEntry(s: Pair, c: int, t: real)
    requires Shaped(s) && 0 <= c < 18
    ensures Update(s, Unit(c, t)) == MovedPair(s, c / 9, (c % 9) / 3, c % 3, t)
  {
    var p, m, n := c / 9, (c % 9) / 3, c % 3;
    assert c == 9 * p + 3 * m + n;
    var s2 := Update(s, Unit(c, t));
    forall i, j | 0 <= i < 3 && 0 <= j < 3
      ensures s2.l1[i][j] == s.l1[i][j] + (if p == 0 && i == m && j == n then t else 0.0)
      ensures s2.l2[i][j] == s.l2[i][j] + (if p == 1 && i == m && j == n then t else 0.0)
    {
      assert (3 * i + j == c) == (p == 0 && i == m && j == n);
      assert (3 * i + j + 9 == c) == (p == 1 && i == m && j == n);
    }
    if p == 0 {
      MovedMatrix(s.l1, s2.l1, m, n, t);
      SameMatrix(s.l2, s2.l2);
    } else {
      MovedMatrix(s.l2, s2.l2, m, n, t);
      SameMatrix(s.l1, s2.l1);
    }
  }

  /** Moving translation unknown `c` by `t` through update moves entry
      (c - 18) % 3 of D1 when c < 21, of D2 otherwise. */
  lemma UpdateShift(s: Pair, c: int, t: real)
    requires Shaped(s) && 18 <= c < 24
    ensures Update(s, Unit(c, t)) == ShiftedPair(s, (c - 18) / 3, (c - 18) % 3, t)
  {
    var s2 := Update(s, Unit(c, t));
    SameMatrix(s.l1, s2.l1);
    SameMatrix(s.l2, s2.l2);
  }

  /** update with a unit step moves exactly the one unknown. */
  lemma BumpIsUpdate(s: Pair, c: int, t: real)
    requires Shaped(s) && 0 <= c < 24
    ensures Update(s, Unit(c, t)) == Bump(s, c, t)
  {
    if c < 18 {
      UpdateMatrixEntry(s, c, t);
    } else {
      UpdateShift(s, c, t);
    }
  }

  /** The unknowns with entry m of D1 (p = 0) or D2 (p = 1) moved by `t`. */
  function ShiftedPair(s: Pair, p: int, m: int, t: real): (r: Pair)
    requires Shaped(s) && 0 <= m < 3
    ensures Shaped(r) && r.l1 == s.l1 && r.l2 == s.l2
  {
    if p == 0 then s.(d1 := s.d1[m := s.d1[m] + t]) else s.(d2 := s.d2[m := s.d2[m] + t])
  }

  lemma MovedAt(a: seq<seq<real>>, m: int, n: int, t: real, x: int, y: int)
    requires Is3(a) && 0 <= m < 3 && 0 <= n < 3 && 0 <= x < 3 && 0 <= y < 3
    ensures Moved(a, m, n, t)[x][y] == a[x][y] + When(x == m && y == n, t)
  {
  }

  /** The unknowns with matrix entry (m, n) of L1 (p = 0) or L2 (p = 1)
      moved by `t`. */
  function MovedPair(s: Pair, p: int, m: int, n: int, t: real): (r: Pair)
    requires Shaped(s) && 0 <= m < 3 && 0 <= n < 3
    ensures Shaped(r)
  {
    if p == 0 then s.(l1 := Moved(s.l1, m, n, t)) else s.(l2 := Moved(s.l2, m, n, t))
  }

  /** Moving entry (m, n) of the left factor moves product entry (i, j)
      by `t` times entry (n, j) of the right factor, in row m only. */
  lemma ProdMovedLeft(a: seq<seq<real>>, b: seq<seq<real>>, m: int, n: int, t: real, i: int, j: int)
    requires Is3(a) && Is3(b) && 0 <= m < 3 && 0 <= n < 3 && 0 <= i < 3 && 0 <= j < 3
    ensures Prod3(Moved(a, m, n, t), b, i, j) == Prod3(a, b, i, j) + t * When(i == m, b[n][j])
  {
    MovedAt(a, m, n, t, i, 0);
    MovedAt(a, m, n, t, i, 1);
    MovedAt(a, m, n, t, i, 2);
  }

  /** Moving entry (m, n) of the right factor moves product entry (i, j)
      by `t` times entry (i, m) of the left factor, in column n only. */
  lemma ProdMovedRight(a: seq<seq<real>>, b: seq<seq<real>>, m: int, n: int, t: real, i: int, j: int)
    requires Is3(a) && Is3(b) && 0 <= m < 3 && 0 <= n < 3 && 0 <= i < 3 && 0 <= j < 3
    ensures Prod3(b, Moved(a, m, n, t), i, j) == Prod3(b, a, i, j) + t * When(j == n, b[i][m])
  {
    MovedAt(a, m, n, t, 0, j);
    MovedAt(a, m, n, t, 1, j);
    MovedAt(a, m, n, t, 2, j);
  }

  /** The commutator slope in closed form: the k loop leaves one summand
      of each kind. */
  lemma CommutatorSlopeClosed(s: Pair, i: int, j: int, p: int, m: int, n: int)
    requires Shaped(s) && 0 <= p < 2 && 0 <= m < 3 && 0 <= n < 3 && 0 <= i < 3 && 0 <= j < 3
    ensures CommutatorSlope(s, i, j, p, m, n)
            == if p == 0 then When(i == m, s.l2[n][j]) - When(j == n, s.l2[i][m])
               else When(j == n, s.l1[i][m]) - When(i == m, s.l1[n][j])
  {
    if n == 0 { } else if n == 1 { } else { }
  }

  lemma StepDifference(c1: real, c2: real, e1: real, e2: real, z: real, t: real)
    requires z == e1 - e2
    ensures (c1 + t * e1) - (c2 + t * e2) == (c1 - c2) + t * z
  {
  }

  /** The commutator of `a` moved at (m, n) with `b`, entry (i, j): it
      moves by `t` times b[n][j] in row m, less `t` times b[i][m] in
      column n. */
  lemma CommutatorOfMoved(a: seq<seq<real>>, b: seq<seq<real>>, m: int, n: int, t: real, i: int, j: int, z: real)
    requires Is3(a) && Is3(b) && 0 <= m < 3 && 0 <= n < 3 && 0 <= i < 3 && 0 <= j < 3
    requires z == When(i == m, b[n][j]) - When(j == n, b[i][m])
    ensures Prod3(Moved(a, m, n, t), b, i, j) - Prod3(b, Moved(a, m, n, t), i, j)
            == Prod3(a, b, i, j) - Prod3(b, a, i, j) + t * z
  {
    ProdMovedLeft(a, b, m, n, t, i, j);
    ProdMovedRight(a, b, m, n, t, i, j);
    StepDifference(Prod3(a, b, i, j), Prod3(b, a, i, j), When(i == m, b[n][j]), When(j == n, b[i][m]), z, t);
  }

  /** Moving entry (m, n) of L1. */
  lemma CommutatorMovedLeft(s: Pair, p: int, m: int, n: int, t: real, i: int, j: int, z: real)
    requires Shaped(s) && p == 0 && 0 <= m < 3 && 0 <= n < 3 && 0 <= i < 3 && 0 <= j < 3
    requires z == When(i == m, s.l2[n][j]) - When(j == n, s.l2[i][m])
    ensures CommutatorAt(MovedPair(s, p, m, n, t), i, j) == CommutatorAt(s, i, j) + t * z
  {
    CommutatorOfMoved(s.l1, s.l2, m, n, t, i, j, z);
  }

  /** Moving entry (m, n) of L2: the commutator changes sign when the
      factors are exchanged. */
  lemma CommutatorMovedRight(s: Pair, p: int, m: int, n: int, t: real, i: int, j: int, z: real)
    requires Shaped(s) && p == 1 && 0 <= m < 3 && 0 <= n < 3 && 0 <= i < 3 && 0 <= j < 3
    requires z == When(j == n, s.l1[i][m]) - When(i == m, s.l1[n][j])
    ensures CommutatorAt(MovedPair(s, p, m, n, t), i, j) == CommutatorAt(s, i, j) + t * z
  {
    CommutatorOfMoved(s.l2, s.l1, m, n, t, i, j, -z);
    NegatedStep(Prod3(Moved(s.l2, m, n, t), s.l1, i, j) - Prod3(s.l1, Moved(s.l2, m, n, t), i, j),
                Prod3(s.l2, s.l1, i, j) - Prod3(s.l1, s.l2, i, j), z, t);
  }

  lemma NegatedStep(x: real, y: real, z: real, t: real)
    requires x == y + t * -z
    ensures -x == -y + t * z
  {
  }

  lemma CommutatorExact(s: Pair, p: int, m: int, n: int, t: real, i: int, j: int)
    requires Shaped(s) && 0 <= p < 2 && 0 <= m < 3 && 0 <= n < 3 && 0 <= i < 3 && 0 <= j < 3
    ensures CommutatorAt(MovedPair(s, p, m, n, t), i, j) == CommutatorAt(s, i, j) + t * CommutatorSlope(s, i, j, p, m, n)
  {
    CommutatorSlopeClosed(s, i, j, p, m, n);
    if p == 0 {
      CommutatorMovedLeft(s, p, m, n, t, i, j, CommutatorSlope(s, i, j, p, m, n));
    } else {
      CommutatorMovedRight(s, p, m, n, t, i, j, CommutatorSlope(s, i, j, p, m, n));
    }
  }

  lemma GapLinearExact(s: Pair, p: int, m: int, n: int, t: real, i: int)
    requires Shaped(s) && 0 <= p < 2 && 0 <= m < 3 && 0 <= n < 3 && 0 <= i < 3
    ensures TranslationGapAt(MovedPair(s, p, m, n, t), i)
            == TranslationGapAt(s, i) + t * GapLinearSlope(s, i, p, m, n)
  {
  }

  /** Moving entry m of the vector moves entry i of the product by `t`
      times entry (i, m) of the matrix. */
  lemma ApplyShifted(a: seq<seq<real>>, d: seq<real>, m: int, t: real, i: int)
    requires Is3(a) && |d| == 3 && 0 <= m < 3 && 0 <= i < 3
    ensures Apply3(a, d[m := d[m] + t], i) == Apply3(a, d, i) + t * a[i][m]
  {
  }

  /** The corrected translation slope in closed form. */
  lemma GapShiftSlopeClosed(s: Pair, i: int, p: int, m: int)
    requires Shaped(s) && 0 <= p < 2 && 0 <= m < 3 && 0 <= i < 3
    ensures GapShiftSlope(s, i, p, m)
            == if p == 0 then When(i == m, 1.0) - s.l2[i][m] else s.l1[i][m] - When(i == m, 1.0)
  {
  }

  lemma GapShiftExact(s: Pair, p: int, m: int, t: real, i: int)
    requires Shaped(s) && 0 <= p < 2 && 0 <= m < 3 && 0 <= i < 3
    ensures TranslationGapAt(ShiftedPair(s, p, m, t), i)
            == TranslationGapAt(s, i) + t * GapShiftSlope(s, i, p, m)
  {
    GapShiftSlopeClosed(s, i, p, m);
    if p == 0 {
      ApplyShifted(s.l2, s.d1, m, t, i);
    } else {
      ApplyShifted(s.l1, s.d2, m, t, i);
    }
  }

  /** Expansion of the determinant along row m into cyclic cofactors. */
  lemma CofactorExpansion(a: seq<seq<real>>, m: int)
    requires Is3(a) && 0 <= m < 3
    ensures Det3(a) == a[m][0] * Cofactor(a, m, 0) + a[m][1] * Cofactor(a, m, 1) + a[m][2] * Cofactor(a, m, 2)
  {
    if m == 0 { } else if m == 1 { } else { }
  }

  /** A cofactor of row m does not read row m. */
  lemma CofactorOffRow(a: seq<seq<real>>, m: int, n: int, t: real, k: int)
    requires Is3(a) && 0 <= m < 3 && 0 <= n < 3 && 0 <= k < 3
    ensures Cofactor(Moved(a, m, n, t), m, k) == Cofactor(a, m, k)
  {
  }

  lemma MovedRow(a: seq<seq<real>>, m: int, n: int, t: real, k: int)
    requires Is3(a) && 0 <= m < 3 && 0 <= n < 3 && 0 <= k < 3
    ensures Moved(a, m, n, t)[m][k] == a[m][k] + When(k == n, t)
  {
  }

  lemma RowStep(x0: real, x1: real, x2: real, c0: real, c1: real, c2: real, n: int, t: real)
    requires 0 <= n < 3
    ensures (x0 + When(0 == n, t)) * c0 + (x1 + When(1 == n, t)) * c1 + (x2 + When(2 == n, t)) * c2
            == x0 * c0 + x1 * c1 + x2 * c2 + t * (if n == 0 then c0 else if n == 1 then c1 else c2)
  {
  }

  /** The determinant is affine in each entry, with the cofactor as slope. */
  lemma CofactorExact(a: seq<seq<real>>, m: int, n: int, t: real)
    requires Is3(a) && 0 <= m < 3 && 0 <= n < 3
    ensures Det3(Moved(a, m, n, t)) == Det3(a) + t * Cofactor(a, m, n)
  {
    var b := Moved(a, m, n, t);
    CofactorExpansion(a, m);
    CofactorExpansion(b, m);
    CofactorOffRow(a, m, n, t, 0);
    CofactorOffRow(a, m, n, t, 1);
    CofactorOffRow(a, m, n, t, 2);
    MovedRow(a, m, n, t, 0);
    MovedRow(a, m, n, t, 1);
    MovedRow(a, m, n, t, 2);
    RowStep(a[m][0], a[m][1], a[m][2], Cofactor(a, m, 0), Cofactor(a, m, 1), Cofactor(a, m, 2), n, t);
  }

  lemma ExactCommutatorRows(s: Pair, cfg: Config, r: int, c: int, t: real)
    requires Shaped(s) && 0 <= r < 9 && 0 <= c < 18
    ensures ErrorAt(Bump(s, c, t), cfg, r) == ErrorAt(s, cfg, r) + t * JacobianAt(s, cfg, r, c, false)
  {
    CommutatorExact(s, c / 9, (c % 9) / 3, c % 3, t, r / 3, r % 3);
  }

  lemma ExactGapRows(s: Pair, cfg: Config, r: int, c: int, t: real)
    requires Shaped(s) && 9 <= r < 12 && 0 <= c < 18
    ensures ErrorAt(Bump(s, c, t), cfg, r) == ErrorAt(s, cfg, r) + t * JacobianAt(s, cfg, r, c, false)
  {
    GapLinearExact(s, c / 9, (c % 9) / 3, c % 3, t, r - 9);
  }

  lemma ExactDetRows(s: Pair, cfg: Config, r: int, c: int, t: real)
    requires Shaped(s) && 12 <= r < 14 && 0 <= c < 18
    ensures ErrorAt(Bump(s, c, t), cfg, r) == ErrorAt(s, cfg, r) + t * JacobianAt(s, cfg, r, c, false)
  {
    if r == 12 {
      if c / 9 == 0 { CofactorExact(s.l1, (c % 9) / 3, c % 3, t); }
    } else {
      if c / 9 == 1 { CofactorExact(s.l2, (c % 9) / 3, c % 3, t); }
    }
  }

  /** Exactness in the 18 columns of the matrix unknowns. */
  lemma JacobianExactMatrix(s: Pair, cfg: Config, r: int, c: int, t: real)
    requires Shaped(s) && 0 <= r < 14 && 0 <= c < 18
    ensures ErrorAt(Bump(s, c, t), cfg, r) == ErrorAt(s, cfg, r) + t * JacobianAt(s, cfg, r, c, false)
  {
    if r < 9 {
      ExactCommutatorRows(s, cfg, r, c, t);
    } else if r < 12 {
      ExactGapRows(s, cfg, r, c, t);
    } else {
      ExactDetRows(s, cfg, r, c, t);
    }
  }

  lemma ExactShiftGapRows(s: Pair, cfg: Config, r: int, c: int, t: real)
    requires Shaped(s) && 9 <= r < 12 && 18 <= c < 24
    ensures ErrorAt(Bump(s, c, t), cfg, r) == ErrorAt(s, cfg, r) + t * JacobianAt(s, cfg, r, c, false)
  {
    GapShiftExact(s, (c - 18) / 3, (c - 18) % 3, t, r - 9);
  }

  /** The translations enter neither the commutator nor the determinants. */
  lemma ExactShiftOtherRows(s: Pair, cfg: Config, r: int, c: int, t: real)
    requires Shaped(s) && 0 <= r < 14 && !(9 <= r < 12) && 18 <= c < 24
    ensures ErrorAt(Bump(s, c, t), cfg, r) == ErrorAt(s, cfg, r) && JacobianAt(s, cfg, r, c, false) == 0.0
  {
  }

  /** Exactness in the 6 columns of the translations. */
  lemma JacobianExactShift(s: Pair, cfg: Config, r: int, c: int, t: real)
    requires Shaped(s) && 0 <= r < 14 && 18 <= c < 24
    ensures ErrorAt(Bump(s, c, t), cfg, r) == ErrorAt(s, cfg, r) + t * JacobianAt(s, cfg, r, c, false)
  {
    if 9 <= r < 12 {
      ExactShiftGapRows(s, cfg, r, c, t);
    } else {
      ExactShiftOtherRows(s, cfg, r, c, t);
    }
  }

  lemma JacobianExactAt(s: Pair, cfg: Config, r: int, c: int, t: real)
    requires Shaped(s) && 0 <= r < 14 && 0 <= c < 24
    ensures ErrorAt(Bump(s, c, t), cfg, r) == ErrorAt(s, cfg, r) + t * JacobianAt(s, cfg, r, c, false)
  {
    if c < 18 {
      JacobianExactMatrix(s, cfg, r, c, t);
    } else {
      JacobianExactShift(s, cfg, r, c, t);
    }
  }

  lemma JacobianExact(s: Pair, cfg: Config, r: int, c: int, t: real)
    requires Shaped(s) && 0 <= r < 14 && 0 <= c < 24
    ensures Error(Bump(s, c, t), cfg)[r] == Error(s, cfg)[r] + t * Jacobian(s, cfg)[r][c]
  {
    JacobianExactAt(s, cfg, r, c, t);
  }

  /** As written, the column of D1[0] in row 9 carries the identity term
      three times: moving D1[0] by `t` changes error entry 9 by
      t (1 - L2[0][0]), while the Jacobian predicts t (3 - L2[0][0]). */
  lemma JacobianAsWrittenOvercounts(s: Pair, cfg: Config, t: real)
    requires Shaped(s)
    ensures Error(Bump(s, 18, t), cfg)[9] == Error(s, cfg)[9] + t * (1.0 - s.l2[0][0])
    ensures JacobianAsWritten(s, cfg)[9][18] == 3.0 - s.l2[0][0]
    ensures t != 0.0 ==> Error(Bump(s, 18, t), cfg)[9] != Error(s, cfg)[9] + t * JacobianAsWritten(s, cfg)[9][18]
  {
    JacobianExact(s, cfg, 9, 18, t);
  }

  /** As written, the column of D2[0] in row 9 has the identity term with
      the wrong sign as well: it gives L1[0][0] + 3 where the slope is
      L1[0][0] - 1. */
  lemma JacobianAsWrittenSignOfD2(s: Pair, cfg: Config)
    requires Shaped(s)
    ensures JacobianAsWritten(s, cfg)[9][21] == s.l1[0][0] + 3.0
    ensures Jacobian(s, cfg)[9][21] == s.l1[0][0] - 1.0
  {
  }

  /** Away from the translation columns of rows 9..11 the two Jacobians
      agree. */
  lemma JacobianAsWrittenElsewhere(s: Pair, cfg: Config, r: int, c: int)
    requires Shaped(s) && 0 <= r < 14 && 0 <= c < 24
    requires c < 18 || r < 9 || r >= 12
    ensures JacobianAsWritten(s, cfg)[r][c] == Jacobian(s, cfg)[r][c]
  {
  }

  // ------------------------------------------------------------ the solver object

  /** The object: the copied initial values, the settings, and the
      current values, absent until SolveCommutativeEquation has run. */
  datatype Solver = Solver(ini: Pair, cfg: Config, current: Option<Pair>)

  predicate ValidSolver(sv: Solver)
  {
    Shaped(sv.ini) && (sv.current.Some? ==> Shaped(sv.current.value))
  }

  /** The constructor: copies of the four initial arrays; too short an
      array makes it fail. */
  function Create(l1ini: seq<seq<real>>, l2ini: seq<seq<real>>, d1ini: seq<real>, d2ini: seq<real>, cfg: Config): (r: Option<Solver>)
    ensures r.Some? <==> CopyMatrix(l1ini).Some? && CopyMatrix(l2ini).Some? && |d1ini| >= 3 && |d2ini| >= 3
    ensures r.Some? ==> ValidSolver(r.value) && r.value.current == None && r.value.cfg == cfg
    ensures r.Some? ==> r.value.ini.d1 == d1ini[..3] && r.value.ini.d2 == d2ini[..3]
    ensures r.Some? ==> forall i, j :: 0 <= i < 3 && 0 <= j < 3 ==>
              r.value.ini.l1[i][j] == l1ini[i][j] && r.value.ini.l2[i][j] == l2ini[i][j]
  {
    match (CopyMatrix(l1ini), CopyMatrix(l2ini), CopyVector(d1ini), CopyVector(d2ini))
    case (Some(l1), Some(l2), Some(d1), Some(d2)) => Some(Solver(Pair(l1, l2, d1, d2), cfg, None))
    case _ => None
  }

  /** The while loop of SolveCommutativeEquation: while the residual is
      above `tolerance` and iterations remain, take the least-squares step
      `cgnr` returns for J x = -e and update. A step shorter than 24 makes
      update fail. The result is the final values and iteration count.
      The class builds J with jacobian as written (`corrected` false); with
      `corrected` the loop uses the exact derivative instead. */
  function NewtonLoop(s: Pair, cfg: Config, iteration: nat, iterationMax: int, tolerance: real,
                      norm: seq<real> -> real, cgnr: (seq<seq<real>>, seq<real>) -> seq<real>,
                      corrected: bool): (r: Option<(Pair, nat)>)
    requires Shaped(s)
    ensures r.Some? ==> Shaped(r.value.0) && iteration <= r.value.1
    ensures r.Some? && r.value.1 > iteration ==> r.value.1 <= iterationMax
    ensures r.Some? && r.value.1 < iterationMax ==> norm(Error(r.value.0, cfg)) <= tolerance
    decreases iterationMax - iteration
  {
    var err := Error(s, cfg);
    if !(norm(err) > tolerance && iteration < iterationMax) then Some((s, iteration))
    else
      var dif := cgnr(if corrected then Jacobian(s, cfg) else JacobianAsWritten(s, cfg), Scale(-1.0, err));
      if |dif| < 24 then None
      else NewtonLoop(Update(s, dif), cfg, iteration + 1, iterationMax, tolerance, norm, cgnr, corrected)
  }

  /** The two loops differ only in the matrix handed to the solver: with a
      solver that ignores its matrix, they take the same steps. */
  lemma {:induction false} LoopsAgreeWhenMatrixUnused(s: Pair, cfg: Config, iteration: nat, iterationMax: int, tolerance: real,
                                   norm: seq<real> -> real, cgnr: (seq<seq<real>>, seq<real>) -> seq<real>)
    requires Shaped(s)
    requires forall A: seq<seq<real>>, B: seq<seq<real>>, b: seq<real> :: cgnr(A, b) == cgnr(B, b)
    ensures NewtonLoop(s, cfg, iteration, iterationMax, tolerance, norm, cgnr, false)
            == NewtonLoop(s, cfg, iteration, iterationMax, tolerance, norm, cgnr, true)
    decreases iterationMax - iteration
  {
    var err := Error(s, cfg);
    if norm(err) > tolerance && iteration < iterationMax {
      var dif := cgnr(Jacobian(s, cfg), Scale(-1.0, err));
      assert cgnr(JacobianAsWritten(s, cfg), Scale(-1.0, err)) == dif;
      if |dif| >= 24 {
        LoopsAgreeWhenMatrixUnused(Update(s, dif), cfg, iteration + 1, iterationMax, tolerance, norm, cgnr);
      }
    }
  }

  /** SolveCommutativeEquation: the loop always starts from the copied
      initial values, and its result becomes the current values. */
  function Solve(sv: Solver, iterationMax: int, tolerance: real,
                 norm: seq<real> -> real, cgnr: (seq<seq<real>>, seq<real>) -> seq<real>): (r: Option<Solver>)
    requires ValidSolver(sv)
    ensures r.Some? ==> ValidSolver(r.value) && r.value.ini == sv.ini && r.value.cfg == sv.cfg && r.value.current.Some?
    ensures r.Some? && iterationMax <= 0 ==> r.value.current == Some(sv.ini)
  {
    match NewtonLoop(sv.ini, sv.cfg, 0, iterationMax, tolerance, norm, cgnr, false)
    case Some(res) => Some(sv.(current := Some(res.0)))
    case None => None
  }

  /** Solving again gives the same values: the earlier result is not used
      as a starting point. */
  lemma SolveAgainRepeats(sv: Solver, iterationMax: int, tolerance: real,
                          norm: seq<real> -> real, cgnr: (seq<seq<real>>, seq<real>) -> seq<real>)
    requires ValidSolver(sv)
    requires Solve(sv, iterationMax, tolerance, norm, cgnr).Some?
    ensures Solve(Solve(sv, iterationMax, tolerance, norm, cgnr).value, iterationMax, tolerance, norm, cgnr)
            == Solve(sv, iterationMax, tolerance, norm, cgnr)
  {
  }

  /** The A1 and A2 properties: absent before solving. */
  function A1(sv: Solver): (a: Option<seq<seq<real>>>)
    requires ValidSolver(sv)
    ensures a.Some? <==> sv.current.Some?
    ensures a.Some? ==> IsMat(a.value, 4, 4) && a.value[3] == [0.0, 0.0, 0.0, 1.0]
  {
    if sv.current.Some? then Some(Homogeneous(sv.current.value.l1, sv.current.value.d1)) else None
  }

  function A2(sv: Solver): (a: Option<seq<seq<real>>>)
    requires ValidSolver(sv)
    ensures a.Some? <==> sv.current.Some?
    ensures a.Some? ==> IsMat(a.value, 4, 4) && a.value[3] == [0.0, 0.0, 0.0, 1.0]
  {
    if sv.current.Some? then Some(Homogeneous(sv.current.value.l2, sv.current.value.d2)) else None
  }

  /** The Error property: zero exactly when the current maps commute and
      meet the determinant goals switched on. */
  function ErrorOf(sv: Solver): (e: Option<seq<real>>)
    requires ValidSolver(sv)
    ensures e.Some? <==> sv.current.Some?
    ensures e.Some? ==> |e.value| == 14
    ensures e.Some? ==> (IsZero(e.value) <==>
              Compose(A1(sv).value, A2(sv).value) == Compose(A2(sv).value, A1(sv).value)
              && (sv.cfg.detL1is1 ==> Det3(sv.current.value.l1) == sv.cfg.detL1Goal)
              && (sv.cfg.detL2is1 ==> Det3(sv.current.value.l2) == sv.cfg.detL2Goal))
  {
    if sv.current.Some? then
      ZeroErrorMeans(sv.current.value, sv.cfg);
      Some(Error(sv.current.value, sv.cfg))
    else None
  }

  /** The DetL1 and DetL2 properties. */
  function DetL1(sv: Solver): (d: Option<real>)
    requires ValidSolver(sv)
    ensures d.Some? <==> sv.current.Some?
    ensures d.Some? && sv.cfg.detL1is1 ==> ErrorOf(sv).value[12] == d.value - sv.cfg.detL1Goal
  {
    if sv.current.Some? then
      LeviCivitaIsDeterminant(sv.current.value.l1);
      Some(Det3(sv.current.value.l1))
    else None
  }

  function DetL2(sv: Solver): (d: Option<real>)
    requires ValidSolver(sv)
    ensures d.Some? <==> sv.current.Some?
    ensures d.Some? && sv.cfg.detL2is1 ==> ErrorOf(sv).value[13] == d.value - sv.cfg.detL2Goal
  {
    if sv.current.Some? then
      LeviCivitaIsDeterminant(sv.current.value.l2);
      Some(Det3(sv.current.value.l2))
    else None
  }
}
