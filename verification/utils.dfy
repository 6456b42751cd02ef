/** The index helpers of Crane/Core/Utils.cs and its near twin
    Crane/Core/Util.cs: splitting, merging and shifting index pairs, the
    greedy symmetric pairing behind CreateMirrorIndexPairs and
    CreateRotateIndexPairs, CreateTransformIndexPairs, the counting
    helpers, topology-edge lookup, face construction and orientation,
    hole filling, inner vertices and edges, and the small 3x3 transform
    arithmetic.

    Whether one point is the mirror, rotation or transform of another
    (a distance compared with a tolerance) is an input `matches(a, b)`;
    Rhino's adjacency queries are inputs too. */
module Utils {
  import opened Common
  import opened CMesh

  // ------------------------------------------------------------ index pairs

  /** SplitIndexPairs: the first and the second components, in order. */
  function SplitIndexPairs(pairs: seq<IndexPair>): (r: (seq<int>, seq<int>))
    ensures |r.0| == |pairs| && |r.1| == |pairs|
    ensures forall k :: 0 <= k < |pairs| ==> r.0[k] == pairs[k].i && r.1[k] == pairs[k].j
  {
    (seq(|pairs|, k requires 0 <= k < |pairs| => pairs[k].i),
     seq(|pairs|, k requires 0 <= k < |pairs| => pairs[k].j))
  }

  /** MergeIndexPairs: None (the source's null) on a length mismatch,
      otherwise the lists zipped. */
  function MergeIndexPairs(firsts: seq<int>, seconds: seq<int>): (r: Option<seq<IndexPair>>)
    ensures r.None? <==> |firsts| != |seconds|
    ensures r.Some? ==> |r.value| == |firsts|
                        && forall k :: 0 <= k < |firsts| ==> r.value[k] == IndexPair(firsts[k], seconds[k])
  {
    if |firsts| != |seconds| then None
    else Some(seq(|firsts|, k requires 0 <= k < |firsts| => IndexPair(firsts[k], seconds[k])))
  }

  /** Merging what was split gives the pairs back. */
  lemma MergeSplit(pairs: seq<IndexPair>)
    ensures MergeIndexPairs(SplitIndexPairs(pairs).0, SplitIndexPairs(pairs).1) == Some(pairs)
  {
    var m := MergeIndexPairs(SplitIndexPairs(pairs).0, SplitIndexPairs(pairs).1).value;
    assert forall k :: 0 <= k < |pairs| ==> m[k] == pairs[k];
    assert m == pairs;
  }

  /** Splitting what was merged gives the two lists back. */
  lemma SplitMerge(firsts: seq<int>, seconds: seq<int>)
    requires |firsts| == |seconds|
    ensures SplitIndexPairs(MergeIndexPairs(firsts, seconds).value) == (firsts, seconds)
  {
    var s := SplitIndexPairs(MergeIndexPairs(firsts, seconds).value);
    assert s.0 == firsts;
    assert s.1 == seconds;
  }

  /** OffsetIndexPairs: both components shifted by `offset`, order kept. */
  function OffsetIndexPairs(pairs: seq<IndexPair>, offset: int): (r: seq<IndexPair>)
    ensures |r| == |pairs|
    ensures forall k :: 0 <= k < |r| ==> r[k] == IndexPair(pairs[k].i + offset, pairs[k].j + offset)
  {
    seq(|pairs|, k requires 0 <= k < |pairs| => IndexPair(pairs[k].i + offset, pairs[k].j + offset))
  }

  /** Offsets add up, and shifting back undoes a shift. */
  lemma OffsetOffset(pairs: seq<IndexPair>, a: int, b: int)
    ensures OffsetIndexPairs(OffsetIndexPairs(pairs, a), b) == OffsetIndexPairs(pairs, a + b)
    ensures OffsetIndexPairs(OffsetIndexPairs(pairs, a), -a) == pairs
  {
  }

  // --------------------------------------------------------------- counting

  /** How many entries exceed `threshold` in absolute value. */
  function NumberOfUpperThan(d: seq<real>, threshold: real): (n: nat)
    ensures n <= |d|
    ensures n == 0 <==> forall k :: 0 <= k < |d| ==> Abs(d[k]) <= threshold
    ensures n == |d| <==> forall k :: 0 <= k < |d| ==> Abs(d[k]) > threshold
  {
    if |d| == 0 then 0
    else
      var n := NumberOfUpperThan(d[..|d| - 1], threshold);
      assert forall k :: 0 <= k < |d| - 1 ==> d[..|d| - 1][k] == d[k];
      n + (if Abs(d[|d| - 1]) > threshold then 1 else 0)
  }

  /** A higher threshold never counts more. */
  lemma {:induction false} NumberOfUpperThanMonotone(d: seq<real>, lo: real, hi: real)
    requires lo <= hi
    ensures NumberOfUpperThan(d, hi) <= NumberOfUpperThan(d, lo)
  {
    if |d| > 0 {
      NumberOfUpperThanMonotone(d[..|d| - 1], lo, hi);
    }
  }

  const SvdTolerance: real := 0.000001

  /** SvdRank: the singular values above 1e-6 in absolute value, counted
      the way LINQ's `Count` with a predicate counts. */
  function SvdRank(s: seq<real>): (n: nat)
  {
    |CountWhere(s, SvdTolerance)|
  }

  /** The entries that pass the test, in order. */
  function CountWhere(s: seq<real>, threshold: real): (passing: seq<real>)
    ensures forall k :: 0 <= k < |passing| ==> Abs(passing[k]) > threshold
  {
    if |s| == 0 then []
    else if Abs(s[0]) > threshold then [s[0]] + CountWhere(s[1..], threshold)
    else CountWhere(s[1..], threshold)
  }

  /** The two ways of counting agree: SvdRank is NumberOfUpperThan at the
      SVD tolerance. */
  lemma {:induction false} SvdRankCounts(s: seq<real>)
    ensures SvdRank(s) == NumberOfUpperThan(s, SvdTolerance)
  {
    CountWhereCounts(s, SvdTolerance);
  }

  lemma {:induction false} CountWhereCounts(s: seq<real>, threshold: real)
    ensures |CountWhere(s, threshold)| == NumberOfUpperThan(s, threshold)
    decreases |s|
  {
    if |s| > 0 {
      CountWhereCounts(s[1..], threshold);
      CountWhereCounts(s[..|s| - 1], threshold);
      if |s| > 1 {
        CountWhereCounts(s[1..][..|s| - 2], threshold);
        assert s[1..][..|s| - 2] == s[..|s| - 1][1..];
        CountWhereCounts(s[..|s| - 1][1..], threshold);
        assert s[1..][|s| - 2] == s[|s| - 1];
        assert s[..|s| - 1][0] == s[0];
      }
    }
  }

  // ------------------------------------------------------- greedy matching

  /** The position of the last candidate `accept` takes, or -1: the
      foreach of HasMirrored, HasRotated and HasTransformed, which keeps
      overwriting its `id` and never breaks. */
  function LastAccepted(cands: seq<int>, accept: int -> bool): (k: int)
    ensures -1 <= k < |cands|
    ensures k >= 0 ==> accept(cands[k])
    ensures forall m :: k < m < |cands| ==> !accept(cands[m])
  {
    if |cands| == 0 then -1
    else if accept(cands[|cands| - 1]) then |cands| - 1
    else LastAccepted(cands[..|cands| - 1], accept)
  }

  /** The indices 0 .. n-1: CreateIDList. */
  function Range(n: nat): (r: seq<int>)
    ensures |r| == n && forall k :: 0 <= k < n ==> r[k] == k
  {
    seq(n, k => k)
  }

  /** List.Remove: drop the first occurrence of `x`, if any. */
  function RemoveFirst(s: seq<int>, x: int): (r: seq<int>)
    ensures x !in s ==> r == s
    ensures x in s ==> |r| == |s| - 1
    ensures forall y :: y in r ==> y in s
    ensures forall y :: y in s && y != x ==> y in r
  {
    if |s| == 0 then []
    else if s[0] == x then s[1..]
    else [s[0]] + RemoveFirst(s[1..], x)
  }

  predicate Distinct(s: seq<int>)
  {
    forall a, b :: 0 <= a < b < |s| ==> s[a] != s[b]
  }

  lemma RemoveFirstDistinct(s: seq<int>, x: int)
    requires Distinct(s)
    ensures Distinct(RemoveFirst(s, x)) && x !in RemoveFirst(s, x)
  {
    if |s| > 0 && s[0] != x {
      RemoveFirstDistinct(s[1..], x);
      assert s[0] !in s[1..];
    }
  }

  /** Every index the pairs use, two per pair, in order. */
  function Used(pairs: seq<IndexPair>): (u: seq<int>)
    ensures |u| == 2 * |pairs|
  {
    if |pairs| == 0 then []
    else Used(pairs[..|pairs| - 1]) + [pairs[|pairs| - 1].i, pairs[|pairs| - 1].j]
  }

  /** The pairs match, no pair joins an index to itself, and no index is
      in two pairs. */
  predicate GoodPairs(pairs: seq<IndexPair>, n: nat, matches: (int, int) -> bool)
  {
    (forall k :: 0 <= k < |pairs| ==>
       pairs[k].i != pairs[k].j && matches(pairs[k].i, pairs[k].j)
       && 0 <= pairs[k].i < n && 0 <= pairs[k].j < n)
    && Distinct(Used(pairs))
  }

  /** CreateMirrorIndexPairs and CreateRotateIndexPairs. The head of the
      id list is matched with the last other listed id that it matches;
      the partner and then the head leave the list. */
  method GreedyIndexPairs(n: nat, matches: (int, int) -> bool) returns (pairs: seq<IndexPair>)
    ensures GoodPairs(pairs, n, matches)
  {
    var ids := Range(n);
    var i := 0;
    pairs := [];
    while i < n && |ids| > 0
      invariant GreedyInvariant(ids, pairs, n, matches)
    {
      GreedyStepKeeps(ids, pairs, n, matches);
      ids, pairs := GreedyStep(ids, pairs, matches).0, GreedyStep(ids, pairs, matches).1;
      i := i + 1;
    }
  }

  /** What holds between two rounds of GreedyIndexPairs: the remaining ids
      are distinct, in range and unused by the pairs made so far. */
  predicate GreedyInvariant(ids: seq<int>, pairs: seq<IndexPair>, n: nat, matches: (int, int) -> bool)
  {
    Distinct(ids) && (forall x :: x in ids ==> 0 <= x < n)
    && GoodPairs(pairs, n, matches)
    && (forall x :: x in ids ==> x !in Used(pairs))
  }

  /** One round: the head is paired with its last accepted partner, if any;
      the partner and the head leave the list. */
  function GreedyStep(ids: seq<int>, pairs: seq<IndexPair>, matches: (int, int) -> bool): (r: (seq<int>, seq<IndexPair>))
    requires |ids| > 0
    ensures |r.0| < |ids|
  {
    var id := ids[0];
    var k := LastAccepted(ids, s => s != id && matches(id, s));
    if k >= 0 then
      var rest := RemoveFirst(ids, ids[k]);
      (if |rest| > 0 then rest[1..] else [], pairs + [IndexPair(id, ids[k])])
    else (ids[1..], pairs)
  }

  lemma GreedyStepKeeps(ids: seq<int>, pairs: seq<IndexPair>, n: nat, matches: (int, int) -> bool)
    requires |ids| > 0 && GreedyInvariant(ids, pairs, n, matches)
    ensures GreedyInvariant(GreedyStep(ids, pairs, matches).0, GreedyStep(ids, pairs, matches).1, n, matches)
  {
    var id := ids[0];
    var k := LastAccepted(ids, s => s != id && matches(id, s));
    if k >= 0 {
      GreedyPairKeeps(ids, pairs, n, matches, ids[k]);
    } else {
      assert forall x :: x in ids[1..] ==> x in ids;
    }
  }

  /** The round that pairs the head with `partner` keeps the invariant. */
  lemma GreedyPairKeeps(ids: seq<int>, pairs: seq<IndexPair>, n: nat, matches: (int, int) -> bool, partner: int)
    requires |ids| > 0 && GreedyInvariant(ids, pairs, n, matches)
    requires partner in ids && partner != ids[0] && matches(ids[0], partner)
    ensures |RemoveFirst(ids, partner)| > 0
    ensures GreedyInvariant(RemoveFirst(ids, partner)[1..], pairs + [IndexPair(ids[0], partner)], n, matches)
  {
    var id := ids[0];
    assert id in ids && id !in Used(pairs) && partner !in Used(pairs);
    var q := pairs + [IndexPair(id, partner)];
    GoodPairsStep(pairs, IndexPair(id, partner), n, matches);
    RemoveFirstDistinct(ids, partner);
    var rest := RemoveFirst(ids, partner);
    assert rest[0] == id;
    var tail := rest[1..];
    assert Distinct(tail);
    assert forall x :: x in tail ==> x in ids && x != id && x != partner by {
      forall x | x in tail ensures x in ids && x != id && x != partner {
        assert x in rest;
      }
    }
  }

  lemma GoodPairsStep(pairs: seq<IndexPair>, p: IndexPair, n: nat, matches: (int, int) -> bool)
    requires GoodPairs(pairs, n, matches)
    requires p.i != p.j && matches(p.i, p.j) && 0 <= p.i < n && 0 <= p.j < n
    requires p.i !in Used(pairs) && p.j !in Used(pairs)
    ensures GoodPairs(pairs + [p], n, matches)
    ensures Used(pairs + [p]) == Used(pairs) + [p.i, p.j]
  {
    var q := pairs + [p];
    assert q[..|q| - 1] == pairs;
    assert Used(q) == Used(pairs) + [p.i, p.j];
  }

  /** CreateTransformIndexPairs, both overloads: the id list is never
      shortened, every id is examined, and its last match among all ids,
      itself included, makes it fixed (a match with itself) or the head
      of a pair. `m` ids are examined. */
  function TransformPairs(m: nat, n: nat, matches: (int, int) -> bool): (r: (seq<IndexPair>, seq<int>))
    requires m <= n
    ensures forall k :: 0 <= k < |r.0| ==>
              0 <= r.0[k].i < m && r.0[k].j == LastAccepted(Range(n), s => matches(r.0[k].i, s))
              && r.0[k].i != r.0[k].j
    ensures forall k :: 0 <= k < |r.1| ==>
              0 <= r.1[k] < m && LastAccepted(Range(n), s => matches(r.1[k], s)) == r.1[k]
    ensures forall k, l :: 0 <= k < l < |r.0| ==> r.0[k].i < r.0[l].i
  {
    if m == 0 then ([], [])
    else
      var id := m - 1;
      var rest := TransformPairs(m - 1, n, matches);
      var partner := LastAccepted(Range(n), s => matches(id, s));
      if partner < 0 then rest
      else if partner == id then (rest.0, rest.1 + [id])
      else (rest.0 + [IndexPair(id, partner)], rest.1)
  }

  /** Every id with a last match other than itself heads a pair, and every
      id whose last match is itself is fixed. */
  lemma {:induction false} TransformPairsComplete(m: nat, n: nat, matches: (int, int) -> bool, id: int)
    requires m <= n && 0 <= id < m
    ensures var partner := LastAccepted(Range(n), s => matches(id, s));
            (partner >= 0 && partner != id ==> IndexPair(id, partner) in TransformPairs(m, n, matches).0)
            && (partner == id <==> id in TransformPairs(m, n, matches).1)
  {
    if id < m - 1 {
      TransformPairsComplete(m - 1, n, matches, id);
    }
  }

  /** An involution yields both orders: when the last match of `a` is `b`
      and that of `b` is `a`, both (a, b) and (b, a) are listed. */
  lemma TransformPairsInvolution(n: nat, matches: (int, int) -> bool, a: int, b: int)
    requires 0 <= a < n && 0 <= b < n && a != b
    requires LastAccepted(Range(n), s => matches(a, s)) == b
    requires LastAccepted(Range(n), s => matches(b, s)) == a
    ensures IndexPair(a, b) in TransformPairs(n, n, matches).0
    ensures IndexPair(b, a) in TransformPairs(n, n, matches).0
  {
    TransformPairsComplete(n, n, matches, a);
    TransformPairsComplete(n, n, matches, b);
  }

  // ---------------------------------------------------------- edge lookup

  /** LINQ's Intersect: the distinct elements of `a`, in first-occurrence
      order, that also occur in `b`. */
  function Intersect(a: seq<int>, b: seq<int>): (r: seq<int>)
    ensures Distinct(r)
    ensures forall x :: x in r <==> x in a && x in b
  {
    if |a| == 0 then []
    else
      var rest := Intersect(a[1..], b);
      if a[0] in b then
        RemoveFirstDistinct(rest, a[0]);
        [a[0]] + RemoveFirst(rest, a[0])
      else rest
  }

  /** GetTopologyEdgeIndex: the edge both vertices are incident to, when
      there is exactly one such edge; -1 when there is none or more than
      one. */
  function GetTopologyEdgeIndex(edgesOfI: seq<int>, edgesOfJ: seq<int>): (e: int)
    requires forall x :: x in edgesOfI ==> x >= 0
    ensures e != -1 ==>
              (e in edgesOfI && e in edgesOfJ && forall y :: y in edgesOfI && y in edgesOfJ ==> y == e)
    ensures e == -1 ==>
              ((forall x :: x in edgesOfI ==> x !in edgesOfJ)
               || exists x, y :: x in edgesOfI && x in edgesOfJ && y in edgesOfI && y in edgesOfJ && x != y)
  {
    var common := Intersect(edgesOfI, edgesOfJ);
    if |common| == 1 then common[0]
    else if |common| == 0 then
      assert common == [];
      -1
    else
      assert common[0] in common && common[1] in common;
      -1
  }

  // ----------------------------------------------------------------- faces

  /** ToMeshFace: three ids give a triangle, four a quad; any other count
      is the source's exception. */
  function ToMeshFace(ids: seq<int>): (f: Option<Face>)
    ensures f.Some? <==> |ids| == 3 || |ids| == 4
    ensures |ids| == 3 ==> f == Some(Triangle(ids[0], ids[1], ids[2]))
    ensures |ids| == 4 ==> f == Some(Face(ids[0], ids[1], ids[2], ids[3]))
  {
    if |ids| == 3 then Some(Face(ids[0], ids[1], ids[2], ids[2]))
    else if |ids| == 4 then Some(Face(ids[0], ids[1], ids[2], ids[3]))
    else None
  }

  /** Corner `k` of a face, as the indexer `face[k]`. */
  function FaceCorner(f: Face, k: int): int
  {
    if k == 0 then f.a else if k == 1 then f.b else if k == 2 then f.c else f.d
  }

  function FaceSize(f: Face): int
  {
    if IsQuad(f) then 4 else 3
  }

  /** The loop of AlignFaceOrientation: the last local index holding `v`,
      0 when none does. */
  function LocalIndex(f: Face, v: int): (k: int)
    ensures 0 <= k < FaceSize(f)
    ensures k > 0 ==> FaceCorner(f, k) == v
    ensures forall m :: k < m < FaceSize(f) ==> FaceCorner(f, m) != v
  {
    if IsQuad(f) && f.d == v then 3
    else if f.c == v then 2
    else if f.b == v then 1
    else 0
  }

  /** AlignFaceOrientation: the local index of `v2` follows that of `v1`
      cyclically. */
  function AlignFaceOrientation(f: Face, v1: int, v2: int): (r: bool)
    ensures r <==> LocalIndex(f, v2) == (LocalIndex(f, v1) + 1) % FaceSize(f)
  {
    var i1 := LocalIndex(f, v1);
    var i2 := LocalIndex(f, v2);
    if !IsQuad(f) then i2 == i1 + 1 || i2 == i1 - 2
    else i2 == i1 + 1 || i2 == i1 - 3
  }

  /** The corners of a face, in order, with no repeats. */
  predicate ProperFace(f: Face)
  {
    f.a != f.b && f.a != f.c && f.b != f.c && (IsQuad(f) ==> f.a != f.d && f.b != f.d)
  }

  /** The directed edges of a face, following its corner order. */
  function FaceEdges(f: Face): set<(int, int)>
  {
    if IsQuad(f) then QuadEdges(f) else TriangleEdges(f)
  }

  /** On a proper face, AlignFaceOrientation holds exactly for the face's
      own directed edges. */
  lemma AlignFaceOrientationEdges(f: Face, v1: int, v2: int)
    requires ProperFace(f)
    requires v1 in Corners(f) && v2 in Corners(f)
    ensures !IsQuad(f) ==> (AlignFaceOrientation(f, v1, v2) <==> (v1, v2) in TriangleEdges(f))
    ensures IsQuad(f) ==> (AlignFaceOrientation(f, v1, v2) <==> (v1, v2) in QuadEdges(f))
  {
  }

  /** FillMeshPolygonHole: the fan (p0, p_i, p_i+1) for i = 1 .. n-2 and
      the indices the new faces get. The source also groups those faces
      into one Ngon of the mesh; Ngons are not modelled. */
  function FillPolygonHole(poly: seq<int>, faceCount: int): (r: (seq<Face>, seq<int>))
    ensures |r.0| == |r.1| == (if |poly| >= 2 then |poly| - 2 else 0)
    ensures forall k :: 0 <= k < |r.0| ==>
              r.0[k] == Triangle(poly[0], poly[k + 1], poly[k + 2]) && r.1[k] == faceCount + k
  {
    if |poly| < 3 then ([], [])
    else
      (seq(|poly| - 2, k requires 0 <= k < |poly| - 2 => Triangle(poly[0], poly[k + 1], poly[k + 2])),
       seq(|poly| - 2, k requires 0 <= k < |poly| - 2 => faceCount + k))
  }

  /** The fan covers the hole's rim: every edge of the polygon, in its own
      direction, is an edge of one of the new triangles. */
  lemma FillPolygonHoleCoversRim(poly: seq<int>, faceCount: int, k: int)
    requires |poly| >= 3 && 0 <= k < |poly|
    ensures var fan := FillPolygonHole(poly, faceCount).0;
            exists t :: 0 <= t < |fan| && (poly[k], poly[(k + 1) % |poly|]) in TriangleEdges(fan[t])
  {
    var fan := FillPolygonHole(poly, faceCount).0;
    var n := |poly|;
    if k == n - 1 {
      assert (k + 1) % n == 0;
      assert fan[n - 3] == Triangle(poly[0], poly[n - 2], poly[n - 1]);
      assert (poly[k], poly[0]) in TriangleEdges(fan[n - 3]);
    } else {
      assert (k + 1) % n == k + 1;
      var t := if k == 0 then 0 else k - 1;
      assert fan[t] == Triangle(poly[0], poly[t + 1], poly[t + 2]);
      assert (poly[k], poly[k + 1]) in TriangleEdges(fan[t]);
    }
  }

  // ------------------------------------------------ inner vertices and edges

  /** IsInnerEdge: an edge is inner unless it has exactly one face. */
  predicate IsInnerEdge(faceCount: int -> nat, e: int)
  {
    faceCount(e) != 1
  }

  /** IsInnerVertex: no incident edge has exactly one face. */
  function IsInnerVertex(incident: seq<int>, faceCount: int -> nat): (inner: bool)
    ensures inner <==> forall k :: 0 <= k < |incident| ==> IsInnerEdge(faceCount, incident[k])
  {
    if |incident| == 0 then true
    else IsInnerVertex(incident[..|incident| - 1], faceCount) && faceCount(incident[|incident| - 1]) != 1
  }

  /** GetSortedFaceIndices: walking the sorted incident edges, the face
      between each edge and the next, wrapping round for an inner vertex
      and stopping one short for a boundary vertex. */
  function SortedFaceIndices(edges: seq<int>, inner: bool, faceBetween: (int, int) -> int): (r: seq<int>)
    ensures |edges| > 0 ==> |r| == (if inner then |edges| else |edges| - 1)
    ensures |edges| == 0 ==> r == []
    ensures forall k :: 0 <= k < |r| ==> r[k] == faceBetween(edges[k], edges[(k + 1) % |edges|])
  {
    if |edges| == 0 then []
    else
      var count := if inner then |edges| else |edges| - 1;
      seq(count, k requires 0 <= k < count => faceBetween(edges[k], edges[(k + 1) % |edges|]))
  }

  /** A boundary vertex's list is its inner list without the wrap-around
      face. */
  lemma SortedFaceIndicesBoundaryPrefix(edges: seq<int>, faceBetween: (int, int) -> int)
    requires |edges| > 0
    ensures SortedFaceIndices(edges, false, faceBetween) == SortedFaceIndices(edges, true, faceBetween)[..|edges| - 1]
    ensures SortedFaceIndices(edges, true, faceBetween)[|edges| - 1] == faceBetween(edges[|edges| - 1], edges[0])
  {
  }

  // ----------------------------------------------------- 3x3 transform parts

  /** A Rhino transform as a 4x4 matrix. */
  predicate IsTransform(t: Mat)
  {
    IsMat(t, 4, 4)
  }

  /** Multiply: the upper-left 3x3 block scaled; every other entry 0. */
  function Multiply(s: real, t: Mat): (r: Mat)
    requires IsTransform(t)
    ensures IsTransform(r)
    ensures forall i, j :: 0 <= i < 4 && 0 <= j < 4 ==>
              r[i][j] == (if i < 3 && j < 3 then s * t[i][j] else 0.0)
  {
    seq(4, i requires 0 <= i < 4 => seq(4, j requires 0 <= j < 4 => if i < 3 && j < 3 then s * t[i][j] else 0.0))
  }

  /** Addition: the upper-left 3x3 blocks added; every other entry 0. */
  function Addition(t1: Mat, t2: Mat): (r: Mat)
    requires IsTransform(t1) && IsTransform(t2)
    ensures IsTransform(r)
    ensures forall i, j :: 0 <= i < 4 && 0 <= j < 4 ==>
              r[i][j] == (if i < 3 && j < 3 then t1[i][j] + t2[i][j] else 0.0)
  {
    seq(4, i requires 0 <= i < 4 => seq(4, j requires 0 <= j < 4 => if i < 3 && j < 3 then t1[i][j] + t2[i][j] else 0.0))
  }

  /** Addition commutes. */
  lemma AdditionCommutes(t1: Mat, t2: Mat)
    requires IsTransform(t1) && IsTransform(t2)
    ensures Addition(t1, t2) == Addition(t2, t1)
  {
    var l := Addition(t1, t2);
    var r := Addition(t2, t1);
    forall i | 0 <= i < 4 ensures l[i] == r[i] {
      assert forall j :: 0 <= j < 4 ==> l[i][j] == r[i][j];
    }
  }

  /** Scaling distributes over addition. */
  lemma MultiplyDistributes(s: real, t1: Mat, t2: Mat)
    requires IsTransform(t1) && IsTransform(t2)
    ensures Multiply(s, Addition(t1, t2)) == Addition(Multiply(s, t1), Multiply(s, t2))
  {
    var l := Multiply(s, Addition(t1, t2));
    var r := Addition(Multiply(s, t1), Multiply(s, t2));
    forall i | 0 <= i < 4 ensures l[i] == r[i] {
      forall j | 0 <= j < 4 ensures l[i][j] == r[i][j] {
        if i < 3 && j < 3 {
          assert s * (t1[i][j] + t2[i][j]) == s * t1[i][j] + s * t2[i][j];
        }
      }
    }
  }

  /** OutorProduct: entry (i, j) is a_i b_j. */
  function OuterProduct(a: Vec, b: Vec): (m: Mat)
    requires |a| == 3 && |b| == 3
    ensures IsMat(m, 3, 3)
  {
    seq(3, i requires 0 <= i < 3 => Scale(a[i], b))
  }

  /** Entry (i, j) of the outer product is a_i b_j. */
  lemma OuterProductEntries(a: Vec, b: Vec)
    requires |a| == 3 && |b| == 3
    ensures forall i, j :: 0 <= i < 3 && 0 <= j < 3 ==> OuterProduct(a, b)[i][j] == a[i] * b[j]
  {
  }

  /** The outer product acts as `v -> a (b . v)`. */
  lemma OuterProductApplies(a: Vec, b: Vec, v: Vec)
    requires |a| == 3 && |b| == 3 && |v| == 3
    ensures |MatVec(OuterProduct(a, b), v)| == 3
    ensures forall i :: 0 <= i < 3 ==> MatVec(OuterProduct(a, b), v)[i] == a[i] * Dot(b, v)
  {
    forall i | 0 <= i < 3
      ensures MatVec(OuterProduct(a, b), v)[i] == a[i] * Dot(b, v)
    {
      ScaleDot(a[i], b, v);
    }
  }
}
