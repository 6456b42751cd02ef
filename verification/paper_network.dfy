/** The crease-line network of Crane/Components/Inputs/PaperMesh.cs: lines
    of three colours are added as separate segments, their endpoints are
    welded into shared vertices, neighbour lists are built, and the faces
    of the crease pattern are found as short cycles of the network.

    Edge labels are the colours (`color` here): 0 red, 1 blue and 2 the
    boundary (black).
    `DistanceTo` is an input `dist`; the image processing that produces
    the lines is not part of this model. An index out of range throws in
    the source and is None here. */
module PaperNetwork {
  import opened Common

  /** An edge of the network, a three-entry list in the source:
      its endpoints and its colour label. */
  datatype NetEdge = NetEdge(i: int, j: int, color: int)

  datatype Line = Line(from: Point, to: Point)

  /** The fields of a Network. */
  datatype Network = Network(verts: seq<Point>, edges: seq<NetEdge>, weldList: seq<seq<int>>,
                             neighbors: seq<seq<int>>, connectedEdges: seq<seq<int>>,
                             isBoundary: seq<bool>, faceNumRemain: seq<int>)

  const EmptyNetwork: Network := Network([], [], [], [], [], [], [])

  // ------------------------------------------------------- adding lines

  /** Add: both endpoints become new vertices and the edge joins them. */
  function Add(net: Network, l: Line, color: int): (r: Network)
    ensures |r.verts| == |net.verts| + 2 && r.verts[..|net.verts|] == net.verts
    ensures r.verts[|r.verts| - 2] == l.from && r.verts[|r.verts| - 1] == l.to
    ensures r.edges == net.edges + [NetEdge(|r.verts| - 2, |r.verts| - 1, color)]
    ensures r.weldList == net.weldList && r.neighbors == net.neighbors
  {
    net.(verts := net.verts + [l.from, l.to],
         edges := net.edges + [NetEdge(|net.verts|, |net.verts| + 1, color)])
  }

  /** Both endpoints of an edge index a vertex. */
  predicate ValidEdge(e: NetEdge, n: int)
  {
    0 <= e.i < n && 0 <= e.j < n
  }

  predicate ValidEdges(edges: seq<NetEdge>, n: int)
  {
    forall k :: 0 <= k < |edges| ==> ValidEdge(edges[k], n)
  }

  /** clearAll: the vertices, the edges and the weld list emptied; the
      connection lists keep what they held. No line can be extracted from
      the cleared network. */
  function ClearAll(net: Network): (r: Network)
    ensures r.verts == [] && r.edges == [] && r.weldList == []
    ensures r.neighbors == net.neighbors && r.connectedEdges == net.connectedEdges
            && r.isBoundary == net.isBoundary && r.faceNumRemain == net.faceNumRemain
    ensures forall color :: ExtractLines(r, color) == Some([])
  {
    net.(verts := [], edges := [], weldList := [])
  }

  /** The edges carrying `color`, in order. */
  function Colored(edges: seq<NetEdge>, color: int): (r: seq<NetEdge>)
    ensures |r| <= |edges|
    ensures forall e :: e in r <==> e in edges && e.color == color
  {
    if |edges| == 0 then []
    else
      var n := |edges| - 1;
      assert edges == edges[..n] + [edges[n]];
      Colored(edges[..n], color) + (if edges[n].color == color then [edges[n]] else [])
  }

  /** ExtractLines: the segment of every edge carrying `color`, in edge
      order; it fails only when such an edge does not index the vertices. */
  function ExtractLines(net: Network, color: int): (r: Option<seq<Line>>)
    ensures r.Some? <==> forall e :: e in net.edges && e.color == color ==> ValidEdge(e, |net.verts|)
    ensures r.Some? ==> |r.value| == |Colored(net.edges, color)|
    ensures r.Some? ==> forall k :: 0 <= k < |r.value| ==>
              var e := Colored(net.edges, color)[k];
              ValidEdge(e, |net.verts|) && r.value[k] == Line(net.verts[e.i], net.verts[e.j])
  {
    LinesOf(net.verts, net.edges, color)
  }

  function LinesOf(verts: seq<Point>, edges: seq<NetEdge>, color: int): (r: Option<seq<Line>>)
    ensures r.Some? <==> forall e :: e in edges && e.color == color ==> ValidEdge(e, |verts|)
    ensures r.Some? ==> |r.value| == |Colored(edges, color)|
    ensures r.Some? ==> forall k :: 0 <= k < |r.value| ==>
              var e := Colored(edges, color)[k];
              ValidEdge(e, |verts|) && r.value[k] == Line(verts[e.i], verts[e.j])
  {
    if |edges| == 0 then Some([])
    else
      var n := |edges| - 1;
      var e := edges[n];
      assert edges == edges[..n] + [e];
      var prev := LinesOf(verts, edges[..n], color);
      if prev.None? then None
      else if e.color != color then Some(prev.value)
      else if !ValidEdge(e, |verts|) then None
      else Some(prev.value + [Line(verts[e.i], verts[e.j])])
  }

  /** Adding a line makes it the last line of its colour and leaves the
      other colours' lines as they were. */
  lemma AddThenExtract(net: Network, l: Line, color: int, other: int)
    requires ValidEdges(net.edges, |net.verts|)
    requires other != color
    ensures ExtractLines(Add(net, l, color), color) == Some(ExtractLines(net, color).value + [l])
    ensures ExtractLines(Add(net, l, color), other) == ExtractLines(net, other)
  {
    var r := Add(net, l, color);
    var n := |net.edges|;
    assert r.edges[..n] == net.edges;
    LinesOfMoreVerts(net.verts, r.verts, net.edges, color);
    LinesOfMoreVerts(net.verts, r.verts, net.edges, other);
  }

  /** Appending vertices does not change the lines of valid edges. */
  lemma {:induction false} LinesOfMoreVerts(verts: seq<Point>, more: seq<Point>, edges: seq<NetEdge>, color: int)
    requires |verts| <= |more| && more[..|verts|] == verts
    requires ValidEdges(edges, |verts|)
    ensures LinesOf(more, edges, color) == LinesOf(verts, edges, color)
    decreases |edges|
  {
    if |edges| > 0 {
      var n := |edges| - 1;
      assert ValidEdges(edges[..n], |verts|) by {
        assert forall k :: 0 <= k < n ==> edges[..n][k] == edges[k];
      }
      LinesOfMoreVerts(verts, more, edges[..n], color);
      assert ValidEdge(edges[n], |verts|);
      assert more[edges[n].i] == verts[edges[n].i] && more[edges[n].j] == verts[edges[n].j];
    }
  }

  // --------------------------------------------------- connection info

  /** Edges running from `v` to `w`. */
  function Directed(edges: seq<NetEdge>, v: int, w: int): (c: nat)
    ensures c <= |edges|
  {
    if |edges| == 0 then 0
    else
      var n := |edges| - 1;
      Directed(edges[..n], v, w) + (if edges[n].i == v && edges[n].j == w then 1 else 0)
  }

  /** How often `w` is a neighbour of `v`: once for every edge between
      them in either direction (twice for a loop at `v`). */
  function Links(edges: seq<NetEdge>, v: int, w: int): nat
  {
    Directed(edges, v, w) + Directed(edges, w, v)
  }

  /** How many edge ends sit on `v` (a loop counts twice). */
  function Ends(edges: seq<NetEdge>, v: int): (c: nat)
  {
    if |edges| == 0 then 0
    else
      var n := |edges| - 1;
      Ends(edges[..n], v) + (if edges[n].i == v then 1 else 0) + (if edges[n].j == v then 1 else 0)
  }

  /** The neighbour lists generateConnectionInfo rebuilds: every edge adds
      each endpoint to the other's list. */
  function NeighborLists(edges: seq<NetEdge>, n: nat): (r: seq<seq<int>>)
    requires ValidEdges(edges, n)
    ensures |r| == n
    ensures forall v :: 0 <= v < n ==> |r[v]| == Ends(edges, v)
    ensures forall v, w :: 0 <= v < n ==> multiset(r[v])[w] == Links(edges, v, w)
  {
    if |edges| == 0 then seq(n, v => [])
    else
      var m := |edges| - 1;
      var e := edges[m];
      var prev := NeighborLists(edges[..m], n);
      var a := prev[e.i := prev[e.i] + [e.j]];
      var r := a[e.j := a[e.j] + [e.i]];
      assert forall v :: 0 <= v < n ==>
        r[v] == prev[v] + (if v == e.i then [e.j] else []) + (if v == e.j then [e.i] else []);
      NeighborListsStep(edges, n, prev, r);
      r
  }

  lemma NeighborListsStep(edges: seq<NetEdge>, n: nat, prev: seq<seq<int>>, r: seq<seq<int>>)
    requires |edges| > 0 && |prev| == n && |r| == n
    requires var e := edges[|edges| - 1];
             forall v :: 0 <= v < n ==> r[v] == prev[v] + (if v == e.i then [e.j] else []) + (if v == e.j then [e.i] else [])
    requires forall v :: 0 <= v < n ==> |prev[v]| == Ends(edges[..|edges| - 1], v)
    requires forall v, w :: 0 <= v < n ==> multiset(prev[v])[w] == Links(edges[..|edges| - 1], v, w)
    ensures forall v :: 0 <= v < n ==> |r[v]| == Ends(edges, v)
    ensures forall v, w :: 0 <= v < n ==> multiset(r[v])[w] == Links(edges, v, w)
  {
    forall v | 0 <= v < n
      ensures |r[v]| == Ends(edges, v) && forall w :: multiset(r[v])[w] == Links(edges, v, w)
    {
      NeighborAt(edges, v, prev[v], r[v]);
    }
  }

  /** The neighbour list of one vertex after one more edge. */
  lemma NeighborAt(edges: seq<NetEdge>, v: int, before: seq<int>, after: seq<int>)
    requires |edges| > 0
    requires var e := edges[|edges| - 1];
             after == before + (if v == e.i then [e.j] else []) + (if v == e.j then [e.i] else [])
    requires |before| == Ends(edges[..|edges| - 1], v)
    requires forall w :: multiset(before)[w] == Links(edges[..|edges| - 1], v, w)
    ensures |after| == Ends(edges, v)
    ensures forall w :: multiset(after)[w] == Links(edges, v, w)
  {
    NeighborCounts(edges, v, before, after);
  }

  lemma NeighborCounts(edges: seq<NetEdge>, v: int, before: seq<int>, after: seq<int>)
    requires |edges| > 0
    requires var e := edges[|edges| - 1];
             after == before + (if v == e.i then [e.j] else []) + (if v == e.j then [e.i] else [])
    requires forall w :: multiset(before)[w] == Links(edges[..|edges| - 1], v, w)
    ensures forall w :: multiset(after)[w] == Links(edges, v, w)
  {
    var m := |edges| - 1;
    var e := edges[m];
    var extraI: seq<int> := if v == e.i then [e.j] else [];
    var extraJ: seq<int> := if v == e.j then [e.i] else [];
    assert multiset(after) == multiset(before) + multiset(extraI) + multiset(extraJ);
    forall w
      ensures multiset(after)[w] == Links(edges, v, w)
    {
      assert multiset(extraI)[w] == (if v == e.i && w == e.j then 1 else 0);
      assert multiset(extraJ)[w] == (if v == e.j && w == e.i then 1 else 0);
      assert Directed(edges, v, w) == Directed(edges[..m], v, w) + (if e.i == v && e.j == w then 1 else 0);
      assert Directed(edges, w, v) == Directed(edges[..m], w, v) + (if e.i == w && e.j == v then 1 else 0);
    }
  }

  /** The labels of the edges at each vertex, appended to `lists`. */
  function ConnectedLabels(edges: seq<NetEdge>, lists: seq<seq<int>>): (r: seq<seq<int>>)
    requires ValidEdges(edges, |lists|)
    ensures |r| == |lists|
    ensures forall v :: 0 <= v < |r| ==> |r[v]| == |lists[v]| + Ends(edges, v) && r[v][..|lists[v]|] == lists[v]
  {
    if |edges| == 0 then lists
    else
      var m := |edges| - 1;
      var e := edges[m];
      var prev := ConnectedLabels(edges[..m], lists);
      var a := prev[e.i := prev[e.i] + [e.color]];
      var r := a[e.j := a[e.j] + [e.color]];
      assert forall v :: 0 <= v < |r| ==>
        r[v] == prev[v] + (if v == e.i then [e.color] else []) + (if v == e.j then [e.color] else []);
      r
  }

  /** `v` is an endpoint of a boundary (label 2) edge. */
  predicate OnBoundaryEdge(edges: seq<NetEdge>, v: int)
  {
    exists k :: 0 <= k < |edges| && edges[k].color == 2 && (edges[k].i == v || edges[k].j == v)
  }

  /** The boundary flags: set at both ends of every label-2 edge, never
      cleared. */
  function MarkBoundary(edges: seq<NetEdge>, flags: seq<bool>): (r: seq<bool>)
    requires ValidEdges(edges, |flags|)
    ensures |r| == |flags|
    ensures forall v :: 0 <= v < |r| ==> (r[v] <==> flags[v] || OnBoundaryEdge(edges, v))
  {
    if |edges| == 0 then flags
    else
      var m := |edges| - 1;
      var e := edges[m];
      var prev := MarkBoundary(edges[..m], flags);
      assert forall v :: OnBoundaryEdge(edges, v) <==>
        OnBoundaryEdge(edges[..m], v) || (e.color == 2 && (e.i == v || e.j == v));
      if e.color == 2 then prev[e.i := true][e.j := true] else prev
  }

  /** The count of faces a vertex still has to find: two per neighbour,
      one neighbour fewer on the boundary. */
  function FaceNumbers(neighbors: seq<seq<int>>, isBoundary: seq<bool>, n: nat): (r: seq<int>)
    requires n <= |neighbors| && n <= |isBoundary|
    ensures |r| == n
    ensures forall v :: 0 <= v < n ==>
              r[v] == (if isBoundary[v] then 2 * (|neighbors[v]| - 1) else 2 * |neighbors[v]|)
  {
    seq(n, v requires 0 <= v < n => if isBoundary[v] then (|neighbors[v]| - 1) * 2 else |neighbors[v]| * 2)
  }

  /** generateConnectionInfo. The neighbour lists are rebuilt and are
      symmetric; the other three lists are not cleared, so each call
      appends one entry per vertex to them, and the labels and boundary
      flags are written into the first entries. It throws when an edge
      does not index the vertices. */
  function GenerateConnectionInfo(net: Network): (r: Option<Network>)
    ensures r.Some? <==> ValidEdges(net.edges, |net.verts|)
    ensures r.Some? ==> var n := |net.verts|;
              |r.value.neighbors| == n
              && (forall v, w :: 0 <= v < n && 0 <= w < n ==>
                    multiset(r.value.neighbors[v])[w] == multiset(r.value.neighbors[w])[v])
              && (forall v :: 0 <= v < n ==> |r.value.neighbors[v]| == Ends(net.edges, v))
              && |r.value.connectedEdges| == |net.connectedEdges| + n
              && |r.value.isBoundary| == |net.isBoundary| + n
              && |r.value.faceNumRemain| == |net.faceNumRemain| + n
              && r.value.faceNumRemain[..|net.faceNumRemain|] == net.faceNumRemain
    ensures r.Some? ==> r.value.verts == net.verts && r.value.edges == net.edges && r.value.weldList == net.weldList
  {
    var n := |net.verts|;
    if !ValidEdges(net.edges, n) then None
    else
      var neighbors := NeighborLists(net.edges, n);
      var lists := net.connectedEdges + seq(n, v => []);
      var flags := net.isBoundary + seq(n, v => false);
      var connected := ConnectedLabels(net.edges, lists);
      var boundary := MarkBoundary(net.edges, flags);
      Some(net.(neighbors := neighbors, connectedEdges := connected, isBoundary := boundary,
                faceNumRemain := net.faceNumRemain + FaceNumbers(neighbors, boundary, n)))
  }

  /** On a network whose lists are still empty (the state weld leaves
      them in), a vertex is on the boundary exactly when a boundary edge
      ends there, and it still has to find two faces per neighbour, one
      neighbour fewer on the boundary. */
  lemma FreshConnectionInfo(net: Network, v: int)
    requires ValidEdges(net.edges, |net.verts|)
    requires net.connectedEdges == [] && net.isBoundary == [] && net.faceNumRemain == []
    requires 0 <= v < |net.verts|
    ensures var r := GenerateConnectionInfo(net).value;
            (r.isBoundary[v] <==> OnBoundaryEdge(net.edges, v))
            && r.faceNumRemain[v] == 2 * (Ends(net.edges, v) - (if OnBoundaryEdge(net.edges, v) then 1 else 0))
            && |r.connectedEdges[v]| == Ends(net.edges, v)
  {
  }

  /** A second call repeats the face counts of the first after them, and
      the cycle search only reads the first ones. */
  lemma SecondCallRepeats(net: Network)
    requires ValidEdges(net.edges, |net.verts|)
    requires net.connectedEdges == [] && net.isBoundary == [] && net.faceNumRemain == []
    ensures var once := GenerateConnectionInfo(net).value;
            var twice := GenerateConnectionInfo(once).value;
            twice.faceNumRemain == once.faceNumRemain + once.faceNumRemain
            && twice.neighbors == once.neighbors
  {
    var once := GenerateConnectionInfo(net).value;
    var twice := GenerateConnectionInfo(once).value;
    var n := |net.verts|;
    forall v | 0 <= v < n
      ensures twice.isBoundary[v] == once.isBoundary[v]
    {
    }
    assert twice.faceNumRemain[n..] == once.faceNumRemain;
  }

  // ------------------------------------------------------------ welding

  /** List.IndexOf: the first position holding `x`, or -1. */
  function IndexOf<T(==)>(s: seq<T>, x: T): (k: int)
    ensures -1 <= k < |s|
    ensures k == -1 <==> x !in s
    ensures k >= 0 ==> s[k] == x && x !in s[..k]
  {
    if |s| == 0 then -1
    else if s[0] == x then 0
    else
      var k := IndexOf(s[1..], x);
      assert s[1..][..if k < 0 then 0 else k] == s[1..if k < 0 then 1 else k + 1];
      if k == -1 then -1 else k + 1
  }

  /** List.Remove: the first entry equal to `x` is dropped, if any. */
  function RemoveValue<T(==)>(s: seq<T>, x: T): (r: seq<T>)
    ensures multiset(r) == multiset(s) - multiset{x}
    ensures |r| == (if x in s then |s| - 1 else |s|)
  {
    if |s| == 0 then s
    else if s[0] == x then
      assert s == [s[0]] + s[1..];
      s[1..]
    else
      assert s == [s[0]] + s[1..];
      [s[0]] + RemoveValue(s[1..], x)
  }

  /** `foreach (var i in temp) verts.Remove(i)`. */
  function RemoveValues<T(==)>(s: seq<T>, xs: seq<T>): (r: seq<T>)
    ensures |r| <= |s|
    decreases |xs|
  {
    if |xs| == 0 then s else RemoveValues(RemoveValue(s, xs[0]), xs[1..])
  }

  /** Removing values keeps only entries of `s`, and every entry not
      among the removed values. */
  lemma {:induction false} RemoveValuesKeeps<T>(s: seq<T>, xs: seq<T>)
    ensures forall x :: x in RemoveValues(s, xs) ==> x in s
    ensures forall x :: x in s && x !in xs ==> x in RemoveValues(s, xs)
    decreases |xs|
  {
    if |xs| > 0 {
      var s1 := RemoveValue(s, xs[0]);
      RemoveValuesKeeps(s1, xs[1..]);
      forall x | x in s1
        ensures x in s
      {
        assert multiset(s1)[x] > 0;
      }
      forall x | x in s && x !in xs
        ensures x in s1
      {
        assert x != xs[0] && x in xs[1..] ==> x in xs;
        assert multiset(s)[x] > 0;
        assert multiset(s1)[x] == multiset(s)[x];
      }
    }
  }

  /** `v` is closer than `t` to some point of `group`. */
  predicate NearGroup(dist: (Point, Point) -> real, t: real, v: Point, group: seq<Point>)
  {
    exists k :: 0 <= k < |group| && dist(v, group[k]) < t
  }

  /** The foreach of weld and checkWeldTolerance: every remaining point
      close to the group as it has grown so far joins it, in order. */
  function Gather(dist: (Point, Point) -> real, t: real, group: seq<Point>, others: seq<Point>): (r: seq<Point>)
    ensures |r| >= |group| && r[..|group|] == group
    ensures forall x :: x in r ==> x in group || x in others
    decreases |others|
  {
    if |others| == 0 then group
    else
      var v := others[0];
      assert forall x :: x in others ==> x == v || x in others[1..];
      assert forall x :: x in others[1..] ==> x in others;
      Gather(dist, t, if NearGroup(dist, t, v, group) then group + [v] else group, others[1..])
  }

  /** The groups of points weld and checkWeldTolerance form, as the source
      forms them: the first remaining point starts a group, the group
      gathers, and its points are removed from the remaining ones by
      value. */
  function ValueGroups(dist: (Point, Point) -> real, t: real, verts: seq<Point>): (r: seq<seq<Point>>)
    ensures |r| <= |verts|
    ensures forall k :: 0 <= k < |r| ==> |r[k]| >= 1
    decreases |verts|
  {
    if |verts| == 0 then []
    else
      var group := Gather(dist, t, [verts[0]], verts[1..]);
      assert |group| >= 1;
      var rest := RemoveValues(verts[1..], group);
      assert |rest| < |verts|;
      var tail := ValueGroups(dist, t, rest);
      ConsNonEmpty(group, tail);
      [group] + tail
  }

  /** The groups partition the points by value in the weak sense the
      source needs: every grouped point is a vertex, and every vertex
      lands in some group. */
  lemma {:induction false} ValueGroupsCover(dist: (Point, Point) -> real, t: real, verts: seq<Point>)
    ensures var r := ValueGroups(dist, t, verts);
            (forall k, m :: 0 <= k < |r| && 0 <= m < |r[k]| ==> r[k][m] in verts)
            && forall p :: p in verts ==> exists k :: 0 <= k < |r| && p in r[k]
    decreases |verts|
  {
    if |verts| > 0 {
      var group := Gather(dist, t, [verts[0]], verts[1..]);
      var rest := RemoveValues(verts[1..], group);
      RemoveValuesKeeps(verts[1..], group);
      ValueGroupsCover(dist, t, rest);
      var tail := ValueGroups(dist, t, rest);
      var r := [group] + tail;
      assert ValueGroups(dist, t, verts) == r;
      assert forall x :: x in verts[1..] ==> x in verts;
      forall k, m | 0 <= k < |r| && 0 <= m < |r[k]|
        ensures r[k][m] in verts
      {
        if k > 0 {
          assert r[k] == tail[k - 1];
        } else {
          assert r[k][m] in group;
        }
      }
      forall p | p in verts
        ensures exists k :: 0 <= k < |r| && p in r[k]
      {
        assert group[..1] == [verts[0]] && group[0] == verts[0];
        if p in group {
          assert r[0] == group;
        } else {
          assert p != verts[0] && p in verts[1..];
          var k :| 0 <= k < |tail| && p in tail[k];
          assert r[k + 1] == tail[k];
        }
      }
    }
  }

  /** Putting a non-empty row before non-empty rows leaves no row empty. */
  lemma ConsNonEmpty<T>(head: seq<T>, tail: seq<seq<T>>)
    requires |head| >= 1 && forall k :: 0 <= k < |tail| ==> |tail[k]| >= 1
    ensures forall k :: 0 <= k < |[head] + tail| ==> |([head] + tail)[k]| >= 1
  {
    forall k | 0 <= k < |[head] + tail|
      ensures |([head] + tail)[k]| >= 1
    {
      if k > 0 {
        assert ([head] + tail)[k] == tail[k - 1];
      }
    }
  }

  /** checkWeldTolerance: every group has found a partner. */
  predicate CheckWeldTolerance(dist: (Point, Point) -> real, t: real, verts: seq<Point>)
  {
    var groups := ValueGroups(dist, t, verts);
    forall k :: 0 <= k < |groups| ==> |groups[k]| >= 2
  }

  /** SearchWeldToleranceBinary, over the check it searches with: the
      interval is halved towards the smallest passing tolerance, and when
      the upper end itself fails it is lowered by a fifth. The recursion
      ends because `iteration` grows by one per call. Started from an
      upper end that passes, the search keeps an upper end that passes, so
      it returns a passing tolerance between the two ends. */
  function BinarySearchTolerance(passes: real -> bool, left: real, right: real, iteration: int, iterationMax: int): (r: real)
    ensures left <= right && passes(right) ==> passes(r) && left <= r <= right
    decreases iterationMax - iteration + 1
  {
    var center := (left + right) / 2.0;
    var c := passes(center);
    if iteration > iterationMax then (if c then center else right)
    else if !passes(right) then BinarySearchTolerance(passes, left, right * 0.8, iteration + 1, iterationMax)
    else if c then BinarySearchTolerance(passes, left, center, iteration + 1, iterationMax)
    else BinarySearchTolerance(passes, center, right, iteration + 1, iterationMax)
  }

  /** The weld tolerance search returns a tolerance that passes
      checkWeldTolerance whenever its upper end does. */
  function SearchWeldTolerance(dist: (Point, Point) -> real, verts: seq<Point>, left: real, right: real,
                               iteration: int, iterationMax: int): (r: real)
    ensures left <= right && CheckWeldTolerance(dist, right, verts) ==> CheckWeldTolerance(dist, r, verts) && left <= r <= right
  {
    var passes := t => CheckWeldTolerance(dist, t, verts);
    assert passes(right) == CheckWeldTolerance(dist, right, verts);
    var r := BinarySearchTolerance(passes, left, right, iteration, iterationMax);
    assert passes(r) == CheckWeldTolerance(dist, r, verts);
    r
  }

  function SumPoints(ps: seq<Point>): Point
  {
    if |ps| == 0 then Point(0.0, 0.0, 0.0)
    else
      var s := SumPoints(ps[..|ps| - 1]);
      var p := ps[|ps| - 1];
      Point(s.x + p.x, s.y + p.y, s.z + p.z)
  }

  /** The welded vertex: the mean of its group. */
  function Centroid(ps: seq<Point>): (c: Point)
    requires |ps| > 0
    ensures |ps| == 1 ==> c == ps[0]
  {
    assert |ps| == 1 ==> ps[..|ps| - 1] == [] && SumPoints(ps) == Point(0.0 + ps[0].x, 0.0 + ps[0].y, 0.0 + ps[0].z);
    var s := SumPoints(ps);
    var n := |ps| as real;
    Point(s.x / n, s.y / n, s.z / n)
  }

  /** One pass of weld's edge update for one endpoint: each listed
      member is replaced by the group's index, in order. */
  function ReplaceMembers(x: int, head: int, members: seq<int>): (r: int)
    ensures r == (if x in members then head else x)
    decreases |members|
  {
    if |members| == 0 then x
    else
      assert forall y :: y in members <==> y == members[0] || y in members[1..];
      ReplaceMembers(if x == members[0] then head else x, head, members[1..])
  }

  /** What weld's edge update makes of one endpoint: the weld list is
      walked in order and each entry after the first is replaced by the
      first. The source loops over the edges inside, but every endpoint is
      rewritten on its own, so this is the same. */
  function RemapValue(x: int, weldList: seq<seq<int>>): int
    decreases |weldList|
  {
    if |weldList| == 0 then x
    else
      var ind := weldList[0];
      RemapValue(if |ind| == 0 then x else ReplaceMembers(x, ind[0], ind[1..]), weldList[1..])
  }

  function RemapEdges(edges: seq<NetEdge>, weldList: seq<seq<int>>): (r: seq<NetEdge>)
    ensures |r| == |edges|
    ensures forall k :: 0 <= k < |r| ==>
              r[k] == NetEdge(RemapValue(edges[k].i, weldList), RemapValue(edges[k].j, weldList), edges[k].color)
  {
    seq(|edges|, k requires 0 <= k < |edges| =>
      NetEdge(RemapValue(edges[k].i, weldList), RemapValue(edges[k].j, weldList), edges[k].color))
  }

  /** The first position of each point of `g` among `prev`. */
  function PositionsOf(prev: seq<Point>, g: seq<Point>): (r: seq<int>)
    ensures |r| == |g| && forall i :: 0 <= i < |g| ==> r[i] == IndexOf(prev, g[i])
  {
    if |g| == 0 then [] else [IndexOf(prev, g[0])] + PositionsOf(prev, g[1..])
  }

  /** The weld list entries as the source records them: the group's
      index, then the first position of each of its points among the
      vertices before the weld. */
  function ValueWeldList(prev: seq<Point>, groups: seq<seq<Point>>, c: int): (r: seq<seq<int>>)
    ensures |r| == |groups|
    ensures forall k :: 0 <= k < |r| ==> r[k] == [c + k] + PositionsOf(prev, groups[k])
  {
    if |groups| == 0 then []
    else
      [[c] + PositionsOf(prev, groups[0])] + ValueWeldList(prev, groups[1..], c + 1)
  }

  /** One welded vertex per group. */
  function Centroids(groups: seq<seq<Point>>): (r: seq<Point>)
    requires forall k :: 0 <= k < |groups| ==> |groups[k]| >= 1
    ensures |r| == |groups| && forall k :: 0 <= k < |groups| ==> r[k] == Centroid(groups[k])
  {
    seq(|groups|, k requires 0 <= k < |groups| => Centroid(groups[k]))
  }

  /** weld as written: groups are formed and looked up by point value.
      Each new vertex is the centroid of one group, and the weld list
      keeps its old entries and gains one per group, starting with the
      group's index. */
  function WeldAsWritten(net: Network, dist: (Point, Point) -> real, t: real): (r: Option<Network>)
    ensures var groups := ValueGroups(dist, t, net.verts);
            r.Some? ==> |r.value.verts| == |groups| <= |net.verts|
                        && (forall k :: 0 <= k < |groups| ==> r.value.verts[k] == Centroid(groups[k]))
                        && |r.value.weldList| == |net.weldList| + |groups|
                        && r.value.weldList[..|net.weldList|] == net.weldList
                        && (forall k :: |net.weldList| <= k < |r.value.weldList| ==> |r.value.weldList[k]| >= 1 && r.value.weldList[k][0] == k - |net.weldList|)
  {
    var groups := ValueGroups(dist, t, net.verts);
    var added := ValueWeldList(net.verts, groups, 0);
    var weldList := net.weldList + added;
    var welded := net.(verts := Centroids(groups), edges := RemapEdges(net.edges, weldList), weldList := weldList);
    var r := GenerateConnectionInfo(welded);
    var vs := Centroids(groups);
    assert forall k :: 0 <= k < |groups| ==> vs[k] == Centroid(groups[k]);
    assert r.Some? ==> r.value.verts == vs && r.value.weldList == weldList;
    WeldListExtends(net.weldList, added);
    r
  }

  /** Appending entries that start with their own index keeps the old
      list as a prefix. */
  lemma WeldListExtends(before: seq<seq<int>>, added: seq<seq<int>>)
    requires forall k :: 0 <= k < |added| ==> |added[k]| >= 1 && added[k][0] == k
    ensures var w := before + added;
            w[..|before|] == before && forall k :: |before| <= k < |w| ==> |w[k]| >= 1 && w[k][0] == k - |before|
  {
    var w := before + added;
    forall k | |before| <= k < |w|
      ensures |w[k]| >= 1 && w[k][0] == k - |before|
    {
      assert w[k] == added[k - |before|];
    }
  }

  /** A vertex at the same position as an earlier one is never listed in
      the weld list weld records, since IndexOf finds the earlier copy, so
      the edge update leaves its index as it was, whatever group its
      position joined. */
  lemma WeldAsWrittenKeepsLaterCopy(verts: seq<Point>, dist: (Point, Point) -> real, t: real, i: int, j: int)
    requires 0 <= j < i < |verts| && verts[j] == verts[i]
    ensures RemapValue(i, ValueWeldList(verts, ValueGroups(dist, t, verts), 0)) == i
  {
    var w := ValueWeldList(verts, ValueGroups(dist, t, verts), 0);
    forall k | 0 <= k < |w| && |w[k]| > 0
      ensures i !in w[k][1..]
    {
      var g := ValueGroups(dist, t, verts)[k];
      assert w[k][1..] == PositionsOf(verts, g);
      forall m | 0 <= m < |g|
        ensures IndexOf(verts, g[m]) != i
      {
        assert verts[..i][j] == verts[j];
      }
    }
    RemapUnlisted(i, w);
  }

  lemma ValueGroupsOfCopies(dist: (Point, Point) -> real, t: real, p: Point)
    requires dist(p, p) < t
    ensures ValueGroups(dist, t, [p, p]) == [[p, p]]
  {
    assert NearGroup(dist, t, p, [p]) by {
      assert dist(p, [p][0]) < t;
    }
    assert [p, p][1..] == [p] && [p][1..] == [];
    assert [p] + [p] == [p, p];
    assert Gather(dist, t, [p, p], []) == [p, p];
    assert Gather(dist, t, [p], [p]) == [p, p];
    assert RemoveValue([p], p) == [];
    assert RemoveValues([], [p]) == [];
    assert RemoveValues([p], [p, p]) == [];
    assert ValueGroups(dist, t, []) == [];
  }

  /** Two vertices at one position joined by an edge: weld as written
      leaves the edge pointing at a vertex that no longer exists, and the
      connection info it rebuilds fails; the corrected weld succeeds. */
  lemma WeldAsWrittenFailsOnCopies(dist: (Point, Point) -> real, t: real, p: Point)
    requires dist(p, p) < t
    ensures var net := EmptyNetwork.(verts := [p, p], edges := [NetEdge(0, 1, 0)]);
            WeldAsWritten(net, dist, t).None? && WeldCorrected(net, dist, t).Some?
  {
    var net := EmptyNetwork.(verts := [p, p], edges := [NetEdge(0, 1, 0)]);
    ValueGroupsOfCopies(dist, t, p);
    WeldAsWrittenKeepsLaterCopy([p, p], dist, t, 1, 0);
    var w := ValueWeldList([p, p], [[p, p]], 0);
    assert net.weldList + w == w;
    assert RemapEdges(net.edges, w)[0].j == 1;
    assert !ValidEdges(RemapEdges(net.edges, w), 1);
    assert ValidEdges(net.edges, 2);
  }

  // ---- weld, grouping by index

  /** `verts[v]` is closer than `t` to a vertex of `group`. */
  predicate NearIndexGroup(dist: (Point, Point) -> real, t: real, verts: seq<Point>, v: int, group: seq<int>)
    requires 0 <= v < |verts| && Indices(group, |verts|)
  {
    exists k :: 0 <= k < |group| && dist(verts[v], verts[group[k]]) < t
  }

  predicate Indices(s: seq<int>, n: int)
  {
    forall k :: 0 <= k < |s| ==> 0 <= s[k] < n
  }

  /** Gather over vertex indices. */
  function GatherIndices(dist: (Point, Point) -> real, t: real, verts: seq<Point>, group: seq<int>, others: seq<int>): (r: seq<int>)
    requires Indices(group, |verts|) && Indices(others, |verts|)
    ensures |r| >= |group| && r[..|group|] == group
    ensures forall x :: x in r ==> x in group || x in others
    decreases |others|
  {
    if |others| == 0 then group
    else
      var v := others[0];
      var next := if NearIndexGroup(dist, t, verts, v, group) then group + [v] else group;
      assert forall x :: x in others ==> x == v || x in others[1..];
      GatherIndices(dist, t, verts, next, others[1..])
  }

  /** The entries of `s` not in `group`, in order. */
  function Without(s: seq<int>, group: seq<int>): (r: seq<int>)
    ensures |r| <= |s|
    ensures forall x :: x in r <==> x in s && x !in group
  {
    if |s| == 0 then []
    else
      assert forall x :: x in s <==> x == s[0] || x in s[1..];
      (if s[0] in group then [] else [s[0]]) + Without(s[1..], group)
  }

  /** Strictly increasing, hence without repeats. */
  predicate Increasing(s: seq<int>)
  {
    forall a, b :: 0 <= a < b < |s| ==> s[a] < s[b]
  }

  lemma IncreasingHead(s: seq<int>)
    requires |s| > 0 && Increasing(s)
    ensures forall x :: x in s[1..] ==> s[0] < x && x in s
    ensures Increasing(s[1..])
  {
    forall x | x in s[1..]
      ensures s[0] < x && x in s
    {
      var i :| 0 <= i < |s| - 1 && s[1..][i] == x;
      assert s[i + 1] == x;
    }
  }

  lemma {:induction false} WithoutIncreasing(s: seq<int>, group: seq<int>)
    requires Increasing(s)
    ensures Increasing(Without(s, group))
    decreases |s|
  {
    if |s| > 0 {
      IncreasingHead(s);
      WithoutIncreasing(s[1..], group);
      var w := Without(s[1..], group);
      if s[0] !in group {
        var r := [s[0]] + w;
        assert Without(s, group) == r;
        forall a, b | 0 <= a < b < |r|
          ensures r[a] < r[b]
        {
          assert r[b] == w[b - 1] && r[b] in s[1..];
          if a > 0 {
            assert r[a] == w[a - 1];
          }
        }
      }
    }
  }

  /** The weld list entries are well formed: entry `k` starts with
      `c + k`, lists at least one vertex, and every listed vertex is one
      of `remaining`. */
  predicate WellListed(w: seq<seq<int>>, remaining: seq<int>, c: int)
  {
    (forall k :: 0 <= k < |w| ==> |w[k]| >= 2 && w[k][0] == c + k)
    && forall k, i :: 0 <= k < |w| && 1 <= i < |w[k]| ==> w[k][i] in remaining
  }

  /** The edge update sends every vertex of `remaining` to the index of
      the group that lists it. */
  predicate SendsToGroup(w: seq<seq<int>>, remaining: seq<int>, c: int)
    requires forall k :: 0 <= k < |w| ==> |w[k]| >= 2
  {
    forall x :: x in remaining ==>
      c <= RemapValue(x, w) < c + |w| && x in w[RemapValue(x, w) - c][1..]
  }

  /** What the next round of grouping starts from. */
  lemma NextRound(remaining: seq<int>, group: seq<int>, rest: seq<int>, c: int, n: int)
    requires |remaining| > 0 && Increasing(remaining) && Indices(remaining, n)
    requires forall x :: x in remaining ==> c <= x
    requires rest == Without(remaining[1..], group)
    ensures Indices(remaining[1..], n) && Indices([remaining[0]], n)
    ensures Indices(rest, n) && Increasing(rest)
    ensures forall x :: x in rest ==> c + 1 <= x && remaining[0] < x && x in remaining && x !in group
    ensures c <= remaining[0]
  {
    IncreasingHead(remaining);
    WithoutIncreasing(remaining[1..], group);
    assert remaining[0] in remaining;
    forall k | 0 <= k < |rest|
      ensures 0 <= rest[k] < n
    {
      assert rest[k] in rest;
      var i :| 0 <= i < |remaining| && remaining[i] == rest[k];
    }
  }

  /** The weld list of weld with the groups kept as vertex indices: entry
      `k` is `c + k` followed by the vertices of the `k`-th group. */
  function IndexWeldList(dist: (Point, Point) -> real, t: real, verts: seq<Point>, remaining: seq<int>, c: int): (r: seq<seq<int>>)
    requires Indices(remaining, |verts|) && Increasing(remaining)
    requires forall x :: x in remaining ==> c <= x
    ensures |r| <= |remaining|
    decreases |remaining|
  {
    if |remaining| == 0 then []
    else
      var seed := remaining[0];
      NextRound(remaining, [], Without(remaining[1..], []), c, |verts|);
      var group := GatherIndices(dist, t, verts, [seed], remaining[1..]);
      var rest := Without(remaining[1..], group);
      NextRound(remaining, group, rest, c, |verts|);
      [[c] + group] + IndexWeldList(dist, t, verts, rest, c + 1)
  }

  /** Every weld list entry starts with its own index and lists vertices
      of `remaining`, and the edge update sends every vertex of
      `remaining` to the index of the group that lists it. */
  lemma {:induction false} IndexWeldListGroups(dist: (Point, Point) -> real, t: real, verts: seq<Point>, remaining: seq<int>, c: int)
    requires Indices(remaining, |verts|) && Increasing(remaining)
    requires forall x :: x in remaining ==> c <= x
    ensures var r := IndexWeldList(dist, t, verts, remaining, c);
            WellListed(r, remaining, c) && SendsToGroup(r, remaining, c)
    decreases |remaining|
  {
    if |remaining| > 0 {
      var seed := remaining[0];
      NextRound(remaining, [], Without(remaining[1..], []), c, |verts|);
      var group := GatherIndices(dist, t, verts, [seed], remaining[1..]);
      var rest := Without(remaining[1..], group);
      NextRound(remaining, group, rest, c, |verts|);
      IndexWeldListGroups(dist, t, verts, rest, c + 1);
      var tail := IndexWeldList(dist, t, verts, rest, c + 1);
      var r := [[c] + group] + tail;
      assert IndexWeldList(dist, t, verts, remaining, c) == r;
      PrependedOf([c] + group, tail);
      SplitRemaining(remaining, group, rest);
      IndexWeldListListed(remaining, group, rest, tail, c, r);
      IndexWeldListSends(remaining, group, rest, tail, c, r);
    }
  }

  /** The first group and the vertices left after it cover what
      remained, and the first group takes only remaining vertices. */
  lemma SplitRemaining(remaining: seq<int>, group: seq<int>, rest: seq<int>)
    requires |remaining| > 0 && |group| >= 1 && group[..1] == [remaining[0]]
    requires forall x :: x in group ==> x in [remaining[0]] || x in remaining[1..]
    requires forall x :: x in rest <==> x in remaining[1..] && x !in group
    ensures forall x :: x in group ==> x in remaining
    ensures forall x :: x in remaining ==> x in group || x in rest
  {
    assert group[0] == remaining[0];
    assert forall x :: x in remaining <==> x == remaining[0] || x in remaining[1..];
  }

  lemma ListedIn(w: seq<seq<int>>, remaining: seq<int>, c: int, k: int, i: int)
    requires WellListed(w, remaining, c) && 0 <= k < |w| && 1 <= i < |w[k]|
    ensures w[k][i] in remaining
  {
  }

  lemma IndexWeldListListed(remaining: seq<int>, group: seq<int>, rest: seq<int>, tail: seq<seq<int>>, c: int, r: seq<seq<int>>)
    requires |group| >= 1 && forall x :: x in group ==> x in remaining
    requires forall x :: x in rest ==> x in remaining
    requires WellListed(tail, rest, c + 1)
    requires r == [[c] + group] + tail
    ensures WellListed(r, remaining, c)
  {
    assert r[0] == [c] + group;
    forall k, i | 0 <= k < |r| && 1 <= i < |r[k]|
      ensures r[k][i] in remaining
    {
      if k > 0 {
        assert r[k] == tail[k - 1];
        ListedIn(tail, rest, c + 1, k - 1, i);
        var y := r[k][i];
        assert y in rest;
        assert y in remaining;
      } else {
        assert r[k][i] == group[i - 1] && group[i - 1] in group;
        assert r[k][i] in remaining;
      }
    }
    forall k | 0 <= k < |r|
      ensures |r[k]| >= 2 && r[k][0] == c + k
    {
      if k > 0 {
        assert r[k] == tail[k - 1];
      }
    }
  }

  lemma IndexWeldListSends(remaining: seq<int>, group: seq<int>, rest: seq<int>, tail: seq<seq<int>>, c: int, r: seq<seq<int>>)
    requires |remaining| > 0 && |group| >= 1
    requires forall x :: x in remaining ==> x in group || x in rest
    requires forall x :: x in rest ==> remaining[0] < x
    requires forall x :: x in group ==> x in remaining
    requires WellListed(tail, rest, c + 1) && SendsToGroup(tail, rest, c + 1)
    requires c <= remaining[0]
    requires Prepended(r, [c] + group, tail)
    ensures forall k :: 0 <= k < |r| ==> |r[k]| >= 2
    ensures SendsToGroup(r, remaining, c)
  {
    RowsLong(group, tail, c, r);
    HeadUnlisted(c, tail, rest);
    GroupSends(group, tail, c, r);
    RestSends(group, rest, tail, c, r);
  }

  /** `r` is `head` followed by the rows of `tail`, stated row by row. */
  predicate Prepended(r: seq<seq<int>>, head: seq<int>, tail: seq<seq<int>>)
  {
    |r| == |tail| + 1 && r[0] == head && forall k :: 0 <= k < |tail| ==> r[k + 1] == tail[k]
  }

  lemma PrependedOf(head: seq<int>, tail: seq<seq<int>>)
    ensures Prepended([head] + tail, head, tail)
  {
  }

  lemma RowsLong(group: seq<int>, tail: seq<seq<int>>, c: int, r: seq<seq<int>>)
    requires |group| >= 1 && forall k :: 0 <= k < |tail| ==> |tail[k]| >= 2
    requires Prepended(r, [c] + group, tail)
    ensures forall k :: 0 <= k < |r| ==> |r[k]| >= 2
  {
    forall k | 0 <= k < |r|
      ensures |r[k]| >= 2
    {
      if k > 0 {
        assert r[k] == tail[k - 1];
      }
    }
  }

  /** The first group's members go to index `c`. */
  lemma GroupSends(group: seq<int>, tail: seq<seq<int>>, c: int, r: seq<seq<int>>)
    requires forall k :: 0 <= k < |tail| ==> |tail[k]| >= 2
    requires RemapValue(c, tail) == c
    requires Prepended(r, [c] + group, tail)
    requires forall k :: 0 <= k < |r| ==> |r[k]| >= 2
    ensures forall x :: x in group ==> c <= RemapValue(x, r) < c + |r| && x in r[RemapValue(x, r) - c][1..]
  {
    forall x | x in group
      ensures c <= RemapValue(x, r) < c + |r| && x in r[RemapValue(x, r) - c][1..]
    {
      SendsOne(x, c, group, tail, r);
    }
  }

  /** The vertices left after the first group keep the index the later
      groups give them. */
  lemma RestSends(group: seq<int>, rest: seq<int>, tail: seq<seq<int>>, c: int, r: seq<seq<int>>)
    requires forall k :: 0 <= k < |tail| ==> |tail[k]| >= 2
    requires SendsToGroup(tail, rest, c + 1) && RemapValue(c, tail) == c
    requires Prepended(r, [c] + group, tail)
    requires forall k :: 0 <= k < |r| ==> |r[k]| >= 2
    ensures forall x :: x in rest ==> c <= RemapValue(x, r) < c + |r| && x in r[RemapValue(x, r) - c][1..]
  {
    forall x | x in rest
      ensures c <= RemapValue(x, r) < c + |r| && x in r[RemapValue(x, r) - c][1..]
    {
      SendsAt(tail, rest, c + 1, x);
      SendsOne(x, c, group, tail, r);
    }
  }

  lemma SendsAt(w: seq<seq<int>>, remaining: seq<int>, c: int, x: int)
    requires forall k :: 0 <= k < |w| ==> |w[k]| >= 2
    requires SendsToGroup(w, remaining, c) && x in remaining
    ensures c <= RemapValue(x, w) < c + |w| && x in w[RemapValue(x, w) - c][1..]
  {
  }

  lemma SendsOne(x: int, c: int, group: seq<int>, tail: seq<seq<int>>, r: seq<seq<int>>)
    requires forall k :: 0 <= k < |tail| ==> |tail[k]| >= 2
    requires RemapValue(c, tail) == c
    requires Prepended(r, [c] + group, tail)
    requires x in group || (c + 1 <= RemapValue(x, tail) < c + 1 + |tail| && x in tail[RemapValue(x, tail) - (c + 1)][1..])
    ensures c <= RemapValue(x, r) < c + |r| && |r[RemapValue(x, r) - c]| >= 1 && x in r[RemapValue(x, r) - c][1..]
  {
    assert r[0][0] == c && r[0][1..] == group && r[1..] == tail;
    assert RemapValue(x, r) == RemapValue(if x in group then c else x, tail);
    if x !in group {
      var v := RemapValue(x, tail);
      assert r[v - c] == tail[v - (c + 1)];
    }
  }

  /** `c` is listed in no entry of the tail, since every vertex listed
      there exceeds it, so the tail's edge update leaves it alone. */
  lemma HeadUnlisted(c: int, tail: seq<seq<int>>, rest: seq<int>)
    requires WellListed(tail, rest, c + 1)
    requires forall x :: x in rest ==> c < x
    ensures RemapValue(c, tail) == c
  {
    forall k | 0 <= k < |tail| && |tail[k]| > 0
      ensures c !in tail[k][1..]
    {
      forall i | 1 <= i < |tail[k]|
        ensures tail[k][i] != c
      {
        ListedIn(tail, rest, c + 1, k, i);
      }
    }
    RemapUnlisted(c, tail);
  }

  /** A value listed after no head is left alone by the edge update. */
  lemma {:induction false} RemapUnlisted(x: int, weldList: seq<seq<int>>)
    requires forall k :: 0 <= k < |weldList| && |weldList[k]| > 0 ==> x !in weldList[k][1..]
    ensures RemapValue(x, weldList) == x
    decreases |weldList|
  {
    if |weldList| > 0 {
      assert forall k :: 0 <= k < |weldList| - 1 ==> weldList[1..][k] == weldList[k + 1];
      RemapUnlisted(x, weldList[1..]);
    }
  }

  /** The vertex indices 0 .. n-1. */
  function Range(n: nat): (r: seq<int>)
    ensures |r| == n && forall k :: 0 <= k < n ==> r[k] == k
    ensures Increasing(r) && Indices(r, n)
  {
    seq(n, k => k)
  }

  /** The weld list weld builds for vertices `verts`, by index. */
  function WeldGroups(dist: (Point, Point) -> real, t: real, verts: seq<Point>): (r: seq<seq<int>>)
    ensures WellListed(r, Range(|verts|), 0) && SendsToGroup(r, Range(|verts|), 0)
  {
    IndexWeldListGroups(dist, t, verts, Range(|verts|), 0);
    IndexWeldList(dist, t, verts, Range(|verts|), 0)
  }

  /** The positions of the listed vertices (every listed vertex indexes
      `verts`, so the fallback point is never used). */
  function PointsOf(verts: seq<Point>, members: seq<int>): (r: seq<Point>)
    ensures |r| == |members|
  {
    seq(|members|, i requires 0 <= i < |members| =>
      if 0 <= members[i] < |verts| then verts[members[i]] else Point(0.0, 0.0, 0.0))
  }

  /** Each endpoint of each edge is listed in the group its remapped
      index names. */
  predicate OnGroups(edges: seq<NetEdge>, remapped: seq<NetEdge>, weldList: seq<seq<int>>)
    requires |remapped| == |edges| && ValidEdges(remapped, |weldList|)
    requires forall k :: 0 <= k < |weldList| ==> |weldList[k]| >= 2
  {
    forall k :: 0 <= k < |edges| ==>
      edges[k].i in weldList[remapped[k].i][1..] && edges[k].j in weldList[remapped[k].j][1..]
      && remapped[k].color == edges[k].color
  }

  lemma WeldEdgesOnGroups(dist: (Point, Point) -> real, t: real, verts: seq<Point>, edges: seq<NetEdge>)
    requires ValidEdges(edges, |verts|)
    ensures var w := WeldGroups(dist, t, verts);
            var r := RemapEdges(edges, w);
            ValidEdges(r, |w|) && OnGroups(edges, r, w)
  {
    var n := |verts|;
    forall k | 0 <= k < |edges|
      ensures edges[k].i in Range(n) && edges[k].j in Range(n)
    {
      assert ValidEdge(edges[k], n);
      assert Range(n)[edges[k].i] == edges[k].i;
      assert Range(n)[edges[k].j] == edges[k].j;
    }
  }

  /** weld with the groups kept as vertex indices, on a network not welded
      before (its weld list is empty, as it is for the network the
      component builds). Every new vertex is the centroid of its group, and
      every edge now joins the groups of its old endpoints. */
  function WeldCorrected(net: Network, dist: (Point, Point) -> real, t: real): (r: Option<Network>)
    requires net.weldList == []
    ensures r.Some? <==> ValidEdges(net.edges, |net.verts|)
    ensures r.Some? ==> (|r.value.verts| == |r.value.weldList| && |r.value.edges| == |net.edges|
              && WellListed(r.value.weldList, Range(|net.verts|), 0)
              && SendsToGroup(r.value.weldList, Range(|net.verts|), 0)
              && ValidEdges(r.value.edges, |r.value.verts|)
              && OnGroups(net.edges, r.value.edges, r.value.weldList)
              && (forall k :: 0 <= k < |r.value.verts| ==>
                    r.value.verts[k] == Centroid(PointsOf(net.verts, r.value.weldList[k][1..]))))
  {
    var w := WeldGroups(dist, t, net.verts);
    var verts := seq(|w|, k requires 0 <= k < |w| => Centroid(PointsOf(net.verts, w[k][1..])));
    var edges := RemapEdges(net.edges, w);
    if ValidEdges(net.edges, |net.verts|) then
      WeldEdgesOnGroups(dist, t, net.verts, net.edges);
      GenerateConnectionInfo(net.(verts := verts, edges := edges, weldList := w))
    else
      None
  }

  // ------------------------------------------------------ duplicate faces

  /** Every entry of `a` is in `b`. */
  function AllIn(a: seq<int>, b: seq<int>): (r: bool)
    ensures r <==> forall x :: x in a ==> x in b
  {
    if |a| == 0 then true
    else
      assert forall x :: x in a <==> x == a[0] || x in a[1..];
      (a[0] in b) && AllIn(a[1..], b)
  }

  /** ListEqual, which despite its name is a containment test: `a` is no
      longer than `b` and each entry of `a` is in `b`. */
  function ListEqual(a: seq<int>, b: seq<int>): (r: bool)
    ensures r <==> |a| <= |b| && forall x :: x in a ==> x in b
  {
    if |a| == |b| then AllIn(a, b)
    else if |a| < |b| then AllIn(a, b)
    else false
  }

  /** ContainsEqual: some face of `kept` is contained in `face`. */
  function ContainsEqual(kept: seq<seq<int>>, face: seq<int>): (r: bool)
    ensures r <==> exists k :: 0 <= k < |kept| && ListEqual(kept[k], face)
  {
    if |kept| == 0 then false
    else ContainsEqual(kept[..|kept| - 1], face) || ListEqual(kept[|kept| - 1], face)
  }

  /** The foreach of RemoveDupFace: each face is kept unless it contains a
      face kept before it. */
  function KeepNew(kept: seq<seq<int>>, faces: seq<seq<int>>): (r: seq<seq<int>>)
    ensures |r| >= |kept| && r[..|kept|] == kept
    ensures forall k :: |kept| <= k < |r| ==> r[k] in faces
    ensures forall i, j :: 0 <= i < j < |r| && |kept| <= j ==> !ListEqual(r[i], r[j])
    ensures forall f :: f in faces ==> exists k :: 0 <= k < |r| && ListEqual(r[k], f)
    decreases |faces|
  {
    if |faces| == 0 then kept
    else
      var f := faces[0];
      var next := if ContainsEqual(kept, f) then kept else kept + [f];
      var r := KeepNew(next, faces[1..]);
      KeepNewStep(kept, faces, next, r);
      r
  }

  /** One step of KeepNew: the properties of the rest carry over to the
      whole list. */
  lemma KeepNewStep(kept: seq<seq<int>>, faces: seq<seq<int>>, next: seq<seq<int>>, r: seq<seq<int>>)
    requires |faces| > 0 && next == (if ContainsEqual(kept, faces[0]) then kept else kept + [faces[0]])
    requires |r| >= |next| && r[..|next|] == next
    requires forall k :: |next| <= k < |r| ==> r[k] in faces[1..]
    requires forall i, j :: 0 <= i < j < |r| && |next| <= j ==> !ListEqual(r[i], r[j])
    requires forall g :: g in faces[1..] ==> exists k :: 0 <= k < |r| && ListEqual(r[k], g)
    ensures |r| >= |kept| && r[..|kept|] == kept
    ensures forall k :: |kept| <= k < |r| ==> r[k] in faces
    ensures forall i, j :: 0 <= i < j < |r| && |kept| <= j ==> !ListEqual(r[i], r[j])
    ensures forall g :: g in faces ==> exists k :: 0 <= k < |r| && ListEqual(r[k], g)
  {
    KeepNewPrefix(kept, faces, next, r);
    KeepNewFrom(kept, faces, next, r);
    KeepNewFresh(kept, faces, next, r);
    KeepNewCovers(kept, faces, next, r);
  }

  lemma KeepNewPrefix(kept: seq<seq<int>>, faces: seq<seq<int>>, next: seq<seq<int>>, r: seq<seq<int>>)
    requires |faces| > 0 && next == (if ContainsEqual(kept, faces[0]) then kept else kept + [faces[0]])
    requires |r| >= |next| && r[..|next|] == next
    ensures |r| >= |kept| && r[..|kept|] == kept
  {
    assert next[..|kept|] == kept;
    assert r[..|kept|] == next[..|kept|];
  }

  lemma KeepNewFrom(kept: seq<seq<int>>, faces: seq<seq<int>>, next: seq<seq<int>>, r: seq<seq<int>>)
    requires |faces| > 0 && next == (if ContainsEqual(kept, faces[0]) then kept else kept + [faces[0]])
    requires |r| >= |next| && r[..|next|] == next
    requires forall k :: |next| <= k < |r| ==> r[k] in faces[1..]
    ensures forall k :: |kept| <= k < |r| ==> r[k] in faces
  {
    forall k | |kept| <= k < |r|
      ensures r[k] in faces
    {
      if k < |next| {
        assert r[k] == next[k] == faces[0];
      } else {
        assert r[k] in faces[1..];
      }
    }
  }

  lemma KeepNewFresh(kept: seq<seq<int>>, faces: seq<seq<int>>, next: seq<seq<int>>, r: seq<seq<int>>)
    requires |faces| > 0 && next == (if ContainsEqual(kept, faces[0]) then kept else kept + [faces[0]])
    requires |r| >= |next| && r[..|next|] == next
    requires forall i, j :: 0 <= i < j < |r| && |next| <= j ==> !ListEqual(r[i], r[j])
    ensures forall i, j :: 0 <= i < j < |r| && |kept| <= j ==> !ListEqual(r[i], r[j])
  {
    forall i, j | 0 <= i < j < |r| && |kept| <= j
      ensures !ListEqual(r[i], r[j])
    {
      if j < |next| {
        assert r[j] == next[j] == faces[0];
        assert r[i] == next[i] == kept[i];
      }
    }
  }

  lemma KeepNewCovers(kept: seq<seq<int>>, faces: seq<seq<int>>, next: seq<seq<int>>, r: seq<seq<int>>)
    requires |faces| > 0 && next == (if ContainsEqual(kept, faces[0]) then kept else kept + [faces[0]])
    requires |r| >= |next| && r[..|next|] == next
    requires forall g :: g in faces[1..] ==> exists k :: 0 <= k < |r| && ListEqual(r[k], g)
    ensures forall g :: g in faces ==> exists k :: 0 <= k < |r| && ListEqual(r[k], g)
  {
    var f := faces[0];
    if ContainsEqual(kept, f) {
      var k :| 0 <= k < |kept| && ListEqual(kept[k], f);
      assert r[k] == next[k];
    } else {
      assert r[|kept|] == next[|kept|] == f;
      assert ListEqual(f, f);
    }
    assert forall g :: g in faces ==> g == f || g in faces[1..];
  }

  /** RemoveDupFace: the first face and then every face containing no
      face kept before it. No kept face contains an earlier one, and every
      input face contains a kept one. */
  function RemoveDupFace(faces: seq<seq<int>>): (r: seq<seq<int>>)
    ensures |faces| == 0 <==> |r| == 0
    ensures |faces| > 0 ==> r[0] == faces[0]
    ensures forall f :: f in r ==> f in faces
    ensures forall i, j :: 0 <= i < j < |r| ==> !ListEqual(r[i], r[j])
    ensures forall f :: f in faces ==> exists k :: 0 <= k < |r| && ListEqual(r[k], f)
  {
    if |faces| == 0 then []
    else
      var r := KeepNew([faces[0]], faces);
      KeepNewFromFirst(faces, r);
      r
  }

  /** What KeepNew started from the first face gives: that face first,
      only input faces, and no kept face containing an earlier one. */
  lemma KeepNewFromFirst(faces: seq<seq<int>>, r: seq<seq<int>>)
    requires |faces| > 0 && r == KeepNew([faces[0]], faces)
    ensures |r| > 0 && r[0] == faces[0]
    ensures forall f :: f in r ==> f in faces
    ensures forall i, j :: 0 <= i < j < |r| ==> !ListEqual(r[i], r[j])
  {
    assert r[..1] == [faces[0]];
    forall f | f in r
      ensures f in faces
    {
      var k :| 0 <= k < |r| && r[k] == f;
      if k == 0 {
        assert r[0] == faces[0];
      }
    }
  }
}
