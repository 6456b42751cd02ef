/** The face search of the paper network: unit walks from a root vertex
    through the neighbour lists and keeps every closed walk of the wanted
    length, and detectCycles runs it from every vertex that still has
    faces to find, for each face size in turn. */
module PaperCycles {
  import opened Common
  import opened PaperNetwork

  /** Every listed neighbour is a vertex. */
  predicate NeighborsValid(nb: seq<seq<int>>)
  {
    forall v, k :: 0 <= v < |nb| && 0 <= k < |nb[v]| ==> 0 <= nb[v][k] < |nb|
  }

  /** Each step of `p` goes to a listed neighbour. */
  predicate Walk(nb: seq<seq<int>>, p: seq<int>)
    requires Indices(p, |nb|)
  {
    forall k :: 0 <= k < |p| - 1 ==> p[k + 1] in nb[p[k]]
  }

  /** No step goes straight back to the vertex before. */
  predicate NoBacktrack(p: seq<int>)
  {
    forall k :: 0 <= k < |p| - 2 ==> p[k + 2] != p[k]
  }

  /** The number of vertices of the faces unit closes: `max`, and one
      when `max` is below one (the first step is always taken). */
  function Steps(max: int): (s: nat)
    ensures s >= 1 && (max >= 1 ==> s == max)
  {
    if max < 1 then 1 else max
  }

  function Budget(path: seq<int>, max: int): nat
    requires 1 <= |path| <= Steps(max) + 1
  {
    Steps(max) + 1 - |path|
  }

  /** The step unit may take from the end of `path` to `next`: not
      straight back, and only to a remaining root. */
  predicate Allowed(remains: seq<int>, path: seq<int>, next: int)
  {
    (|path| < 2 || next != path[|path| - 2]) && next in remains
  }

  /** unit: the faces found by extending `path` step by step until it has
      `max` steps, kept when the walk has come back to its start. Every
      face found has `Steps(max)` vertices and starts at the path's
      root. */
  function Unit(nb: seq<seq<int>>, remains: seq<int>, path: seq<int>, max: int): (r: seq<seq<int>>)
    requires NeighborsValid(nb) && Indices(path, |nb|) && 1 <= |path| <= Steps(max) + 1
    ensures forall k :: 0 <= k < |r| ==> |r[k]| == Steps(max) && r[k][0] == path[0]
    decreases Budget(path, max), 1, 0
  {
    var now := path[|path| - 1];
    if |path| == 1 || |path| - 1 < max then Branch(nb, remains, path, max, nb[now])
    else if path[0] == now then [path[..|path| - 1]]
    else []
  }

  /** The foreach over the neighbours of the path's end: the faces found
      through each allowed neighbour, in order. */
  function Branch(nb: seq<seq<int>>, remains: seq<int>, path: seq<int>, max: int, nexts: seq<int>): (r: seq<seq<int>>)
    requires NeighborsValid(nb) && Indices(path, |nb|) && 1 <= |path| <= Steps(max) && Indices(nexts, |nb|)
    ensures forall k :: 0 <= k < |r| ==> |r[k]| == Steps(max) && r[k][0] == path[0]
    decreases Budget(path, max), 0, |nexts|
  {
    if |nexts| == 0 then []
    else
      var next := nexts[0];
      var rest := Branch(nb, remains, path, max, nexts[1..]);
      if Allowed(remains, path, next) then
        var found := Unit(nb, remains, path + [next], max);
        assert (path + [next])[0] == path[0];
        assert forall k :: |found| <= k < |found + rest| ==> (found + rest)[k] == rest[k - |found|];
        found + rest
      else rest
  }

  /** `q` closes on its first vertex into a walk of `|q| == L` steps
      without going straight back. */
  predicate Face(nb: seq<seq<int>>, q: seq<int>, L: nat)
  {
    |q| == L && L >= 1
    && var w := q + [q[0]];
       Indices(w, |nb|) && Walk(nb, w) && NoBacktrack(w)
  }

  /** `q` is a face unit can find from `path`: it is a face of `L`
      steps, its closed walk starts with `path`, and every vertex the
      walk reaches after `path` is a remaining root. */
  predicate CycleFrom(nb: seq<seq<int>>, remains: seq<int>, path: seq<int>, L: nat, q: seq<int>)
  {
    Face(nb, q, L) && |path| <= L + 1
    && var w := q + [q[0]];
       w[..|path|] == path && forall k :: |path| <= k <= L ==> w[k] in remains
  }

  lemma ExtendWalk(nb: seq<seq<int>>, remains: seq<int>, path: seq<int>, next: int)
    requires NeighborsValid(nb) && Indices(path, |nb|) && |path| >= 1 && 0 <= next < |nb|
    requires Walk(nb, path) && NoBacktrack(path)
    requires next in nb[path[|path| - 1]] && Allowed(remains, path, next)
    ensures Indices(path + [next], |nb|) && Walk(nb, path + [next]) && NoBacktrack(path + [next])
  {
    var p := path + [next];
    assert forall k :: 0 <= k < |path| ==> p[k] == path[k];
  }

  /** A face found one step further on was found from `path` too. */
  lemma CycleFromShorter(nb: seq<seq<int>>, remains: seq<int>, path: seq<int>, next: int, L: nat, q: seq<int>)
    requires |path| >= 1 && next in remains
    requires CycleFrom(nb, remains, path + [next], L, q)
    ensures CycleFrom(nb, remains, path, L, q)
  {
    var w := q + [q[0]];
    assert w[..|path|] == w[..|path| + 1][..|path|];
    assert w[|path|] == (path + [next])[|path|];
  }

  lemma {:induction false} UnitSound(nb: seq<seq<int>>, remains: seq<int>, path: seq<int>, max: int, q: seq<int>)
    requires NeighborsValid(nb) && Indices(path, |nb|) && 1 <= |path| <= Steps(max) + 1
    requires Walk(nb, path) && NoBacktrack(path)
    requires q in Unit(nb, remains, path, max)
    ensures CycleFrom(nb, remains, path, Steps(max), q)
    decreases Budget(path, max), 1, 0
  {
    var now := path[|path| - 1];
    if |path| == 1 || |path| - 1 < max {
      BranchSound(nb, remains, path, max, nb[now], q);
    } else {
      var L := Steps(max);
      assert q == path[..L];
      assert q + [q[0]] == path;
    }
  }

  lemma {:induction false} BranchSound(nb: seq<seq<int>>, remains: seq<int>, path: seq<int>, max: int, nexts: seq<int>, q: seq<int>)
    requires NeighborsValid(nb) && Indices(path, |nb|) && 1 <= |path| <= Steps(max) && Indices(nexts, |nb|)
    requires Walk(nb, path) && NoBacktrack(path)
    requires forall x :: x in nexts ==> x in nb[path[|path| - 1]]
    requires q in Branch(nb, remains, path, max, nexts)
    ensures CycleFrom(nb, remains, path, Steps(max), q)
    decreases Budget(path, max), 0, |nexts|
  {
    var next := nexts[0];
    assert next in nexts;
    assert forall x :: x in nexts[1..] ==> x in nexts;
    if Allowed(remains, path, next) && q in Unit(nb, remains, path + [next], max) {
      ExtendWalk(nb, remains, path, next);
      UnitSound(nb, remains, path + [next], max, q);
      CycleFromShorter(nb, remains, path, next, Steps(max), q);
    } else {
      BranchSound(nb, remains, path, max, nexts[1..], q);
    }
  }

  lemma {:induction false} UnitComplete(nb: seq<seq<int>>, remains: seq<int>, path: seq<int>, max: int, q: seq<int>)
    requires NeighborsValid(nb) && Indices(path, |nb|) && 1 <= |path| <= Steps(max) + 1
    requires CycleFrom(nb, remains, path, Steps(max), q)
    ensures q in Unit(nb, remains, path, max)
    decreases Budget(path, max), 1, 0
  {
    var w := q + [q[0]];
    var now := path[|path| - 1];
    if |path| == 1 || |path| - 1 < max {
      var next := w[|path|];
      var p := path + [next];
      assert w[..|path| + 1] == p;
      assert now == w[|path| - 1];
      assert |path| >= 2 ==> path[|path| - 2] == w[|path| - 2];
      UnitComplete(nb, remains, p, max, q);
      BranchComplete(nb, remains, path, max, nb[now], next, q);
    } else {
      assert w == path;
    }
  }

  lemma {:induction false} BranchComplete(nb: seq<seq<int>>, remains: seq<int>, path: seq<int>, max: int, nexts: seq<int>, next: int, q: seq<int>)
    requires NeighborsValid(nb) && Indices(path, |nb|) && 1 <= |path| <= Steps(max) && Indices(nexts, |nb|)
    requires next in nexts && Allowed(remains, path, next) && 0 <= next < |nb|
    requires q in Unit(nb, remains, path + [next], max)
    ensures q in Branch(nb, remains, path, max, nexts)
    decreases |nexts|
  {
    if nexts[0] != next {
      BranchComplete(nb, remains, path, max, nexts[1..], next, q);
    }
  }

  /** unit started from a single root finds exactly the faces of `max`
      steps through that root whose other vertices are remaining roots
      (and the root itself, which the walk steps back onto). */
  lemma UnitFindsExactly(nb: seq<seq<int>>, remains: seq<int>, root: int, max: int)
    requires NeighborsValid(nb) && 0 <= root < |nb|
    ensures forall q :: q in Unit(nb, remains, [root], max) <==> CycleFrom(nb, remains, [root], Steps(max), q)
  {
    forall q
      ensures q in Unit(nb, remains, [root], max) <==> CycleFrom(nb, remains, [root], Steps(max), q)
    {
      if q in Unit(nb, remains, [root], max) {
        UnitSound(nb, remains, [root], max, q);
      }
      if CycleFrom(nb, remains, [root], Steps(max), q) {
        UnitComplete(nb, remains, [root], max, q);
      }
    }
  }

  // ------------------------------------------------------------ detectCycles

  /** The vertices with faces left to find, in index order. */
  function Roots(faceNumRemain: seq<int>, n: nat): (r: seq<int>)
    requires n <= |faceNumRemain|
    ensures Indices(r, n) && Increasing(r)
    ensures forall v :: v in r <==> 0 <= v < n && faceNumRemain[v] != 0
  {
    if n == 0 then []
    else
      var r := Roots(faceNumRemain, n - 1) + (if faceNumRemain[n - 1] != 0 then [n - 1] else []);
      r
  }

  /** One found face lowers the count of faces left at each of its
      vertices, once per visit. */
  function DecrementFace(f: seq<int>, face: seq<int>): (r: seq<int>)
    requires Indices(face, |f|)
    ensures |r| == |f|
    ensures forall v :: 0 <= v < |f| ==> r[v] == f[v] - multiset(face)[v]
  {
    if |face| == 0 then f
    else
      var m := |face| - 1;
      var r := DecrementFace(f, face[..m]);
      assert face == face[..m] + [face[m]];
      r[face[m] := r[face[m]] - 1]
  }

  /** How often `v` occurs over all of `faces`. */
  function Visits(faces: seq<seq<int>>, v: int): nat
  {
    if |faces| == 0 then 0 else Visits(faces[..|faces| - 1], v) + multiset(faces[|faces| - 1])[v]
  }

  /** The foreach over the faces unit returned. */
  function Decrement(f: seq<int>, faces: seq<seq<int>>): (r: seq<int>)
    requires forall k :: 0 <= k < |faces| ==> Indices(faces[k], |f|)
    ensures |r| == |f|
    ensures forall v :: 0 <= v < |f| ==> r[v] == f[v] - Visits(faces, v)
  {
    if |faces| == 0 then f
    else
      var m := |faces| - 1;
      DecrementFace(Decrement(f, faces[..m]), faces[m])
  }

  lemma FacesOnVertices(nb: seq<seq<int>>, remains: seq<int>, root: int, max: int, n: nat)
    requires NeighborsValid(nb) && 0 <= root < |nb| <= n
    ensures forall k :: 0 <= k < |Unit(nb, remains, [root], max)| ==>
              Indices(Unit(nb, remains, [root], max)[k], n)
              && CycleFrom(nb, remains, [root], Steps(max), Unit(nb, remains, [root], max)[k])
  {
    UnitFindsExactly(nb, remains, root, max);
    var faces := Unit(nb, remains, [root], max);
    forall k | 0 <= k < |faces|
      ensures Indices(faces[k], n)
    {
      var q := faces[k];
      assert q in faces;
      assert forall i :: 0 <= i < |q| ==> q[i] == (q + [q[0]])[i];
    }
  }

  /** The while loop of detectCycles for one face size: each remaining
      root in turn searches through the roots not used yet, and the faces
      it finds lower the counts of faces left. Every face found is a face
      of the wanted size whose vertices were all remaining roots. */
  function RootLoop(nb: seq<seq<int>>, remains: seq<int>, size: int, f: seq<int>): (r: (seq<seq<int>>, seq<int>))
    requires NeighborsValid(nb) && Indices(remains, |nb|) && |nb| <= |f|
    ensures |r.1| == |f|
    ensures forall k :: 0 <= k < |r.0| ==> Face(nb, r.0[k], Steps(size)) && forall x :: x in r.0[k] ==> x in remains
    decreases |remains|
  {
    if |remains| == 0 then ([], f)
    else
      var root := remains[0];
      var temp := Unit(nb, remains, [root], size);
      FacesOnVertices(nb, remains, root, size, |f|);
      assert Indices(remains[1..], |nb|);
      var next := RootLoop(nb, remains[1..], size, Decrement(f, temp));
      RootLoopStep(nb, remains, size, temp, next.0);
      (temp + next.0, next.1)
  }

  lemma RootLoopStep(nb: seq<seq<int>>, remains: seq<int>, size: int, temp: seq<seq<int>>, later: seq<seq<int>>)
    requires |remains| > 0
    requires forall k :: 0 <= k < |temp| ==> CycleFrom(nb, remains, [remains[0]], Steps(size), temp[k])
    requires forall k :: 0 <= k < |later| ==>
               Face(nb, later[k], Steps(size)) && forall x :: x in later[k] ==> x in remains[1..]
    ensures forall k :: 0 <= k < |temp + later| ==>
              Face(nb, (temp + later)[k], Steps(size)) && forall x :: x in (temp + later)[k] ==> x in remains
  {
    var L := Steps(size);
    forall k | 0 <= k < |temp|
      ensures forall x :: x in temp[k] ==> x in remains
    {
      var q := temp[k];
      var w := q + [q[0]];
      forall x | x in q
        ensures x in remains
      {
        var i :| 0 <= i < |q| && q[i] == x;
        if i == 0 {
          assert w[L] == x;
        } else {
          assert w[i] == x;
        }
      }
    }
    forall k | 0 <= k < |temp + later|
      ensures Face(nb, (temp + later)[k], L) && forall x :: x in (temp + later)[k] ==> x in remains
    {
      if k >= |temp| {
        assert (temp + later)[k] == later[k - |temp|];
        assert forall x :: x in remains[1..] ==> x in remains;
      }
    }
  }

  /** The for loop of detectCycles over the face sizes `size` ..
      `maxNgon`. Every face found has between `size` and `maxNgon`
      vertices. */
  function SizeLoop(nb: seq<seq<int>>, size: int, maxNgon: int, f: seq<int>): (r: seq<seq<int>>)
    requires NeighborsValid(nb) && |nb| <= |f| && size >= 1
    ensures forall k :: 0 <= k < |r| ==> size <= |r[k]| <= maxNgon && Face(nb, r[k], |r[k]|)
    decreases maxNgon - size + 1
  {
    if size > maxNgon then []
    else
      var found := RootLoop(nb, Roots(f, |nb|), size, f);
      var later := SizeLoop(nb, size + 1, maxNgon, found.1);
      assert forall k :: 0 <= k < |found.0 + later| ==>
        (found.0 + later)[k] == if k < |found.0| then found.0[k] else later[k - |found.0|];
      found.0 + later
  }

  /** detectCycles: the faces of three to `maxNgon` vertices, with every
      face that contains an earlier one dropped. Each is a closed walk
      through the neighbour lists that never steps straight back, and no
      face kept contains an earlier kept one. */
  function DetectCycles(net: Network, maxNgon: int): (r: seq<seq<int>>)
    requires |net.neighbors| == |net.verts| <= |net.faceNumRemain|
    requires NeighborsValid(net.neighbors)
    ensures forall k :: 0 <= k < |r| ==> 3 <= |r[k]| <= maxNgon && Face(net.neighbors, r[k], |r[k]|)
    ensures forall i, j :: 0 <= i < j < |r| ==> !ListEqual(r[i], r[j])
  {
    var found := SizeLoop(net.neighbors, 3, maxNgon, net.faceNumRemain);
    var r := RemoveDupFace(found);
    KeptFaces(net.neighbors, maxNgon, found, r);
    r
  }

  /** Faces kept from a list of faces of three to `maxNgon` vertices are
      such faces too. */
  lemma KeptFaces(nb: seq<seq<int>>, maxNgon: int, found: seq<seq<int>>, r: seq<seq<int>>)
    requires forall k :: 0 <= k < |found| ==> 3 <= |found[k]| <= maxNgon && Face(nb, found[k], |found[k]|)
    requires forall f :: f in r ==> f in found
    ensures forall k :: 0 <= k < |r| ==> 3 <= |r[k]| <= maxNgon && Face(nb, r[k], |r[k]|)
  {
    forall k | 0 <= k < |r|
      ensures 3 <= |r[k]| <= maxNgon && Face(nb, r[k], |r[k]|)
    {
      assert r[k] in found;
    }
  }

  // ---- the neighbour lists generateConnectionInfo builds are valid

  lemma {:induction false} DirectedValid(edges: seq<NetEdge>, n: int, v: int, w: int)
    requires ValidEdges(edges, n) && Directed(edges, v, w) > 0
    ensures 0 <= v < n && 0 <= w < n
    decreases |edges|
  {
    var m := |edges| - 1;
    if !(edges[m].i == v && edges[m].j == w) {
      assert ValidEdges(edges[..m], n);
      DirectedValid(edges[..m], n, v, w);
    }
  }

  /** After generateConnectionInfo every neighbour it lists is a vertex,
      so detectCycles can walk the lists. */
  lemma ConnectionNeighborsValid(net: Network)
    requires ValidEdges(net.edges, |net.verts|)
    ensures NeighborsValid(GenerateConnectionInfo(net).value.neighbors)
  {
    var nb := GenerateConnectionInfo(net).value.neighbors;
    var n := |net.verts|;
    forall v, k | 0 <= v < |nb| && 0 <= k < |nb[v]|
      ensures 0 <= nb[v][k] < |nb|
    {
      var w := nb[v][k];
      assert w in multiset(nb[v]);
      assert Links(net.edges, v, w) > 0;
      if Directed(net.edges, v, w) > 0 {
        DirectedValid(net.edges, n, v, w);
      } else {
        DirectedValid(net.edges, n, w, v);
      }
    }
  }
}
