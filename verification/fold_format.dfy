/** The mapping between a crease-pattern mesh and the FOLD file format,
    version 1.1, Crane/Core/FoldFormat.cs: the constructor that fills the
    FOLD fields from a mesh and its edge labels, and `ToCMesh`, which reads
    them back.

    The mesh is given by its vertices, its topology edges (vertex pairs),
    its faces, its edge labels and the fold angle of each inner edge in
    radians. The active document's unit system is an input. JSON reading
    and writing and the Rhino mesh behind the result are not modelled; a
    thrown exception is None. */
module FoldFormat {
  import opened Common
  import opened CMesh
  import opened Utils

  // ------------------------------------------------------------------ unit

  /** The model unit systems the unit conversion tells apart. */
  datatype UnitSystem = Meters | Centimeters | Millimeters | OtherUnit

  /** ParseRhinoModelUnitSystem: the frame unit; "m" unless the document is
      in centimetres or millimetres. */
  function ParseUnit(u: UnitSystem): (s: string)
    ensures s == "cm" <==> u == Centimeters
    ensures s == "mm" <==> u == Millimeters
    ensures s == "m" <==> u == Meters || u == OtherUnit
  {
    match u
    case Centimeters => "cm"
    case Millimeters => "mm"
    case _ => "m"
  }

  // ---------------------------------------------------------------- fields

  /** The fields of a FOLD document the constructor fills. Coordinates,
      edges and faces are arrays of arrays, as in the file; a fold angle is
      absent (JSON null) on boundary edges. */
  datatype Fold = Fold(
    fileClasses: seq<string>, fileCreator: string, fileSpec: real, frameClasses: seq<string>,
    frameUnit: string,
    verticesCoords: seq<seq<real>>, edgesVertices: seq<seq<int>>,
    edgesAssignment: seq<string>, edgesFoldAngle: seq<Option<real>>,
    facesVertices: seq<seq<int>>)

  /** A mesh as the constructor reads it. `labels` has one letter per
      topology edge; `foldAngles` holds one angle in radians per edge that
      is not 'B', in edge order (GetFoldAngles). */
  datatype Source = Source(
    verts: seq<Point>, edges: seq<(int, int)>, faces: seq<Face>,
    labels: seq<char>, foldAngles: seq<real>)

  /** One coordinate triple per vertex. */
  function Coords(verts: seq<Point>): (c: seq<seq<real>>)
    ensures |c| == |verts|
    ensures forall i :: 0 <= i < |c| ==> c[i] == [verts[i].x, verts[i].y, verts[i].z]
  {
    seq(|verts|, i requires 0 <= i < |verts| => [verts[i].x, verts[i].y, verts[i].z])
  }

  /** One [I, J] pair per topology edge. */
  function EdgesVertices(edges: seq<(int, int)>): (e: seq<seq<int>>)
    ensures |e| == |edges|
    ensures forall i :: 0 <= i < |e| ==> e[i] == [edges[i].0, edges[i].1]
  {
    seq(|edges|, i requires 0 <= i < |edges| => [edges[i].0, edges[i].1])
  }

  /** The FOLD assignment of one label: internal 'T' edges are written as
      flat "F", every other label as its own letter. */
  function AssignmentOf(c: char): (s: string)
    ensures |s| == 1
    ensures c == 'T' ==> s == "F"
    ensures c != 'T' ==> s[0] == c
  {
    if c == 'T' then "F" else [c]
  }

  function Assignments(labels: seq<char>): (a: seq<string>)
    ensures |a| == |labels|
    ensures forall i :: 0 <= i < |a| ==> a[i] == AssignmentOf(labels[i])
  {
    seq(|labels|, i requires 0 <= i < |labels| => AssignmentOf(labels[i]))
  }

  /** Radians to degrees, as 180 θ / π. */
  function Degrees(theta: real): (d: real)
    ensures d * Pi == 180.0 * theta
  {
    180.0 * theta / Pi
  }

  /** Edge i's written angle: null on a boundary edge, otherwise the
      measured angle numbered by the inner edges before it, in degrees. */
  predicate AngleAt(labels: seq<char>, angles: seq<real>, v: seq<Option<real>>, i: int)
    requires 0 <= i < |labels| == |v|
  {
    (v[i].None? <==> labels[i] == 'B')
    && (labels[i] != 'B' ==>
          |InnerAssignment(labels[..i])| < |angles|
          && v[i] == Some(Degrees(angles[|InnerAssignment(labels[..i])|])))
  }

  /** Every edge's written angle is as AngleAt describes. */
  predicate AnglesOf(labels: seq<char>, angles: seq<real>, v: seq<Option<real>>)
  {
    |v| == |labels| && forall i :: 0 <= i < |labels| ==> AngleAt(labels, angles, v, i)
  }

  /** The fold angles in degrees. Boundary edges get null; every other
      edge takes the next unused measured angle. None when the measured
      angles run out (the source's index error). */
  function FoldAngleDegrees(labels: seq<char>, angles: seq<real>): (r: Option<seq<Option<real>>>)
    ensures r.Some? <==> |InnerAssignment(labels)| <= |angles|
    ensures r.Some? ==> AnglesOf(labels, angles, r.value)
  {
    if |labels| == 0 then Some([])
    else
      var n := |labels| - 1;
      var prev := FoldAngleDegrees(labels[..n], angles);
      if prev.None? then None
      else if labels[n] == 'B' then
        AnglesExtend(labels, angles, prev.value, None);
        Some(prev.value + [None])
      else
        var id := |InnerAssignment(labels[..n])|;
        if id < |angles| then
          AnglesExtend(labels, angles, prev.value, Some(Degrees(angles[id])));
          Some(prev.value + [Some(Degrees(angles[id]))])
        else None
  }

  /** Appending the last edge's angle to the angles of the edges before
      it gives the angles of all edges. */
  lemma AnglesExtend(labels: seq<char>, angles: seq<real>, prev: seq<Option<real>>, x: Option<real>)
    requires |labels| > 0 && AnglesOf(labels[..|labels| - 1], angles, prev)
    requires AngleAt(labels, angles, prev + [x], |labels| - 1)
    ensures AnglesOf(labels, angles, prev + [x])
  {
    var n := |labels| - 1;
    forall i | 0 <= i < n
      ensures AngleAt(labels, angles, prev + [x], i)
    {
      assert labels[..n][..i] == labels[..i];
      assert AngleAt(labels[..n], angles, prev, i);
    }
  }

  /** The mVFullFold override: 'M' edges fold to -180 and 'V' edges to
      180, whatever was measured; other edges keep their angle. */
  function FullFold(labels: seq<char>, angles: seq<Option<real>>): (out: seq<Option<real>>)
    requires |angles| == |labels|
    ensures |out| == |labels|
    ensures forall i :: 0 <= i < |out| ==>
              out[i] == if labels[i] == 'M' then Some(-180.0)
                        else if labels[i] == 'V' then Some(180.0)
                        else angles[i]
  {
    seq(|labels|, i requires 0 <= i < |labels| =>
      if labels[i] == 'M' then Some(-180.0) else if labels[i] == 'V' then Some(180.0) else angles[i])
  }

  /** The vertex list of one face: three ids for a triangle, four for a quad. */
  function FaceVertices(f: Face): (ids: seq<int>)
    ensures |ids| == (if IsQuad(f) then 4 else 3)
    ensures ids[..3] == [f.a, f.b, f.c]
    ensures IsQuad(f) ==> ids[3] == f.d
  {
    if IsQuad(f) then [f.a, f.b, f.c, f.d] else [f.a, f.b, f.c]
  }

  function FacesVertices(faces: seq<Face>): (fv: seq<seq<int>>)
    ensures |fv| == |faces|
    ensures forall i :: 0 <= i < |fv| ==> fv[i] == FaceVertices(faces[i])
  {
    seq(|faces|, i requires 0 <= i < |faces| => FaceVertices(faces[i]))
  }

  /** The FOLD constructor. None when the measured angles are fewer than
      the edges that are not 'B'. */
  function FromMesh(m: Source, unit: UnitSystem, mvFullFold: bool): (r: Option<Fold>)
    ensures r.Some? <==> |InnerAssignment(m.labels)| <= |m.foldAngles|
    ensures r.Some? ==>
              r.value.fileClasses == ["singleModel"] && r.value.fileCreator == "Crane"
              && r.value.fileSpec == 1.1 && r.value.frameClasses == ["foldedForm"]
              && r.value.frameUnit == ParseUnit(unit)
              && |r.value.verticesCoords| == |m.verts| && |r.value.edgesVertices| == |m.edges|
              && |r.value.edgesAssignment| == |m.labels| && |r.value.edgesFoldAngle| == |m.labels|
              && |r.value.facesVertices| == |m.faces|
  {
    var degrees := FoldAngleDegrees(m.labels, m.foldAngles);
    if degrees.None? then None
    else
      var angles := if mvFullFold then FullFold(m.labels, degrees.value) else degrees.value;
      Some(Fold(["singleModel"], "Crane", 1.1, ["foldedForm"], ParseUnit(unit),
                Coords(m.verts), EdgesVertices(m.edges), Assignments(m.labels), angles,
                FacesVertices(m.faces)))
  }

  /** Written fold angles: null exactly on boundary edges; with the full
      fold switch, +-180 on valley and mountain edges; otherwise the
      measured angle in degrees. */
  lemma FromMeshFoldAngles(m: Source, unit: UnitSystem, mvFullFold: bool, i: int)
    requires |InnerAssignment(m.labels)| <= |m.foldAngles| && 0 <= i < |m.labels|
    ensures m.labels[i] != 'B' ==> |InnerAssignment(m.labels[..i])| < |m.foldAngles|
    ensures var a := FromMesh(m, unit, mvFullFold).value.edgesFoldAngle[i];
            (a.None? <==> m.labels[i] == 'B')
            && (mvFullFold && m.labels[i] == 'M' ==> a == Some(-180.0))
            && (mvFullFold && m.labels[i] == 'V' ==> a == Some(180.0))
            && (m.labels[i] != 'B' && !(mvFullFold && m.labels[i] in {'M', 'V'}) ==>
                  a.Some? && a.value * Pi == 180.0 * m.foldAngles[|InnerAssignment(m.labels[..i])|])
  {
    var degrees := FoldAngleDegrees(m.labels, m.foldAngles).value;
    assert AngleAt(m.labels, m.foldAngles, degrees, i);
  }

  // ------------------------------------------------------------- read back

  /** ToPoint3d: the first three entries of a coordinate array; an array
      with fewer is the source's index error. */
  function ToPoint(coord: seq<real>): (p: Option<Point>)
    ensures p.Some? <==> |coord| >= 3
    ensures p.Some? ==> p.value == Point(coord[0], coord[1], coord[2])
  {
    if |coord| >= 3 then Some(Point(coord[0], coord[1], coord[2])) else None
  }

  /** The vertices of every coordinate array, or None at the first bad one. */
  function ReadVertices(coords: seq<seq<real>>): (r: Option<seq<Point>>)
    ensures r.Some? <==> forall i :: 0 <= i < |coords| ==> |coords[i]| >= 3
    ensures r.Some? ==>
              (|r.value| == |coords| && forall i :: 0 <= i < |coords| ==> Some(r.value[i]) == ToPoint(coords[i]))
  {
    if |coords| == 0 then Some([])
    else
      var n := |coords| - 1;
      var prev := ReadVertices(coords[..n]);
      var p := ToPoint(coords[n]);
      if prev.None? then
        assert exists i :: 0 <= i < n && |coords[..n][i]| < 3;
        None
      else if p.None? then None
      else Some(prev.value + [p.value])
  }

  /** The faces of every vertex list, or None at the first list whose
      length is not 3 or 4. */
  function ReadFaces(fv: seq<seq<int>>): (r: Option<seq<Face>>)
    ensures r.Some? <==> forall i :: 0 <= i < |fv| ==> |fv[i]| == 3 || |fv[i]| == 4
    ensures r.Some? ==>
              (|r.value| == |fv| && forall i :: 0 <= i < |fv| ==> Some(r.value[i]) == ToMeshFace(fv[i]))
  {
    if |fv| == 0 then Some([])
    else
      var n := |fv| - 1;
      var prev := ReadFaces(fv[..n]);
      var f := ToMeshFace(fv[n]);
      if prev.None? then
        assert exists i :: 0 <= i < n && !(|fv[..n][i]| == 3 || |fv[..n][i]| == 4);
        None
      else if f.None? then None
      else Some(prev.value + [f.value])
  }

  /** An edge whose assignment names a line must have two vertex ids that
      index the vertex list. */
  predicate ReadableEdge(e: seq<int>, vertexCount: int)
  {
    |e| >= 2 && 0 <= e[0] < vertexCount && 0 <= e[1] < vertexCount
  }

  /** The lines of one assignment, as vertex pairs in edge order. None
      when one of them is not a readable edge. */
  function LinesOf(assignment: seq<string>, ev: seq<seq<int>>, s: string, vertexCount: int): (r: Option<seq<(int, int)>>)
    requires |ev| == |assignment|
    ensures r.Some? <==> forall i :: 0 <= i < |ev| && assignment[i] == s ==> ReadableEdge(ev[i], vertexCount)
    ensures r.Some? ==> |r.value| <= |ev|
  {
    if |ev| == 0 then Some([])
    else
      var n := |ev| - 1;
      var prev := LinesOf(assignment[..n], ev[..n], s, vertexCount);
      if prev.None? then
        assert exists i :: 0 <= i < n && assignment[..n][i] == s && !ReadableEdge(ev[..n][i], vertexCount);
        None
      else if assignment[n] != s then Some(prev.value)
      else if ReadableEdge(ev[n], vertexCount) then Some(prev.value + [(ev[n][0], ev[n][1])])
      else None
  }

  /** What ToCMesh passes on to the CMesh constructor: the vertices, the
      faces and the mountain, valley and triangulation lines. */
  datatype Read = Read(verts: seq<Point>, faces: seq<Face>,
                       mountain: seq<(int, int)>, valley: seq<(int, int)>, flat: seq<(int, int)>)

  /** ToCMesh. Assignments other than "M", "V" and "F" are ignored. The
      loop runs over the assignments, so edge vertex lists beyond them are
      never read, and a line assignment with no vertex list fails (the
      source throws there). */
  function ToCMesh(f: Fold): (r: Option<Read>)
    ensures r.Some? ==> |r.value.verts| == |f.verticesCoords| && |r.value.faces| == |f.facesVertices|
    ensures r.Some? <==>
              (forall i :: 0 <= i < |f.verticesCoords| ==> |f.verticesCoords[i]| >= 3)
              && (forall i :: 0 <= i < |f.facesVertices| ==> |f.facesVertices[i]| == 3 || |f.facesVertices[i]| == 4)
              && (forall i :: 0 <= i < |f.edgesAssignment| && f.edgesAssignment[i] in {"M", "V", "F"} ==>
                    i < |f.edgesVertices| && ReadableEdge(f.edgesVertices[i], |f.verticesCoords|))
  {
    var asg := f.edgesAssignment;
    var k := if |asg| <= |f.edgesVertices| then |asg| else |f.edgesVertices|;
    var ev := f.edgesVertices[..k];
    var verts := ReadVertices(f.verticesCoords);
    var faces := ReadFaces(f.facesVertices);
    var n := |f.verticesCoords|;
    var m := LinesOf(asg[..k], ev, "M", n);
    var v := LinesOf(asg[..k], ev, "V", n);
    var t := LinesOf(asg[..k], ev, "F", n);
    var unread := exists i :: k <= i < |asg| && asg[i] in {"M", "V", "F"};
    assert unread ==> exists i :: 0 <= i < |asg| && asg[i] in {"M", "V", "F"} && i >= |f.edgesVertices|;
    if verts.Some? && faces.Some? && m.Some? && v.Some? && t.Some? && !unread then
      Some(Read(verts.value, faces.value, m.value, v.value, t.value))
    else None
  }

  // ----------------------------------------------------------- round trip

  /** The topology edges carrying label `c`, in edge order. */
  function EdgesLabelled(edges: seq<(int, int)>, labels: seq<char>, c: char): (r: seq<(int, int)>)
    requires |labels| == |edges|
    ensures forall e :: e in r ==> e in edges
  {
    if |edges| == 0 then []
    else
      var n := |edges| - 1;
      EdgesLabelled(edges[..n], labels[..n], c) + (if labels[n] == c then [edges[n]] else [])
  }

  /** A mesh the constructor can write: a label per edge, edges between
      existing vertices and enough measured angles. */
  predicate Writable(m: Source)
  {
    |m.labels| == |m.edges| && |InnerAssignment(m.labels)| <= |m.foldAngles|
    && forall i :: 0 <= i < |m.edges| ==> 0 <= m.edges[i].0 < |m.verts| && 0 <= m.edges[i].1 < |m.verts|
  }

  /** Reading the lines of assignment `s` back from written labels gives
      the edges whose label writes as `s`. */
  lemma {:induction false} LinesOfWritten(edges: seq<(int, int)>, labels: seq<char>, c: char, vertexCount: int)
    requires |labels| == |edges| && c != 'T' && c != 'F'
    requires forall i :: 0 <= i < |edges| ==> 0 <= edges[i].0 < vertexCount && 0 <= edges[i].1 < vertexCount
    ensures LinesOf(Assignments(labels), EdgesVertices(edges), [c], vertexCount) == Some(EdgesLabelled(edges, labels, c))
  {
    if |edges| > 0 {
      var n := |edges| - 1;
      assert Assignments(labels)[..n] == Assignments(labels[..n]);
      assert EdgesVertices(edges)[..n] == EdgesVertices(edges[..n]);
      LinesOfWritten(edges[..n], labels[..n], c, vertexCount);
      var ev := EdgesVertices(edges);
      var asg := Assignments(labels);
      assert ev[n] == [edges[n].0, edges[n].1];
      assert ReadableEdge(ev[n], vertexCount);
      assert ev[..n] == EdgesVertices(edges[..n]) && asg[..n] == Assignments(labels[..n]);
      assert edges[..n] + [edges[n]] == edges;
      assert Assignments(labels)[n] == [c] <==> labels[n] == c;
      var prev := LinesOf(asg[..n], ev[..n], [c], vertexCount);
      assert prev == Some(EdgesLabelled(edges[..n], labels[..n], c));
      assert LinesOf(asg, ev, [c], vertexCount)
             == if asg[n] != [c] then Some(prev.value) else Some(prev.value + [(ev[n][0], ev[n][1])]);
      assert EdgesLabelled(edges, labels, c)
             == EdgesLabelled(edges[..n], labels[..n], c) + (if labels[n] == c then [edges[n]] else []);
      assert (ev[n][0], ev[n][1]) == edges[n];
      if labels[n] != c {
        assert EdgesLabelled(edges, labels, c) == EdgesLabelled(edges[..n], labels[..n], c);
      }
    }
  }

  /** The flat lines read back are the edges labelled 'T'. */
  lemma {:induction false} FlatLinesOfWritten(edges: seq<(int, int)>, labels: seq<char>, vertexCount: int)
    requires |labels| == |edges| && forall i :: 0 <= i < |labels| ==> labels[i] != 'F'
    requires forall i :: 0 <= i < |edges| ==> 0 <= edges[i].0 < vertexCount && 0 <= edges[i].1 < vertexCount
    ensures LinesOf(Assignments(labels), EdgesVertices(edges), "F", vertexCount) == Some(EdgesLabelled(edges, labels, 'T'))
  {
    if |edges| > 0 {
      var n := |edges| - 1;
      assert Assignments(labels)[..n] == Assignments(labels[..n]);
      assert EdgesVertices(edges)[..n] == EdgesVertices(edges[..n]);
      FlatLinesOfWritten(edges[..n], labels[..n], vertexCount);
      var ev := EdgesVertices(edges);
      var asg := Assignments(labels);
      assert ev[n] == [edges[n].0, edges[n].1];
      assert ReadableEdge(ev[n], vertexCount);
      assert ev[..n] == EdgesVertices(edges[..n]) && asg[..n] == Assignments(labels[..n]);
      assert edges[..n] + [edges[n]] == edges;
      assert Assignments(labels)[n] == "F" <==> labels[n] == 'T';
      var prev := LinesOf(asg[..n], ev[..n], "F", vertexCount);
      assert prev == Some(EdgesLabelled(edges[..n], labels[..n], 'T'));
      assert LinesOf(asg, ev, "F", vertexCount)
             == if asg[n] != "F" then Some(prev.value) else Some(prev.value + [(ev[n][0], ev[n][1])]);
      assert EdgesLabelled(edges, labels, 'T')
             == EdgesLabelled(edges[..n], labels[..n], 'T') + (if labels[n] == 'T' then [edges[n]] else []);
      assert (ev[n][0], ev[n][1]) == edges[n];
      if labels[n] != 'T' {
        assert EdgesLabelled(edges, labels, 'T') == EdgesLabelled(edges[..n], labels[..n], 'T');
      }
    }
  }

  /** Writing a mesh and reading it back gives its vertices and faces, and
      as lines exactly its mountain, valley and triangulation edges, in
      edge order. A label 'F' of the mesh's own would read back as flat;
      the labels SetCMeshFromMVT produces never use it. */
  lemma WriteThenRead(m: Source, unit: UnitSystem, mvFullFold: bool)
    requires Writable(m)
    requires forall i :: 0 <= i < |m.labels| ==> m.labels[i] != 'F'
    ensures FromMesh(m, unit, mvFullFold).Some?
    ensures ToCMesh(FromMesh(m, unit, mvFullFold).value)
            == Some(Read(m.verts, m.faces,
                         EdgesLabelled(m.edges, m.labels, 'M'),
                         EdgesLabelled(m.edges, m.labels, 'V'),
                         EdgesLabelled(m.edges, m.labels, 'T')))
  {
    var f := FromMesh(m, unit, mvFullFold).value;
    var n := |m.verts|;
    var verts := ReadVertices(f.verticesCoords).value;
    assert verts == m.verts;
    var faces := ReadFaces(f.facesVertices).value;
    forall i | 0 <= i < |faces|
      ensures faces[i] == m.faces[i]
    {
      var g := m.faces[i];
      assert Some(faces[i]) == ToMeshFace(FaceVertices(g));
    }
    assert faces == m.faces;
    LinesOfWritten(m.edges, m.labels, 'M', n);
    LinesOfWritten(m.edges, m.labels, 'V', n);
    FlatLinesOfWritten(m.edges, m.labels, n);
    assert |f.edgesAssignment| == |f.edgesVertices|;
    assert f.edgesAssignment[..|f.edgesAssignment|] == f.edgesAssignment;
    assert f.edgesVertices[..|f.edgesAssignment|] == f.edgesVertices;
  }
}
