/** The OBJ model loader (`ObjLoader` in src/frontend/sceneserializable.cpp):
    the lines of the file are classified, positions, texture coordinates
    and normals are collected, every face is triangulated as a fan, the
    triangles are built from consecutive index triples and the bounding
    box is scanned from the positions. */
module ObjLoading {
  import opened Vector3D
  import opened Shapes

  /** A face corner `position/texcoord/normal`, as `toIndices` reads it
      (1-based indices; 0 is what an unreadable number gives). */
  datatype Corner = Corner(position: nat, texcoord: nat, normal: nat)

  datatype Vertex = Vertex(position: Vec3D, normal: Vec3D, texCoords: Vec3D)

  datatype Triangle = Triangle(a: Vertex, b: Vertex, c: Vertex)

  /** The string helpers of the loader (`fromObjLine`, `toIndicesDescriptor`,
      `toIndices`), which split Qt strings and convert numbers. */
  datatype ObjSyntax = ObjSyntax(vector: (string, string) -> Vec3D,
                                 descriptors: (string, string) -> seq<string>,
                                 corner: string -> Corner)

  /** The loader's translation and scale of model positions. */
  datatype Placement = Placement(translation: Vec3D, scale: Vec3D)

  datatype Command = Comment | PositionCmd | TexCoordCmd | NormalCmd | FaceCmd | Unsupported

  predicate StartsWith(s: string, prefix: string)
  {
    |prefix| <= |s| && s[..|prefix|] == prefix
  }

  /** The `if` chain over a line: a `#` anywhere makes it a comment, then
      the prefixes `v `, `vt `, `vn ` and `f ` are tried in that order. */
  function Classify(command: string): Command
  {
    if '#' in command then Comment
    else if StartsWith(command, "v ") then PositionCmd
    else if StartsWith(command, "vt ") then TexCoordCmd
    else if StartsWith(command, "vn ") then NormalCmd
    else if StartsWith(command, "f ") then FaceCmd
    else Unsupported
  }

  /** The prefixes do not shadow each other: a line is a texture or normal
      line exactly when it has that prefix and no `#`. */
  lemma ClassifyPrefixes(command: string)
    ensures Classify(command) == TexCoordCmd <==> '#' !in command && StartsWith(command, "vt ")
    ensures Classify(command) == NormalCmd <==> '#' !in command && StartsWith(command, "vn ")
    ensures Classify(command) == FaceCmd <==> '#' !in command && StartsWith(command, "f ")
    ensures Classify(command) == PositionCmd <==> '#' !in command && StartsWith(command, "v ")
  {
    if StartsWith(command, "vt ") || StartsWith(command, "vn ") {
      assert command[1] != ' ';
      assert !StartsWith(command, "v ");
      assert !StartsWith(command, "f ");
    }
    if StartsWith(command, "vt ") {
      assert command[1] == 't';
      assert !StartsWith(command, "vn ");
    }
    if StartsWith(command, "f ") {
      assert command[0] == 'f';
      assert !StartsWith(command, "v ");
      assert !StartsWith(command, "vt ");
      assert !StartsWith(command, "vn ");
    }
  }

  /** The local lists the reading loop fills. */
  datatype ObjState = ObjState(positions: seq<Vec3D>, normals: seq<Vec3D>, texCoords: seq<Vec3D>,
                               vertices: seq<Vertex>, indices: seq<nat>)

  function Initial(): ObjState { ObjState([], [], [], [], []) }

  /** A corner may be looked up: each list that is not empty is indexed
      1-based, so its index must lie in 1..size (index 0 wraps around the
      unsigned subtraction and reads past the end). */
  predicate CornerDefined(st: ObjState, c: Corner)
  {
    (st.positions != [] ==> 1 <= c.position <= |st.positions|) &&
    (st.normals != [] ==> 1 <= c.normal <= |st.normals|) &&
    (st.texCoords != [] ==> 1 <= c.texcoord <= |st.texCoords|)
  }

  /** The vertex of a corner: a default (zero) component where the list is
      empty, otherwise the entry one before the 1-based index. */
  function CornerVertex(st: ObjState, c: Corner): Vertex
    requires CornerDefined(st, c)
  {
    Vertex(if st.positions != [] then st.positions[c.position - 1] else Zero(),
           if st.normals != [] then st.normals[c.normal - 1] else Zero(),
           if st.texCoords != [] then st.texCoords[c.texcoord - 1] else Zero())
  }

  function FaceCorners(command: string, syntax: ObjSyntax): seq<Corner>
  {
    var descs := syntax.descriptors(command, "f");
    seq(|descs|, i requires 0 <= i < |descs| => syntax.corner(descs[i]))
  }

  predicate CornersDefined(st: ObjState, corners: seq<Corner>)
  {
    forall i :: 0 <= i < |corners| ==> CornerDefined(st, corners[i])
  }

  function CornerVertices(st: ObjState, corners: seq<Corner>): seq<Vertex>
    requires CornersDefined(st, corners)
  {
    seq(|corners|, i requires 0 <= i < |corners| => CornerVertex(st, corners[i]))
  }

  /** The indices the fan loop appends for a face of `n` corners whose
      first vertex is stored at `base`: every corner pushes its own
      index, and from the fourth corner on the first and the previous
      index are pushed before it. */
  function FanIndices(base: nat, n: nat): seq<nat>
  {
    if n == 0 then []
    else FanIndices(base, n - 1) + (if n - 1 > 2 then [base, base + n - 2] else []) + [base + n - 1]
  }

  /** A face of n >= 3 corners gives 3(n - 2) indices; a shorter one
      gives one index per corner. */
  lemma {:induction false} FanLength(base: nat, n: nat)
    ensures n >= 3 ==> |FanIndices(base, n)| == 3 * (n - 2)
    ensures n < 3 ==> |FanIndices(base, n)| == n
  {
    if n > 0 {
      FanLength(base, n - 1);
    }
  }

  /** Every index of the fan names one of the face's own vertices. */
  lemma {:induction false} FanBounds(base: nat, n: nat)
    ensures forall i :: 0 <= i < |FanIndices(base, n)| ==>
              base <= FanIndices(base, n)[i] < base + n
  {
    if n > 0 {
      FanBounds(base, n - 1);
    }
  }

  /** Consecutive index triples. */
  function Triples(indices: seq<nat>): seq<(nat, nat, nat)>
  {
    if |indices| < 3 then [] else [(indices[0], indices[1], indices[2])] + Triples(indices[3..])
  }

  lemma {:induction false} TriplesAppend(a: seq<nat>, b: seq<nat>)
    requires |a| % 3 == 0
    ensures Triples(a + b) == Triples(a) + Triples(b)
    decreases |a|
  {
    if |a| >= 3 {
      assert (a + b)[3..] == a[3..] + b;
      TriplesAppend(a[3..], b);
    } else {
      assert a == [];
      assert a + b == b;
    }
  }

  /** The fan: triangle t of a face is (first, t + 1-th, t + 2-th
      corner's vertex), so each triangle after the first is the first
      vertex, the previous one and the current one. */
  lemma {:induction false} FanTriangles(base: nat, n: nat)
    requires n >= 3
    ensures Triples(FanIndices(base, n)) == seq(n - 2, t requires 0 <= t < n - 2 => (base, base + t + 1, base + t + 2))
  {
    if n == 3 {
      assert FanIndices(base, 1) == [base];
      assert FanIndices(base, 2) == [base, base + 1];
      assert FanIndices(base, 3) == [base, base + 1, base + 2];
      assert Triples([base, base + 1, base + 2][3..]) == [];
    } else {
      FanTriangles(base, n - 1);
      FanLength(base, n - 1);
      var step: seq<nat> := [base, base + n - 2, base + n - 1];
      assert FanIndices(base, n) == FanIndices(base, n - 1) + step;
      TriplesAppend(FanIndices(base, n - 1), step);
      assert Triples(step[3..]) == [];
    }
  }

  /** One line of the file, as the body of the reading loop handles it;
      `None` where a face corner reads outside a list (undefined
      behaviour in C++). */
  function Step(st: ObjState, command: string, syntax: ObjSyntax, place: Placement): Option<ObjState>
  {
    match Classify(command)
    case PositionCmd =>
      Some(st.(positions := st.positions + [Add(Scale3D(syntax.vector(command, "v"), place.scale), place.translation)]))
    case TexCoordCmd => Some(st.(texCoords := st.texCoords + [syntax.vector(command, "vt")]))
    case NormalCmd => Some(st.(normals := st.normals + [syntax.vector(command, "vn")]))
    case FaceCmd =>
      var corners := FaceCorners(command, syntax);
      if CornersDefined(st, corners) then
        Some(st.(vertices := st.vertices + CornerVertices(st, corners),
                 indices := st.indices + FanIndices(|st.vertices|, |corners|)))
      else None
    case _ => Some(st)
  }

  /** The lists after handling `lines` in order, from empty lists. */
  function Fold(lines: seq<string>, syntax: ObjSyntax, place: Placement): Option<ObjState>
  {
    if lines == [] then Some(Initial())
    else
      var before := Fold(lines[..|lines| - 1], syntax, place);
      if before.None? then None else Step(before.value, lines[|lines| - 1], syntax, place)
  }

  /** A file that can be read can be read up to any line. */
  lemma {:induction false} FoldPrefix(lines: seq<string>, k: nat, syntax: ObjSyntax, place: Placement)
    requires k <= |lines|
    requires Fold(lines, syntax, place).Some?
    ensures Fold(lines[..k], syntax, place).Some?
    decreases |lines|
  {
    if k < |lines| {
      var init := lines[..|lines| - 1];
      FoldPrefix(init, k, syntax, place);
      assert init[..k] == lines[..k];
    } else {
      assert lines[..k] == lines;
    }
  }

  predicate IndicesBounded(st: ObjState)
  {
    forall i :: 0 <= i < |st.indices| ==> st.indices[i] < |st.vertices|
  }

  /** Every index the loader stores names a stored vertex. */
  lemma {:induction false} FoldIndicesBounded(lines: seq<string>, syntax: ObjSyntax, place: Placement)
    requires Fold(lines, syntax, place).Some?
    ensures IndicesBounded(Fold(lines, syntax, place).value)
  {
    if lines != [] {
      var init := lines[..|lines| - 1];
      FoldIndicesBounded(init, syntax, place);
      var st := Fold(init, syntax, place).value;
      var command := lines[|lines| - 1];
      if Classify(command) == FaceCmd {
        var corners := FaceCorners(command, syntax);
        FanBounds(|st.vertices|, |corners|);
        var next := Fold(lines, syntax, place).value;
        assert next.indices == st.indices + FanIndices(|st.vertices|, |corners|);
        assert |next.vertices| == |st.vertices| + |corners|;
        forall i | 0 <= i < |next.indices|
          ensures next.indices[i] < |next.vertices|
        {
          if i >= |st.indices| {
            assert next.indices[i] == FanIndices(|st.vertices|, |corners|)[i - |st.indices|];
          }
        }
      }
    }
  }

  /** The lines the source's `for (;;)` loop handles: it reads a line and
      stops as soon as the file is at its end, before handling that
      line. */
  function HandledAsWritten(lines: seq<string>): seq<string>
  {
    if lines == [] then [] else lines[..|lines| - 1]
  }

  /** The triangles built from consecutive index triples. */
  function TrianglesOf(vertices: seq<Vertex>, indices: seq<nat>): seq<Triangle>
    requires forall i :: 0 <= i < |indices| ==> indices[i] < |vertices|
  {
    if |indices| < 3 then []
    else [Triangle(vertices[indices[0]], vertices[indices[1]], vertices[indices[2]])] +
         TrianglesOf(vertices, indices[3..])
  }

  /** There are `indices.size() / 3` triangles, one per index triple, in
      order. */
  lemma {:induction false} TrianglesOfTriples(vertices: seq<Vertex>, indices: seq<nat>)
    requires forall i :: 0 <= i < |indices| ==> indices[i] < |vertices|
    ensures |TrianglesOf(vertices, indices)| == |indices| / 3 == |Triples(indices)|
    ensures forall t :: 0 <= t < |Triples(indices)| ==>
              var (a, b, c) := Triples(indices)[t];
              a < |vertices| && b < |vertices| && c < |vertices| &&
              TrianglesOf(vertices, indices)[t] == Triangle(vertices[a], vertices[b], vertices[c])
    decreases |indices|
  {
    if |indices| >= 3 {
      TrianglesOfTriples(vertices, indices[3..]);
    }
  }

  /** The running minimum and maximum of the bounding-box scan. */
  function MinCorner(ps: seq<Vec3D>): Vec3D
  {
    if ps == [] then Zero()
    else
      var b, p := MinCorner(ps[..|ps| - 1]), ps[|ps| - 1];
      Vec3D(Min(p.x, b.x), Min(p.y, b.y), Min(p.z, b.z))
  }

  function MaxCorner(ps: seq<Vec3D>): Vec3D
  {
    if ps == [] then Zero()
    else
      var b, p := MaxCorner(ps[..|ps| - 1]), ps[|ps| - 1];
      Vec3D(Max(p.x, b.x), Max(p.y, b.y), Max(p.z, b.z))
  }

  predicate Below(a: Vec3D, b: Vec3D)
  {
    a.x <= b.x && a.y <= b.y && a.z <= b.z
  }

  /** Starting from the zero vector, the box encloses the origin and every
      position. */
  lemma {:induction false} BoxEncloses(ps: seq<Vec3D>)
    ensures Below(MinCorner(ps), Zero()) && Below(Zero(), MaxCorner(ps))
    ensures forall i :: 0 <= i < |ps| ==> Below(MinCorner(ps), ps[i]) && Below(ps[i], MaxCorner(ps))
  {
    if ps != [] {
      var init := ps[..|ps| - 1];
      BoxEncloses(init);
      forall i | 0 <= i < |ps| - 1
        ensures Below(MinCorner(ps), ps[i]) && Below(ps[i], MaxCorner(ps))
      {
        assert ps[i] == init[i];
      }
    }
  }

  /** Each corner component is zero or the component of some position, so
      the box is the componentwise minimum and maximum of zero and the
      positions. */
  lemma {:induction false} BoxTight(ps: seq<Vec3D>)
    ensures MinCorner(ps).x == 0.0 || exists i :: 0 <= i < |ps| && ps[i].x == MinCorner(ps).x
    ensures MinCorner(ps).y == 0.0 || exists i :: 0 <= i < |ps| && ps[i].y == MinCorner(ps).y
    ensures MinCorner(ps).z == 0.0 || exists i :: 0 <= i < |ps| && ps[i].z == MinCorner(ps).z
    ensures MaxCorner(ps).x == 0.0 || exists i :: 0 <= i < |ps| && ps[i].x == MaxCorner(ps).x
    ensures MaxCorner(ps).y == 0.0 || exists i :: 0 <= i < |ps| && ps[i].y == MaxCorner(ps).y
    ensures MaxCorner(ps).z == 0.0 || exists i :: 0 <= i < |ps| && ps[i].z == MaxCorner(ps).z
  {
    if ps != [] {
      var init := ps[..|ps| - 1];
      BoxTight(init);
      forall i | 0 <= i < |init|
        ensures ps[i] == init[i]
      {
      }
    }
  }

  /** The `foreach` over a face's descriptors: one vertex per corner. */
  method FaceVertices(st: ObjState, command: string, syntax: ObjSyntax) returns (faceVertices: seq<Vertex>)
    requires CornersDefined(st, FaceCorners(command, syntax))
    ensures faceVertices == CornerVertices(st, FaceCorners(command, syntax))
  {
    var descs := syntax.descriptors(command, "f");
    ghost var corners := FaceCorners(command, syntax);
    faceVertices := [];
    var k := 0;
    while k < |descs|
      invariant 0 <= k <= |descs|
      invariant faceVertices == CornerVertices(st, corners)[..k]
    {
      var corner := syntax.corner(descs[k]);
      assert corner == corners[k];
      faceVertices := faceVertices + [CornerVertex(st, corner)];
      k := k + 1;
    }
  }

  /** The triangle-fan loop over a face's vertices, with the face's own
      index buffer `faceIndices`. */
  method AppendFan(vertices: seq<Vertex>, indices: seq<nat>, faceVertices: seq<Vertex>)
    returns (vs: seq<Vertex>, ixs: seq<nat>)
    ensures vs == vertices + faceVertices
    ensures ixs == indices + FanIndices(|vertices|, |faceVertices|)
  {
    var count := |faceVertices|;
    var faceIndices := new nat[count];
    vs, ixs := vertices, indices;
    var idx := 0;
    while idx < count
      invariant 0 <= idx <= count
      invariant vs == vertices + faceVertices[..idx]
      invariant ixs == indices + FanIndices(|vertices|, idx)
      invariant forall j :: 0 <= j < idx ==> faceIndices[j] == |vertices| + j
    {
      if idx > 2 {
        ixs := ixs + [faceIndices[0]];
        ixs := ixs + [faceIndices[idx - 1]];
      }
      faceIndices[idx] := |vs|;
      vs := vs + [faceVertices[idx]];
      ixs := ixs + [faceIndices[idx]];
      assert faceVertices[..idx + 1] == faceVertices[..idx] + [faceVertices[idx]];
      idx := idx + 1;
    }
    assert faceVertices[..idx] == faceVertices;
  }

  /** The body of the reading loop for one line. */
  method HandleLine(st: ObjState, command: string, syntax: ObjSyntax, place: Placement) returns (next: ObjState)
    requires Step(st, command, syntax, place).Some?
    ensures next == Step(st, command, syntax, place).value
  {
    next := st;
    var kind := Classify(command);
    if kind == PositionCmd {
      var modelPosition := Add(Scale3D(syntax.vector(command, "v"), place.scale), place.translation);
      next := next.(positions := next.positions + [modelPosition]);
    } else if kind == TexCoordCmd {
      next := next.(texCoords := next.texCoords + [syntax.vector(command, "vt")]);
    } else if kind == NormalCmd {
      next := next.(normals := next.normals + [syntax.vector(command, "vn")]);
    } else if kind == FaceCmd {
      var faceVertices := FaceVertices(st, command, syntax);
      var vs, ixs := AppendFan(next.vertices, next.indices, faceVertices);
      next := next.(vertices := vs, indices := ixs);
    }
  }

  /** The reading loop over every line of the file. */
  method ReadCommands(lines: seq<string>, syntax: ObjSyntax, place: Placement) returns (st: ObjState)
    requires Fold(lines, syntax, place).Some?
    ensures st == Fold(lines, syntax, place).value
  {
    st := Initial();
    var pos := 0;
    while pos < |lines|
      invariant 0 <= pos <= |lines|
      invariant Fold(lines[..pos], syntax, place) == Some(st)
    {
      FoldPrefix(lines, pos + 1, syntax, place);
      assert lines[..pos + 1][..pos] == lines[..pos];
      st := HandleLine(st, lines[pos], syntax, place);
      pos := pos + 1;
    }
    assert lines[..pos] == lines;
  }

  /** The reading loop as the source writes it: `readLine`, then leave as
      soon as `atEnd` holds, so the line read last is never handled.
      `lines` are the lines `readLine` returns, the file being at its end
      right after the last of them. */
  method ReadCommandsAsWritten(lines: seq<string>, syntax: ObjSyntax, place: Placement) returns (st: ObjState)
    requires Fold(HandledAsWritten(lines), syntax, place).Some?
    ensures st == Fold(HandledAsWritten(lines), syntax, place).value
  {
    ghost var handled := HandledAsWritten(lines);
    st := Initial();
    var pos := 0;
    while true
      invariant 0 <= pos <= |lines| && (pos < |lines| ==> pos <= |handled|)
      invariant pos <= |handled| && Fold(handled[..pos], syntax, place) == Some(st)
      decreases |lines| - pos
    {
      var command := if pos < |lines| then lines[pos] else "";
      var atEnd := pos + 1 >= |lines|;
      if atEnd {
        break;
      }
      assert handled[..pos + 1][..pos] == handled[..pos];
      FoldPrefix(handled, pos + 1, syntax, place);
      st := HandleLine(st, command, syntax, place);
      pos := pos + 1;
    }
    assert handled[..pos] == handled;
  }

  /** The line `f 1 2 3` is a face line. */
  lemma FaceLine()
    ensures Classify("f 1 2 3") == FaceCmd
  {
    assert "f 1 2 3"[0] != 'v';
    assert "f 1 2 3"[..2] == "f ";
  }

  /** The dropped line, exhibited: when a readable file ends with a face
      line of at least one corner, reading as written stores fewer
      vertices and fewer indices than handling every line, so the last
      face is lost (one triangle for a file ending in `f 1 2 3`). */
  lemma {:induction false} LastFaceDropped(lines: seq<string>, syntax: ObjSyntax, place: Placement)
    requires lines != [] && Fold(lines, syntax, place).Some?
    requires Classify(lines[|lines| - 1]) == FaceCmd && FaceCorners(lines[|lines| - 1], syntax) != []
    ensures Fold(HandledAsWritten(lines), syntax, place).Some?
    ensures |Fold(HandledAsWritten(lines), syntax, place).value.vertices| <
            |Fold(lines, syntax, place).value.vertices|
    ensures |Fold(HandledAsWritten(lines), syntax, place).value.indices| <
            |Fold(lines, syntax, place).value.indices|
  {
    FoldPrefix(lines, |lines| - 1, syntax, place);
    var st := Fold(lines[..|lines| - 1], syntax, place).value;
    FanLength(|st.vertices|, |FaceCorners(lines[|lines| - 1], syntax)|);
  }

  /** `ObjLoader`: the translation and scale it was built with, the
      triangles it has read and the bounding box of the last file. */
  class ObjLoader {
    const translation: Vec3D
    const scale: Vec3D
    var triangles: seq<Triangle>
    var bboxMin: Vec3D
    var bboxMax: Vec3D

    constructor (translation: Vec3D, scale: Vec3D)
      ensures this.translation == translation && this.scale == scale
      ensures triangles == [] && bboxMin == Zero() && bboxMax == Zero()
    {
      this.translation := translation;
      this.scale := scale;
      triangles := [];
      bboxMin, bboxMax := Zero(), Zero();
    }

    /** The loop building triangles from consecutive index triples. */
    method AppendTriangles(vertices: seq<Vertex>, indices: seq<nat>)
      requires |indices| % 3 == 0
      requires forall i :: 0 <= i < |indices| ==> indices[i] < |vertices|
      modifies this
      ensures triangles == old(triangles) + TrianglesOf(vertices, indices)
      ensures bboxMin == old(bboxMin) && bboxMax == old(bboxMax)
    {
      var idx := 0;
      while idx < |indices|
        invariant 0 <= idx <= |indices| && idx % 3 == 0
        invariant triangles + TrianglesOf(vertices, indices[idx..]) == old(triangles) + TrianglesOf(vertices, indices)
        invariant bboxMin == old(bboxMin) && bboxMax == old(bboxMax)
      {
        var a := vertices[indices[idx]];
        var b := vertices[indices[idx + 1]];
        var c := vertices[indices[idx + 2]];
        assert indices[idx..][3..] == indices[idx + 3..];
        triangles := triangles + [Triangle(a, b, c)];
        idx := idx + 3;
      }
    }

    /** `read`: an unopened file fails and changes nothing; otherwise every
        line is handled, the triangles of all faces are appended and the
        bounding box is set from the positions. A file whose faces leave
        an index count that is not a multiple of three reads past the end
        of the index list (undefined behaviour). */
    method Read(isOpen: bool, lines: seq<string>, syntax: ObjSyntax) returns (ok: bool)
      requires isOpen ==> Fold(lines, syntax, Placement(translation, scale)).Some? &&
                          |Fold(lines, syntax, Placement(translation, scale)).value.indices| % 3 == 0
      modifies this
      ensures ok == isOpen
      ensures !isOpen ==> triangles == old(triangles) && bboxMin == old(bboxMin) && bboxMax == old(bboxMax)
      ensures isOpen ==>
                var st := Fold(lines, syntax, Placement(translation, scale)).value;
                IndicesBounded(st) &&
                triangles == old(triangles) + TrianglesOf(st.vertices, st.indices) &&
                bboxMin == MinCorner(st.positions) && bboxMax == MaxCorner(st.positions)
    {
      if !isOpen {
        return false;
      }
      var st := ReadCommands(lines, syntax, Placement(translation, scale));
      FoldIndicesBounded(lines, syntax, Placement(translation, scale));
      AppendTriangles(st.vertices, st.indices);
      bboxMin, bboxMax := ScanBox(st.positions);
      ok := true;
    }
  }

  /** The bounding-box scan: two vectors start at zero and each position
      lowers the first's and raises the second's components through the
      setters. */
  method ScanBox(positions: seq<Vec3D>) returns (lo: Vec3D, hi: Vec3D)
    ensures lo == MinCorner(positions) && hi == MaxCorner(positions)
  {
    var bboxMin := new Vec(Zero());
    var bboxMax := new Vec(Zero());
    var i := 0;
    while i < |positions|
      invariant 0 <= i <= |positions|
      invariant bboxMin.Value() == MinCorner(positions[..i])
      invariant bboxMax.Value() == MaxCorner(positions[..i])
    {
      var position := positions[i];
      assert positions[..i + 1][..i] == positions[..i];
      if position.x < bboxMin.Value().x { bboxMin.SetX(position.x); }
      if position.y < bboxMin.Value().y { bboxMin.SetY(position.y); }
      if position.z < bboxMin.Value().z { bboxMin.SetZ(position.z); }
      if position.x > bboxMax.Value().x { bboxMax.SetX(position.x); }
      if position.y > bboxMax.Value().y { bboxMax.SetY(position.y); }
      if position.z > bboxMax.Value().z { bboxMax.SetZ(position.z); }
      i := i + 1;
    }
    assert positions[..i] == positions;
    lo, hi := bboxMin.Value(), bboxMax.Value();
  }
}
