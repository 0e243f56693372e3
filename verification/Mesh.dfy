/** The arrays of PNTMeshViewer's mesh: buildTriangleMesh fills them, computeMesh updates points and
    normals in place when the function changes. */
module Mesh {
  import opened Grid
  import opened Surface

  /** Element `i` of the points array: three numbers per grid point. */
  function PointValue(s: Size, look: Look, f: real, i: int): real
    requires s.Ok()
  {
    Component(PointAt(s, look, f, PointVertex(s, i / 3)), i % 3)
  }

  lemma PointEntries(s: Size, look: Look, f: real, v: Vertex)
    requires s.Ok() && OnGrid(s, v)
    ensures var i, t := PointIndex(s, v) * 3, PointAt(s, look, f, v);
            && 0 <= i && i + 3 <= 3 * PointCount(s) && PointValue(s, look, f, i) == t.x
            && PointValue(s, look, f, i + 1) == t.y && PointValue(s, look, f, i + 2) == t.z
  {
    PointRoundTrip(s, v);
    hide PointIndex, PointVertex, PointCount, PointAt;
    var i := PointIndex(s, v) * 3;
    assert (i + 1) / 3 == PointIndex(s, v) && (i + 2) / 3 == PointIndex(s, v);
  }

  /** Element `i` of the texture coordinates: two numbers per grid point. */
  function TexValue(s: Size, i: int): real
    requires s.Ok()
  {
    if i % 2 == 0 then Share(PointVertex(s, i / 2).x, s.w) else Share(PointVertex(s, i / 2).y, s.h)
  }

  lemma TexEntries(s: Size, v: Vertex)
    requires s.Ok() && OnGrid(s, v)
    ensures var i := PointIndex(s, v) * 2;
            && 0 <= i && i + 2 <= 2 * PointCount(s)
            && TexValue(s, i) == Share(v.x, s.w) && TexValue(s, i + 1) == Share(v.y, s.h)
  {
    PointRoundTrip(s, v);
    hide PointIndex, PointVertex, PointCount, Share;
    var i := PointIndex(s, v) * 2;
    assert (i + 1) / 2 == PointIndex(s, v);
  }

  /** Element `i` of the faces array: nine numbers per face, point, normal and texture index by turns. */
  function FaceValue(s: Size, i: int): int
    requires s.Ok()
  {
    FaceEntry(s, i / 9, i % 9)
  }

  function FaceEntry(s: Size, k: int, r: int): int
    requires s.Ok()
  {
    if r % 3 == 1 then k else PointIndex(s, Corner(s, k, r / 3))
  }

  function FaceNormal(s: Size, look: Look, f: real, k: int): Triple
    requires s.Ok()
  {
    Normal(look, PointAt(s, look, f, Corner(s, k, 0)), PointAt(s, look, f, Corner(s, k, 1)),
           PointAt(s, look, f, Corner(s, k, 2)))
  }

  /** Element `i` of the normals array: face k owns normal k. */
  function NormalValue(s: Size, look: Look, f: real, i: int): real
    requires s.Ok()
  {
    Component(FaceNormal(s, look, f, i / 3), i % 3)
  }

  class TriangleMesh {
    const size: Size
    const look: Look
    const points: array<real>
    const texCoords: array<real>
    const normals: array<real>
    const faces: array<int>

    ghost predicate Valid() {
      && size.Ok()
      && points.Length == 3 * PointCount(size) && texCoords.Length == 2 * PointCount(size)
      && normals.Length == 3 * FaceCount(size) && faces.Length == 9 * FaceCount(size)
      && points != normals && points != texCoords && normals != texCoords
    }

    /** The first `n` points, texture coordinates, faces and normals are in place. */
    ghost predicate PointsUpTo(f: real, n: int)
      requires Valid()
      reads points
    {
      forall i :: 0 <= i < 3 * n && i < points.Length ==> points[i] == PointValue(size, look, f, i)
    }

    ghost predicate TexCoordsUpTo(n: int)
      requires Valid()
      reads texCoords
    {
      forall i :: 0 <= i < 2 * n && i < texCoords.Length ==> texCoords[i] == TexValue(size, i)
    }

    ghost predicate FacesUpTo(n: int)
      requires Valid()
      reads faces
    {
      forall i :: 0 <= i < 9 * n && i < faces.Length ==> faces[i] == FaceValue(size, i)
    }

    ghost predicate NormalsUpTo(f: real, n: int)
      requires Valid()
      reads normals
    {
      forall i :: 0 <= i < 3 * n && i < normals.Length ==> normals[i] == NormalValue(size, look, f, i)
    }

    /** The mesh shows the function value `f`. */
    ghost predicate Shows(f: real)
      requires Valid()
      reads points, texCoords, normals, faces
    {
      && PointsUpTo(f, PointCount(size)) && TexCoordsUpTo(PointCount(size))
      && FacesUpTo(FaceCount(size)) && NormalsUpTo(f, FaceCount(size))
    }

    method SetPoint(f: real, v: Vertex)
      requires Valid() && OnGrid(size, v) && PointsUpTo(f, PointIndex(size, v))
      modifies points
      ensures PointsUpTo(f, PointIndex(size, v) + 1)
    {
      PointEntries(size, look, f, v);
      hide PointIndex, PointCount, PointValue, Coordinate, Height;
      var index := PointIndex(size, v) * 3;
      points[index] := Coordinate(look, v.x, size.w);
      points[index + 1] := Coordinate(look, v.y, size.h);
      points[index + 2] := Height(size, look, f, v);
    }

    method SetTexCoord(v: Vertex)
      requires Valid() && OnGrid(size, v) && TexCoordsUpTo(PointIndex(size, v))
      modifies texCoords
      ensures TexCoordsUpTo(PointIndex(size, v) + 1)
    {
      TexEntries(size, v);
      hide PointIndex, PointCount, TexValue, Share;
      var index := PointIndex(size, v) * 2;
      texCoords[index] := Share(v.x, size.w);
      texCoords[index + 1] := Share(v.y, size.h);
    }

    /** The first loops of buildTriangleMesh. */
    method PlacePoints(f: real)
      requires Valid()
      modifies points, texCoords
      ensures PointsUpTo(f, PointCount(size)) && TexCoordsUpTo(PointCount(size))
    {
      hide PointsUpTo, TexCoordsUpTo;
      NoPoints(f);
      var y := 0;
      while y <= size.h
        invariant 0 <= y <= size.h + 1
        invariant PointsUpTo(f, y * (size.w + 1)) && TexCoordsUpTo(y * (size.w + 1))
      {
        var x := 0;
        while x <= size.w
          invariant 0 <= x <= size.w + 1
          invariant PointsUpTo(f, y * (size.w + 1) + x) && TexCoordsUpTo(y * (size.w + 1) + x)
        {
          SetPoint(f, Vertex(x, y));
          SetTexCoord(Vertex(x, y));
          x := x + 1;
        }
        assert y * (size.w + 1) + (size.w + 1) == (y + 1) * (size.w + 1);
        y := y + 1;
      }
    }

    /** The first loops of computeMesh. */
    method SetPoints(f: real)
      requires Valid()
      modifies points
      ensures PointsUpTo(f, PointCount(size))
    {
      hide PointsUpTo;
      NoPoints(f);
      var y := 0;
      while y <= size.h
        invariant 0 <= y <= size.h + 1 && PointsUpTo(f, y * (size.w + 1))
      {
        var x := 0;
        while x <= size.w
          invariant 0 <= x <= size.w + 1 && PointsUpTo(f, y * (size.w + 1) + x)
        {
          SetPoint(f, Vertex(x, y));
          x := x + 1;
        }
        assert y * (size.w + 1) + (size.w + 1) == (y + 1) * (size.w + 1);
        y := y + 1;
      }
    }

    lemma NoPoints(f: real)
      requires Valid()
      ensures PointsUpTo(f, 0) && TexCoordsUpTo(0)
    {
    }

    method ReadPoint(f: real, p: int, ghost v: Vertex) returns (t: Triple)
      requires Valid() && OnGrid(size, v) && p == PointIndex(size, v) && PointsUpTo(f, PointCount(size))
      ensures t == PointAt(size, look, f, v)
    {
      PointEntries(size, look, f, v);
      hide PointIndex, PointCount, PointValue, Coordinate, Height;
      var pIndex := p * 3;
      t := Triple(points[pIndex], points[pIndex + 1], points[pIndex + 2]);
    }

    method SetNormal(f: real, n: int, t: Triple)
      requires Valid() && 0 <= n < FaceCount(size) && NormalsUpTo(f, n)
      requires t == FaceNormal(size, look, f, n)
      modifies normals
      ensures NormalsUpTo(f, n + 1)
    {
      hide FaceNormal, FaceCount;
      var nIndex := n * 3;
      normals[nIndex] := t.x;
      normals[nIndex + 1] := t.y;
      normals[nIndex + 2] := t.z;
    }

    /** The normal of three points. */
    method ComputeNormal(f: real, k: int, p0: int, p1: int, p2: int) returns (t: Triple)
      requires Valid() && 0 <= k < FaceCount(size) && PointsUpTo(f, PointCount(size))
      requires p0 == PointIndex(size, Corner(size, k, 0)) && p1 == PointIndex(size, Corner(size, k, 1))
      requires p2 == PointIndex(size, Corner(size, k, 2))
      ensures t == FaceNormal(size, look, f, k)
    {
      hide Corner, PointIndex, PointsUpTo, PointAt, Normal;
      CornersOnGrid(size, k, 0);
      CornersOnGrid(size, k, 1);
      CornersOnGrid(size, k, 2);
      var a := ReadPoint(f, p0, Corner(size, k, 0));
      var b := ReadPoint(f, p1, Corner(size, k, 1));
      var c := ReadPoint(f, p2, Corner(size, k, 2));
      t := Normal(look, a, b, c);
    }

    /** The nine numbers of a face. */
    method StoreFace(index: int, n: int, p0: int, p1: int, p2: int)
      requires Valid() && 0 <= n < FaceCount(size) && index == 9 * n && FacesUpTo(n)
      requires p0 == PointIndex(size, Corner(size, n, 0)) && p1 == PointIndex(size, Corner(size, n, 1))
      requires p2 == PointIndex(size, Corner(size, n, 2))
      modifies faces
      ensures FacesUpTo(n + 1)
    {
      hide Corner, PointIndex, FaceCount, PointCount;
      faces[index], faces[index + 1], faces[index + 2] := p0, n, p0;
      faces[index + 3], faces[index + 4], faces[index + 5] := p1, n, p1;
      faces[index + 6], faces[index + 7], faces[index + 8] := p2, n, p2;
    }

    /** One face and its normal. */
    method PutFace(f: real, index: int, normalCount: int, p0: int, p1: int, p2: int)
      requires Valid() && 0 <= normalCount < FaceCount(size) && PointsUpTo(f, PointCount(size))
      requires index == 9 * normalCount
      requires p0 == PointIndex(size, Corner(size, normalCount, 0))
      requires p1 == PointIndex(size, Corner(size, normalCount, 1))
      requires p2 == PointIndex(size, Corner(size, normalCount, 2))
      requires FacesUpTo(normalCount) && NormalsUpTo(f, normalCount)
      modifies normals, faces
      ensures FacesUpTo(normalCount + 1) && NormalsUpTo(f, normalCount + 1)
      ensures PointsUpTo(f, PointCount(size))
    {
      hide Corner, PointIndex, PointsUpTo, FaceNormal, FaceCount, PointCount, NormalsUpTo, FacesUpTo;
      var t := ComputeNormal(f, normalCount, p0, p1, p2);
      SetNormal(f, normalCount, t);
      StoreFace(index, normalCount, p0, p1, p2);
    }

    /** Both faces of a cell. */
    method PutCell(f: real, x: int, y: int, normalCount: int)
      requires Valid() && IsCell(size, Vertex(x, y)) && normalCount == FaceIndex(size, Vertex(x, y), 0)
      requires PointsUpTo(f, PointCount(size)) && FacesUpTo(normalCount) && NormalsUpTo(f, normalCount)
      modifies normals, faces
      ensures FacesUpTo(normalCount + 2) && NormalsUpTo(f, normalCount + 2)
      ensures PointsUpTo(f, PointCount(size))
    {
      hide PointsUpTo, FacesUpTo, NormalsUpTo;
      var c := Vertex(x, y);
      CellRoundTrip(size, c, 0);
      CellRoundTrip(size, c, 1);
      var numDivX := size.w + 1;
      var p00 := y * numDivX + x;
      var p01, p10 := p00 + 1, p00 + numDivX;
      var p11 := p10 + 1;
      assert p10 == PointIndex(size, Vertex(x, y + 1)) by { assert (y + 1) * numDivX == y * numDivX + numDivX; }
      var index := (y * size.w * 9 + x * 9) * 2;
      assert index == 9 * normalCount;
      hide Cell;
      PutFace(f, index, normalCount, p00, p10, p11);
      PutFace(f, index + 9, normalCount + 1, p11, p01, p00);
    }

    /** buildTriangleMesh. */
    constructor (s: Size, l: Look, f: real)
      requires s.Ok()
      ensures Valid() && Shows(f) && size == s && look == l
      ensures fresh(points) && fresh(texCoords) && fresh(normals) && fresh(faces)
    {
      size, look := s, l;
      points := new real[3 * PointCount(s)];
      texCoords := new real[2 * PointCount(s)];
      normals := new real[3 * FaceCount(s)];
      faces := new int[9 * FaceCount(s)];
      new;
      PlacePoints(f);
      PutCells(f);
    }

    method PutCells(f: real)
      requires Valid() && PointsUpTo(f, PointCount(size)) && TexCoordsUpTo(PointCount(size))
      modifies normals, faces
      ensures Shows(f)
    {
      hide PointsUpTo, TexCoordsUpTo, FacesUpTo, NormalsUpTo, PointCount;
      NothingYet(f);
      var normalCount, y := 0, 0;
      while y < size.h
        invariant 0 <= y <= size.h && normalCount == 2 * (y * size.w) && PointsUpTo(f, PointCount(size))
        invariant FacesUpTo(normalCount) && NormalsUpTo(f, normalCount)
      {
        var x := 0;
        while x < size.w
          invariant 0 <= x <= size.w && normalCount == 2 * (y * size.w + x) && PointsUpTo(f, PointCount(size))
          invariant FacesUpTo(normalCount) && NormalsUpTo(f, normalCount)
        {
          PutCell(f, x, y, normalCount);
          normalCount := normalCount + 2;
          x := x + 1;
        }
        assert y * size.w + size.w == (y + 1) * size.w;
        y := y + 1;
      }
      assert size.h * size.w == size.w * size.h;
    }

    lemma NothingYet(f: real)
      requires Valid()
      ensures FacesUpTo(0) && NormalsUpTo(f, 0)
    {
    }

    lemma FaceEntries(k: int)
      requires Valid() && 0 <= k < FaceCount(size) && FacesUpTo(FaceCount(size))
      ensures faces[9 * k + 1] == faces[9 * k + 4] == faces[9 * k + 7] == k
      ensures faces[9 * k] == PointIndex(size, Corner(size, k, 0))
      ensures faces[9 * k + 3] == PointIndex(size, Corner(size, k, 1))
      ensures faces[9 * k + 6] == PointIndex(size, Corner(size, k, 2))
    {
      hide Corner, PointIndex, FaceCount;
      assert FaceValue(size, 9 * k) == FaceEntry(size, k, 0) && FaceValue(size, 9 * k + 1) == FaceEntry(size, k, 1);
      assert FaceValue(size, 9 * k + 3) == FaceEntry(size, k, 3) && FaceValue(size, 9 * k + 4) == FaceEntry(size, k, 4);
      assert FaceValue(size, 9 * k + 6) == FaceEntry(size, k, 6) && FaceValue(size, 9 * k + 7) == FaceEntry(size, k, 7);
    }

    /** computeMesh: whatever function value the points showed before, afterwards the whole mesh shows
        the new one, as if it had been built for it. */
    method ComputeMesh(f: real)
      requires Valid() && FacesUpTo(FaceCount(size)) && TexCoordsUpTo(PointCount(size))
      modifies points, normals
      ensures Shows(f)
    {
      hide PointsUpTo, TexCoordsUpTo, FacesUpTo, NormalsUpTo, PointCount, PointIndex, Corner, FaceCount;
      SetPoints(f);
      NothingYet(f);
      var k, index := 0, 0;
      while index < faces.Length
        invariant index == 9 * k && 0 <= k <= FaceCount(size)
        invariant PointsUpTo(f, PointCount(size)) && FacesUpTo(FaceCount(size)) && NormalsUpTo(f, k)
      {
        FaceEntries(k);
        var t := ComputeNormal(f, k, faces[index], faces[index + 3], faces[index + 6]);
        assert faces[index + 1] == faces[index + 4] && faces[index + 1] == faces[index + 7];
        SetNormal(f, faces[index + 1], t);
        index := index + 9;
        k := k + 1;
      }
    }

    /** In a mesh that shows any function value every stored normal points to the same side, as long as
        lengths are positive and the scale is not zero. */
    lemma NormalsOnOneSide(f: real, k: int)
      requires Valid() && Shows(f) && 0 <= k < FaceCount(size) && look.scale != 0.0
      requires forall t: Triple :: t.z != 0.0 ==> look.inverseLength(t) > 0.0
      ensures normals[3 * k + 2] < 0.0
    {
      NormalsAgree(size, look, f, k);
      hide Corner, PointAt, Direction, FaceCount, PointCount;
      assert normals[3 * k + 2] == NormalValue(size, look, f, 3 * k + 2);
    }

    /** Points and texture coordinates go by the same numbers, and the normals of a face by its own. */
    lemma FaceNumbers(k: int, i: int)
      requires Valid() && FacesUpTo(FaceCount(size)) && 0 <= k < FaceCount(size) && 0 <= i < 3
      ensures faces[9 * k + 3 * i + 1] == k && faces[9 * k + 3 * i + 2] == faces[9 * k + 3 * i]
    {
      hide Corner, PointIndex, FaceCount;
      assert FaceValue(size, 9 * k + 3 * i) == FaceEntry(size, k, 3 * i);
      assert FaceValue(size, 9 * k + 3 * i + 1) == FaceEntry(size, k, 3 * i + 1);
      assert FaceValue(size, 9 * k + 3 * i + 2) == FaceEntry(size, k, 3 * i + 2);
    }

    // -------------------------------------------------------------- the surface in the face array

    function From(k: int, i: int): int
      requires Valid() && IsSide(size, k, i)
      reads faces
    {
      faces[9 * k + 3 * i]
    }

    function To(k: int, i: int): int
      requires Valid() && IsSide(size, k, i)
      reads faces
    {
      if i == 2 then faces[9 * k] else faces[9 * k + 3 * i + 3]
    }

    lemma SideIndices(k: int, i: int)
      requires Valid() && FacesUpTo(FaceCount(size)) && IsSide(size, k, i)
      ensures OnGrid(size, SideOf(size, k, i).from) && OnGrid(size, SideOf(size, k, i).to)
      ensures From(k, i) == PointIndex(size, SideOf(size, k, i).from)
      ensures To(k, i) == PointIndex(size, SideOf(size, k, i).to)
      ensures 0 <= From(k, i) < PointCount(size) && 0 <= To(k, i) < PointCount(size)
    {
      hide PointIndex, FaceCount, PointCount, Cell, FacesUpTo, OnGrid;
      FaceEntries(k);
      var j := if i == 2 then 0 else i + 1;
      CornersOnGrid(size, k, i);
      CornersOnGrid(size, k, j);
      PointRoundTrip(size, Corner(size, k, i));
      PointRoundTrip(size, Corner(size, k, j));
    }

    /** The surface law, on the numbers in the array: every index names a point; a directed side occurs
        in one face only; and a side occurs in the other direction, in one other face, if and only if
        it is not on the border of the grid. */
    lemma OrientedManifold(k: int, i: int)
      requires Valid() && FacesUpTo(FaceCount(size)) && IsSide(size, k, i)
      ensures 0 <= From(k, i) < PointCount(size) && 0 <= To(k, i) < PointCount(size)
      ensures forall k', i' :: IsSide(size, k', i') && From(k', i') == From(k, i) && To(k', i') == To(k, i)
                ==> k' == k && i' == i
      ensures (exists k', i' :: IsSide(size, k', i') && From(k', i') == To(k, i) && To(k', i') == From(k, i))
         <==> !OnBorder(size, SideOf(size, k, i))
    {
      hide PointIndex, FaceCount, PointCount, Cell, FacesUpTo, OnGrid, OnBorder, SideOf, From, To;
      SideIndices(k, i);
      var e := SideOf(size, k, i);
      forall k', i' | IsSide(size, k', i')
        ensures From(k', i') == From(k, i) && To(k', i') == To(k, i) <==> SideOf(size, k', i') == e
        ensures From(k', i') == To(k, i) && To(k', i') == From(k, i) <==> SideOf(size, k', i') == Reverse(e)
      {
        SideIndices(k', i');
        var e' := SideOf(size, k', i');
        IndexInjective(size, e'.from, e.from);
        IndexInjective(size, e'.to, e.to);
        IndexInjective(size, e'.from, e.to);
        IndexInjective(size, e'.to, e.from);
      }
      forall k', i' | IsSide(size, k', i') && SideOf(size, k', i') == e
        ensures k' == k && i' == i
      {
        EdgeOnce(size, k, i, k', i');
      }
      OtherFace(size, k, i);
    }
  }

  datatype Arrays = Arrays(points: seq<real>, texCoords: seq<real>, normals: seq<real>, faces: seq<int>)

  /** The update law for whole runs: after any changes of the function value and updates in place, the
      arrays are those a mesh built now would have. */
  method AnimateAndRebuild(s: Size, look: Look, first: real, values: seq<real>)
    returns (animated: Arrays, rebuilt: Arrays)
    requires s.Ok()
    ensures animated == rebuilt
    ensures |animated.points| == 3 * PointCount(s) && |animated.texCoords| == 2 * PointCount(s)
    ensures |animated.normals| == 3 * FaceCount(s) && |animated.faces| == 9 * FaceCount(s)
    ensures var last := if values == [] then first else values[|values| - 1];
            && (forall i :: 0 <= i < |animated.points| ==> animated.points[i] == PointValue(s, look, last, i))
            && (forall i :: 0 <= i < |animated.normals| ==> animated.normals[i] == NormalValue(s, look, last, i))
    ensures forall i :: 0 <= i < |animated.texCoords| ==> animated.texCoords[i] == TexValue(s, i)
    ensures forall i :: 0 <= i < |animated.faces| ==> animated.faces[i] == FaceValue(s, i)
  {
    hide PointValue, NormalValue, TexValue, FaceValue, PointCount, FaceCount;
    var f := first;
    var mesh := new TriangleMesh(s, look, f);
    for i := 0 to |values|
      invariant mesh.Valid() && mesh.Shows(f) && fresh(mesh.points) && fresh(mesh.normals)
      invariant mesh.size == s && mesh.look == look
      invariant f == if i == 0 then first else values[i - 1]
    {
      f := values[i];
      mesh.ComputeMesh(f);
    }
    var again := new TriangleMesh(s, look, f);
    animated := Arrays(mesh.points[..], mesh.texCoords[..], mesh.normals[..], mesh.faces[..]);
    rebuilt := Arrays(again.points[..], again.texCoords[..], again.normals[..], again.faces[..]);
  }
}
