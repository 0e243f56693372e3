/** The surface PNTMeshViewer shows: where the grid points lie, the normals of the faces between them, and
    why every face has one, on the same side. Coordinates are taken as real numbers. */
module Surface {
  import opened Grid

  const MIN: real := -10.0
  const MAX: real := 10.0

  datatype Triple = Triple(x: real, y: real, z: real)

  /** The mesh scale, sin(r) / r over the plane, and the inverse of a vector's length. */
  datatype Look = Look(scale: real, wave: (real, real) -> real, inverseLength: Triple -> real)

  function Component(t: Triple, c: int): real {
    if c == 0 then t.x else if c == 1 then t.y else t.z
  }

  /** How far along its side of the grid a point lies: also its texture coordinate. */
  function Share(i: int, n: nat): real
    requires n > 0
  {
    (i as real) / (n as real)
  }

  function Blend(d: real): real {
    (1.0 - d) * MIN + d * MAX
  }

  /** Where column or row `i` of `n` lies. */
  function Coordinate(look: Look, i: int, n: nat): real
    requires n > 0
  {
    Blend(Share(i, n)) * look.scale
  }

  function Height(s: Size, look: Look, f: real, v: Vertex): real
    requires s.Ok()
  {
    f * look.wave(Blend(Share(v.x, s.w)), Blend(Share(v.y, s.h))) * look.scale
  }

  /** A grid point for the function value `f`. */
  function PointAt(s: Size, look: Look, f: real, v: Vertex): Triple
    requires s.Ok()
  {
    Triple(Coordinate(look, v.x, s.w), Coordinate(look, v.y, s.h), Height(s, look, f, v))
  }

  function Minus(a: Triple, b: Triple): Triple {
    Triple(a.x - b.x, a.y - b.y, a.z - b.z)
  }

  function Cross(a: Triple, b: Triple): Triple {
    Triple(a.y * b.z - a.z * b.y, b.x * a.z - b.z * a.x, a.x * b.y - a.y * b.x)
  }

  function Direction(a: Triple, b: Triple, c: Triple): Triple {
    Cross(Minus(b, a), Minus(c, a))
  }

  function Normal(look: Look, a: Triple, b: Triple, c: Triple): Triple {
    var t := Direction(a, b, c);
    var norm := look.inverseLength(t);
    Triple(t.x * norm, t.y * norm, t.z * norm)
  }

  function FaceDirection(s: Size, look: Look, f: real, k: int): Triple
    requires s.Ok()
  {
    Direction(PointAt(s, look, f, Corner(s, k, 0)), PointAt(s, look, f, Corner(s, k, 1)),
              PointAt(s, look, f, Corner(s, k, 2)))
  }

  // ---------------------------------------------------------------- every face has a direction

  /** The side of a cell of a grid with `n` cells in a row. */
  function Pitch(look: Look, n: nat): real
    requires n > 0
  {
    (MAX - MIN) * look.scale / (n as real)
  }

  lemma NextShare(i: int, n: nat)
    requires n > 0
    ensures Share(i + 1, n) == Share(i, n) + Share(1, n)
  {
    var a, b := i as real, n as real;
    assert (a + 1.0) / b == a / b + 1.0 / b;
  }

  /** Neighbouring points are one pitch apart. */
  lemma NextPoint(look: Look, i: int, n: nat)
    requires n > 0
    ensures Coordinate(look, i + 1, n) == Coordinate(look, i, n) + Pitch(look, n)
  {
    NextShare(i, n);
    var p, q, z := Share(i, n), Share(1, n), look.scale;
    assert Pitch(look, n) == (MAX - MIN) * z * q by {
      assert (MAX - MIN) * z / (n as real) == (MAX - MIN) * z * (1.0 / (n as real));
    }
    hide Share, Pitch;
    assert Blend(p + q) == Blend(p) + (MAX - MIN) * q;
    assert (Blend(p) + (MAX - MIN) * q) * z == Blend(p) * z + (MAX - MIN) * q * z;
  }

  /** Seen from above, every face is half a cell, wound clockwise, whatever the function value. */
  lemma FacesLieFlat(s: Size, look: Look, f: real, k: int)
    requires s.Ok() && 0 <= k < FaceCount(s)
    ensures FaceDirection(s, look, f, k).z == -(Pitch(look, s.w) * Pitch(look, s.h))
  {
    var c := Cell(s, k);
    NextPoint(look, c.x, s.w);
    NextPoint(look, c.y, s.h);
    hide Coordinate, Height, Pitch, Cell, Direction;
    var p, q := Pitch(look, s.w), Pitch(look, s.h);
    var p0, p1 := PointAt(s, look, f, Corner(s, k, 0)), PointAt(s, look, f, Corner(s, k, 1));
    var p2 := PointAt(s, look, f, Corner(s, k, 2));
    if k % 2 == 0 {
      HalfCell(p0, p1, p2, p, q);
    } else {
      HalfCell(p0, p1, p2, -p, -q);
    }
  }

  lemma HalfCell(a: Triple, b: Triple, c: Triple, dx: real, dy: real)
    requires b.x == a.x && b.y == a.y + dy && c.x == a.x + dx && c.y == a.y + dy
    ensures Direction(a, b, c).z == -(dx * dy)
  {
  }

  /** So no face is degenerate, and all normals point to the same side, unless everything is scaled away. */
  lemma NormalsAgree(s: Size, look: Look, f: real, k: int)
    requires s.Ok() && 0 <= k < FaceCount(s)
    ensures FaceDirection(s, look, f, k).z < 0.0 <==> look.scale != 0.0
    ensures look.scale == 0.0 ==> FaceDirection(s, look, f, k) == Triple(0.0, 0.0, 0.0)
  {
    FacesLieFlat(s, look, f, k);
    PitchSign(look, s.w);
    PitchSign(look, s.h);
    hide FaceDirection, Pitch;
    var p, q := Pitch(look, s.w), Pitch(look, s.h);
    assert p * q > 0.0 <==> look.scale != 0.0;
    if look.scale == 0.0 {
      Flattened(s, look, f, k);
    }
  }

  lemma PitchSign(look: Look, n: nat)
    requires n > 0
    ensures Pitch(look, n) > 0.0 <==> look.scale > 0.0
    ensures Pitch(look, n) < 0.0 <==> look.scale < 0.0
  {
    var p, d := Pitch(look, n), n as real;
    assert p * d == (MAX - MIN) * look.scale;
  }

  lemma Flattened(s: Size, look: Look, f: real, k: int)
    requires s.Ok() && look.scale == 0.0
    ensures FaceDirection(s, look, f, k) == Triple(0.0, 0.0, 0.0)
  {
    hide Share, Blend, Corner;
    assert forall v :: PointAt(s, look, f, v) == Triple(0.0, 0.0, 0.0);
  }

  /** The areas of the first `k` faces, seen from above. */
  function AreaUpTo(s: Size, look: Look, f: real, k: nat): real
    requires s.Ok()
  {
    if k == 0 then 0.0 else AreaUpTo(s, look, f, k - 1) - FaceDirection(s, look, f, k - 1).z / 2.0
  }

  lemma {:induction false} AreasAlike(s: Size, look: Look, f: real, k: nat)
    requires s.Ok() && k <= FaceCount(s)
    ensures AreaUpTo(s, look, f, k) == (k as real) * (Pitch(look, s.w) * Pitch(look, s.h) / 2.0)
    decreases k
  {
    hide Pitch, FaceDirection, FaceCount;
    var a := Pitch(look, s.w) * Pitch(look, s.h) / 2.0;
    if k > 0 {
      AreasAlike(s, look, f, k - 1);
      FacesLieFlat(s, look, f, k - 1);
      assert ((k - 1) as real) * a + a == (k as real) * a;
    }
  }

  /** The faces cover the whole square: their areas add up to its area, for every function value. */
  lemma FacesCover(s: Size, look: Look, f: real)
    requires s.Ok()
    ensures AreaUpTo(s, look, f, FaceCount(s)) == ((MAX - MIN) * look.scale) * ((MAX - MIN) * look.scale)
  {
    hide AreaUpTo, Pitch;
    AreasAlike(s, look, f, FaceCount(s));
    var e := (MAX - MIN) * look.scale;
    RowOfCells(look, s.w);
    RowOfCells(look, s.h);
    assert FaceCount(s) as real == 2.0 * ((s.w as real) * (s.h as real));
    Product(s.w as real, s.h as real, Pitch(look, s.w), Pitch(look, s.h), e);
  }

  lemma RowOfCells(look: Look, n: nat)
    requires n > 0
    ensures (n as real) * Pitch(look, n) == (MAX - MIN) * look.scale
  {
  }

  lemma Product(w: real, h: real, p: real, q: real, e: real)
    requires w * p == e && h * q == e
    ensures 2.0 * (w * h) * (p * q / 2.0) == e * e
  {
    assert 2.0 * (w * h) * (p * q / 2.0) == (w * h) * (p * q) == (w * p) * (h * q);
  }

  lemma TextureFits(s: Size, v: Vertex)
    requires s.Ok() && OnGrid(s, v)
    ensures 0.0 <= Share(v.x, s.w) <= 1.0 && 0.0 <= Share(v.y, s.h) <= 1.0
  {
    ShareFits(v.x, s.w);
    ShareFits(v.y, s.h);
  }

  lemma ShareFits(i: int, n: nat)
    requires n > 0 && 0 <= i <= n
    ensures 0.0 <= Share(i, n) <= 1.0
  {
    assert Share(i, n) * (n as real) == i as real;
  }

  // ---------------------------------------------------------------- what points and normals mean

  function Dot(a: Triple, b: Triple): real {
    a.x * b.x + a.y * b.y + a.z * b.z
  }

  /** The direction of three points is perpendicular to both sides that meet in the first. */
  lemma Perpendicular(u: Triple, v: Triple)
    ensures Dot(Cross(u, v), u) == 0.0 && Dot(Cross(u, v), v) == 0.0
  {
    assert (u.y * v.z - u.z * v.y) * u.x + (v.x * u.z - v.z * u.x) * u.y + (u.x * v.y - u.y * v.x) * u.z == 0.0;
    assert (u.y * v.z - u.z * v.y) * v.x + (v.x * u.z - v.z * u.x) * v.y + (u.x * v.y - u.y * v.x) * v.z == 0.0;
  }

  function Scaled(t: Triple, r: real): Triple {
    Triple(t.x * r, t.y * r, t.z * r)
  }

  lemma DotScaled(t: Triple, r: real, u: Triple)
    ensures Dot(Scaled(t, r), u) == r * Dot(t, u)
  {
    assert t.x * r * u.x == r * (t.x * u.x) && t.y * r * u.y == r * (t.y * u.y) && t.z * r * u.z == r * (t.z * u.z);
  }

  /** The normal of three points is perpendicular to both sides, and of length one if the inverse length is
      what it says. */
  lemma NormalMeans(look: Look, a: Triple, b: Triple, c: Triple)
    ensures var t, n := Direction(a, b, c), Normal(look, a, b, c);
            && Dot(n, Minus(b, a)) == 0.0 && Dot(n, Minus(c, a)) == 0.0
            && (look.inverseLength(t) * look.inverseLength(t) * Dot(t, t) == 1.0 ==> Dot(n, n) == 1.0)
  {
    var t, u, v := Direction(a, b, c), Minus(b, a), Minus(c, a);
    var r := look.inverseLength(t);
    assert Normal(look, a, b, c) == Scaled(t, r);
    Perpendicular(u, v);
    hide Cross, Dot, Minus, Scaled;
    DotScaled(t, r, u);
    DotScaled(t, r, v);
    DotScaled(t, r, Scaled(t, r));
    DotScaled(t, r, t);
    DotCommutes(t, Scaled(t, r));
  }

  lemma DotCommutes(a: Triple, b: Triple)
    ensures Dot(a, b) == Dot(b, a)
  {
  }

  /** The grid covers the square from -10 to 10 in both directions, scaled. */
  lemma CornersPlaced(s: Size, look: Look, f: real)
    requires s.Ok()
    ensures var p, q := PointAt(s, look, f, Vertex(0, 0)), PointAt(s, look, f, Vertex(s.w, s.h));
            && p.x == p.y == -10.0 * look.scale && q.x == q.y == 10.0 * look.scale
  {
    assert Share(0, s.w) == 0.0 && Share(0, s.h) == 0.0 && Share(s.w, s.w) == 1.0 && Share(s.h, s.h) == 1.0;
    hide Share, Height;
  }

  /** Every point lies on the graph of the function, and its texture coordinates tell where. */
  lemma OnGraph(s: Size, look: Look, f: real, v: Vertex)
    requires s.Ok() && look.scale != 0.0
    ensures var p := PointAt(s, look, f, v);
            && p.z == f * look.wave(p.x / look.scale, p.y / look.scale) * look.scale
            && p.x == (20.0 * Share(v.x, s.w) - 10.0) * look.scale
            && p.y == (20.0 * Share(v.y, s.h) - 10.0) * look.scale
  {
    hide Share;
    var x, y := Blend(Share(v.x, s.w)), Blend(Share(v.y, s.h));
    Cancel(x, look.scale);
    Cancel(y, look.scale);
    var p := PointAt(s, look, f, v);
    hide Blend;
    assert p.x / look.scale == x && p.y / look.scale == y;
    assert look.wave(p.x / look.scale, p.y / look.scale) == look.wave(x, y);
    assert p.z == f * look.wave(x, y) * look.scale;
    GridCoordinate(look, v.x, s.w);
    GridCoordinate(look, v.y, s.h);
  }

  lemma GridCoordinate(look: Look, i: int, n: nat)
    requires n > 0
    ensures Coordinate(look, i, n) == (20.0 * Share(i, n) - 10.0) * look.scale
  {
    hide Share;
    assert Blend(Share(i, n)) == 20.0 * Share(i, n) - 10.0;
  }

  lemma Cancel(x: real, z: real)
    requires z != 0.0
    ensures x * z / z == x
  {
  }
}
