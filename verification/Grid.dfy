/** The triangulated grid of PNTMeshViewer: which points each face joins, and why the faces form one
    consistently oriented surface for every number of subdivisions. */
module Grid {
  import opened Arithmetic

  /** A grid point: column and row. */
  datatype Vertex = Vertex(x: int, y: int)

  /** `w` by `h` cells. */
  datatype Size = Size(w: nat, h: nat) {
    predicate Ok() {
      w > 0 && h > 0
    }
  }

  function FaceCount(s: Size): nat {
    2 * (s.w * s.h)
  }

  function PointCount(s: Size): nat {
    (s.h + 1) * (s.w + 1)
  }

  predicate OnGrid(s: Size, v: Vertex) {
    0 <= v.x <= s.w && 0 <= v.y <= s.h
  }

  /** The index of a grid point. */
  function PointIndex(s: Size, v: Vertex): int {
    v.y * (s.w + 1) + v.x
  }

  function PointVertex(s: Size, p: int): Vertex {
    Vertex(p % (s.w + 1), p / (s.w + 1))
  }

  lemma PointRoundTrip(s: Size, v: Vertex)
    requires OnGrid(s, v)
    ensures PointVertex(s, PointIndex(s, v)) == v && 0 <= PointIndex(s, v) < PointCount(s)
  {
    DivMod(v.y, v.x, s.w + 1);
    assert v.y * (s.w + 1) <= s.h * (s.w + 1);
    assert (s.h + 1) * (s.w + 1) == s.h * (s.w + 1) + s.w + 1;
  }

  /** The cell of a face. */
  function Cell(s: Size, k: int): Vertex
    requires s.Ok()
  {
    Vertex(k / 2 % s.w, k / 2 / s.w)
  }

  function FaceIndex(s: Size, c: Vertex, half: int): int {
    2 * (c.y * s.w + c.x) + half
  }

  predicate IsCell(s: Size, c: Vertex) {
    0 <= c.x < s.w && 0 <= c.y < s.h
  }

  lemma CellRoundTrip(s: Size, c: Vertex, half: int)
    requires s.Ok() && IsCell(s, c) && 0 <= half <= 1
    ensures var k := FaceIndex(s, c, half); Cell(s, k) == c && k % 2 == half && 0 <= k < FaceCount(s)
  {
    var m := c.y * s.w + c.x;
    DivMod(c.y, c.x, s.w);
    CellCount(s, c);
    assert (2 * m + half) / 2 == m;
  }

  lemma CellCount(s: Size, c: Vertex)
    requires s.Ok() && IsCell(s, c)
    ensures 0 <= c.y * s.w + c.x < s.w * s.h
  {
    assert c.y * s.w <= (s.h - 1) * s.w;
    assert (s.h - 1) * s.w == s.h * s.w - s.w;
    assert s.h * s.w == s.w * s.h;
  }

  lemma FaceCell(s: Size, k: int)
    requires s.Ok() && 0 <= k < FaceCount(s)
    ensures IsCell(s, Cell(s, k)) && k == FaceIndex(s, Cell(s, k), k % 2)
  {
    var n := k / 2;
    assert n == s.w * (n / s.w) + n % s.w;
    Times(s.w, s.h - 1, n / s.w);
    assert s.w * (s.h - 1) == s.w * s.h - s.w;
    assert s.w * (n / s.w) == n / s.w * s.w;
  }

  /** Corner `i` of a face: two triangles per cell, split along the diagonal. */
  function CornerOf(c: Vertex, half: int, i: int): Vertex {
    if half == 0 then
      if i == 0 then c else if i == 1 then Vertex(c.x, c.y + 1) else Vertex(c.x + 1, c.y + 1)
    else
      if i == 0 then Vertex(c.x + 1, c.y + 1) else if i == 1 then Vertex(c.x + 1, c.y) else c
  }

  function Corner(s: Size, k: int, i: int): Vertex
    requires s.Ok()
  {
    CornerOf(Cell(s, k), k % 2, i)
  }

  datatype Edge = Edge(from: Vertex, to: Vertex)

  /** Side `i` of a face, in the direction the face is wound. */
  function Side(c: Vertex, half: int, i: int): Edge {
    Edge(CornerOf(c, half, i), CornerOf(c, half, if i == 2 then 0 else i + 1))
  }

  function SideOf(s: Size, k: int, i: int): Edge
    requires s.Ok()
  {
    Side(Cell(s, k), k % 2, i)
  }

  predicate IsSide(s: Size, k: int, i: int) {
    0 <= k < FaceCount(s) && 0 <= i < 3
  }

  /** Both ends on the same border of the grid. */
  predicate OnBorder(s: Size, e: Edge) {
    || e.from.x == e.to.x == 0 || e.from.x == e.to.x == s.w
    || e.from.y == e.to.y == 0 || e.from.y == e.to.y == s.h
  }

  lemma CornersOnGrid(s: Size, k: int, i: int)
    requires s.Ok() && IsSide(s, k, i)
    ensures OnGrid(s, Corner(s, k, i))
  {
    FaceCell(s, k);
  }

  /** Sides on cells: the direction and the lower end tell the face. */
  lemma SidesDiffer(c: Vertex, half: int, i: int, c': Vertex, half': int, i': int)
    requires 0 <= half <= 1 && 0 <= half' <= 1 && 0 <= i < 3 && 0 <= i' < 3
    requires Side(c, half, i) == Side(c', half', i')
    ensures c == c' && half == half' && i == i'
  {
  }

  /** Orientation: no two faces run along the same side in the same direction. */
  lemma EdgeOnce(s: Size, k: int, i: int, k': int, i': int)
    requires s.Ok() && IsSide(s, k, i) && IsSide(s, k', i') && SideOf(s, k, i) == SideOf(s, k', i')
    ensures k == k' && i == i'
  {
    hide Side, Cell, FaceIndex;
    FaceCell(s, k);
    FaceCell(s, k');
    SidesDiffer(Cell(s, k), k % 2, i, Cell(s, k'), k' % 2, i');
  }

  function Reverse(e: Edge): Edge {
    Edge(e.to, e.from)
  }

  /** The face on the other side, if there is one. */
  function Neighbour(c: Vertex, half: int, i: int): (r: (Vertex, int, int)) {
    if half == 0 then
      if i == 0 then (Vertex(c.x - 1, c.y), 1, 0) else if i == 1 then (Vertex(c.x, c.y + 1), 1, 1) else (c, 1, 2)
    else
      if i == 0 then (Vertex(c.x + 1, c.y), 0, 0) else if i == 1 then (Vertex(c.x, c.y - 1), 0, 1) else (c, 0, 2)
  }

  lemma NeighbourReverses(c: Vertex, half: int, i: int)
    requires 0 <= half <= 1 && 0 <= i < 3
    ensures var (c', half', i') := Neighbour(c, half, i);
            Side(c', half', i') == Reverse(Side(c, half, i)) && 0 <= half' <= 1 && 0 <= i' < 3
  {
  }

  lemma BorderCells(s: Size, c: Vertex, half: int, i: int)
    requires s.Ok() && IsCell(s, c) && 0 <= half <= 1 && 0 <= i < 3
    ensures IsCell(s, Neighbour(c, half, i).0) <==> !OnBorder(s, Side(c, half, i))
  {
  }

  /** Manifold: a side inside the grid belongs to exactly one more face, which runs along it the other
      way; a side on the border belongs to no other. With EdgeOnce, every inner side is in exactly two
      faces and every border side in one. */
  lemma OtherFace(s: Size, k: int, i: int)
    requires s.Ok() && IsSide(s, k, i)
    ensures (exists k', i' :: IsSide(s, k', i') && SideOf(s, k', i') == Reverse(SideOf(s, k, i)))
       <==> !OnBorder(s, SideOf(s, k, i))
  {
    hide Side, Cell, Neighbour, OnBorder, Reverse, FaceIndex, FaceCount;
    var c, half := Cell(s, k), k % 2;
    FaceCell(s, k);
    var (c', half', i') := Neighbour(c, half, i);
    NeighbourReverses(c, half, i);
    BorderCells(s, c, half, i);
    if IsCell(s, c') {
      CellRoundTrip(s, c', half');
      var k' := FaceIndex(s, c', half');
      assert IsSide(s, k', i') && SideOf(s, k', i') == Reverse(SideOf(s, k, i));
    }
    forall k1, i1 | IsSide(s, k1, i1) && SideOf(s, k1, i1) == Reverse(SideOf(s, k, i))
      ensures IsCell(s, c')
    {
      FaceCell(s, k1);
      SidesDiffer(Cell(s, k1), k1 % 2, i1, c', half', i');
    }
  }

  /** Both facts for the numbers in the face array: distinct vertices have distinct indices. */
  lemma IndexInjective(s: Size, u: Vertex, v: Vertex)
    requires OnGrid(s, u) && OnGrid(s, v)
    ensures PointIndex(s, u) == PointIndex(s, v) <==> u == v
  {
    hide PointIndex, PointVertex;
    PointRoundTrip(s, u);
    PointRoundTrip(s, v);
  }

  /** Points are numbered row by row. */
  lemma RowByRow(s: Size, v: Vertex)
    requires OnGrid(s, v)
    ensures PointIndex(s, Vertex(0, 0)) == 0
    ensures v.x < s.w ==> PointIndex(s, Vertex(v.x + 1, v.y)) == PointIndex(s, v) + 1
    ensures v.x == s.w ==> PointIndex(s, Vertex(0, v.y + 1)) == PointIndex(s, v) + 1
  {
    assert (v.y + 1) * (s.w + 1) == v.y * (s.w + 1) + s.w + 1;
  }

  /** Both faces of a cell have its diagonal as a side, and each of them one of the other two corners. */
  lemma DiagonalMeans(c: Vertex, half: int)
    requires 0 <= half <= 1
    ensures var corners := {CornerOf(c, half, 0), CornerOf(c, half, 1), CornerOf(c, half, 2)};
            corners == {c, Vertex(c.x + 1, c.y + 1), if half == 0 then Vertex(c.x, c.y + 1) else Vertex(c.x + 1, c.y)}
  {
  }
}
