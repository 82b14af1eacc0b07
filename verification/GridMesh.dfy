/** The triangle mesh over a subdivided grid: building it, recomputing it in place, and its orientation. */
module GridMesh {
  import opened Arithmetic

  datatype Vec = Vec(x: real, y: real, z: real)

  const MIN := -10.0
  const MAX := 10.0

  /**
   * The surface to be meshed. `height` stands for `getSinDivX` with the current `funcValue`, `normal` for
   * `computeNormal`; nothing is assumed about either.
   */
  datatype Surface = Surface(divX: nat, divY: nat, scale: real, height: (real, real) -> real,
                             normal: (Vec, Vec, Vec) -> Vec)

  predicate Subdivided(s: Surface) {
    s.divX >= 1 && s.divY >= 1
  }

  // ---------- Vertices and points ----------

  function NumVerts(s: Surface): nat {
    (s.divY + 1) * (s.divX + 1)
  }

  function Vertex(s: Surface, x: int, y: int): int {
    y * (s.divX + 1) + x
  }

  function Lerp(t: real): real {
    (1.0 - t) * MIN + t * MAX
  }

  /** The point above grid position (x, y). */
  function GridPoint(s: Surface, x: int, y: int): Vec
    requires Subdivided(s)
  {
    var fx, fy := Lerp(x as real / s.divX as real), Lerp(y as real / s.divY as real);
    Vec(fx * s.scale, fy * s.scale, s.height(fx, fy) * s.scale)
  }

  function PointOf(s: Surface, v: int): Vec
    requires Subdivided(s)
  {
    GridPoint(s, v % (s.divX + 1), v / (s.divX + 1))
  }

  lemma VertexInRange(s: Surface, x: int, y: int)
    requires 0 <= x <= s.divX && 0 <= y <= s.divY
    ensures 0 <= Vertex(s, x, y) < NumVerts(s)
  {
    ProductMonotone(0, y, s.divX + 1);
    ProductMonotone(y, s.divY, s.divX + 1);
    assert NumVerts(s) == s.divY * (s.divX + 1) + s.divX + 1;
  }

  // ---------- Faces ----------

  function NumFaces(s: Surface): nat {
    s.divX * s.divY * 2
  }

  /** The corners of half `h` of the cell at (x, y), in the order they are written. */
  function Corner(x: int, y: int, h: int, c: int): (int, int) {
    if h == 0 then if c == 0 then (x, y) else if c == 1 then (x, y + 1) else (x + 1, y + 1)
    else if c == 0 then (x + 1, y + 1) else if c == 1 then (x + 1, y) else (x, y)
  }

  /** The vertex at corner c of face k. */
  function FaceVertex(s: Surface, k: int, c: int): int
    requires Subdivided(s)
  {
    var p := Corner(k / 2 % s.divX, k / 2 / s.divX, k % 2, c);
    Vertex(s, p.0, p.1)
  }

  function FaceNormal(s: Surface, k: int): Vec
    requires Subdivided(s)
  {
    s.normal(PointOf(s, FaceVertex(s, k, 0)), PointOf(s, FaceVertex(s, k, 1)), PointOf(s, FaceVertex(s, k, 2)))
  }

  lemma FaceOfCell(s: Surface, x: int, y: int, h: int)
    requires Subdivided(s) && 0 <= x < s.divX && 0 <= y < s.divY && 0 <= h < 2
    ensures var k := 2 * (y * s.divX + x) + h;
            0 <= k < NumFaces(s) && k / 2 % s.divX == x && k / 2 / s.divX == y && k % 2 == h
  {
    var q := y * s.divX + x;
    DigitsOf(s.divX, y, x);
    assert (2 * q + h) / 2 == q && (2 * q + h) % 2 == h;
    ProductMonotone(0, y, s.divX);
    ProductMonotone(y, s.divY - 1, s.divX);
    assert NumFaces(s) == 2 * ((s.divY - 1) * s.divX + s.divX);
  }

  lemma CellOfFace(s: Surface, k: int)
    requires Subdivided(s) && 0 <= k < NumFaces(s)
    ensures var x, y, h := k / 2 % s.divX, k / 2 / s.divX, k % 2;
            0 <= x < s.divX && 0 <= y < s.divY && 0 <= h < 2 && k == 2 * (y * s.divX + x) + h
  {
    var q := k / 2;
    assert q < s.divX * s.divY && k == 2 * q + k % 2;
    QuotientBelow(q, s.divX, s.divY);
  }

  lemma QuotientBelow(q: nat, n: nat, m: nat)
    requires n > 0 && q < n * m
    ensures 0 <= q / n < m && 0 <= q % n < n && q == q / n * n + q % n
  {
    var d, r := q / n, q % n;
    assert q == d * n + r;
    BelowByProduct(d, r, n, m);
  }

  lemma BelowByProduct(d: int, r: int, n: nat, m: nat)
    requires 0 <= r < n && 0 <= d * n + r < n * m
    ensures 0 <= d < m
  {
    MultipleAtLeast(d, n);
    MultipleAtLeast(d - m, n);
    assert (d - m) * n == d * n - m * n;
  }

  lemma FaceVertexInRange(s: Surface, k: int, c: int)
    requires Subdivided(s) && 0 <= k < NumFaces(s) && 0 <= c < 3
    ensures 0 <= FaceVertex(s, k, c) < NumVerts(s)
  {
    CellOfFace(s, k);
    var p := Corner(k / 2 % s.divX, k / 2 / s.divX, k % 2, c);
    VertexInRange(s, p.0, p.1);
  }

  /** Face k of a faces array: three vertices, each with normal k and its own texture coordinate. */
  ghost predicate FaceHolds(s: Surface, faces: seq<int>, k: int)
    requires Subdivided(s)
  {
    && 0 <= k && 9 * k + 9 <= |faces|
    && faces[9 * k] == faces[9 * k + 2] == FaceVertex(s, k, 0)
    && faces[9 * k + 3] == faces[9 * k + 5] == FaceVertex(s, k, 1)
    && faces[9 * k + 6] == faces[9 * k + 8] == FaceVertex(s, k, 2)
    && faces[9 * k + 1] == faces[9 * k + 4] == faces[9 * k + 7] == k
  }

  ghost predicate FacesHold(s: Surface, faces: seq<int>, n: int)
    requires Subdivided(s)
  {
    forall k :: 0 <= k < n ==> FaceHolds(s, faces, k)
  }

  // ---------- Orientation ----------

  /** The directed edge that leaves corner c of face k. */
  function Edge(s: Surface, k: int, c: int): (int, int)
    requires Subdivided(s)
  {
    (FaceVertex(s, k, c), FaceVertex(s, k, (c + 1) % 3))
  }

  /** Both ends lie on the same side of the grid. */
  predicate OnBoundary(s: Surface, e: (int, int))
    requires Subdivided(s)
  {
    var n := s.divX + 1;
    || (e.0 % n == e.1 % n && (e.0 % n == 0 || e.0 % n == s.divX))
    || (e.0 / n == e.1 / n && (e.0 / n == 0 || e.0 / n == s.divY))
  }

  /** The coordinates of a face vertex are those of its corner. */
  lemma FaceVertexDigits(s: Surface, k: int, c: int)
    requires Subdivided(s) && 0 <= k < NumFaces(s) && 0 <= c < 3
    ensures var p := Corner(k / 2 % s.divX, k / 2 / s.divX, k % 2, c);
            FaceVertex(s, k, c) % (s.divX + 1) == p.0 && FaceVertex(s, k, c) / (s.divX + 1) == p.1
  {
    CellOfFace(s, k);
    var p := Corner(k / 2 % s.divX, k / 2 / s.divX, k % 2, c);
    DigitsOf(s.divX + 1, p.1, p.0);
  }

  /** The corners of a cell's halves, as edges of grid positions. */
  function GridEdge(x: int, y: int, h: int, c: int): ((int, int), (int, int)) {
    (Corner(x, y, h, c), Corner(x, y, h, (c + 1) % 3))
  }

  lemma GridEdgeUnique(x: int, y: int, h: int, c: int, x': int, y': int, h': int, c': int)
    requires 0 <= h < 2 && 0 <= h' < 2 && 0 <= c < 3 && 0 <= c' < 3
    requires GridEdge(x, y, h, c) == GridEdge(x', y', h', c')
    ensures x == x' && y == y' && h == h' && c == c'
  {
  }

  /** A directed edge occurs in at most one triangle, at one place. */
  lemma EdgeUnique(s: Surface, k: int, c: int, k': int, c': int)
    requires Subdivided(s) && 0 <= k < NumFaces(s) && 0 <= k' < NumFaces(s) && 0 <= c < 3 && 0 <= c' < 3
    requires Edge(s, k, c) == Edge(s, k', c')
    ensures k == k' && c == c'
  {
    hide FaceVertex, NumFaces;
    FaceVertexDigits(s, k, c);
    FaceVertexDigits(s, k, (c + 1) % 3);
    FaceVertexDigits(s, k', c');
    FaceVertexDigits(s, k', (c' + 1) % 3);
    CellOfFace(s, k);
    CellOfFace(s, k');
    GridEdgeUnique(k / 2 % s.divX, k / 2 / s.divX, k % 2, c, k' / 2 % s.divX, k' / 2 / s.divX, k' % 2, c');
  }

  /** The cell on the other side of an edge. */
  function Across(x: int, y: int, h: int, c: int): (int, int, int, int) {
    if h == 0 then if c == 0 then (x - 1, y, 1, 0) else if c == 1 then (x, y + 1, 1, 1) else (x, y, 1, 2)
    else if c == 0 then (x + 1, y, 0, 0) else if c == 1 then (x, y - 1, 0, 1) else (x, y, 0, 2)
  }

  lemma AcrossReverses(x: int, y: int, h: int, c: int)
    requires 0 <= h < 2 && 0 <= c < 3
    ensures var (x', y', h', c') := Across(x, y, h, c);
            0 <= h' < 2 && 0 <= c' < 3 && GridEdge(x', y', h', c') == (GridEdge(x, y, h, c).1, GridEdge(x, y, h, c).0)
  {
  }

  lemma BoundaryIsGridBoundary(s: Surface, k: int, c: int)
    requires Subdivided(s) && 0 <= k < NumFaces(s) && 0 <= c < 3
    ensures var (x', y', _, _) := Across(k / 2 % s.divX, k / 2 / s.divX, k % 2, c);
            OnBoundary(s, Edge(s, k, c)) <==> !(0 <= x' < s.divX && 0 <= y' < s.divY)
  {
    hide FaceVertex, NumFaces;
    CellOfFace(s, k);
    FaceVertexDigits(s, k, c);
    FaceVertexDigits(s, k, (c + 1) % 3);
  }

  /** The reverse of an edge occurs in the mesh exactly if the edge is not on the boundary of the grid. */
  lemma ReverseIffInterior(s: Surface, k: int, c: int)
    requires Subdivided(s) && 0 <= k < NumFaces(s) && 0 <= c < 3
    ensures (exists k', c' ::
               0 <= k' < NumFaces(s) && 0 <= c' < 3 && Edge(s, k', c') == (Edge(s, k, c).1, Edge(s, k, c).0))
            <==> !OnBoundary(s, Edge(s, k, c))
  {
    hide FaceVertex, NumFaces, OnBoundary, Across, Corner;
    var x, y, h := k / 2 % s.divX, k / 2 / s.divX, k % 2;
    var (x', y', h', c') := Across(x, y, h, c);
    CellOfFace(s, k);
    AcrossReverses(x, y, h, c);
    BoundaryIsGridBoundary(s, k, c);
    if 0 <= x' < s.divX && 0 <= y' < s.divY {
      FaceOfCell(s, x', y', h');
      var k' := 2 * (y' * s.divX + x') + h';
      SameGridEdge(s, k', c', k, c);
      assert Edge(s, k', c') == (Edge(s, k, c).1, Edge(s, k, c).0);
    }
    forall k'', c'' | 0 <= k'' < NumFaces(s) && 0 <= c'' < 3 && Edge(s, k'', c'') == (Edge(s, k, c).1, Edge(s, k, c).0)
      ensures 0 <= x' < s.divX && 0 <= y' < s.divY
    {
      ReverseIsAcross(s, k, c, k'', c'');
      CellOfFace(s, k'');
    }
  }

  lemma SameGridEdge(s: Surface, k: int, c: int, k': int, c': int)
    requires Subdivided(s) && 0 <= c < 3 && 0 <= c' < 3
    requires var e := GridEdge(k' / 2 % s.divX, k' / 2 / s.divX, k' % 2, c');
             GridEdge(k / 2 % s.divX, k / 2 / s.divX, k % 2, c) == (e.1, e.0)
    ensures Edge(s, k, c) == (Edge(s, k', c').1, Edge(s, k', c').0)
  {
    hide Corner, Vertex;
  }

  lemma ReverseIsAcross(s: Surface, k: int, c: int, k': int, c': int)
    requires Subdivided(s) && 0 <= k < NumFaces(s) && 0 <= c < 3 && 0 <= k' < NumFaces(s) && 0 <= c' < 3
    requires Edge(s, k', c') == (Edge(s, k, c).1, Edge(s, k, c).0)
    ensures Across(k / 2 % s.divX, k / 2 / s.divX, k % 2, c) == (k' / 2 % s.divX, k' / 2 / s.divX, k' % 2, c')
  {
    hide FaceVertex, NumFaces;
    var x, y, h := k / 2 % s.divX, k / 2 / s.divX, k % 2;
    var a := Across(x, y, h, c);
    FaceVertexDigits(s, k, c);
    FaceVertexDigits(s, k, (c + 1) % 3);
    FaceVertexDigits(s, k', c');
    FaceVertexDigits(s, k', (c' + 1) % 3);
    CellOfFace(s, k);
    CellOfFace(s, k');
    AcrossReverses(x, y, h, c);
    GridEdgeUnique(a.0, a.1, a.2, a.3, k' / 2 % s.divX, k' / 2 / s.divX, k' % 2, c');
  }

  /** The directed edge that leaves corner c of face k, as the faces array has it. */
  function ArrayEdge(faces: seq<int>, k: int, c: int): (int, int)
    requires 0 <= k && 9 * k + 9 <= |faces| && 0 <= c < 3
  {
    (faces[9 * k + 3 * c], faces[9 * k + 3 * ((c + 1) % 3)])
  }

  ghost predicate IsReverse(faces: seq<int>, k: int, c: int, k': int, c': int)
    requires 0 <= k && 9 * k + 9 <= |faces| && 0 <= c < 3
  {
    && 0 <= k' && 9 * k' + 9 <= |faces| && 0 <= c' < 3
    && ArrayEdge(faces, k', c') == (ArrayEdge(faces, k, c).1, ArrayEdge(faces, k, c).0)
  }

  /**
   * The faces form a consistently oriented surface: no directed edge occurs twice, and the reverse of an edge occurs,
   * then exactly once, if and only if the edge is not on the boundary.
   */
  lemma OrientedSurface(s: Surface, faces: seq<int>, k: int, c: int)
    requires Subdivided(s) && |faces| == 9 * NumFaces(s) && FacesHold(s, faces, NumFaces(s))
    requires 0 <= k < NumFaces(s) && 0 <= c < 3
    ensures forall k', c' :: 0 <= k' < NumFaces(s) && 0 <= c' < 3 &&
                                ArrayEdge(faces, k', c') == ArrayEdge(faces, k, c) ==>
              k' == k && c' == c
    ensures (exists k', c' :: IsReverse(faces, k, c, k', c')) <==> !OnBoundary(s, ArrayEdge(faces, k, c))
    ensures forall k', c', k'', c'' :: IsReverse(faces, k, c, k', c') && IsReverse(faces, k, c, k'', c'') ==>
              k' == k'' && c' == c''
  {
    hide FaceVertex, OnBoundary, NumFaces;
    forall k', c' | 0 <= k' < NumFaces(s) && 0 <= c' < 3
      ensures ArrayEdge(faces, k', c') == Edge(s, k', c')
    {
      assert FaceHolds(s, faces, k');
    }
    forall k', c', k'', c'' | 0 <= k' < NumFaces(s) && 0 <= c' < 3 && 0 <= k'' < NumFaces(s) && 0 <= c'' < 3
                              && ArrayEdge(faces, k', c') == ArrayEdge(faces, k'', c'')
      ensures k' == k'' && c' == c''
    {
      EdgeUnique(s, k', c', k'', c'');
    }
    ReverseIffInterior(s, k, c);
    assert forall k', c' :: 0 <= k' < NumFaces(s) && 0 <= c' < 3 &&
                               Edge(s, k', c') == (Edge(s, k, c).1, Edge(s, k, c).0) ==>
        IsReverse(faces, k, c, k', c');
  }

  // ---------- The arrays ----------

  ghost predicate HoldsVec(a: seq<real>, i: int, v: Vec) {
    0 <= i && 3 * i + 3 <= |a| && a[3 * i] == v.x && a[3 * i + 1] == v.y && a[3 * i + 2] == v.z
  }

  ghost predicate PointsHold(s: Surface, points: seq<real>, n: int)
    requires Subdivided(s)
  {
    forall v :: 0 <= v < n ==> HoldsVec(points, v, PointOf(s, v))
  }

  ghost predicate NormalsHold(s: Surface, normals: seq<real>, n: int)
    requires Subdivided(s)
  {
    forall k :: 0 <= k < n ==> HoldsVec(normals, k, FaceNormal(s, k))
  }

  function ReadVec(a: array<real>, i: int): Vec
    requires 0 <= i && 3 * i + 3 <= a.Length
    reads a
  {
    Vec(a[3 * i], a[3 * i + 1], a[3 * i + 2])
  }

  method WriteVec(a: array<real>, i: int, v: Vec)
    requires 0 <= i && 3 * i + 3 <= a.Length
    modifies a
    ensures HoldsVec(a[..], i, v)
    ensures forall j :: 0 <= j < a.Length && !(3 * i <= j < 3 * i + 3) ==> a[j] == old(a[j])
  {
    a[3 * i] := v.x;
    a[3 * i + 1] := v.y;
    a[3 * i + 2] := v.z;
  }

  /** The loops over the grid points, the same in `buildTriangleMesh` and `computeMesh`. */
  method FillPoints(points: array<real>, s: Surface)
    requires Subdivided(s) && points.Length == 3 * NumVerts(s)
    modifies points
    ensures PointsHold(s, points[..], NumVerts(s))
    ensures forall x, y :: 0 <= x <= s.divX && 0 <= y <= s.divY ==>
              Vertex(s, x, y) == y * (s.divX + 1) + x && StandsAt(s, points[..], Vertex(s, x, y), x, y)
  {
    hide PointOf, NumVerts, StandsAt;
    var y := 0;
    while y <= s.divY
      invariant 0 <= y <= s.divY + 1 && PointsHold(s, points[..], Vertex(s, 0, y))
    {
      var fy := Lerp(y as real / s.divY as real);
      var x := 0;
      while x <= s.divX
        invariant 0 <= x <= s.divX + 1 && PointsHold(s, points[..], Vertex(s, x, y))
      {
        var fx := Lerp(x as real / s.divX as real);
        VertexInRange(s, x, y);
        PointOfVertex(s, x, y);
        ghost var before := points[..];
        var v := Vertex(s, x, y);
        WriteVec(points, v, Vec(fx * s.scale, fy * s.scale, s.height(fx, fy) * s.scale));
        NextPoint(s, before, points[..], v);
        x := x + 1;
      }
      RowEnds(s, y);
      y := y + 1;
    }
    LastRow(s);
    PointsStand(s, points[..]);
  }

  /**
   * Entry v of the points is what stands at (x, y) on a grid from -10 to 10 in equal steps along both axes: the two
   * coordinates and the height there, scaled.
   */
  ghost predicate StandsAt(s: Surface, points: seq<real>, v: int, x: int, y: int)
    requires Subdivided(s)
  {
    var fx, fy := -10.0 + 20.0 * (x as real / s.divX as real), -10.0 + 20.0 * (y as real / s.divY as real);
    && 0 <= v && 3 * v + 3 <= |points|
    && points[3 * v] == fx * s.scale && points[3 * v + 1] == fy * s.scale
    && points[3 * v + 2] == s.height(fx, fy) * s.scale
  }

  lemma PointsStand(s: Surface, points: seq<real>)
    requires Subdivided(s) && PointsHold(s, points, NumVerts(s))
    ensures forall x, y :: 0 <= x <= s.divX && 0 <= y <= s.divY ==>
              Vertex(s, x, y) == y * (s.divX + 1) + x && StandsAt(s, points, Vertex(s, x, y), x, y)
  {
    hide NumVerts, StandsAt, PointOf;
    forall x, y | 0 <= x <= s.divX && 0 <= y <= s.divY
      ensures StandsAt(s, points, Vertex(s, x, y), x, y)
    {
      PointStands(s, points, x, y);
    }
  }

  lemma PointStands(s: Surface, points: seq<real>, x: int, y: int)
    requires Subdivided(s) && 0 <= x <= s.divX && 0 <= y <= s.divY && PointsHold(s, points, NumVerts(s))
    ensures StandsAt(s, points, Vertex(s, x, y), x, y)
  {
    hide NumVerts, Vertex, PointOf, Lerp;
    VertexInRange(s, x, y);
    PointOfVertex(s, x, y);
    LerpIs(x as real / s.divX as real);
    LerpIs(y as real / s.divY as real);
    assert HoldsVec(points, Vertex(s, x, y), PointOf(s, Vertex(s, x, y)));
  }

  lemma LerpIs(t: real)
    ensures Lerp(t) == -10.0 + 20.0 * t
  {
  }

  lemma RowEnds(s: Surface, y: int)
    ensures Vertex(s, s.divX + 1, y) == Vertex(s, 0, y + 1)
  {
  }

  lemma LastRow(s: Surface)
    ensures Vertex(s, 0, s.divY + 1) == NumVerts(s)
  {
  }

  lemma PointOfVertex(s: Surface, x: int, y: int)
    requires Subdivided(s) && 0 <= x <= s.divX
    ensures PointOf(s, Vertex(s, x, y)) == GridPoint(s, x, y)
  {
    hide GridPoint;
    DigitsOf(s.divX + 1, y, x);
  }

  lemma NextPoint(s: Surface, a: seq<real>, b: seq<real>, n: int)
    requires Subdivided(s) && PointsHold(s, a, n) && |a| == |b| && HoldsVec(b, n, PointOf(s, n))
    requires forall j :: 0 <= j < |a| && !(3 * n <= j < 3 * n + 3) ==> b[j] == a[j]
    ensures PointsHold(s, b, n + 1)
  {
    hide PointOf;
    forall v | 0 <= v < n
      ensures HoldsVec(b, v, PointOf(s, v))
    {
      assert HoldsVec(a, v, PointOf(s, v));
    }
  }

  /** The mesh object with its arrays. */
  class TriangleMesh {
    const points: array<real>
    const normals: array<real>
    const faces: array<int>

    /** The arrays are apart and sized for the surface. */
    ghost predicate Sized(s: Surface) {
      && points != normals && points.Length == 3 * NumVerts(s)
      && normals.Length == 3 * NumFaces(s) && faces.Length == 9 * NumFaces(s)
    }

    /** The mesh is the mesh of the surface. */
    ghost predicate Meshes(s: Surface)
      reads points, normals, faces
      requires Subdivided(s)
    {
      && Sized(s) && PointsHold(s, points[..], NumVerts(s)) && NormalsHold(s, normals[..], NumFaces(s))
      && FacesHold(s, faces[..], NumFaces(s))
    }

    /** `buildTriangleMesh` */
    constructor (s: Surface)
      requires Subdivided(s)
      ensures Meshes(s) && fresh(points) && fresh(normals) && fresh(faces)
    {
      points := new real[3 * NumVerts(s)];
      normals := new real[3 * NumFaces(s)];
      faces := new int[9 * NumFaces(s)];
      new;
      FillPoints(points, s);
      FillFaces(s);
    }

    /** The second pair of loops of `buildTriangleMesh`: two faces and two normals per cell. */
    method FillFaces(s: Surface)
      requires Subdivided(s) && Sized(s) && PointsHold(s, points[..], NumVerts(s))
      modifies normals, faces
      ensures NormalsHold(s, normals[..], NumFaces(s)) && FacesHold(s, faces[..], NumFaces(s))
      ensures forall x, y :: 0 <= x < s.divX && 0 <= y < s.divY ==>
                var p00 := Vertex(s, x, y);
                p00 == y * (s.divX + 1) + x && ListsCell(faces[..], 2 * (y * s.divX + x), p00, p00 + s.divX + 1)
    {
      hide NumFaces, NumVerts, PointsHold, NormalsHold, FacesHold;
      NoFaces(s, normals[..], faces[..]);
      var normalCount := 0;
      var y := 0;
      while y < s.divY
        invariant 0 <= y <= s.divY && normalCount == 2 * (y * s.divX)
        invariant NormalsHold(s, normals[..], normalCount) && FacesHold(s, faces[..], normalCount)
      {
        var x := 0;
        while x < s.divX
          invariant 0 <= x <= s.divX && normalCount == 2 * (y * s.divX + x)
          invariant NormalsHold(s, normals[..], normalCount) && FacesHold(s, faces[..], normalCount)
        {
          var p00 := y * (s.divX + 1) + x;
          var p01 := p00 + 1;
          var p10 := p00 + s.divX + 1;
          var p11 := p10 + 1;
          CellVertices(s, x, y, normalCount);
          AddFace(s, normalCount, p00, p10, p11);
          normalCount := normalCount + 1;
          AddFace(s, normalCount, p11, p01, p00);
          normalCount := normalCount + 1;
          x := x + 1;
        }
        assert (y + 1) * s.divX == y * s.divX + s.divX;
        y := y + 1;
      }
      AllCells(s);
      CellsListed(s, faces[..]);
    }

    /** One triangle: its normal and its nine face entries. */
    method AddFace(s: Surface, k: int, v0: int, v1: int, v2: int)
      requires Subdivided(s) && Sized(s) && PointsHold(s, points[..], NumVerts(s)) && 0 <= k < NumFaces(s)
      requires v0 == FaceVertex(s, k, 0) && v1 == FaceVertex(s, k, 1) && v2 == FaceVertex(s, k, 2)
      requires NormalsHold(s, normals[..], k) && FacesHold(s, faces[..], k)
      modifies normals, faces
      ensures NormalsHold(s, normals[..], k + 1) && FacesHold(s, faces[..], k + 1)
    {
      hide NumFaces, NumVerts, FaceVertex, PointOf, HoldsVec;
      ghost var ns, fs := normals[..], faces[..];
      FacePoints(s, points, k);
      var n := s.normal(ReadVec(points, v0), ReadVec(points, v1), ReadVec(points, v2));
      WriteVec(normals, k, n);
      NextNormal(s, ns, normals[..], k);
      var index := 9 * k;
      faces[index], faces[index + 1], faces[index + 2] := v0, k, v0;
      faces[index + 3], faces[index + 4], faces[index + 5] := v1, k, v1;
      faces[index + 6], faces[index + 7], faces[index + 8] := v2, k, v2;
      NextFace(s, fs, faces[..], k);
    }

    /** `computeMesh`: new points and normals in the old arrays, driven by the faces that are there. */
    method Compute(s: Surface)
      requires Subdivided(s) && Sized(s) && FacesHold(s, faces[..], NumFaces(s))
      modifies points, normals
      ensures Meshes(s)
    {
      hide NumFaces, NumVerts, FaceVertex, PointOf, HoldsVec, PointsHold, NormalsHold, FacesHold;
      FillPoints(points, s);
      NoFaces(s, normals[..], faces[..]);
      var k := 0;
      while 9 * k < faces.Length
        invariant 0 <= k <= NumFaces(s)
        invariant PointsHold(s, points[..], NumVerts(s)) && NormalsHold(s, normals[..], k)
        invariant FacesHold(s, faces[..], NumFaces(s))
      {
        var index := 9 * k;
        ghost var ns := normals[..];
        OneFace(s, faces[..], k);
        FacePoints(s, points, k);
        var n := s.normal(ReadVec(points, faces[index]), ReadVec(points, faces[index + 3]),
                          ReadVec(points, faces[index + 6]));
        assert faces[index + 1] == faces[index + 4] && faces[index + 1] == faces[index + 7];
        WriteVec(normals, faces[index + 1], n);
        NextNormal(s, ns, normals[..], k);
        k := k + 1;
      }
    }
  }

  lemma NoFaces(s: Surface, normals: seq<real>, faces: seq<int>)
    requires Subdivided(s)
    ensures NormalsHold(s, normals, 0) && FacesHold(s, faces, 0)
  {
  }

  lemma OneFace(s: Surface, faces: seq<int>, k: int)
    requires Subdivided(s) && 0 <= k < NumFaces(s) && FacesHold(s, faces, NumFaces(s))
    ensures 9 * k + 9 <= |faces|
    ensures && faces[9 * k] == FaceVertex(s, k, 0)
            && faces[9 * k + 3] == FaceVertex(s, k, 1)
            && faces[9 * k + 6] == FaceVertex(s, k, 2)
    ensures faces[9 * k + 1] == faces[9 * k + 4] == faces[9 * k + 7] == k
  {
    assert FaceHolds(s, faces, k);
  }

  lemma FacePoints(s: Surface, points: array<real>, k: int)
    requires Subdivided(s) && 0 <= k < NumFaces(s) && points.Length == 3 * NumVerts(s)
    requires PointsHold(s, points[..], NumVerts(s))
    ensures forall c :: 0 <= c < 3 ==> 0 <= FaceVertex(s, k, c) < NumVerts(s)
    ensures s.normal(ReadVec(points, FaceVertex(s, k, 0)), ReadVec(points, FaceVertex(s, k, 1)),
                     ReadVec(points, FaceVertex(s, k, 2)))
            == FaceNormal(s, k)
  {
    hide NumFaces, NumVerts, FaceVertex, PointOf;
    forall c | 0 <= c < 3
      ensures 0 <= FaceVertex(s, k, c) < NumVerts(s)
      ensures ReadVec(points, FaceVertex(s, k, c)) == PointOf(s, FaceVertex(s, k, c))
    {
      FaceVertexInRange(s, k, c);
      assert HoldsVec(points[..], FaceVertex(s, k, c), PointOf(s, FaceVertex(s, k, c)));
    }
  }

  lemma NextNormal(s: Surface, a: seq<real>, b: seq<real>, n: int)
    requires Subdivided(s) && NormalsHold(s, a, n) && |a| == |b| && HoldsVec(b, n, FaceNormal(s, n))
    requires forall j :: 0 <= j < |a| && !(3 * n <= j < 3 * n + 3) ==> b[j] == a[j]
    ensures NormalsHold(s, b, n + 1)
  {
    hide FaceNormal;
    forall v | 0 <= v < n
      ensures HoldsVec(b, v, FaceNormal(s, v))
    {
      assert HoldsVec(a, v, FaceNormal(s, v));
    }
  }

  lemma NextFace(s: Surface, a: seq<int>, b: seq<int>, n: int)
    requires Subdivided(s) && FacesHold(s, a, n) && |a| == |b| && FaceHolds(s, b, n)
    requires forall j :: 0 <= j < |a| && !(9 * n <= j < 9 * n + 9) ==> b[j] == a[j]
    ensures FacesHold(s, b, n + 1)
  {
    hide FaceVertex;
    forall k | 0 <= k < n
      ensures FaceHolds(s, b, k)
    {
      assert FaceHolds(s, a, k);
    }
  }

  lemma CellVertices(s: Surface, x: int, y: int, k: int)
    requires Subdivided(s) && 0 <= x < s.divX && 0 <= y < s.divY && k == 2 * (y * s.divX + x)
    ensures 0 <= k && k + 1 < NumFaces(s)
    ensures var p00 := y * (s.divX + 1) + x;
            var p10 := p00 + s.divX + 1;
            && FaceVertex(s, k, 0) == p00 && FaceVertex(s, k, 1) == p10 && FaceVertex(s, k, 2) == p10 + 1
            && FaceVertex(s, k + 1, 0) == p10 + 1 && FaceVertex(s, k + 1, 1) == p00 + 1
            && FaceVertex(s, k + 1, 2) == p00
  {
    hide NumFaces;
    FaceOfCell(s, x, y, 0);
    FaceOfCell(s, x, y, 1);
    assert (y + 1) * (s.divX + 1) == y * (s.divX + 1) + s.divX + 1;
  }

  /**
   * Faces k and k + 1 are those of the cell with p00 and the vertex after it on one row, p10 and the one after it on
   * the next: they list p00, p10, p11 and p11, p01, p00, each with one normal of its own.
   */
  ghost predicate ListsCell(faces: seq<int>, k: int, p00: int, p10: int) {
    var p01, p11 := p00 + 1, p10 + 1;
    && 0 <= k && 9 * k + 18 <= |faces|
    && faces[9 * k..9 * k + 18] == [p00, k, p00, p10, k, p10, p11, k, p11,
                                    p11, k + 1, p11, p01, k + 1, p01, p00, k + 1, p00]
  }

  /** The faces of every cell, entry by entry. */
  lemma CellsListed(s: Surface, faces: seq<int>)
    requires Subdivided(s) && FacesHold(s, faces, NumFaces(s))
    ensures forall x, y :: 0 <= x < s.divX && 0 <= y < s.divY ==>
              var p00 := Vertex(s, x, y);
              p00 == y * (s.divX + 1) + x && ListsCell(faces, 2 * (y * s.divX + x), p00, p00 + s.divX + 1)
  {
    hide NumFaces, FaceVertex, ListsCell;
    forall x, y | 0 <= x < s.divX && 0 <= y < s.divY
      ensures ListsCell(faces, 2 * (y * s.divX + x), Vertex(s, x, y), Vertex(s, x, y) + s.divX + 1)
    {
      CellListed(s, faces, x, y);
    }
  }

  lemma CellListed(s: Surface, faces: seq<int>, x: int, y: int)
    requires Subdivided(s) && FacesHold(s, faces, NumFaces(s)) && 0 <= x < s.divX && 0 <= y < s.divY
    ensures ListsCell(faces, 2 * (y * s.divX + x), Vertex(s, x, y), Vertex(s, x, y) + s.divX + 1)
  {
    hide NumFaces, FaceVertex;
    var k := 2 * (y * s.divX + x);
    CellVertices(s, x, y, k);
    assert FaceHolds(s, faces, k) && FaceHolds(s, faces, k + 1);
  }

  function VecAt(a: seq<real>, i: int): Vec
    requires 0 <= i && 3 * i + 3 <= |a|
  {
    Vec(a[3 * i], a[3 * i + 1], a[3 * i + 2])
  }

  /** Normal k of a mesh is that of the three points that face k lists, in their order. */
  lemma NormalOfFace(s: Surface, points: seq<real>, normals: seq<real>, faces: seq<int>, k: int)
    requires Subdivided(s) && 0 <= k < NumFaces(s) && PointsHold(s, points, NumVerts(s))
    requires NormalsHold(s, normals, NumFaces(s)) && FacesHold(s, faces, NumFaces(s))
    ensures 9 * k + 9 <= |faces| && 3 * k + 3 <= |normals|
    ensures 0 <= faces[9 * k] && 3 * faces[9 * k] + 3 <= |points|
    ensures 0 <= faces[9 * k + 3] && 3 * faces[9 * k + 3] + 3 <= |points|
    ensures 0 <= faces[9 * k + 6] && 3 * faces[9 * k + 6] + 3 <= |points|
    ensures VecAt(normals, k)
            == s.normal(VecAt(points, faces[9 * k]), VecAt(points, faces[9 * k + 3]), VecAt(points, faces[9 * k + 6]))
  {
    hide NumFaces, NumVerts, FaceVertex, PointOf;
    assert FaceHolds(s, faces, k) && HoldsVec(normals, k, FaceNormal(s, k));
    forall c | 0 <= c < 3
      ensures HoldsVec(points, FaceVertex(s, k, c), PointOf(s, FaceVertex(s, k, c)))
    {
      FaceVertexInRange(s, k, c);
    }
  }

  lemma AllCells(s: Surface)
    ensures 2 * (s.divY * s.divX) == NumFaces(s)
  {
  }

  /** Two arrays that hold the same vectors are equal. */
  lemma SameVectors(a: seq<real>, b: seq<real>, n: nat, f: int -> Vec)
    requires |a| == |b| == 3 * n
    requires forall i :: 0 <= i < n ==> HoldsVec(a, i, f(i)) && HoldsVec(b, i, f(i))
    ensures a == b
  {
    forall j | 0 <= j < 3 * n
      ensures a[j] == b[j]
    {
      var i := j / 3;
      assert HoldsVec(a, i, f(i)) && HoldsVec(b, i, f(i));
      assert j == 3 * i || j == 3 * i + 1 || j == 3 * i + 2;
    }
  }

  /** A mesh built for one surface and recomputed for another with the same subdivision equals a mesh built afresh. */
  method Recompute(mesh: TriangleMesh, was: Surface, s: Surface) returns (rebuilt: TriangleMesh)
    requires Subdivided(was) && mesh.Meshes(was) && s.divX == was.divX && s.divY == was.divY
    modifies mesh.points, mesh.normals
    ensures fresh(rebuilt) && rebuilt.Meshes(s)
    ensures mesh.points[..] == rebuilt.points[..] && mesh.normals[..] == rebuilt.normals[..]
    ensures mesh.faces[..] == rebuilt.faces[..]
  {
    SameFaces(was, s, mesh.faces[..]);
    assert mesh.Sized(s);
    mesh.Compute(s);
    rebuilt := new TriangleMesh(s);
    SameVectors(mesh.points[..], rebuilt.points[..], NumVerts(s), v => PointOf(s, v));
    SameVectors(mesh.normals[..], rebuilt.normals[..], NumFaces(s), k => FaceNormal(s, k));
    FacesDetermined(s, mesh.faces[..], rebuilt.faces[..]);
  }

  lemma SameFaces(was: Surface, s: Surface, faces: seq<int>)
    requires Subdivided(was) && s.divX == was.divX && s.divY == was.divY && FacesHold(was, faces, NumFaces(was))
    ensures FacesHold(s, faces, NumFaces(s))
  {
    forall k | 0 <= k < NumFaces(s)
      ensures FaceHolds(s, faces, k)
    {
      assert FaceHolds(was, faces, k);
    }
  }

  lemma FacesDetermined(s: Surface, a: seq<int>, b: seq<int>)
    requires Subdivided(s) && |a| == |b| == 9 * NumFaces(s) && FacesHold(s, a, NumFaces(s))
    requires FacesHold(s, b, NumFaces(s))
    ensures a == b
  {
    hide NumFaces, FaceVertex;
    forall j | 0 <= j < |a|
      ensures a[j] == b[j]
    {
      var k := j / 9;
      assert FaceHolds(s, a, k) && FaceHolds(s, b, k);
      assert 9 * k <= j < 9 * k + 9;
    }
  }
}
