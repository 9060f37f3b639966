/**
 * MeshFactory: the index buffers of the predefined meshes. A box has four
 * vertices per face, the corners of the face's square, and two triangles
 * per face. A ball is a cube whose six sides are grids of `degree + 2`
 * vertices per edge, pushed onto the sphere; every grid cell is split into
 * two triangles along its diagonal. A point is one vertex with index 0.
 * The vertices' positions and normals are floating-point geometry and are
 * not modelled: a vertex is identified by its face and corner, or by its
 * side and grid position.
 */
module MeshFactories {

  datatype Primitive = Triangles | Points

  /** A box vertex: corner 0..3 of face 0..5, counter-clockwise from (-1, -1). */
  datatype BoxCorner = BoxCorner(face: nat, corner: nat)

  /** A ball vertex: the grid position on one of the six sides. */
  datatype GridPoint = GridPoint(side: nat, y: nat, x: nat)

  /** The corners used by the six indices of a box face: triangles (0, 1, 3) and (3, 1, 2). */
  function FaceCorner(j: nat): (c: nat)
    requires j < 6
    ensures c < 4
  {
    [0, 1, 3, 3, 1, 2][j]
  }

  /** The two triangles of a box face have three distinct corners each, share the diagonal from corner 1 to corner 3 and together cover the face. */
  lemma FaceTrianglesCoverFace()
    ensures FaceCorner(0) != FaceCorner(1) && FaceCorner(1) != FaceCorner(2) && FaceCorner(0) != FaceCorner(2)
    ensures FaceCorner(3) != FaceCorner(4) && FaceCorner(4) != FaceCorner(5) && FaceCorner(3) != FaceCorner(5)
    ensures FaceCorner(1) == FaceCorner(4) && FaceCorner(2) == FaceCorner(3)
    ensures {FaceCorner(0), FaceCorner(1), FaceCorner(2)} + {FaceCorner(3), FaceCorner(4), FaceCorner(5)} == {0, 1, 2, 3}
  {
  }

  /** Where createBox puts corner `c` of face `f` among the vertices. */
  function VertexSlot(f: nat, c: nat): nat
  {
    4 * f + c
  }

  /** Where createBox puts index `j` of face `f` among the indices. */
  function IndexSlot(f: nat, j: nat): nat
  {
    6 * f + j
  }

  /**
   * createBox: 24 vertices, the four corners of each face, and 36 indices,
   * six per face; index `j` of face `f` refers to corner FaceCorner(j) of
   * face `f`.
   */
  method CreateBox() returns (primitive: Primitive, vertices: array<BoxCorner>, indices: array<nat>)
    ensures primitive == Triangles && vertices.Length == 24 && indices.Length == 36
    ensures forall f: nat, c: nat :: f < 6 && c < 4 ==> vertices[VertexSlot(f, c)] == BoxCorner(f, c)
    ensures forall f: nat, j: nat :: f < 6 && j < 6 ==> indices[IndexSlot(f, j)] == VertexSlot(f, FaceCorner(j))
  {
    primitive := Triangles;
    vertices := new BoxCorner[6 * 4](_ => BoxCorner(0, 0));
    indices := new nat[6 * 2 * 3](_ => 0);
    var lastVertex := -1;
    var lastIndex := -1;
    var faceIndex := 0;
    while faceIndex < 6
      invariant 0 <= faceIndex <= 6 && lastVertex == 4 * faceIndex - 1 && lastIndex == 6 * faceIndex - 1
      invariant forall f: nat, c: nat :: f < faceIndex && c < 4 ==> vertices[VertexSlot(f, c)] == BoxCorner(f, c)
      invariant forall f: nat, j: nat :: f < faceIndex && j < 6 ==> indices[IndexSlot(f, j)] == VertexSlot(f, FaceCorner(j))
    {
      lastVertex, lastIndex := WriteBoxFace(vertices, indices, faceIndex, lastVertex, lastIndex);
      forall f: nat, c: nat | f < faceIndex + 1 && c < 4
        ensures vertices[VertexSlot(f, c)] == BoxCorner(f, c)
      {
        if f == faceIndex {
          assert c == 0 || c == 1 || c == 2 || c == 3;
        }
      }
      forall f: nat, j: nat | f < faceIndex + 1 && j < 6
        ensures indices[IndexSlot(f, j)] == VertexSlot(f, FaceCorner(j))
      {
        if f == faceIndex {
          assert j == 0 || j == 1 || j == 2 || j == 3 || j == 4 || j == 5;
        }
      }
      faceIndex := faceIndex + 1;
    }
  }

  /** The body of createBox's loop: the four corners of one face and its two triangles. */
  method WriteBoxFace(vertices: array<BoxCorner>, indices: array<nat>, faceIndex: nat, lastVertex: int, lastIndex: int)
    returns (newLastVertex: int, newLastIndex: int)
    requires vertices.Length == 24 && indices.Length == 36
    requires faceIndex < 6 && lastVertex == 4 * faceIndex - 1 && lastIndex == 6 * faceIndex - 1
    modifies vertices, indices
    ensures newLastVertex == lastVertex + 4 && newLastIndex == lastIndex + 6
    ensures forall k :: 0 <= k <= lastVertex ==> vertices[k] == old(vertices[k])
    ensures forall k :: 0 <= k <= lastIndex ==> indices[k] == old(indices[k])
    ensures forall c :: 0 <= c < 4 ==> vertices[VertexSlot(faceIndex, c)] == BoxCorner(faceIndex, c)
    ensures forall j :: 0 <= j < 6 ==> indices[IndexSlot(faceIndex, j)] == VertexSlot(faceIndex, FaceCorner(j))
  {
    newLastVertex := WriteBoxCorners(vertices, faceIndex, lastVertex);
    newLastIndex := WriteBoxTriangles(indices, newLastVertex, lastIndex);
  }

  /** The four corners of one face. */
  method WriteBoxCorners(vertices: array<BoxCorner>, faceIndex: nat, lastVertex: int) returns (newLastVertex: int)
    requires vertices.Length == 24 && faceIndex < 6 && lastVertex == 4 * faceIndex - 1
    modifies vertices
    ensures newLastVertex == lastVertex + 4
    ensures forall k :: 0 <= k <= lastVertex ==> vertices[k] == old(vertices[k])
    ensures forall c :: 0 <= c < 4 ==> vertices[VertexSlot(faceIndex, c)] == BoxCorner(faceIndex, c)
  {
    newLastVertex := lastVertex;
    newLastVertex := newLastVertex + 1; vertices[newLastVertex] := BoxCorner(faceIndex, 0);
    newLastVertex := newLastVertex + 1; vertices[newLastVertex] := BoxCorner(faceIndex, 1);
    newLastVertex := newLastVertex + 1; vertices[newLastVertex] := BoxCorner(faceIndex, 2);
    newLastVertex := newLastVertex + 1; vertices[newLastVertex] := BoxCorner(faceIndex, 3);
  }

  /** The two triangles of the face whose last corner is `lastVertex`. */
  method WriteBoxTriangles(indices: array<nat>, lastVertex: int, lastIndex: int) returns (newLastIndex: int)
    requires indices.Length == 36 && 3 <= lastVertex < 24 && lastVertex % 4 == 3
    requires lastIndex == 6 * (lastVertex / 4) - 1
    modifies indices
    ensures newLastIndex == lastIndex + 6
    ensures forall k :: 0 <= k <= lastIndex ==> indices[k] == old(indices[k])
    ensures forall j :: 0 <= j < 6 ==> indices[IndexSlot(lastVertex / 4, j)] == VertexSlot(lastVertex / 4, FaceCorner(j))
  {
    newLastIndex := lastIndex;
    newLastIndex := newLastIndex + 1; indices[newLastIndex] := lastVertex - 3;
    newLastIndex := newLastIndex + 1; indices[newLastIndex] := lastVertex - 2;
    newLastIndex := newLastIndex + 1; indices[newLastIndex] := lastVertex;

    newLastIndex := newLastIndex + 1; indices[newLastIndex] := lastVertex;
    newLastIndex := newLastIndex + 1; indices[newLastIndex] := lastVertex - 2;
    newLastIndex := newLastIndex + 1; indices[newLastIndex] := lastVertex - 1;
  }

  /** Every box index refers to one of the 24 vertices, a corner of its own face. */
  lemma BoxIndicesInRange(f: nat, j: nat)
    requires f < 6 && j < 6
    ensures VertexSlot(f, FaceCorner(j)) < 24 && VertexSlot(f, FaceCorner(j)) / 4 == f
  {
  }

  // ----- The ball -----

  /** The product a * b by repeated addition, so that grid positions stay linear for the solver. */
  function Mul(a: nat, b: nat): nat
  {
    if b == 0 then 0 else Mul(a, b - 1) + a
  }

  lemma {:induction false} MulIsProduct(a: nat, b: nat)
    ensures Mul(a, b) == a * b
  {
    if b > 0 {
      MulIsProduct(a, b - 1);
    }
  }

  lemma {:induction false} MulMonotone(a: nat, b: nat, c: nat)
    requires b <= c
    ensures Mul(a, b) <= Mul(a, c)
  {
    if b < c {
      MulMonotone(a, b, c - 1);
    }
  }

  /** The position of grid point (y, x) of side `s` when the sides' n-by-n grids are laid out one after another. */
  function GridIndex(n: nat, s: nat, y: nat, x: nat): nat
  {
    Mul(Mul(n, n), s) + Mul(n, y) + x
  }

  /** Grid points in lexicographic order of side, row and column have increasing positions. */
  lemma GridIndexLess(n: nat, s: nat, y: nat, x: nat, s2: nat, y2: nat, x2: nat)
    requires y < n && x < n && y2 < n && x2 < n
    requires s < s2 || (s == s2 && (y < y2 || (y == y2 && x < x2)))
    ensures GridIndex(n, s, y, x) < GridIndex(n, s2, y2, x2)
  {
    MulMonotone(n, y, n - 1);
    assert Mul(n, y) + x < Mul(n, n);
    if s < s2 {
      MulMonotone(Mul(n, n), s + 1, s2);
    } else if y < y2 {
      MulMonotone(n, y + 1, y2);
    }
  }

  lemma GridIndexInjective(n: nat, s: nat, y: nat, x: nat, s2: nat, y2: nat, x2: nat)
    requires y < n && x < n && y2 < n && x2 < n
    requires GridIndex(n, s, y, x) == GridIndex(n, s2, y2, x2)
    ensures s == s2 && y == y2 && x == x2
  {
    if s < s2 || (s == s2 && (y < y2 || (y == y2 && x < x2))) {
      GridIndexLess(n, s, y, x, s2, y2, x2);
    } else if s2 < s || (s == s2 && (y2 < y || (y == y2 && x2 < x))) {
      GridIndexLess(n, s2, y2, x2, s, y, x);
    }
  }

  /** Every grid point of the first `sides` sides lies below the first point of side `sides`. */
  lemma GridIndexBound(n: nat, s: nat, y: nat, x: nat, sides: nat)
    requires y < n && x < n && s < sides
    ensures GridIndex(n, s, y, x) < GridIndex(n, sides, 0, 0)
  {
    GridIndexLess(n, s, y, x, sides, 0, 0);
  }

  /** The grid positions in the source's own arithmetic. */
  lemma GridIndexIsProduct(n: nat, s: nat, y: nat, x: nat)
    ensures GridIndex(n, s, y, x) == n * n * s + x + y * n
  {
    MulIsProduct(n, n);
    MulIsProduct(n * n, s);
    MulIsProduct(n, y);
  }

  /** The first `count` vertices are the grid points at their positions. */
  ghost predicate GridVertices(vertices: array<GridPoint>, n: nat, count: nat)
    reads vertices
  {
    forall s: nat, y: nat, x: nat :: s < 6 && y < n && x < n && GridIndex(n, s, y, x) < count ==>
      GridIndex(n, s, y, x) < vertices.Length && vertices[GridIndex(n, s, y, x)] == GridPoint(s, y, x)
  }

  /**
   * The six indices of cell (y, x) of side `s`, a grid of n + 1 vertices per
   * edge: triangles (upper left, lower right, lower left) and (upper left,
   * upper right, lower right).
   */
  ghost predicate CellIndices(indices: array<nat>, n: nat, s: nat, y: nat, x: nat)
    requires 6 * GridIndex(n, s, y, x) + 6 <= indices.Length
    reads indices
  {
    var q := 6 * GridIndex(n, s, y, x);
    indices[q] == GridIndex(n + 1, s, y, x)
    && indices[q + 1] == GridIndex(n + 1, s, y + 1, x + 1)
    && indices[q + 2] == GridIndex(n + 1, s, y + 1, x)
    && indices[q + 3] == GridIndex(n + 1, s, y, x)
    && indices[q + 4] == GridIndex(n + 1, s, y, x + 1)
    && indices[q + 5] == GridIndex(n + 1, s, y + 1, x + 1)
  }

  /** The first `count` cells of the n-by-n cell grids carry their triangles. */
  ghost predicate GridCells(indices: array<nat>, n: nat, count: nat)
    reads indices
  {
    forall s: nat, y: nat, x: nat :: s < 6 && y < n && x < n && GridIndex(n, s, y, x) < count ==>
      6 * GridIndex(n, s, y, x) + 6 <= indices.Length && CellIndices(indices, n, s, y, x)
  }

  /** The number of indices createBall computes for `degree`. */
  function BallIndicesCount(degree: nat): nat
  {
    var verticesPerEdge := 2 + degree;
    var facesPerSide := (verticesPerEdge - 1) * (verticesPerEdge - 1);
    6 * (6 * facesPerSide)
  }

  /** A ball has fewer vertices than indices, and the index count is six indices per cell of the six sides. */
  lemma BallVerticesFewerThanIndices(degree: nat)
    ensures GridIndex(degree + 2, 6, 0, 0) < BallIndicesCount(degree)
    ensures BallIndicesCount(degree) == 6 * GridIndex(degree + 1, 6, 0, 0)
  {
    var m := degree + 1;
    MulMonotone(m, 1, m);
    MulIsProduct(m, 1);
    MulIsProduct(m, m);
    GridIndexIsProduct(m + 1, 6, 0, 0);
    GridIndexIsProduct(m, 6, 0, 0);
    assert 6 * (m + 1) * (m + 1) == 6 * (m * m) + 12 * m + 6;
  }

  /** The vertices of one side: its grid, row by row. */
  method WriteSideVertices(vertices: array<GridPoint>, verticesPerEdge: nat, sideIndex: nat, lastVertex: int)
    returns (newLastVertex: int)
    requires sideIndex < 6 && verticesPerEdge >= 2
    requires vertices.Length == GridIndex(verticesPerEdge, 6, 0, 0)
    requires lastVertex + 1 == GridIndex(verticesPerEdge, sideIndex, 0, 0)
    requires GridVertices(vertices, verticesPerEdge, lastVertex + 1)
    modifies vertices
    ensures newLastVertex + 1 == GridIndex(verticesPerEdge, sideIndex + 1, 0, 0)
    ensures GridVertices(vertices, verticesPerEdge, newLastVertex + 1)
  {
    var n := verticesPerEdge;
    newLastVertex := lastVertex;
    var y := 0;
    while y < n
      invariant 0 <= y <= n && newLastVertex + 1 == GridIndex(n, sideIndex, y, 0)
      invariant GridVertices(vertices, n, newLastVertex + 1)
    {
      var x := 0;
      while x < n
        invariant 0 <= x <= n && newLastVertex + 1 == GridIndex(n, sideIndex, y, x)
        invariant GridVertices(vertices, n, newLastVertex + 1)
      {
        WriteVertex(vertices, n, sideIndex, y, x, newLastVertex);
        newLastVertex := newLastVertex + 1;
        x := x + 1;
      }
      assert GridIndex(n, sideIndex, y, n) == GridIndex(n, sideIndex, y + 1, 0);
      y := y + 1;
    }
    assert GridIndex(n, sideIndex, n, 0) == GridIndex(n, sideIndex + 1, 0, 0);
  }

  /** One vertex of a side's grid, written after `lastVertex`. */
  method WriteVertex(vertices: array<GridPoint>, n: nat, sideIndex: nat, y: nat, x: nat, lastVertex: int)
    requires sideIndex < 6 && y < n && x < n
    requires vertices.Length == GridIndex(n, 6, 0, 0)
    requires lastVertex + 1 == GridIndex(n, sideIndex, y, x)
    requires GridVertices(vertices, n, lastVertex + 1)
    modifies vertices
    ensures GridVertices(vertices, n, lastVertex + 2)
  {
    GridIndexBound(n, sideIndex, y, x, 6);
    var lastVertex := lastVertex + 1;
    vertices[lastVertex] := GridPoint(sideIndex, y, x);
    forall s: nat, y2: nat, x2: nat | s < 6 && y2 < n && x2 < n && GridIndex(n, s, y2, x2) < lastVertex + 1
      ensures GridIndex(n, s, y2, x2) < vertices.Length && vertices[GridIndex(n, s, y2, x2)] == GridPoint(s, y2, x2)
    {
      if GridIndex(n, s, y2, x2) == lastVertex {
        GridIndexInjective(n, s, y2, x2, sideIndex, y, x);
      }
    }
  }

  /** The indices of one side: two triangles per grid cell, row by row. */
  method WriteSideIndices(indices: array<nat>, verticesPerEdge: nat, sideIndex: nat, lastIndex: int)
    returns (newLastIndex: int)
    requires sideIndex < 6 && verticesPerEdge >= 2
    requires indices.Length == 6 * GridIndex(verticesPerEdge - 1, 6, 0, 0)
    requires lastIndex + 1 == 6 * GridIndex(verticesPerEdge - 1, sideIndex, 0, 0)
    requires GridCells(indices, verticesPerEdge - 1, GridIndex(verticesPerEdge - 1, sideIndex, 0, 0))
    modifies indices
    ensures newLastIndex + 1 == 6 * GridIndex(verticesPerEdge - 1, sideIndex + 1, 0, 0)
    ensures GridCells(indices, verticesPerEdge - 1, GridIndex(verticesPerEdge - 1, sideIndex + 1, 0, 0))
  {
    var n := verticesPerEdge - 1;
    var verticesPerSide := verticesPerEdge * verticesPerEdge;
    newLastIndex := lastIndex;
    var y := 0;
    while y < n
      invariant 0 <= y <= n && newLastIndex + 1 == 6 * GridIndex(n, sideIndex, y, 0)
      invariant GridCells(indices, n, GridIndex(n, sideIndex, y, 0))
    {
      var x := 0;
      while x < n
        invariant 0 <= x <= n && newLastIndex + 1 == 6 * GridIndex(n, sideIndex, y, x)
        invariant GridCells(indices, n, GridIndex(n, sideIndex, y, x))
      {
        WriteCell(indices, verticesPerEdge, sideIndex, y, x, newLastIndex);
        newLastIndex := newLastIndex + 6;
        x := x + 1;
      }
      assert GridIndex(n, sideIndex, y, n) == GridIndex(n, sideIndex, y + 1, 0);
      y := y + 1;
    }
    assert GridIndex(n, sideIndex, n, 0) == GridIndex(n, sideIndex + 1, 0, 0);
  }

  /** The six indices of one grid cell, written after `lastIndex`. */
  method WriteCell(indices: array<nat>, verticesPerEdge: nat, sideIndex: nat, y: nat, x: nat, lastIndex: int)
    requires sideIndex < 6 && verticesPerEdge >= 2 && y < verticesPerEdge - 1 && x < verticesPerEdge - 1
    requires indices.Length == 6 * GridIndex(verticesPerEdge - 1, 6, 0, 0)
    requires lastIndex + 1 == 6 * GridIndex(verticesPerEdge - 1, sideIndex, y, x)
    requires GridCells(indices, verticesPerEdge - 1, GridIndex(verticesPerEdge - 1, sideIndex, y, x))
    modifies indices
    ensures GridCells(indices, verticesPerEdge - 1, GridIndex(verticesPerEdge - 1, sideIndex, y, x) + 1)
  {
    var n := verticesPerEdge - 1;
    var cell := GridIndex(n, sideIndex, y, x);
    GridIndexBound(n, sideIndex, y, x, 6);
    var verticesPerSide := verticesPerEdge * verticesPerEdge;
    var ul := x + y * verticesPerEdge;
    var ur := x + 1 + y * verticesPerEdge;
    var ll := x + (y + 1) * verticesPerEdge;
    var lr := x + 1 + (y + 1) * verticesPerEdge;
    GridIndexIsProduct(verticesPerEdge, sideIndex, y, x);
    GridIndexIsProduct(verticesPerEdge, sideIndex, y, x + 1);
    GridIndexIsProduct(verticesPerEdge, sideIndex, y + 1, x);
    GridIndexIsProduct(verticesPerEdge, sideIndex, y + 1, x + 1);
    ghost var before := indices[..];
    var lastIndex := lastIndex;

    lastIndex := lastIndex + 1; indices[lastIndex] := verticesPerSide * sideIndex + ul;
    lastIndex := lastIndex + 1; indices[lastIndex] := verticesPerSide * sideIndex + lr;
    lastIndex := lastIndex + 1; indices[lastIndex] := verticesPerSide * sideIndex + ll;

    lastIndex := lastIndex + 1; indices[lastIndex] := verticesPerSide * sideIndex + ul;
    lastIndex := lastIndex + 1; indices[lastIndex] := verticesPerSide * sideIndex + ur;
    lastIndex := lastIndex + 1; indices[lastIndex] := verticesPerSide * sideIndex + lr;

    assert forall k :: 0 <= k < 6 * cell ==> indices[k] == before[k];
    assert CellIndices(indices, n, sideIndex, y, x);
    forall s: nat, y2: nat, x2: nat | s < 6 && y2 < n && x2 < n && GridIndex(n, s, y2, x2) < cell + 1
      ensures 6 * GridIndex(n, s, y2, x2) + 6 <= indices.Length && CellIndices(indices, n, s, y2, x2)
    {
      GridIndexBound(n, s, y2, x2, 6);
      if GridIndex(n, s, y2, x2) == cell {
        GridIndexInjective(n, s, y2, x2, sideIndex, y, x);
      }
    }
  }

  /**
   * createBall: asserts the index count is below 2^16, then builds the six
   * sides' vertex grids and, for every cell of every side, two triangles
   * whose corners are the cell's corners on that side.
   */
  method CreateBall(degree: nat) returns (primitive: Primitive, vertices: array<GridPoint>, indices: array<nat>)
    requires BallIndicesCount(degree) < 0x1_0000
    ensures primitive == Triangles
    ensures vertices.Length == GridIndex(degree + 2, 6, 0, 0) && indices.Length == 6 * GridIndex(degree + 1, 6, 0, 0)
    ensures GridVertices(vertices, degree + 2, vertices.Length)
    ensures GridCells(indices, degree + 1, GridIndex(degree + 1, 6, 0, 0))
  {
    primitive := Triangles;
    var verticesPerEdge := 2 + degree;
    var verticesPerSide := verticesPerEdge * verticesPerEdge;
    var facesPerSide := (verticesPerEdge - 1) * (verticesPerEdge - 1);
    var indicesPerSide := 6 * facesPerSide;
    var verticesCount := 6 * verticesPerSide;
    var indicesCount := 6 * indicesPerSide;
    GridIndexIsProduct(verticesPerEdge, 6, 0, 0);
    GridIndexIsProduct(verticesPerEdge - 1, 6, 0, 0);
    vertices := new GridPoint[verticesCount](_ => GridPoint(0, 0, 0));
    indices := new nat[indicesCount](_ => 0);
    FillSides(vertices, indices, verticesPerEdge);
  }

  /** createBall's loop over the six sides, with its running lastVertex and lastIndex counters. */
  method FillSides(vertices: array<GridPoint>, indices: array<nat>, verticesPerEdge: nat)
    requires verticesPerEdge >= 2
    requires vertices.Length == GridIndex(verticesPerEdge, 6, 0, 0)
    requires indices.Length == 6 * GridIndex(verticesPerEdge - 1, 6, 0, 0)
    modifies vertices, indices
    ensures GridVertices(vertices, verticesPerEdge, vertices.Length)
    ensures GridCells(indices, verticesPerEdge - 1, GridIndex(verticesPerEdge - 1, 6, 0, 0))
  {
    var lastVertex := -1;
    var lastIndex := -1;
    var sideIndex := 0;
    while sideIndex < 6
      invariant 0 <= sideIndex <= 6
      invariant lastVertex + 1 == GridIndex(verticesPerEdge, sideIndex, 0, 0)
      invariant lastIndex + 1 == 6 * GridIndex(verticesPerEdge - 1, sideIndex, 0, 0)
      invariant GridVertices(vertices, verticesPerEdge, lastVertex + 1)
      invariant GridCells(indices, verticesPerEdge - 1, GridIndex(verticesPerEdge - 1, sideIndex, 0, 0))
    {
      lastVertex := WriteSideVertices(vertices, verticesPerEdge, sideIndex, lastVertex);
      lastIndex := WriteSideIndices(indices, verticesPerEdge, sideIndex, lastIndex);
      sideIndex := sideIndex + 1;
    }
  }

  /** Every index of a ball refers to one of its vertices and fits the 16-bit index type. */
  lemma BallIndicesInRange(indices: array<nat>, degree: nat, s: nat, y: nat, x: nat, j: nat)
    requires BallIndicesCount(degree) < 0x1_0000
    requires GridCells(indices, degree + 1, GridIndex(degree + 1, 6, 0, 0))
    requires s < 6 && y < degree + 1 && x < degree + 1 && j < 6
    ensures 6 * GridIndex(degree + 1, s, y, x) + j < indices.Length
    ensures indices[6 * GridIndex(degree + 1, s, y, x) + j] < GridIndex(degree + 2, 6, 0, 0) < 0x1_0000
  {
    var n := degree + 1;
    GridIndexBound(n, s, y, x, 6);
    assert CellIndices(indices, n, s, y, x);
    BallVerticesFewerThanIndices(degree);
    GridIndexBound(n + 1, s, y + 1, x + 1, 6);
    GridIndexLess(n + 1, s, y, x, s, y + 1, x + 1);
    GridIndexLess(n + 1, s, y + 1, x, s, y + 1, x + 1);
    GridIndexLess(n + 1, s, y, x + 1, s, y + 1, x + 1);
  }

  /** createPoint: a single vertex and the single index 0, drawn as points. */
  method CreatePoint() returns (primitive: Primitive, vertexCount: nat, indices: array<nat>)
    ensures primitive == Points && vertexCount == 1
    ensures indices.Length == 1 && indices[0] == 0 && indices[0] < vertexCount
  {
    primitive := Points;
    vertexCount := 1;
    indices := new nat[1](_ => 0);
  }
}
