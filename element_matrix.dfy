/** The geometry of one linear triangle: the Jacobian of the map from the
    reference triangle, its determinant and explicit inverse, the matrix
    grad = J^-1 * grad_ref of transformed reference gradients and the
    3-by-3 element matrix Ke(i, j) = area * grad.col(i) . grad.col(j).
    The columns of grad are the gradients of the basis functions only when
    J^-1 = J^-T. */
module ElementMatrix {
  import opened Dense
  import opened MeshBase
  import opened ReferenceBasis

  /** The 2-by-2 matrix [[a, b], [c, d]]. */
  datatype Mat2 = Mat2(a: real, b: real, c: real, d: real)

  datatype Vec2 = Vec2(u: real, v: real)

  const Identity: Mat2 := Mat2(1.0, 0.0, 0.0, 1.0)

  /** The affine map x = p0 + J (xi, eta) from reference to physical
      coordinates. */
  function MapRef(p0: Node, j: Mat2, xi: real, eta: real): (real, real)
  {
    (p0.x + j.a * xi + j.b * eta, p0.y + j.c * xi + j.d * eta)
  }

  /** J with columns p1 - p0 and p2 - p0: the Jacobian of the affine map
      that sends the reference vertices (0, 0), (1, 0), (0, 1) to p0, p1,
      p2. */
  function Jacobian(p0: Node, p1: Node, p2: Node): (j: Mat2)
    ensures MapRef(p0, j, 0.0, 0.0) == (p0.x, p0.y)
    ensures MapRef(p0, j, 1.0, 0.0) == (p1.x, p1.y)
    ensures MapRef(p0, j, 0.0, 1.0) == (p2.x, p2.y)
  {
    Mat2(p1.x - p0.x, p2.x - p0.x, p1.y - p0.y, p2.y - p0.y)
  }

  function Det(m: Mat2): real
  {
    m.a * m.d - m.b * m.c
  }

  function Mul(m: Mat2, n: Mat2): Mat2
  {
    Mat2(m.a * n.a + m.b * n.c, m.a * n.b + m.b * n.d,
         m.c * n.a + m.d * n.c, m.c * n.b + m.d * n.d)
  }

  function Apply(m: Mat2, w: Vec2): Vec2
  {
    Vec2(m.a * w.u + m.b * w.v, m.c * w.u + m.d * w.v)
  }

  function Dot2(w: Vec2, z: Vec2): real
  {
    w.u * z.u + w.v * z.v
  }

  /** The explicit inverse (1/det) [[d, -b], [-c, a]]: a two-sided
      inverse of m. */
  function Inverse(m: Mat2): (inv: Mat2)
    requires Det(m) != 0.0
    ensures Mul(m, inv) == Identity
    ensures Mul(inv, m) == Identity
  {
    var det := Det(m);
    var r := 1.0 / det;
    assert det * r == 1.0;
    var inv := Mat2(m.d * r, -m.b * r, -m.c * r, m.a * r);
    var p := Mul(m, inv);
    assert p.a == (m.a * m.d - m.b * m.c) * r;
    assert p.b == (m.a * -m.b + m.b * m.a) * r;
    assert p.c == (m.c * m.d + m.d * -m.c) * r;
    assert p.d == (m.c * -m.b + m.d * m.a) * r;
    var q := Mul(inv, m);
    assert q.a == (m.d * m.a - m.b * m.c) * r;
    assert q.b == (m.d * m.b - m.b * m.d) * r;
    assert q.c == (-m.c * m.a + m.a * m.c) * r;
    assert q.d == (-m.c * m.b + m.a * m.d) * r;
    inv
  }

  /** Area of the triangle, 0.5 |det J|. */
  function Area(p0: Node, p1: Node, p2: Node): (r: real)
    ensures r >= 0.0
  {
    0.5 * Abs(Det(Jacobian(p0, p1, p2)))
  }

  /** The area as assembleLoad writes it, from the coordinate differences. */
  function LoadArea(p0: Node, p1: Node, p2: Node): real
  {
    0.5 * Abs((p1.x - p0.x) * (p2.y - p0.y) - (p2.x - p0.x) * (p1.y - p0.y))
  }

  /** The load area formula is the element area 0.5 |det J|. */
  lemma LoadAreaIsArea(p0: Node, p1: Node, p2: Node)
    ensures LoadArea(p0, p1, p2) == Area(p0, p1, p2)
  {
    var j := Jacobian(p0, p1, p2);
    ProductsEqual(j.a, p1.x - p0.x, j.d, p2.y - p0.y);
    ProductsEqual(j.b, p2.x - p0.x, j.c, p1.y - p0.y);
    assert Det(j) == (p1.x - p0.x) * (p2.y - p0.y) - (p2.x - p0.x) * (p1.y - p0.y);
  }

  lemma ProductsEqual(a: real, a': real, b: real, b': real)
    requires a == a' && b == b'
    ensures a * b == a' * b'
  {
  }

  /** Column i of grad_ref: the reference gradient of basis function i. */
  function RefGrad(i: nat): Vec2
    requires i < 3
  {
    Vec2(BasisGradXi(i).value, BasisGradEta(i).value)
  }

  /** Column i of grad = J^-1 * grad_ref. */
  function PhysGrad(m: Mat2, i: nat): Vec2
    requires Det(m) != 0.0 && i < 3
  {
    Apply(Inverse(m), RefGrad(i))
  }

  /** The three columns of grad = J^-1 * grad_ref. */
  function PhysGrads(m: Mat2): (g: seq<Vec2>)
    requires Det(m) != 0.0
    ensures |g| == 3 && forall i | 0 <= i < 3 :: g[i] == PhysGrad(m, i)
  {
    [PhysGrad(m, 0), PhysGrad(m, 1), PhysGrad(m, 2)]
  }

  /** The Gram matrix area * (g_i . g_j) of three gradients. */
  function Gram(g: seq<Vec2>, area: real): (ke: Mat)
    requires |g| == 3
    ensures IsMatrix(ke, 3, 3)
    ensures forall i, j {:trigger ke[i][j]} | 0 <= i < 3 && 0 <= j < 3 :: ke[i][j] == area * Dot2(g[i], g[j])
  {
    seq(3, i requires 0 <= i < 3 =>
      seq(3, j requires 0 <= j < 3 => area * Dot2(g[i], g[j])))
  }

  /** The element stiffness matrix of the triangle (p0, p1, p2):
      Ke(i, j) = area * grad.col(i) . grad.col(j). */
  function ElementStiffness(p0: Node, p1: Node, p2: Node): (ke: Mat)
    requires Det(Jacobian(p0, p1, p2)) != 0.0
    ensures IsMatrix(ke, 3, 3)
    ensures forall i, j {:trigger ke[i][j]} | 0 <= i < 3 && 0 <= j < 3 ::
              ke[i][j] == Area(p0, p1, p2) * Dot2(PhysGrads(Jacobian(p0, p1, p2))[i], PhysGrads(Jacobian(p0, p1, p2))[j])
  {
    Gram(PhysGrads(Jacobian(p0, p1, p2)), Area(p0, p1, p2))
  }

  /** The columns of grad sum to zero, as the reference gradients do. */
  lemma PhysGradsSumToZero(m: Mat2)
    requires Det(m) != 0.0
    ensures Balanced(PhysGrads(m))
  {
    GradientsSumToZero();
    var inv := Inverse(m);
    assert PhysGrad(m, 0) == Vec2(-inv.a - inv.b, -inv.c - inv.d);
    assert PhysGrad(m, 1) == Vec2(inv.a, inv.c);
    assert PhysGrad(m, 2) == Vec2(inv.b, inv.d);
  }

  /** Three vectors summing to zero. */
  predicate Balanced(g: seq<Vec2>)
    requires |g| == 3
  {
    g[0].u + g[1].u + g[2].u == 0.0 && g[0].v + g[1].v + g[2].v == 0.0
  }

  lemma DotSymmetric(w: Vec2, z: Vec2)
    ensures Dot2(w, z) == Dot2(z, w)
  {
  }

  /** A Gram matrix is symmetric. */
  lemma GramSymmetric(g: seq<Vec2>, area: real)
    requires |g| == 3
    ensures Symmetric(Gram(g, area), 3)
  {
    var ke := Gram(g, area);
    forall i, j | 0 <= i < 3 && 0 <= j < 3
      ensures ke[i][j] == ke[j][i]
    {
      GramEntrySymmetric(g, area, i, j);
    }
  }

  lemma GramEntrySymmetric(g: seq<Vec2>, area: real, i: nat, j: nat)
    requires |g| == 3 && i < 3 && j < 3
    ensures Gram(g, area)[i][j] == Gram(g, area)[j][i]
  {
    var ke := Gram(g, area);
    var d := Dot2(g[i], g[j]);
    DotSymmetric(g[i], g[j]);
    assert ke[i][j] == area * d;
    assert ke[j][i] == area * d;
  }

  /** Its diagonal is non-negative when the area is. */
  lemma GramDiagonal(g: seq<Vec2>, area: real, i: nat)
    requires |g| == 3 && i < 3 && area >= 0.0
    ensures Gram(g, area)[i][i] >= 0.0
  {
    var w := g[i];
    assert Dot2(w, w) == w.u * w.u + w.v * w.v;
    assert w.u * w.u >= 0.0 && w.v * w.v >= 0.0;
    assert area * Dot2(w, w) >= 0.0;
  }

  /** A row a * (d0, d1, d2) with d0 + d1 + d2 == 0 sums to zero. */
  lemma ScaledRowSum(row: Vec, a: real, d0: real, d1: real, d2: real)
    requires |row| == 3 && row[0] == a * d0 && row[1] == a * d1 && row[2] == a * d2
    requires d0 + d1 + d2 == 0.0
    ensures Sum(row) == 0.0
  {
    Sum3(row);
    assert a * d0 + a * d1 + a * d2 == a * (d0 + d1 + d2);
  }

  lemma DotDistributes(w: Vec2, x: Vec2, y: Vec2, z: Vec2)
    ensures Dot2(w, x) + Dot2(w, y) + Dot2(w, z) ==
            w.u * (x.u + y.u + z.u) + w.v * (x.v + y.v + z.v)
  {
  }

  /** The rows of the Gram matrix of balanced gradients sum to zero. */
  lemma GramRowSum(g: seq<Vec2>, area: real, i: nat)
    requires |g| == 3 && i < 3 && Balanced(g)
    ensures Sum(Gram(g, area)[i]) == 0.0
  {
    var w := g[i];
    var d0, d1, d2 := Dot2(w, g[0]), Dot2(w, g[1]), Dot2(w, g[2]);
    assert d0 + d1 + d2 == 0.0 by {
      DotDistributes(w, g[0], g[1], g[2]);
    }
    var row := Gram(g, area)[i];
    assert row[0] == area * d0 && row[1] == area * d1 && row[2] == area * d2;
    ScaledRowSum(row, area, d0, d1, d2);
  }

  /** The element stiffness matrix of a non-degenerate triangle is a
      symmetric 3-by-3 matrix with non-negative diagonal whose rows sum
      to zero, so constant fields lie in its kernel. */
  lemma ElementStiffnessProperties(p0: Node, p1: Node, p2: Node)
    requires Det(Jacobian(p0, p1, p2)) != 0.0
    ensures IsMatrix(ElementStiffness(p0, p1, p2), 3, 3)
    ensures Symmetric(ElementStiffness(p0, p1, p2), 3)
    ensures forall i | 0 <= i < 3 :: ElementStiffness(p0, p1, p2)[i][i] >= 0.0
    ensures forall i | 0 <= i < 3 :: Sum(ElementStiffness(p0, p1, p2)[i]) == 0.0
  {
    var g := PhysGrads(Jacobian(p0, p1, p2));
    var area := Area(p0, p1, p2);
    GramSymmetric(g, area);
    PhysGradsSumToZero(Jacobian(p0, p1, p2));
    forall i | 0 <= i < 3
      ensures Gram(g, area)[i][i] >= 0.0
      ensures Sum(Gram(g, area)[i]) == 0.0
    {
      GramDiagonal(g, area, i);
      GramRowSum(g, area, i);
    }
  }
}
