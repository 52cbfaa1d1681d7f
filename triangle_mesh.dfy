/** The structured triangulator: a lattice of nodes over a box, two
    triangles per grid square, and the reordering of a triangle's node ids
    so that it starts at a right angle and runs counter-clockwise. */
module TriangleMesh {
  import opened Errors
  import opened MeshBase
  import opened Dense

  /** The tolerance under which a dot product counts as zero (1e-8). */
  const Tolerance: real := 0.00000001

  const BoxError: Error := InvalidArgument("box must have 4 elements: [xmin, xmax, ymin, ymax]")
  const ArityError: Error := RuntimeError("A triangle must have 3 nodes")

  /** Dot product of the edges a->b and a->c. */
  function Dot(a: Node, b: Node, c: Node): real
  {
    (b.x - a.x) * (c.x - a.x) + (b.y - a.y) * (c.y - a.y)
  }

  /** Cross product of the edges a->b and a->c: twice the signed area of
      the triangle (a, b, c), positive when it runs counter-clockwise. */
  function Cross(a: Node, b: Node, c: Node): real
  {
    (b.x - a.x) * (c.y - a.y) - (b.y - a.y) * (c.x - a.x)
  }

  /** Vertex i of the triangle p passes the right-angle test. */
  predicate RightAngleAt(p: seq<Node>, i: nat)
    requires |p| == 3 && i < 3
  {
    Abs(Dot(p[i], p[(i + 1) % 3], p[(i + 2) % 3])) < Tolerance
  }

  /** The first vertex that passes the right-angle test, or -1. */
  function FirstRightAngle(p: seq<Node>): (k: int)
    requires |p| == 3
    ensures -1 <= k < 3
    ensures k == -1 <==> forall i | 0 <= i < 3 :: !RightAngleAt(p, i)
    ensures 0 <= k ==> RightAngleAt(p, k) && forall i | 0 <= i < k :: !RightAngleAt(p, i)
  {
    if RightAngleAt(p, 0) then 0
    else if RightAngleAt(p, 1) then 1
    else if RightAngleAt(p, 2) then 2
    else -1
  }

  /** The cyclic rotation of a triple that starts at position k. */
  function Rotation<T>(s: seq<T>, k: nat): seq<T>
    requires |s| == 3 && k < 3
  {
    [s[k], s[(k + 1) % 3], s[(k + 2) % 3]]
  }

  function SwapLast<T>(s: seq<T>): seq<T>
    requires |s| == 3
  {
    [s[0], s[2], s[1]]
  }

  /** The order sortCellNodes gives a triple `s` when the first right-angle
      vertex is k (-1 for none) and the rotation starting there runs
      clockwise or not: unchanged when there is no right angle, otherwise
      rotated to start at k and, when clockwise, with the last two swapped. */
  function Arrange<T>(s: seq<T>, k: int, clockwise: bool): seq<T>
    requires |s| == 3 && -1 <= k < 3
  {
    if k == -1 then s
    else if clockwise then SwapLast(Rotation(s, k))
    else Rotation(s, k)
  }

  /** The rotation of p that starts at vertex k runs clockwise. */
  predicate Clockwise(p: seq<Node>, k: nat)
    requires |p| == 3 && k < 3
  {
    var q := Rotation(p, k);
    Cross(q[0], q[1], q[2]) < 0.0
  }

  /** The nodes a list of ids refers to, each found by getNodeById. */
  function CellNodes(nodes: seq<Node>, ids: seq<int>): (p: seq<Node>)
    requires forall k | 0 <= k < |ids| :: HasId(nodes, ids[k])
    ensures |p| == |ids|
    ensures forall k | 0 <= k < |ids| :: Ok(p[k]) == NodeById(nodes, ids[k])
  {
    seq(|ids|, k requires 0 <= k < |ids| => NodeById(nodes, ids[k]).value)
  }

  /** Specification of sortCellNodes: the cell with its ids reordered, or
      the error it throws. */
  function SortedCell(nodes: seq<Node>, cell: Cell): (r: Result<Cell>)
    ensures r.Err? <==> |cell.nodeIds| != 3 ||
                        exists k | 0 <= k < |cell.nodeIds| :: !HasId(nodes, cell.nodeIds[k])
    ensures r.Err? && |cell.nodeIds| != 3 ==> r.error == ArityError
    ensures r.Err? && |cell.nodeIds| == 3 ==> r.error == NodeNotFound
  {
    var ids := cell.nodeIds;
    if |ids| != 3 then Err(ArityError)
    else if !(HasId(nodes, ids[0]) && HasId(nodes, ids[1]) && HasId(nodes, ids[2])) then
      Err(NodeNotFound)
    else
      var p := CellNodes(nodes, ids);
      var k := FirstRightAngle(p);
      Ok(Cell(cell.id, Arrange(ids, k, k != -1 && Clockwise(p, k))))
  }

  /** Arranging a triple of ids and arranging the triple of their nodes are
      the same permutation. */
  lemma ArrangeCommutesWithLookup(nodes: seq<Node>, ids: seq<int>, k: int, clockwise: bool)
    requires |ids| == 3 && -1 <= k < 3 && forall m | 0 <= m < 3 :: HasId(nodes, ids[m])
    ensures forall m | 0 <= m < 3 :: HasId(nodes, Arrange(ids, k, clockwise)[m])
    ensures CellNodes(nodes, Arrange(ids, k, clockwise)) ==
            Arrange(CellNodes(nodes, ids), k, clockwise)
  {
    var r := Arrange(ids, k, clockwise);
    assert forall m | 0 <= m < 3 :: r[m] in ids;
  }

  lemma RotateOncePermutes<T>(s: seq<T>)
    requires |s| == 3
    ensures multiset(Rotation(s, 1)) == multiset(s)
  {
    assert s == [s[0]] + [s[1], s[2]];
    assert Rotation(s, 1) == [s[1], s[2]] + [s[0]];
  }

  lemma RotateTwicePermutes<T>(s: seq<T>)
    requires |s| == 3
    ensures multiset(Rotation(s, 2)) == multiset(s)
  {
    assert s == [s[0], s[1]] + [s[2]];
    assert Rotation(s, 2) == [s[2]] + [s[0], s[1]];
  }

  lemma SwapLastPermutes<T>(s: seq<T>)
    requires |s| == 3
    ensures multiset(SwapLast(s)) == multiset(s)
  {
    assert s == [s[0]] + [s[1]] + [s[2]];
    assert SwapLast(s) == [s[0]] + [s[2]] + [s[1]];
  }

  lemma RotationPermutes<T>(s: seq<T>, k: nat)
    requires |s| == 3 && k < 3
    ensures multiset(Rotation(s, k)) == multiset(s)
  {
    if k == 0 {
      assert Rotation(s, k) == s;
    } else if k == 1 {
      RotateOncePermutes(s);
    } else {
      RotateTwicePermutes(s);
    }
  }

  /** An arranged triple is a permutation of the original. */
  lemma ArrangePermutes<T>(s: seq<T>, k: int, clockwise: bool)
    requires |s| == 3 && -1 <= k < 3
    ensures multiset(Arrange(s, k, clockwise)) == multiset(s)
  {
    if k != -1 {
      RotationPermutes(s, k);
      SwapLastPermutes(Rotation(s, k));
    }
  }

  lemma SwapLastGeometry(a: Node, b: Node, c: Node)
    ensures Dot(a, c, b) == Dot(a, b, c)
    ensures Cross(a, c, b) == -Cross(a, b, c)
  {
  }

  /** Arranging the vertices themselves puts a right angle first and gives
      a triangle that does not run clockwise. */
  lemma ArrangedVerticesCanonical(p: seq<Node>)
    requires |p| == 3 && FirstRightAngle(p) != -1
    ensures var k := FirstRightAngle(p);
            var q := Arrange(p, k, Clockwise(p, k));
            RightAngleAt(q, 0) && Cross(q[0], q[1], q[2]) >= 0.0
  {
    var k := FirstRightAngle(p);
    var rot := Rotation(p, k);
    assert RightAngleAt(rot, 0) by {
      assert RightAngleAt(p, k);
    }
    SwapLastGeometry(rot[0], rot[1], rot[2]);
    if Clockwise(p, k) {
      assert Arrange(p, k, true) == SwapLast(rot);
    } else {
      assert Arrange(p, k, false) == rot;
    }
  }

  /** A successful sortCellNodes keeps the cell id, returns a permutation
      of the input ids, and leaves them as they were when no vertex passes
      the right-angle test. */
  lemma SortedCellPermutes(nodes: seq<Node>, cell: Cell)
    requires SortedCell(nodes, cell).Ok?
    ensures var ids := cell.nodeIds;
            var r := SortedCell(nodes, cell).value.nodeIds;
            && SortedCell(nodes, cell).value.id == cell.id
            && |r| == 3
            && multiset(r) == multiset(ids)
            && (FirstRightAngle(CellNodes(nodes, ids)) == -1 ==> r == ids)
  {
    var ids := cell.nodeIds;
    var p := CellNodes(nodes, ids);
    var k := FirstRightAngle(p);
    var cw := k != -1 && Clockwise(p, k);
    assert SortedCell(nodes, cell) == Ok(Cell(cell.id, Arrange(ids, k, cw)));
    ArrangePermutes(ids, k, cw);
  }

  /** When some vertex passes the right-angle test, sortCellNodes returns
      the rotation that starts at the first such vertex k, with the last two
      ids swapped exactly in the case that rotation runs clockwise; so the
      first vertex of the result is a right angle and the result does not
      run clockwise. */
  lemma SortedCellIsCanonical(nodes: seq<Node>, cell: Cell)
    requires SortedCell(nodes, cell).Ok?
    requires FirstRightAngle(CellNodes(nodes, cell.nodeIds)) != -1
    ensures var ids := cell.nodeIds;
            var r := SortedCell(nodes, cell).value.nodeIds;
            var p := CellNodes(nodes, ids);
            var k := FirstRightAngle(p);
            && (Clockwise(p, k) ==> r == SwapLast(Rotation(ids, k)))
            && (!Clockwise(p, k) ==> r == Rotation(ids, k))
            && (forall m | 0 <= m < 3 :: HasId(nodes, r[m]))
            && var q := CellNodes(nodes, r);
               RightAngleAt(q, 0) && Cross(q[0], q[1], q[2]) >= 0.0
  {
    var ids := cell.nodeIds;
    var p := CellNodes(nodes, ids);
    var k := FirstRightAngle(p);
    var cw := Clockwise(p, k);
    assert SortedCell(nodes, cell) == Ok(Cell(cell.id, Arrange(ids, k, cw)));
    ArrangeCommutesWithLookup(nodes, ids, k, cw);
    ArrangedVerticesCanonical(p);
  }

  // ----- the lattice built by buildMesh -----

  /** The step of the lattice along one axis. */
  function Spacing(lo: real, hi: real, n: int): real
    requires n >= 1
  {
    (hi - lo) / (n as real)
  }

  predicate ValidGrid(nx: int, ny: int, box: seq<real>)
  {
    nx >= 1 && ny >= 1 && |box| == 4
  }

  /** The ids buildMesh writes for one triangle of grid square (i, j):
      (n2, n4, n1) for the lower right triangle and (n3, n1, n4) for the
      upper left one, where n1 is the bottom left corner. */
  function QuadTriangle(nx: int, i: int, j: int, upper: bool): seq<int>
  {
    var n1 := j * (nx + 1) + i + 1;
    var n2 := n1 + 1;
    var n3 := n1 + (nx + 1);
    var n4 := n3 + 1;
    if upper then [n3, n1, n4] else [n2, n4, n1]
  }

  /** The ids written for cell c: cells 2k and 2k+1 come from grid square
      k = j*nx + i. */
  function WrittenIds(nx: int, c: nat): seq<int>
    requires nx >= 1
  {
    QuadTriangle(nx, (c / 2) % nx, (c / 2) / nx, c % 2 == 1)
  }

  /** The written ids as they come out of sortCellNodes on the lattice:
      unchanged, unless the box is flipped along exactly one axis and the
      written order runs clockwise. */
  function GridCellIds(nx: int, ny: int, box: seq<real>, c: nat): seq<int>
    requires ValidGrid(nx, ny, box)
  {
    var w := WrittenIds(nx, c);
    if Spacing(box[0], box[1], nx) * Spacing(box[2], box[3], ny) < 0.0 then SwapLast(w) else w
  }

  lemma DivModOf(n: int, q: int, r: int)
    requires n > 0 && q >= 0 && 0 <= r < n
    ensures (q * n + r) / n == q && (q * n + r) % n == r
  {
    var k := q * n + r;
    var d := k / n;
    var m := k % n;
    assert k == d * n + m;
    assert (d - q) * n == r - m;
    if d > q {
      MulAtLeast(d - q, n);
      assert false;
    } else if d < q {
      MulAtLeast(q - d, n);
      assert false;
    }
  }

  lemma MulAtLeast(a: int, n: int)
    requires a >= 1 && n > 0
    ensures a * n >= n
  {
  }

  /** The lattice point in column i and row j, with the id buildMesh
      gives it: rows are numbered from the bottom, columns from the left,
      and ids count up from 1 along each row in turn. */
  function GridPoint(nx: int, ny: int, box: seq<real>, i: int, j: int): Node
    requires ValidGrid(nx, ny, box)
  {
    Node(j * (nx + 1) + i + 1,
         box[0] + (i as real) * Spacing(box[0], box[1], nx),
         box[2] + (j as real) * Spacing(box[2], box[3], ny))
  }

  /** The first n points of row j, left to right. */
  function RowPrefix(nx: int, ny: int, box: seq<real>, j: int, n: nat): (ns: seq<Node>)
    requires ValidGrid(nx, ny, box)
    ensures |ns| == n
  {
    if n == 0 then [] else RowPrefix(nx, ny, box, j, n - 1) + [GridPoint(nx, ny, box, n - 1, j)]
  }

  /** The first m full rows of nx+1 points, bottom to top. */
  function LatticePrefix(nx: int, ny: int, box: seq<real>, m: nat): (ns: seq<Node>)
    requires ValidGrid(nx, ny, box)
    ensures |ns| == m * (nx + 1)
  {
    if m == 0 then [] else LatticePrefix(nx, ny, box, m - 1) + RowPrefix(nx, ny, box, m - 1, nx + 1)
  }

  /** The (nx+1)*(ny+1) lattice nodes in the order buildMesh stores them. */
  function LatticeNodes(nx: int, ny: int, box: seq<real>): (ns: seq<Node>)
    requires ValidGrid(nx, ny, box)
    ensures |ns| == (nx + 1) * (ny + 1)
  {
    LatticePrefix(nx, ny, box, ny + 1)
  }

  lemma {:induction false} RowPrefixAt(nx: int, ny: int, box: seq<real>, j: int, n: nat, i: nat)
    requires ValidGrid(nx, ny, box) && i < n
    ensures RowPrefix(nx, ny, box, j, n)[i] == GridPoint(nx, ny, box, i, j)
  {
    if i < n - 1 {
      RowPrefixAt(nx, ny, box, j, n - 1, i);
    }
  }

  lemma LatticePrefixAt(nx: int, ny: int, box: seq<real>, m: nat, i: nat, j: nat)
    requires ValidGrid(nx, ny, box) && i <= nx && j < m
    ensures j * (nx + 1) + i < m * (nx + 1)
    ensures LatticePrefix(nx, ny, box, m)[j * (nx + 1) + i] == GridPoint(nx, ny, box, i, j)
  {
    var k := j * (nx + 1) + i;
    var rows := LatticePrefix(nx, ny, box, j + 1);
    LatticePrefixIsPrefix(nx, ny, box, j + 1, m);
    LastRowAt(nx, ny, box, j, i);
    assert rows[k] == LatticePrefix(nx, ny, box, m)[..|rows|][k];
  }

  /** Fewer rows of the lattice are a prefix of more rows. */
  lemma {:induction false} LatticePrefixIsPrefix(nx: int, ny: int, box: seq<real>, a: nat, m: nat)
    requires ValidGrid(nx, ny, box) && a <= m
    ensures LatticePrefix(nx, ny, box, a) <= LatticePrefix(nx, ny, box, m)
  {
    if a < m {
      LatticePrefixIsPrefix(nx, ny, box, a, m - 1);
      var front := LatticePrefix(nx, ny, box, m - 1);
      assert front <= front + RowPrefix(nx, ny, box, m - 1, nx + 1);
    }
  }

  /** Row j, the last of the first j+1 rows, starts at position j*(nx+1). */
  lemma LastRowAt(nx: int, ny: int, box: seq<real>, j: nat, i: nat)
    requires ValidGrid(nx, ny, box) && i <= nx
    ensures j * (nx + 1) + i < (j + 1) * (nx + 1)
    ensures LatticePrefix(nx, ny, box, j + 1)[j * (nx + 1) + i] == GridPoint(nx, ny, box, i, j)
  {
    var front := LatticePrefix(nx, ny, box, j);
    var row := RowPrefix(nx, ny, box, j, nx + 1);
    assert (j + 1) * (nx + 1) == j * (nx + 1) + (nx + 1);
    assert LatticePrefix(nx, ny, box, j + 1) == front + row;
    RowPrefixAt(nx, ny, box, j, nx + 1, i);
    assert (front + row)[|front| + i] == row[i];
  }

  /** Position j*(nx+1) + i of the lattice holds the point in column i and
      row j. */
  lemma LatticeCorner(nx: int, ny: int, box: seq<real>, i: int, j: int)
    requires ValidGrid(nx, ny, box) && 0 <= i <= nx && 0 <= j <= ny
    ensures 0 <= j * (nx + 1) + i < (nx + 1) * (ny + 1)
    ensures LatticeNodes(nx, ny, box)[j * (nx + 1) + i] == GridPoint(nx, ny, box, i, j)
  {
    LatticePrefixAt(nx, ny, box, ny + 1, i, j);
    MulMonotone(0, j, nx + 1);
    assert (ny + 1) * (nx + 1) == (nx + 1) * (ny + 1);
    assert LatticeNodes(nx, ny, box) == LatticePrefix(nx, ny, box, ny + 1);
  }

  /** Every lattice position k holds the node with id k+1. */
  lemma LatticeIds(nx: int, ny: int, box: seq<real>, k: int)
    requires ValidGrid(nx, ny, box) && 0 <= k < (nx + 1) * (ny + 1)
    ensures LatticeNodes(nx, ny, box)[k].id == k + 1
  {
    var i := k % (nx + 1);
    var j := k / (nx + 1);
    DivBelow(k, nx + 1, ny + 1);
    assert k == j * (nx + 1) + i;
    LatticeCorner(nx, ny, box, i, j);
  }

  /** On the lattice the node at position k carries id k+1, so both lookups
      of an id in 1..(nx+1)(ny+1) succeed at position id-1, and every other
      id is absent. */
  lemma LatticeLookup(nx: int, ny: int, box: seq<real>, id: int)
    requires ValidGrid(nx, ny, box)
    ensures var ns := LatticeNodes(nx, ny, box);
            && (HasId(ns, id) <==> 1 <= id <= |ns|)
            && (1 <= id <= |ns| ==> NodeIndex(ns, id) == Ok(id - 1) &&
                                    NodeById(ns, id) == Ok(ns[id - 1]))
  {
    var ns := LatticeNodes(nx, ny, box);
    forall k | 0 <= k < |ns|
      ensures ns[k].id == k + 1
    {
      LatticeIds(nx, ny, box, k);
    }
    LookupsAgree(ns, id);
    if 1 <= id <= |ns| {
      assert ns[id - 1].id == id;
    }
  }

  /** Both triangles of grid square (i, j) have three distinct ids, all in
      1..(nx+1)(ny+1): the lower one the corners {n1, n2, n4}, the upper one
      {n1, n3, n4}. */
  lemma QuadTriangleIds(nx: int, ny: int, i: int, j: int, upper: bool)
    requires nx >= 1 && ny >= 1 && 0 <= i < nx && 0 <= j < ny
    ensures var t := QuadTriangle(nx, i, j, upper);
            var n1 := j * (nx + 1) + i + 1;
            && |t| == 3
            && (forall k | 0 <= k < 3 :: 1 <= t[k] <= (nx + 1) * (ny + 1))
            && t[0] != t[1] && t[1] != t[2] && t[0] != t[2]
            && (upper ==> (set k | 0 <= k < 3 :: t[k]) == {n1, n1 + nx + 1, n1 + nx + 2})
            && (!upper ==> (set k | 0 <= k < 3 :: t[k]) == {n1, n1 + 1, n1 + nx + 2})
  {
    var t := QuadTriangle(nx, i, j, upper);
    var row := j * (nx + 1);
    var n1 := row + i + 1;
    MulMonotone(0, j, nx + 1);
    MulMonotone(j + 1, ny, nx + 1);
    assert (j + 1) * (nx + 1) == row + nx + 1;
    assert (ny + 1) * (nx + 1) == ny * (nx + 1) + nx + 1;
    assert 1 <= n1 && n1 + nx + 2 <= (ny + 1) * (nx + 1);
    if upper {
      assert t == [n1 + nx + 1, n1, n1 + nx + 2];
    } else {
      assert t == [n1 + 1, n1 + nx + 2, n1];
    }
    assert (set k | 0 <= k < 3 :: t[k]) == {t[0], t[1], t[2]};
  }

  lemma MulMonotone(a: int, b: int, n: int)
    requires a <= b && n >= 0
    ensures a * n <= b * n
  {
    assert b * n - a * n == (b - a) * n;
  }

  /** Cells 2k and 2k+1 with k = j*nx + i come from grid square (i, j). */
  lemma WrittenIdsOfSquare(nx: int, ny: int, i: int, j: int)
    requires nx >= 1 && ny >= 1 && 0 <= i < nx && 0 <= j < ny
    ensures 2 * (j * nx + i) + 1 < 2 * nx * ny
    ensures WrittenIds(nx, 2 * (j * nx + i)) == QuadTriangle(nx, i, j, false)
    ensures WrittenIds(nx, 2 * (j * nx + i) + 1) == QuadTriangle(nx, i, j, true)
  {
    var k := j * nx + i;
    DivModOf(nx, j, i);
    DivModOf(2, k, 0);
    DivModOf(2, k, 1);
    assert 2 * k == k * 2 + 0 && 2 * k + 1 == k * 2 + 1;
    MulMonotone(j + 1, ny, nx);
    assert k < (j + 1) * nx;
    assert 2 * nx * ny == 2 * (ny * nx);
  }

  /** Looking up the id of lattice point (i, j) finds that point. */
  lemma GridPointLookup(nx: int, ny: int, box: seq<real>, i: int, j: int, id: int)
    requires ValidGrid(nx, ny, box) && 0 <= i <= nx && 0 <= j <= ny
    requires id == j * (nx + 1) + i + 1
    ensures NodeById(LatticeNodes(nx, ny, box), id) == Ok(GridPoint(nx, ny, box, i, j))
  {
    LatticeCorner(nx, ny, box, i, j);
    LatticeLookup(nx, ny, box, id);
  }

  lemma TripleNodes(ns: seq<Node>, a: int, b: int, c: int, pa: Node, pb: Node, pc: Node)
    requires NodeById(ns, a) == Ok(pa) && NodeById(ns, b) == Ok(pb) && NodeById(ns, c) == Ok(pc)
    ensures HasId(ns, a) && HasId(ns, b) && HasId(ns, c)
    ensures CellNodes(ns, [a, b, c]) == [pa, pb, pc]
  {
  }

  /** The nodes of the upper left triangle (n3, n1, n4) of grid square (i, j). */
  lemma UpperTriangleNodes(nx: int, ny: int, box: seq<real>, i: int, j: int, n1: int)
    requires ValidGrid(nx, ny, box) && 0 <= i < nx && 0 <= j < ny
    requires n1 == j * (nx + 1) + i + 1
    ensures var ns := LatticeNodes(nx, ny, box);
            HasId(ns, n1 + nx + 1) && HasId(ns, n1) && HasId(ns, n1 + nx + 2)
    ensures CellNodes(LatticeNodes(nx, ny, box), [n1 + nx + 1, n1, n1 + nx + 2]) ==
            [GridPoint(nx, ny, box, i, j + 1), GridPoint(nx, ny, box, i, j),
             GridPoint(nx, ny, box, i + 1, j + 1)]
  {
    assert (j + 1) * (nx + 1) + i + 1 == n1 + nx + 1;
    GridPointLookup(nx, ny, box, i, j, n1);
    GridPointLookup(nx, ny, box, i, j + 1, n1 + nx + 1);
    GridPointLookup(nx, ny, box, i + 1, j + 1, n1 + nx + 2);
    TripleNodes(LatticeNodes(nx, ny, box), n1 + nx + 1, n1, n1 + nx + 2,
                GridPoint(nx, ny, box, i, j + 1), GridPoint(nx, ny, box, i, j),
                GridPoint(nx, ny, box, i + 1, j + 1));
  }

  /** The nodes of the lower right triangle (n2, n4, n1) of grid square (i, j). */
  lemma LowerTriangleNodes(nx: int, ny: int, box: seq<real>, i: int, j: int, n1: int)
    requires ValidGrid(nx, ny, box) && 0 <= i < nx && 0 <= j < ny
    requires n1 == j * (nx + 1) + i + 1
    ensures var ns := LatticeNodes(nx, ny, box);
            HasId(ns, n1 + 1) && HasId(ns, n1 + nx + 2) && HasId(ns, n1)
    ensures CellNodes(LatticeNodes(nx, ny, box), [n1 + 1, n1 + nx + 2, n1]) ==
            [GridPoint(nx, ny, box, i + 1, j), GridPoint(nx, ny, box, i + 1, j + 1),
             GridPoint(nx, ny, box, i, j)]
  {
    assert (j + 1) * (nx + 1) + i + 1 == n1 + nx + 1;
    GridPointLookup(nx, ny, box, i, j, n1);
    GridPointLookup(nx, ny, box, i + 1, j, n1 + 1);
    GridPointLookup(nx, ny, box, i + 1, j + 1, n1 + nx + 2);
    TripleNodes(LatticeNodes(nx, ny, box), n1 + 1, n1 + nx + 2, n1,
                GridPoint(nx, ny, box, i + 1, j), GridPoint(nx, ny, box, i + 1, j + 1),
                GridPoint(nx, ny, box, i, j));
  }

  /** The vertices of one written triangle of grid square (i, j), in the
      order its ids are written. */
  function GridTriangle(nx: int, ny: int, box: seq<real>, i: int, j: int, upper: bool): seq<Node>
    requires ValidGrid(nx, ny, box)
  {
    if upper then [GridPoint(nx, ny, box, i, j + 1), GridPoint(nx, ny, box, i, j),
                   GridPoint(nx, ny, box, i + 1, j + 1)]
    else [GridPoint(nx, ny, box, i + 1, j), GridPoint(nx, ny, box, i + 1, j + 1),
          GridPoint(nx, ny, box, i, j)]
  }

  /** The written ids of a grid triangle refer to its vertices. */
  lemma QuadTriangleNodes(nx: int, ny: int, box: seq<real>, i: int, j: int, upper: bool)
    requires ValidGrid(nx, ny, box) && 0 <= i < nx && 0 <= j < ny
    ensures var w := QuadTriangle(nx, i, j, upper);
            && |w| == 3
            && (forall m | 0 <= m < 3 :: HasId(LatticeNodes(nx, ny, box), w[m]))
            && CellNodes(LatticeNodes(nx, ny, box), w) == GridTriangle(nx, ny, box, i, j, upper)
  {
    var n1 := j * (nx + 1) + i + 1;
    if upper {
      UpperTriangleNodes(nx, ny, box, i, j, n1);
      assert QuadTriangle(nx, i, j, upper) == [n1 + nx + 1, n1, n1 + nx + 2];
    } else {
      LowerTriangleNodes(nx, ny, box, i, j, n1);
      assert QuadTriangle(nx, i, j, upper) == [n1 + 1, n1 + nx + 2, n1];
    }
  }

  /** A vertex whose two edges run along the axes is a right angle. */
  lemma AxisAlignedCorner(a: Node, b: Node, c: Node)
    requires a.x == b.x && a.y == c.y
    ensures Dot(a, b, c) == 0.0
    ensures Cross(a, b, c) == (b.y - a.y) * (a.x - c.x)
  {
  }

  lemma GridSteps(nx: int, ny: int, box: seq<real>, i: int, j: int)
    requires ValidGrid(nx, ny, box)
    ensures GridPoint(nx, ny, box, i + 1, j).x - GridPoint(nx, ny, box, i, j).x == Spacing(box[0], box[1], nx)
    ensures GridPoint(nx, ny, box, i, j + 1).y - GridPoint(nx, ny, box, i, j).y == Spacing(box[2], box[3], ny)
    ensures GridPoint(nx, ny, box, i, j + 1).x == GridPoint(nx, ny, box, i, j).x
    ensures GridPoint(nx, ny, box, i + 1, j).y == GridPoint(nx, ny, box, i, j).y
  {
  }

  /** Every grid triangle has its right angle at its first vertex, and its
      cross product there is dx*dy. */
  lemma GridTriangleGeometry(nx: int, ny: int, box: seq<real>, i: int, j: int, upper: bool)
    requires ValidGrid(nx, ny, box)
    ensures var p := GridTriangle(nx, ny, box, i, j, upper);
            && FirstRightAngle(p) == 0
            && Cross(p[0], p[1], p[2]) == Spacing(box[0], box[1], nx) * Spacing(box[2], box[3], ny)
  {
    var p := GridTriangle(nx, ny, box, i, j, upper);
    var dx := Spacing(box[0], box[1], nx);
    var dy := Spacing(box[2], box[3], ny);
    GridSteps(nx, ny, box, i, j);
    GridSteps(nx, ny, box, i + 1, j);
    GridSteps(nx, ny, box, i, j + 1);
    AxisAlignedCorner(p[0], p[1], p[2]);
    if upper {
      assert p[1].y - p[0].y == -dy && p[0].x - p[2].x == -dx;
    } else {
      assert p[1].y - p[0].y == dy && p[0].x - p[2].x == dx;
    }
    assert RightAngleAt(p, 0);
  }

  /** So sortCellNodes keeps the written order of every grid triangle
      unless dx*dy < 0, in which case it swaps the last two ids. */
  lemma QuadTriangleSorted(nx: int, ny: int, box: seq<real>, i: int, j: int, upper: bool, id: int)
    requires ValidGrid(nx, ny, box) && 0 <= i < nx && 0 <= j < ny
    ensures var w := QuadTriangle(nx, i, j, upper);
            var dx := Spacing(box[0], box[1], nx);
            var dy := Spacing(box[2], box[3], ny);
            SortedCell(LatticeNodes(nx, ny, box), Cell(id, w)) ==
              Ok(Cell(id, if dx * dy < 0.0 then SwapLast(w) else w))
  {
    var w := QuadTriangle(nx, i, j, upper);
    QuadTriangleNodes(nx, ny, box, i, j, upper);
    GridTriangleGeometry(nx, ny, box, i, j, upper);
    SortedCellAtFirst(LatticeNodes(nx, ny, box), Cell(id, w));
  }

  /** When the first vertex of a triangle is its first right angle,
      sortCellNodes keeps the ids, swapping the last two if the triangle
      runs clockwise. */
  lemma SortedCellAtFirst(nodes: seq<Node>, cell: Cell)
    requires |cell.nodeIds| == 3 && forall m | 0 <= m < 3 :: HasId(nodes, cell.nodeIds[m])
    requires FirstRightAngle(CellNodes(nodes, cell.nodeIds)) == 0
    ensures var ids := cell.nodeIds;
            var p := CellNodes(nodes, ids);
            SortedCell(nodes, cell) ==
              Ok(Cell(cell.id, if Cross(p[0], p[1], p[2]) < 0.0 then SwapLast(ids) else ids))
  {
    var ids := cell.nodeIds;
    var p := CellNodes(nodes, ids);
    assert Rotation(ids, 0) == ids;
    assert Rotation(p, 0) == p;
  }

  /** On a box with xmin < xmax and ymin < ymax every generated triangle
      keeps the order it was written in. */
  lemma GridKeepsWrittenOrder(nx: int, ny: int, box: seq<real>, c: nat)
    requires ValidGrid(nx, ny, box) && box[0] < box[1] && box[2] < box[3]
    ensures GridCellIds(nx, ny, box, c) == WrittenIds(nx, c)
  {
    var dx := Spacing(box[0], box[1], nx);
    var dy := Spacing(box[2], box[3], ny);
    assert dx > 0.0 && dy > 0.0;
    assert dx * dy > 0.0;
  }

  lemma DivBelow(a: int, n: int, m: int)
    requires 0 <= a < n * m && n > 0
    ensures a / n < m
  {
  }

  /** On the lattice, sortCellNodes turns the ids written for cell c into
      GridCellIds(c). */
  lemma GridCellSorted(nx: int, ny: int, box: seq<real>, c: nat, id: int)
    requires ValidGrid(nx, ny, box) && c < 2 * nx * ny
    ensures SortedCell(LatticeNodes(nx, ny, box), Cell(id, WrittenIds(nx, c))) ==
            Ok(Cell(id, GridCellIds(nx, ny, box, c)))
  {
    DivBelow(c / 2, nx, ny);
    QuadTriangleSorted(nx, ny, box, (c / 2) % nx, (c / 2) / nx, c % 2 == 1, id);
  }

  /** Sorting a triangle of grid square (i, j), as the cell loops write
      it, gives grid cell 2k (lower) or 2k+1 (upper) with k = j*nx + i. */
  lemma SquareTriangleSorted(nx: int, ny: int, box: seq<real>, i: int, j: int, upper: bool, w: seq<int>, id: int)
    requires ValidGrid(nx, ny, box) && 0 <= i < nx && 0 <= j < ny && w == QuadTriangle(nx, i, j, upper)
    ensures SortedCell(LatticeNodes(nx, ny, box), Cell(id, w))
            == Ok(Cell(id, GridCellIds(nx, ny, box, 2 * (j * nx + i) + if upper then 1 else 0)))
  {
    WrittenIdsOfSquare(nx, ny, i, j);
    QuadTriangleSorted(nx, ny, box, i, j, upper, id);
  }

  /** The cells stored so far carry the ids of the first |cells| grid
      triangles. */
  predicate GridCells(nx: int, ny: int, box: seq<real>, cells: seq<Cell>)
    requires ValidGrid(nx, ny, box)
  {
    forall c | 0 <= c < |cells| :: cells[c].nodeIds == GridCellIds(nx, ny, box, c)
  }

  /** Whatever order sortCellNodes leaves them in, the stored cells of
      grid square (i, j) hold its corners: cell 2k the lower right triangle
      {n1, n2, n4} and cell 2k+1 the upper left one {n1, n3, n4}, where
      k = j*nx + i and n1 = j*(nx+1) + i + 1. */
  lemma GridSquareCellIds(nx: int, ny: int, box: seq<real>, i: int, j: int)
    requires ValidGrid(nx, ny, box) && 0 <= i < nx && 0 <= j < ny
    ensures var n1 := j * (nx + 1) + i + 1;
            && multiset(GridCellIds(nx, ny, box, 2 * (j * nx + i))) == multiset{n1, n1 + 1, n1 + nx + 2}
            && multiset(GridCellIds(nx, ny, box, 2 * (j * nx + i) + 1)) == multiset{n1, n1 + nx + 1, n1 + nx + 2}
  {
    WrittenIdsOfSquare(nx, ny, i, j);
    var n1 := j * (nx + 1) + i + 1;
    var lower := QuadTriangle(nx, i, j, false);
    var upper := QuadTriangle(nx, i, j, true);
    assert lower == [n1 + 1, n1 + nx + 2, n1];
    assert upper == [n1 + nx + 1, n1, n1 + nx + 2];
    SwapLastPermutes(lower);
    SwapLastPermutes(upper);
  }

  lemma GridCellsAppend(nx: int, ny: int, box: seq<real>, cells: seq<Cell>, x: Cell, y: Cell)
    requires ValidGrid(nx, ny, box) && GridCells(nx, ny, box, cells)
    requires x.nodeIds == GridCellIds(nx, ny, box, |cells|)
    requires y.nodeIds == GridCellIds(nx, ny, box, |cells| + 1)
    ensures GridCells(nx, ny, box, cells + [x, y])
  {
    var cells' := cells + [x, y];
    forall c | 0 <= c < |cells'|
      ensures cells'[c].nodeIds == GridCellIds(nx, ny, box, c)
    {
      if c < |cells| {
        assert cells'[c] == cells[c];
      }
    }
  }

  class TriangleMesh {
    /** The node and cell store this mesh extends. */
    const base: MeshBase

    constructor ()
      ensures fresh(base) && base.nodes == [] && base.cells == []
    {
      base := new MeshBase();
    }

    /** Discards the old contents and triangulates the box
        [xmin, xmax, ymin, ymax] with an nx-by-ny grid. */
    method BuildMesh(nx: int, ny: int, box: seq<real>) returns (s: Status)
      requires nx >= 1 && ny >= 1
      modifies base
      ensures |box| != 4 ==> s == Failed(BoxError) && unchanged(base)
      ensures |box| == 4 ==> s == Done
      ensures |box| == 4 ==> base.nodes == LatticeNodes(nx, ny, box)
      ensures |box| == 4 ==> |base.cells| == 2 * nx * ny
      ensures |box| == 4 ==> forall c | 0 <= c < |base.cells| ::
                base.cells[c].nodeIds == GridCellIds(nx, ny, box, c)
    {
      if |box| != 4 {
        return Failed(BoxError);
      }
      base.nodes := [];
      base.cells := [];
      AddLatticeNodes(nx, ny, box);
      AddGridCells(nx, ny, box);
      return Done;
    }

    /** The node loops of buildMesh: row by row, (nx+1)*(ny+1) nodes with
        ids counting up from 1. */
    method AddLatticeNodes(nx: int, ny: int, box: seq<real>)
      requires ValidGrid(nx, ny, box) && base.nodes == []
      modifies base
      ensures base.nodes == LatticeNodes(nx, ny, box) && base.cells == old(base.cells)
    {
      var xmin, xmax := box[0], box[1];
      var ymin, ymax := box[2], box[3];
      var dx := (xmax - xmin) / (nx as real);
      var dy := (ymax - ymin) / (ny as real);
      assert dx == Spacing(box[0], box[1], nx) && dy == Spacing(box[2], box[3], ny);
      var id := 1;
      var j := 0;
      while j <= ny
        invariant 0 <= j <= ny + 1
        invariant base.nodes == LatticePrefix(nx, ny, box, j) && id == |base.nodes| + 1
        invariant id == j * (nx + 1) + 1
        invariant base.cells == old(base.cells)
      {
        var i := 0;
        while i <= nx
          invariant 0 <= i <= nx + 1
          invariant base.nodes == LatticePrefix(nx, ny, box, j) + RowPrefix(nx, ny, box, j, i)
          invariant id == |base.nodes| + 1 && id == j * (nx + 1) + i + 1
          invariant base.cells == old(base.cells)
        {
          assert Node(id, xmin + (i as real) * dx, ymin + (j as real) * dy) == GridPoint(nx, ny, box, i, j);
          base.nodes := base.nodes + [Node(id, xmin + (i as real) * dx, ymin + (j as real) * dy)];
          id := id + 1;
          i := i + 1;
        }
        assert (j + 1) * (nx + 1) == j * (nx + 1) + nx + 1;
        j := j + 1;
      }
    }

    /** The body of the cell loops for grid square (i, j): triangles
        n2 n4 n1 and n3 n1 n4, each sorted, appended in that order. */
    method AddSquare(nx: int, ny: int, box: seq<real>, i: int, j: int)
      requires ValidGrid(nx, ny, box) && base.nodes == LatticeNodes(nx, ny, box)
      requires 0 <= i < nx && 0 <= j < ny && |base.cells| == 2 * (j * nx + i)
      requires GridCells(nx, ny, box, base.cells)
      modifies base
      ensures base.nodes == old(base.nodes)
      ensures |base.cells| == |old(base.cells)| + 2
      ensures GridCells(nx, ny, box, base.cells)
    {
      var n1 := j * (nx + 1) + i + 1;
      var n2 := n1 + 1;
      var n3 := n1 + (nx + 1);
      var n4 := n3 + 1;
      // the source never assigns the two triangles' ids
      var id1: int := *;
      var id2: int := *;
      SquareTriangleSorted(nx, ny, box, i, j, false, [n2, n4, n1], id1);
      SquareTriangleSorted(nx, ny, box, i, j, true, [n3, n1, n4], id2);
      // triangle 1: n2 n4 n1
      var cell1 := SortCellNodes(Cell(id1, [n2, n4, n1]));
      // triangle 2: n3 n1 n4
      var cell2 := SortCellNodes(Cell(id2, [n3, n1, n4]));
      GridCellsAppend(nx, ny, box, base.cells, cell1.value, cell2.value);
      base.cells := base.cells + [cell1.value, cell2.value];
    }

    /** The cell loops of buildMesh: two triangles per grid square, each
        passed through sortCellNodes before it is stored. */
    method AddGridCells(nx: int, ny: int, box: seq<real>)
      requires ValidGrid(nx, ny, box) && base.nodes == LatticeNodes(nx, ny, box) && base.cells == []
      modifies base
      ensures base.nodes == old(base.nodes)
      ensures |base.cells| == 2 * nx * ny
      ensures forall c | 0 <= c < |base.cells| :: base.cells[c].nodeIds == GridCellIds(nx, ny, box, c)
    {
      var j := 0;
      while j < ny
        invariant 0 <= j <= ny
        invariant base.nodes == old(base.nodes)
        invariant |base.cells| == 2 * j * nx
        invariant GridCells(nx, ny, box, base.cells)
      {
        var i := 0;
        while i < nx
          invariant 0 <= i <= nx
          invariant base.nodes == old(base.nodes)
          invariant |base.cells| == 2 * (j * nx + i)
          invariant GridCells(nx, ny, box, base.cells)
        {
          AddSquare(nx, ny, box, i, j);
          i := i + 1;
        }
        assert 2 * (j * nx + nx) == 2 * (j + 1) * nx;
        j := j + 1;
      }
      assert 2 * ny * nx == 2 * nx * ny;
    }

    /** Reorders a triangle's node ids so that it starts at its first
        right-angle vertex and runs counter-clockwise. */
    method SortCellNodes(cell: Cell) returns (r: Result<Cell>)
      ensures r == SortedCell(base.nodes, cell)
    {
      if |cell.nodeIds| != 3 {
        // the source logs an error here before throwing
        return Err(ArityError);
      }
      var ids := cell.nodeIds;
      var found := LookupVertices(ids);
      if found.Err? {
        return Err(found.error);
      }
      var p := found.value;
      var k := FindRightAngle(p);
      if k == -1 {
        // the source logs "No right angle found" and keeps the order
        return Ok(cell);
      }

      var orderedIds := [ids[k], ids[(k + 1) % 3], ids[(k + 2) % 3]];
      assert orderedIds == Arrange(ids, k, false);
      ArrangeCommutesWithLookup(base.nodes, ids, k, false);
      var ordered := LookupVertices(orderedIds);
      assert ordered.value == Rotation(p, k);
      var A, B, C := ordered.value[0], ordered.value[1], ordered.value[2];
      var crossProduct := Cross(A, B, C);
      ghost var cw := Clockwise(p, k);
      assert crossProduct < 0.0 <==> cw;
      if crossProduct < 0.0 {
        orderedIds := [orderedIds[0], orderedIds[2], orderedIds[1]];
      }
      assert orderedIds == Arrange(ids, k, cw);
      return Ok(Cell(cell.id, orderedIds));
    }

    /** The three getNodeById calls of sortCellNodes: the nodes the ids
        refer to, or the error of the first lookup that fails. */
    method LookupVertices(ids: seq<int>) returns (r: Result<seq<Node>>)
      requires |ids| == 3
      ensures r.Ok? <==> HasId(base.nodes, ids[0]) && HasId(base.nodes, ids[1]) && HasId(base.nodes, ids[2])
      ensures r.Ok? ==> (forall m | 0 <= m < 3 :: HasId(base.nodes, ids[m])) &&
                        r.value == CellNodes(base.nodes, ids)
      ensures r.Err? ==> r.error == NodeNotFound
    {
      var a := base.GetNodeById(ids[0]);
      if a.Err? { return Err(a.error); }
      var b := base.GetNodeById(ids[1]);
      if b.Err? { return Err(b.error); }
      var c := base.GetNodeById(ids[2]);
      if c.Err? { return Err(c.error); }
      r := Ok([a.value, b.value, c.value]);
      assert forall m | 0 <= m < 3 :: HasId(base.nodes, ids[m]);
    }

    /** The loop of sortCellNodes that looks for the first vertex whose two
        edges have a dot product below the tolerance; -1 if there is none. */
    static method FindRightAngle(p: seq<Node>) returns (rightAngleIndex: int)
      requires |p| == 3
      ensures rightAngleIndex == FirstRightAngle(p)
    {
      rightAngleIndex := -1;
      var i := 0;
      while i < 3
        invariant 0 <= i <= 3
        invariant rightAngleIndex == -1
        invariant forall k | 0 <= k < i :: !RightAngleAt(p, k)
      {
        var a := p[i];
        var b := p[(i + 1) % 3];
        var c := p[(i + 2) % 3];
        var dx1 := b.x - a.x;
        var dy1 := b.y - a.y;
        var dx2 := c.x - a.x;
        var dy2 := c.y - a.y;
        var dotProduct := dx1 * dx2 + dy1 * dy2;
        assert dotProduct == Dot(a, b, c);
        if Abs(dotProduct) < Tolerance {
          rightAngleIndex := i;
          break;
        }
        i := i + 1;
      }
    }

    /** The TriangleMesh copy of the index lookup: the first position
        holding `id`, or "Node ID not found". */
    method GetNodeIndexById(id: int) returns (r: Result<nat>)
      ensures r == NodeIndex(base.nodes, id)
      ensures r.Ok? ==> r.value < |base.nodes| && base.nodes[r.value].id == id
      ensures r.Err? <==> !HasId(base.nodes, id)
    {
      var nodes := base.nodes;
      for i := 0 to |nodes|
        invariant forall j | 0 <= j < i :: nodes[j].id != id
      {
        if nodes[i].id == id {
          return Ok(i);
        }
      }
      return Err(NodeNotFound);
    }
  }
}
