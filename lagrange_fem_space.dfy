/** The first-order Lagrange finite element space on a triangle mesh and
    the Poisson system it assembles: DOF numbering, element stiffness,
    scatter-add assembly of K and F, and the in-place boundary edits, up
    to the (K, F) handed to the linear solver. K is an n-by-n array and F
    an n-vector; each method is specified by the value functions of the
    Assembly and Boundary modules applied to their contents. */
module LagrangeFEMSpace {
  import opened Errors
  import opened MeshBase
  import TriangleMesh
  import opened Dense
  import opened ReferenceBasis
  import opened ElementMatrix
  import opened Assembly
  import opened Boundary
  import opened DofMap

  // ---------------------------------------------------------------------
  // Arrays as values

  /** The current entries of a 2-d array. */
  function MatOf(a: array2<real>): (m: Mat)
    reads a
    ensures IsMatrix(m, a.Length0, a.Length1)
    ensures forall r, s | 0 <= r < a.Length0 && 0 <= s < a.Length1 :: m[r][s] == a[r, s]
  {
    seq(a.Length0, r requires 0 <= r < a.Length0 reads a =>
      seq(a.Length1, s requires 0 <= s < a.Length1 reads a => a[r, s]))
  }

  lemma MatOfIs(a: array2<real>, m: Mat)
    requires IsMatrix(m, a.Length0, a.Length1)
    requires forall r, s | 0 <= r < a.Length0 && 0 <= s < a.Length1 :: a[r, s] == m[r][s]
    ensures MatOf(a) == m
  {
    var w := MatOf(a);
    forall r | 0 <= r < a.Length0
      ensures w[r] == m[r]
    {
    }
  }

  /** K(r, s) += x. */
  method AddToEntry(k: array2<real>, r: nat, s: nat, x: real)
    requires r < k.Length0 && s < k.Length1
    modifies k
    ensures MatOf(k) == AddAt2(old(MatOf(k)), r, s, x)
  {
    ghost var m := MatOf(k);
    k[r, s] := k[r, s] + x;
    MatOfIs(k, AddAt2(m, r, s, x));
  }

  // ---------------------------------------------------------------------
  // Cells as elements

  /** Every cell lists at least the three vertices the element routines
      read. */
  predicate Triangular(cells: seq<Cell>)
  {
    forall c | 0 <= c < |cells| :: |cells[c].nodeIds| >= 3
  }

  /** The three getNodeById calls of a cell succeed. */
  predicate Resolves(nodes: seq<Node>, cell: Cell)
  {
    |cell.nodeIds| >= 3 &&
    HasId(nodes, cell.nodeIds[0]) && HasId(nodes, cell.nodeIds[1]) && HasId(nodes, cell.nodeIds[2])
  }

  /** The vertices n0, n1, n2 of a cell. */
  function Vertices(nodes: seq<Node>, cell: Cell): (p: seq<Node>)
    requires Resolves(nodes, cell)
    ensures |p| == 3
  {
    [NodeById(nodes, cell.nodeIds[0]).value, NodeById(nodes, cell.nodeIds[1]).value,
     NodeById(nodes, cell.nodeIds[2]).value]
  }

  /** det J of the cell is not zero, so J.inverse() exists. */
  predicate NonDegenerate(nodes: seq<Node>, cell: Cell)
    requires Resolves(nodes, cell)
  {
    var p := Vertices(nodes, cell);
    Det(Jacobian(p[0], p[1], p[2])) != 0.0
  }

  predicate AllNonDegenerate(nodes: seq<Node>, cells: seq<Cell>)
  {
    forall c | 0 <= c < |cells| :: Resolves(nodes, cells[c]) && NonDegenerate(nodes, cells[c])
  }

  /** What a cell contributes to K and F. A degenerate cell has no element
      matrix in this model (the zero matrix stands in); the stiffness
      assembly requires that there is none. */
  function ElementOf(nodes: seq<Node>, cell: Cell, dofs: seq<int>): (e: Element)
    requires Resolves(nodes, cell) && |dofs| >= 3
    ensures e.dofs == dofs[..3] && IsMatrix(e.ke, 3, 3)
    ensures var p := Vertices(nodes, cell); e.area == Area(p[0], p[1], p[2])
    ensures NonDegenerate(nodes, cell) ==>
              var p := Vertices(nodes, cell); e.ke == ElementStiffness(p[0], p[1], p[2])
  {
    var p := Vertices(nodes, cell);
    Element(dofs[..3],
            if NonDegenerate(nodes, cell) then ElementStiffness(p[0], p[1], p[2]) else ZeroMatrix(3),
            Area(p[0], p[1], p[2]))
  }

  lemma AssignedResolves(nodes: seq<Node>, cells: seq<Cell>, cellDofIds: seq<seq<int>>, c: nat)
    requires DofsAssigned(nodes, cells, cellDofIds) && Triangular(cells) && c < |cells|
    ensures Resolves(nodes, cells[c]) && |cellDofIds[c]| >= 3
    ensures forall i | 0 <= i < 3 :: 0 <= cellDofIds[c][i] < |nodes|
  {
    assert DofList(nodes, cells[c].nodeIds) == Ok(cellDofIds[c]);
  }

  /** What the element routines need of the DOF map: every cell resolves
      and its first three DOFs are positions of nodes. */
  predicate CellsFit(nodes: seq<Node>, cells: seq<Cell>, cellDofIds: seq<seq<int>>)
  {
    |cellDofIds| == |cells| &&
    forall c | 0 <= c < |cells| ::
      Resolves(nodes, cells[c]) && |cellDofIds[c]| >= 3 &&
      forall i | 0 <= i < 3 :: 0 <= cellDofIds[c][i] < |nodes|
  }

  lemma AssignedFit(nodes: seq<Node>, cells: seq<Cell>, cellDofIds: seq<seq<int>>)
    requires DofsAssigned(nodes, cells, cellDofIds) && Triangular(cells)
    ensures CellsFit(nodes, cells, cellDofIds)
  {
    forall c | 0 <= c < |cells|
      ensures Resolves(nodes, cells[c]) && |cellDofIds[c]| >= 3
      ensures forall i | 0 <= i < 3 :: 0 <= cellDofIds[c][i] < |nodes|
    {
      AssignedResolves(nodes, cells, cellDofIds, c);
    }
  }

  /** f applied to each of the first k cells and its DOF list, in cell
      order. */
  function MapCells(f: (Cell, seq<int>) --> Element, cells: seq<Cell>, cellDofIds: seq<seq<int>>, k: nat): (es: seq<Element>)
    requires k <= |cells| && k <= |cellDofIds|
    requires forall c | 0 <= c < k :: f.requires(cells[c], cellDofIds[c])
    ensures |es| == k
  {
    if k == 0 then []
    else MapCells(f, cells, cellDofIds, k - 1) + [f(cells[k - 1], cellDofIds[k - 1])]
  }

  lemma {:induction false} MapCellsAt(f: (Cell, seq<int>) --> Element, cells: seq<Cell>, cellDofIds: seq<seq<int>>, k: nat, c: nat)
    requires k <= |cells| && k <= |cellDofIds|
    requires forall c | 0 <= c < k :: f.requires(cells[c], cellDofIds[c])
    requires c < k
    ensures MapCells(f, cells, cellDofIds, k)[c] == f(cells[c], cellDofIds[c])
  {
    if c < k - 1 {
      MapCellsAt(f, cells, cellDofIds, k - 1, c);
    }
  }

  /** The element routine for the cells of a mesh with these nodes. */
  function CellElement(nodes: seq<Node>): (Cell, seq<int>) --> Element
  {
    (cell: Cell, dofs: seq<int>) requires Resolves(nodes, cell) && |dofs| >= 3 => ElementOf(nodes, cell, dofs)
  }

  /** The elements of all cells, in cell order. */
  function ElementsOf(nodes: seq<Node>, cells: seq<Cell>, cellDofIds: seq<seq<int>>): (es: seq<Element>)
    requires CellsFit(nodes, cells, cellDofIds)
    ensures |es| == |cells| && AllFit(es, |nodes|)
  {
    var es := MapCells(CellElement(nodes), cells, cellDofIds, |cells|);
    assert forall c | 0 <= c < |cells| :: es[c] == ElementOf(nodes, cells[c], cellDofIds[c]) by {
      forall c | 0 <= c < |cells| ensures es[c] == ElementOf(nodes, cells[c], cellDofIds[c]) {
        MapCellsAt(CellElement(nodes), cells, cellDofIds, |cells|, c);
      }
    }
    es
  }

  /** Element c is the element of cell c. */
  lemma ElementsOfAt(nodes: seq<Node>, cells: seq<Cell>, cellDofIds: seq<seq<int>>, c: nat)
    requires CellsFit(nodes, cells, cellDofIds) && c < |cells|
    ensures ElementsOf(nodes, cells, cellDofIds)[c] == ElementOf(nodes, cells[c], cellDofIds[c])
  {
    MapCellsAt(CellElement(nodes), cells, cellDofIds, |cells|, c);
  }

  /** The element of a non-degenerate cell has a symmetric Ke whose rows
      sum to zero. */
  lemma ElementOfProperties(nodes: seq<Node>, cell: Cell, dofs: seq<int>)
    requires Resolves(nodes, cell) && NonDegenerate(nodes, cell) && |dofs| >= 3
    ensures IsMatrix(ElementOf(nodes, cell, dofs).ke, 3, 3)
    ensures Symmetric(ElementOf(nodes, cell, dofs).ke, 3)
    ensures RowsSumToZero(ElementOf(nodes, cell, dofs).ke)
  {
    var p := Vertices(nodes, cell);
    ElementStiffnessProperties(p[0], p[1], p[2]);
  }

  /** On a mesh of non-degenerate triangles every element matrix is
      symmetric with rows summing to zero, which is what the Assembly
      lemmas need for a symmetric K with K * 1 == 0. */
  lemma ElementsProperties(nodes: seq<Node>, cells: seq<Cell>, cellDofIds: seq<seq<int>>)
    requires CellsFit(nodes, cells, cellDofIds) && AllNonDegenerate(nodes, cells)
    ensures AllSymmetric(ElementsOf(nodes, cells, cellDofIds))
    ensures forall c | 0 <= c < |cells| :: RowsSumToZero(ElementsOf(nodes, cells, cellDofIds)[c].ke)
  {
    var es := ElementsOf(nodes, cells, cellDofIds);
    forall c | 0 <= c < |es|
      ensures Symmetric(es[c].ke, 3) && RowsSumToZero(es[c].ke)
    {
      ElementsOfAt(nodes, cells, cellDofIds, c);
      ElementOfProperties(nodes, cells[c], cellDofIds[c]);
    }
  }

  /** On a mesh of non-degenerate triangles the assembled K is symmetric
      and each of its rows sums to zero (K * 1 == 0). */
  lemma AssembledStiffnessProperties(nodes: seq<Node>, cells: seq<Cell>, cellDofIds: seq<seq<int>>)
    requires CellsFit(nodes, cells, cellDofIds) && AllNonDegenerate(nodes, cells)
    ensures Symmetric(AssembledStiffness(|nodes|, ElementsOf(nodes, cells, cellDofIds)), |nodes|)
    ensures forall r | 0 <= r < |nodes| ::
              Sum(AssembledStiffness(|nodes|, ElementsOf(nodes, cells, cellDofIds))[r]) == 0.0
  {
    var es := ElementsOf(nodes, cells, cellDofIds);
    ElementsProperties(nodes, cells, cellDofIds);
    AssembledStiffnessSymmetric(|nodes|, es);
    forall r | 0 <= r < |nodes|
      ensures Sum(AssembledStiffness(|nodes|, es)[r]) == 0.0
    {
      AssembledStiffnessRowSum(|nodes|, es, r);
    }
  }

  /** The system handed to the solver on a mesh of non-degenerate
      triangles has a symmetric K, whatever the boundary edges and the
      Dirichlet DOFs. */
  lemma PoissonSystemSymmetric(nodes: seq<Node>, cells: seq<Cell>, cellDofIds: seq<seq<int>>,
                               neu: seq<Edge>, rob: seq<Edge>, ds: seq<nat>, alpha: real, gNeu: real, gRob: real)
    requires CellsFit(nodes, cells, cellDofIds) && AllNonDegenerate(nodes, cells)
    requires EdgesFit(neu, |nodes|) && EdgesFit(rob, |nodes|) && forall q | 0 <= q < |ds| :: ds[q] < |nodes|
    ensures Symmetric(PoissonSystem(System(AssembledStiffness(|nodes|, ElementsOf(nodes, cells, cellDofIds)),
                                           AssembledLoad(|nodes|, ElementsOf(nodes, cells, cellDofIds))),
                                    |nodes|, neu, rob, ds, alpha, gNeu, gRob).k, |nodes|)
  {
    var es := ElementsOf(nodes, cells, cellDofIds);
    var sys := System(AssembledStiffness(|nodes|, es), AssembledLoad(|nodes|, es));
    AssembledStiffnessProperties(nodes, cells, cellDofIds);
    PoissonSystemProperties(sys, |nodes|, neu, rob, ds, alpha, gNeu, gRob);
  }

  /** One more cell scattered into K. */
  lemma AssembledStiffnessStep(n: nat, es: seq<Element>, c: nat)
    requires AllFit(es, n) && c < |es|
    ensures AllFit(es[..c], n) && AllFit(es[..c + 1], n)
    ensures AssembledStiffness(n, es[..c + 1]) == Scatter(AssembledStiffness(n, es[..c]), n, es[c])
  {
    assert es[..c + 1][..c] == es[..c];
  }

  /** One more cell scattered into F. */
  lemma AssembledLoadStep(n: nat, es: seq<Element>, c: nat)
    requires AllFit(es, n) && c < |es|
    ensures AllFit(es[..c], n) && AllFit(es[..c + 1], n)
    ensures AssembledLoad(n, es[..c + 1]) == ScatterLoad(AssembledLoad(n, es[..c]), n, es[c], 3)
  {
    assert es[..c + 1][..c] == es[..c];
  }

  // ---------------------------------------------------------------------
  // The space

  class LagrangeFEMSpace {
    /** The mesh the space is built on. */
    const mesh: TriangleMesh.TriangleMesh
    const dofPerNode: int := 1
    /** cell_dof_ids: the DOFs of each cell's nodes. */
    var cellDofIds: seq<seq<int>>
    /** global_dof_ids: the DOF of the node at each position. */
    var globalDofIds: seq<int>

    constructor Init(m: TriangleMesh.TriangleMesh)
      ensures mesh == m && cellDofIds == [] && globalDofIds == []
    {
      mesh := m;
      cellDofIds := [];
      globalDofIds := [];
    }

    /** The constructor: stores the mesh and numbers its DOFs; it throws
        when a cell names an absent node. */
    static method Create(m: TriangleMesh.TriangleMesh) returns (r: Result<LagrangeFEMSpace>)
      ensures r.Ok? <==>
                forall c | 0 <= c < |m.base.cells| :: DofList(m.base.nodes, m.base.cells[c].nodeIds).Ok?
      ensures r.Ok? ==> fresh(r.value) && r.value.mesh == m && r.value.Assigned()
      ensures r.Err? ==> r.error == NodeNotFound
    {
      var space := new LagrangeFEMSpace.Init(m);
      var s := space.AssignDof();
      if s.Failed? {
        return Err(s.error);
      }
      return Ok(space);
    }

    /** The DOF maps describe the current mesh. */
    predicate Assigned()
      reads this, mesh.base
    {
      globalDofIds == IdentityDofs(|mesh.base.nodes|) &&
      DofsAssigned(mesh.base.nodes, mesh.base.cells, cellDofIds) &&
      (Triangular(mesh.base.cells) ==> CellsFit(mesh.base.nodes, mesh.base.cells, cellDofIds))
    }

    /** The DOF list of one cell: global_dof_ids at the position of each
        node id, in order; getNodeIndexById throws at the first absent id. */
    method CellDofs(ids: seq<int>) returns (r: Result<seq<int>>)
      requires globalDofIds == IdentityDofs(|mesh.base.nodes|)
      ensures r == DofList(mesh.base.nodes, ids)
    {
      var nodes := mesh.base.nodes;
      var dofs: seq<int> := [];
      for k := 0 to |ids|
        invariant DofList(nodes, ids[..k]) == Ok(dofs)
      {
        var idx := mesh.GetNodeIndexById(ids[k]);
        assert ids[..k + 1][..k] == ids[..k];
        if idx.Err? {
          assert DofList(nodes, ids[..k + 1]).Err?;
          DofListErr(nodes, ids, k + 1);
          return Err(idx.error);
        }
        dofs := dofs + [globalDofIds[idx.value]];
      }
      assert ids[..|ids|] == ids;
      return Ok(dofs);
    }

    /** Numbers the DOFs: the identity on node positions, then one DOF
        list per cell; stops at the first cell naming an absent node,
        keeping the lists of the cells before it. */
    method AssignDof() returns (s: Status)
      modifies this
      ensures globalDofIds == IdentityDofs(|mesh.base.nodes|)
      ensures |cellDofIds| <= |mesh.base.cells|
      ensures forall c | 0 <= c < |cellDofIds| ::
                DofList(mesh.base.nodes, mesh.base.cells[c].nodeIds) == Ok(cellDofIds[c])
      ensures s.Done? <==>
                forall c | 0 <= c < |mesh.base.cells| :: DofList(mesh.base.nodes, mesh.base.cells[c].nodeIds).Ok?
      ensures s.Done? ==> Assigned()
      ensures s.Failed? ==>
                (|cellDofIds| < |mesh.base.cells| && s.error == NodeNotFound &&
                 DofList(mesh.base.nodes, mesh.base.cells[|cellDofIds|].nodeIds).Err?)
    {
      var nodes := mesh.base.nodes;
      var cells := mesh.base.cells;
      var n := |nodes|;
      // global_dof_ids.resize(n)
      var prev := globalDofIds;
      globalDofIds := seq(n, i requires 0 <= i < n => if i < |prev| then prev[i] else 0);
      for i := 0 to n
        invariant |globalDofIds| == n
        invariant forall k | 0 <= k < i :: globalDofIds[k] == k
      {
        globalDofIds := globalDofIds[i := i];
      }
      assert globalDofIds == IdentityDofs(n);
      cellDofIds := [];
      for c := 0 to |cells|
        invariant globalDofIds == IdentityDofs(n)
        invariant |cellDofIds| == c
        invariant forall b | 0 <= b < c :: DofList(nodes, cells[b].nodeIds) == Ok(cellDofIds[b])
      {
        var r := CellDofs(cells[c].nodeIds);
        if r.Err? {
          return Failed(r.error);
        }
        cellDofIds := cellDofIds + [r.value];
      }
      if Triangular(cells) {
        AssignedFit(nodes, cells, cellDofIds);
      }
      return Done;
    }

    /** getNumDofs: one DOF per node. */
    function NumDofs(): (r: nat)
      reads mesh.base
      ensures r == |mesh.base.nodes|
    {
      |mesh.base.nodes| * dofPerNode
    }

    /** Ke(i, j) = area * grad.col(i) . grad.col(j), filled entry by entry. */
    static method GramArray(grad: seq<Vec2>, area: real) returns (ke: array2<real>)
      requires |grad| == 3
      ensures fresh(ke) && ke.Length0 == 3 && ke.Length1 == 3
      ensures MatOf(ke) == Gram(grad, area)
    {
      ghost var g := Gram(grad, area);
      ke := new real[3, 3]((i, j) => 0.0);
      for i := 0 to 3
        invariant forall a, b | 0 <= a < i && 0 <= b < 3 :: ke[a, b] == g[a][b]
      {
        for j := 0 to 3
          invariant forall a, b | 0 <= a < i && 0 <= b < 3 :: ke[a, b] == g[a][b]
          invariant forall b | 0 <= b < j :: ke[i, b] == g[i][b]
        {
          ke[i, j] := area * Dot2(grad[i], grad[j]);
        }
      }
      MatOfIs(ke, g);
    }

    /** The 3-by-3 element stiffness matrix of cell c; the node lookups may
        throw. */
    method ComputeElementStiffnessMatrix(c: int) returns (r: Result<array2<real>>)
      requires 0 <= c < |mesh.base.cells| && |mesh.base.cells[c].nodeIds| >= 3
      requires Resolves(mesh.base.nodes, mesh.base.cells[c]) ==>
                 NonDegenerate(mesh.base.nodes, mesh.base.cells[c])
      ensures r.Ok? <==> Resolves(mesh.base.nodes, mesh.base.cells[c])
      ensures r.Err? ==> r.error == NodeNotFound
      ensures r.Ok? ==> fresh(r.value) && r.value.Length0 == 3 && r.value.Length1 == 3
      ensures r.Ok? ==> var p := Vertices(mesh.base.nodes, mesh.base.cells[c]);
                        MatOf(r.value) == ElementStiffness(p[0], p[1], p[2])
    {
      var cell := mesh.base.cells[c];
      var n0 := mesh.base.GetNodeById(cell.nodeIds[0]);
      if n0.Err? { return Err(n0.error); }
      var n1 := mesh.base.GetNodeById(cell.nodeIds[1]);
      if n1.Err? { return Err(n1.error); }
      var n2 := mesh.base.GetNodeById(cell.nodeIds[2]);
      if n2.Err? { return Err(n2.error); }
      var p0, p1, p2 := n0.value, n1.value, n2.value;
      assert [p0, p1, p2] == Vertices(mesh.base.nodes, cell);
      var jac := Jacobian(p0, p1, p2);
      var detJ := Det(jac);
      var area := 0.5 * Abs(detJ);
      var gradRef: seq<Vec2> := [];
      for i := 0 to 3
        invariant |gradRef| == i && forall k | 0 <= k < i :: gradRef[k] == RefGrad(k)
      {
        gradRef := gradRef + [Vec2(BasisGradXi(i).value, BasisGradEta(i).value)];
      }
      var invJ := Inverse(jac);
      var grad := [Apply(invJ, gradRef[0]), Apply(invJ, gradRef[1]), Apply(invJ, gradRef[2])];
      assert grad == PhysGrads(jac);
      var ke := GramArray(grad, area);
      return Ok(ke);
    }
      /** K(dofs[i], dofs[j]) += Ke(i, j) for i, j < 3. */
    static method ScatterElement(k: array2<real>, ke: array2<real>, dofs: seq<int>, ghost n: nat, ghost e: Element)
      requires k != ke && k.Length0 == n && k.Length1 == n && Fits(e, n)
      requires ke.Length0 == 3 && ke.Length1 == 3 && MatOf(ke) == e.ke
      requires |dofs| >= 3 && dofs[..3] == e.dofs
      modifies k
      ensures MatOf(k) == Scatter(old(MatOf(k)), n, e)
    {
      ghost var m0 := MatOf(k);
      for i := 0 to 3
        invariant MatOf(k) == ScatterRows(m0, n, e, i)
      {
        for j := 0 to 3
          invariant MatOf(k) == ScatterRow(ScatterRows(m0, n, e, i), n, e, i, j)
        {
          assert dofs[i] == e.dofs[i] && dofs[j] == e.dofs[j];
          AddToEntry(k, dofs[i], dofs[j], ke[i, j]);
        }
      }
    }

    /** The body of the assembly loop for cell c: Ke computed and
        scattered into K. */
    method AddCellStiffness(k: array2<real>, c: nat)
      requires Assigned() && Triangular(mesh.base.cells)
      requires AllNonDegenerate(mesh.base.nodes, mesh.base.cells) && c < |mesh.base.cells|
      requires k.Length0 == NumDofs() && k.Length1 == NumDofs()
      modifies k
      ensures MatOf(k) == Scatter(old(MatOf(k)), NumDofs(),
                                  ElementsOf(mesh.base.nodes, mesh.base.cells, cellDofIds)[c])
    {
      ElementsOfAt(mesh.base.nodes, mesh.base.cells, cellDofIds, c);
      var r := ComputeElementStiffnessMatrix(c);
      ScatterElement(k, r.value, cellDofIds[c], NumDofs(),
                     ElementsOf(mesh.base.nodes, mesh.base.cells, cellDofIds)[c]);
    }

    /** The global stiffness matrix: every cell's Ke scattered into the
        zero matrix, in cell order. */
    method AssembleStiffness() returns (k: array2<real>)
      requires Assigned() && Triangular(mesh.base.cells)
      requires AllNonDegenerate(mesh.base.nodes, mesh.base.cells)
      ensures fresh(k) && k.Length0 == NumDofs() && k.Length1 == NumDofs()
      ensures MatOf(k) == AssembledStiffness(NumDofs(), ElementsOf(mesh.base.nodes, mesh.base.cells, cellDofIds))
    {
      var nd := NumDofs();
      k := new real[nd, nd]((r, s) => 0.0);
      MatOfIs(k, ZeroMatrix(nd));
      ghost var es := ElementsOf(mesh.base.nodes, mesh.base.cells, cellDofIds);
      for c := 0 to |mesh.base.cells|
        invariant AllFit(es[..c], nd)
        invariant MatOf(k) == AssembledStiffness(nd, es[..c])
      {
        AssembledStiffnessStep(nd, es, c);
        AddCellStiffness(k, c);
      }
      assert es[..|mesh.base.cells|] == es;
    }

    /** F(dofs[i]) += area / 3 for i < 3. */
    static method ScatterLoadInto(f: array<real>, dofs: seq<int>, area: real, ghost n: nat, ghost e: Element)
      requires f.Length == n && Fits(e, n) && area == e.area
      requires |dofs| >= 3 && dofs[..3] == e.dofs
      modifies f
      ensures f[..] == ScatterLoad(old(f[..]), n, e, 3)
    {
      ghost var f0 := f[..];
      for i := 0 to 3
        invariant f[..] == ScatterLoad(f0, n, e, i)
      {
        assert dofs[i] == e.dofs[i];
        f[dofs[i]] := f[dofs[i]] + area / 3.0;
      }
    }

    /** The body of the load loop for cell c: the area from the three
        vertices, a third of it added at each vertex DOF. */
    method AddCellLoad(f: array<real>, c: nat)
      requires Assigned() && Triangular(mesh.base.cells) && c < |mesh.base.cells|
      requires f.Length == NumDofs()
      modifies f
      ensures f[..] == ScatterLoad(old(f[..]), NumDofs(),
                                   ElementsOf(mesh.base.nodes, mesh.base.cells, cellDofIds)[c], 3)
    {
      ElementsOfAt(mesh.base.nodes, mesh.base.cells, cellDofIds, c);
      var cell := mesh.base.cells[c];
      var n0 := mesh.base.GetNodeById(cell.nodeIds[0]);
      var n1 := mesh.base.GetNodeById(cell.nodeIds[1]);
      var n2 := mesh.base.GetNodeById(cell.nodeIds[2]);
      var p0, p1, p2 := n0.value, n1.value, n2.value;
      var area := LoadArea(p0, p1, p2);
      LoadAreaIsArea(p0, p1, p2);
      assert [p0, p1, p2] == Vertices(mesh.base.nodes, cell);
      ScatterLoadInto(f, cellDofIds[c], area, NumDofs(),
                      ElementsOf(mesh.base.nodes, mesh.base.cells, cellDofIds)[c]);
    }

    /** The global load vector for f = 1: area / 3 added to each vertex DOF
        of every cell. */
    method AssembleLoad() returns (f: array<real>)
      requires Assigned() && Triangular(mesh.base.cells)
      ensures fresh(f) && f.Length == NumDofs()
      ensures f[..] == AssembledLoad(NumDofs(), ElementsOf(mesh.base.nodes, mesh.base.cells, cellDofIds))
    {
      var nd := NumDofs();
      f := new real[nd](_ => 0.0);
      assert f[..] == Zeros(nd);
      ghost var es := ElementsOf(mesh.base.nodes, mesh.base.cells, cellDofIds);
      for c := 0 to |mesh.base.cells|
        invariant AllFit(es[..c], nd)
        invariant f[..] == AssembledLoad(nd, es[..c])
      {
        AssembledLoadStep(nd, es, c);
        AddCellLoad(f, c);
      }
      assert es[..|mesh.base.cells|] == es;
    }

    /** K.row(d).setZero(); K.col(d).setZero(); K(d, d) = 1; F(d) = val. */
    static method ConstrainDof(k: array2<real>, f: array<real>, ghost n: nat, d: nat, val: real)
      requires k.Length0 == n && k.Length1 == n && f.Length == n && d < n
      modifies k, f
      ensures System(MatOf(k), f[..]) == Constrain(old(System(MatOf(k), f[..])), n, d, val)
    {
      ghost var sys := System(MatOf(k), f[..]);
      for s := 0 to k.Length1
        modifies k
        invariant forall r, t | 0 <= r < n && 0 <= t < n ::
                    k[r, t] == if r == d && t < s then 0.0 else sys.k[r][t]
      {
        k[d, s] := 0.0;
      }
      for r := 0 to k.Length0
        modifies k
        invariant forall q, t | 0 <= q < n && 0 <= t < n ::
                    k[q, t] == if q == d || (t == d && q < r) then 0.0 else sys.k[q][t]
      {
        k[r, d] := 0.0;
      }
      k[d, d] := 1.0;
      f[d] := val;
      assert f[..] == sys.f[d := val];
      MatOfIs(k, Constrain(sys, n, d, val).k);
    }

    /** Constrains the DOF of each boundary node id in turn; throws at the
        first id that names no node, after the edits for the ids before
        it. */
    method ApplyDirichletBC(k: array2<real>, f: array<real>, bnodes: seq<int>, val: real) returns (s: Status)
      requires Assigned()
      requires k.Length0 == NumDofs() && k.Length1 == NumDofs() && f.Length == NumDofs()
      modifies k, f
      ensures System(MatOf(k), f[..]) ==
                DirichletAll(old(System(MatOf(k), f[..])), NumDofs(), PresentDofs(mesh.base.nodes, bnodes), val)
      ensures s.Done? <==> LeadingPresent(mesh.base.nodes, bnodes) == |bnodes|
      ensures s.Failed? ==> s.error == NodeNotFound
    {
      ghost var sys := System(MatOf(k), f[..]);
      ghost var nodes := mesh.base.nodes;
      ghost var nd := NumDofs();
      for q := 0 to |bnodes|
        invariant forall j | 0 <= j < q :: HasId(nodes, bnodes[j])
        invariant System(MatOf(k), f[..]) == DirichletAll(sys, nd, DofsOf(nodes, bnodes[..q]), val)
      {
        var idx := mesh.GetNodeIndexById(bnodes[q]);
        if idx.Err? {
          LeadingPresentIs(nodes, bnodes, q);
          return Failed(idx.error);
        }
        var d := globalDofIds[idx.value];
        DofsOfSnoc(nodes, bnodes, q);
        DirichletAllSnoc(sys, nd, DofsOf(nodes, bnodes[..q]), d, val);
        ConstrainDof(k, f, nd, d, val);
      }
      LeadingPresentIs(nodes, bnodes, |bnodes|);
      assert bnodes[..|bnodes|] == bnodes;
      return Done;
    }

    /** F(d1) += c; F(d2) += c, with c the edge's share g L / 2. */
    static method LoadEdge(f: array<real>, d1: nat, d2: nat, c: real, ghost l: real, ghost e: Edge, ghost g: real)
      requires d1 < f.Length && d2 < f.Length && e == Edge(d1, d2, l) && c == g * l / 2.0
      modifies f
      ensures f[..] == EdgeLoad(old(f[..]), e, g)
    {
      assert c == Share(e, g);
      ghost var f0 := f[..];
      f[d1] := f[d1] + c;
      assert f[..] == AddAt(f0, d1, c);
      f[d2] := f[d2] + c;
    }

    /** The body of the Neumann loop for one edge: the two endpoint
        lookups, L = len(p2 - p1), then F(d1) += g L / 2, F(d2) += g L / 2. */
    method NeumannEdge(f: array<real>, e: (int, int), g: real, len: (real, real) -> real) returns (s: Status)
      requires Assigned() && f.Length == NumDofs()
      modifies f
      ensures s.Done? <==> EdgeResolves(mesh.base.nodes, e)
      ensures s.Done? ==> f[..] == EdgeLoad(old(f[..]), EdgeOf(mesh.base.nodes, e, len), g)
      ensures s.Failed? ==> f[..] == old(f[..]) && s.error == NodeNotFound
    {
      var n1 := mesh.base.GetNodeById(e.0);
      if n1.Err? {
        return Failed(n1.error);
      }
      var n2 := mesh.base.GetNodeById(e.1);
      if n2.Err? {
        return Failed(n2.error);
      }
      var l := len(n2.value.x - n1.value.x, n2.value.y - n1.value.y);
      var c := g * l / 2.0;
      var i1 := mesh.GetNodeIndexById(e.0);
      var i2 := mesh.GetNodeIndexById(e.1);
      var d1, d2 := globalDofIds[i1.value], globalDofIds[i2.value];
      ghost var edge := EdgeOf(mesh.base.nodes, e, len);
      assert edge == Edge(d1, d2, l);
      LoadEdge(f, d1, d2, c, l, edge, g);
      return Done;
    }

    /** F(d1) += g L / 2 and F(d2) += g L / 2 for each edge in turn, L the
        length len(p2 - p1) of the edge; throws at the first edge with an
        absent endpoint. */
    method ApplyNeumannBC(f: array<real>, edges: seq<(int, int)>, g: real, len: (real, real) -> real)
      returns (s: Status)
      requires Assigned() && f.Length == NumDofs()
      modifies f
      ensures f[..] == NeumannAll(old(f[..]), PresentEdges(mesh.base.nodes, edges, len), g)
      ensures s.Done? <==> LeadingEdges(mesh.base.nodes, edges) == |edges|
      ensures s.Failed? ==> s.error == NodeNotFound
    {
      ghost var f0 := f[..];
      ghost var nodes := mesh.base.nodes;
      for q := 0 to |edges|
        invariant forall j | 0 <= j < q :: EdgeResolves(nodes, edges[j])
        invariant f[..] == NeumannAll(f0, EdgesOf(nodes, edges[..q], len), g)
      {
        var r := NeumannEdge(f, edges[q], g, len);
        if r.Failed? {
          LeadingEdgesIs(nodes, edges, q);
          return r;
        }
        EdgesOfSnoc(nodes, edges, len, q);
        NeumannAllSnoc(f0, EdgesOf(nodes, edges[..q], len), EdgeOf(nodes, edges[q], len), g);
      }
      LeadingEdgesIs(nodes, edges, |edges|);
      assert edges[..|edges|] == edges;
      return Done;
    }

    /** K(d1, d1) += 2 coeff; K(d1, d2) += coeff; K(d2, d1) += coeff;
        K(d2, d2) += 2 coeff. */
    static method RobinBlockInto(k: array2<real>, d1: nat, d2: nat, coeff: real, ghost n: nat, ghost l: real,
                                 ghost e: Edge, ghost alpha: real)
      requires k.Length0 == n && k.Length1 == n && d1 < n && d2 < n
      requires e == Edge(d1, d2, l) && coeff == alpha * l / 6.0
      modifies k
      ensures MatOf(k) == RobinStiffness(old(MatOf(k)), n, e, alpha)
    {
      assert coeff == RobinCoeff(e, alpha);
      ghost var m0 := MatOf(k);
      AddToEntry(k, d1, d1, 2.0 * coeff);
      ghost var m1 := MatOf(k);
      assert m1 == AddAt2(m0, d1, d1, 2.0 * coeff);
      AddToEntry(k, d1, d2, coeff);
      ghost var m2 := MatOf(k);
      assert m2 == AddAt2(m1, d1, d2, coeff);
      AddToEntry(k, d2, d1, coeff);
      ghost var m3 := MatOf(k);
      assert m3 == AddAt2(m2, d2, d1, coeff);
      AddToEntry(k, d2, d2, 2.0 * coeff);
      assert MatOf(k) == AddAt2(m3, d2, d2, 2.0 * coeff);
    }

    /** The body of the Robin loop for one edge: with coeff = alpha L / 6,
        K(d1, d1) += 2 coeff, K(d1, d2) += coeff, K(d2, d1) += coeff,
        K(d2, d2) += 2 coeff, then the edge load g L / 2 at d1 and d2. */
    method RobinEdgeStep(k: array2<real>, f: array<real>, e: (int, int), alpha: real, g: real,
                         len: (real, real) -> real) returns (s: Status)
      requires Assigned() && k.Length0 == NumDofs() && k.Length1 == NumDofs() && f.Length == NumDofs()
      modifies k, f
      ensures s.Done? <==> EdgeResolves(mesh.base.nodes, e)
      ensures s.Done? ==>
                System(MatOf(k), f[..]) ==
                RobinEdge(old(System(MatOf(k), f[..])), NumDofs(), EdgeOf(mesh.base.nodes, e, len), alpha, g)
      ensures s.Failed? ==> MatOf(k) == old(MatOf(k)) && f[..] == old(f[..]) && s.error == NodeNotFound
    {
      var n1 := mesh.base.GetNodeById(e.0);
      if n1.Err? {
        return Failed(n1.error);
      }
      var n2 := mesh.base.GetNodeById(e.1);
      if n2.Err? {
        return Failed(n2.error);
      }
      var l := len(n2.value.x - n1.value.x, n2.value.y - n1.value.y);
      var coeff := alpha * l / 6.0;
      var i1 := mesh.GetNodeIndexById(e.0);
      var i2 := mesh.GetNodeIndexById(e.1);
      var d1, d2 := globalDofIds[i1.value], globalDofIds[i2.value];
      ghost var edge := EdgeOf(mesh.base.nodes, e, len);
      assert edge == Edge(d1, d2, l);
      ghost var sys := System(MatOf(k), f[..]);
      RobinBlockInto(k, d1, d2, coeff, NumDofs(), l, edge, alpha);
      var lf := g * l / 2.0;
      LoadEdge(f, d1, d2, lf, l, edge, g);
      assert System(MatOf(k), f[..]) == RobinEdge(sys, NumDofs(), edge, alpha, g);
      return Done;
    }

    /** The Robin terms of each edge in turn; throws at the first edge with
        an absent endpoint. */
    method ApplyRobinBC(k: array2<real>, f: array<real>, edges: seq<(int, int)>, alpha: real, g: real,
                        len: (real, real) -> real) returns (s: Status)
      requires Assigned() && k.Length0 == NumDofs() && k.Length1 == NumDofs() && f.Length == NumDofs()
      modifies k, f
      ensures System(MatOf(k), f[..]) ==
                RobinAll(old(System(MatOf(k), f[..])), NumDofs(), PresentEdges(mesh.base.nodes, edges, len), alpha, g)
      ensures s.Done? <==> LeadingEdges(mesh.base.nodes, edges) == |edges|
      ensures s.Failed? ==> s.error == NodeNotFound
    {
      ghost var sys := System(MatOf(k), f[..]);
      ghost var nodes := mesh.base.nodes;
      ghost var nd := NumDofs();
      for q := 0 to |edges|
        invariant forall j | 0 <= j < q :: EdgeResolves(nodes, edges[j])
        invariant System(MatOf(k), f[..]) == RobinAll(sys, nd, EdgesOf(nodes, edges[..q], len), alpha, g)
      {
        var r := RobinEdgeStep(k, f, edges[q], alpha, g, len);
        if r.Failed? {
          LeadingEdgesIs(nodes, edges, q);
          return r;
        }
        EdgesOfSnoc(nodes, edges, len, q);
        RobinAllSnoc(sys, nd, EdgesOf(nodes, edges[..q], len), EdgeOf(nodes, edges[q], len), alpha, g);
      }
      LeadingEdgesIs(nodes, edges, |edges|);
      assert edges[..|edges|] == edges;
      return Done;
    }

    /** The boundary part of solvePoisson on an assembled system: the
        Neumann loads when there are Neumann edges, the Robin terms when
        there are Robin edges, then the Dirichlet nodes constrained to 0. */
    method ApplyBoundaryConditions(k: array2<real>, f: array<real>, dirichletNodes: seq<int>,
                                   neuEdges: seq<(int, int)>, robEdges: seq<(int, int)>,
                                   alpha: real, gNeu: real, gRob: real, len: (real, real) -> real)
      returns (s: Status)
      requires Assigned()
      requires k.Length0 == NumDofs() && k.Length1 == NumDofs() && f.Length == NumDofs()
      modifies k, f
      ensures s.Done? <==>
                LeadingEdges(mesh.base.nodes, neuEdges) == |neuEdges| &&
                LeadingEdges(mesh.base.nodes, robEdges) == |robEdges| &&
                LeadingPresent(mesh.base.nodes, dirichletNodes) == |dirichletNodes|
      ensures s.Failed? ==> s.error == NodeNotFound
      ensures s.Done? ==>
                System(MatOf(k), f[..]) ==
                PoissonSystem(old(System(MatOf(k), f[..])), NumDofs(),
                              PresentEdges(mesh.base.nodes, neuEdges, len), PresentEdges(mesh.base.nodes, robEdges, len),
                              PresentDofs(mesh.base.nodes, dirichletNodes), alpha, gNeu, gRob)
    {
      s := Done;
      if |neuEdges| > 0 {
        s := ApplyNeumannBC(f, neuEdges, gNeu, len);
        if s.Failed? {
          return;
        }
      }
      if |robEdges| > 0 {
        s := ApplyRobinBC(k, f, robEdges, alpha, gRob, len);
        if s.Failed? {
          return;
        }
      }
      s := ApplyDirichletBC(k, f, dirichletNodes, 0.0);
    }

    /** The Poisson problem with f = 1: K and F assembled over all cells,
        then the boundary conditions. Returns the system handed to the
        linear solver; a lookup that throws ends the call. */
    method SolvePoisson(dirichletNodes: seq<int>, neuEdges: seq<(int, int)>, robEdges: seq<(int, int)>,
                        alpha: real, gNeu: real, gRob: real, len: (real, real) -> real)
      returns (k: array2<real>, f: array<real>, s: Status)
      requires Assigned() && Triangular(mesh.base.cells)
      requires AllNonDegenerate(mesh.base.nodes, mesh.base.cells)
      ensures fresh(k) && fresh(f)
      ensures k.Length0 == NumDofs() && k.Length1 == NumDofs() && f.Length == NumDofs()
      ensures s.Done? <==>
                LeadingEdges(mesh.base.nodes, neuEdges) == |neuEdges| &&
                LeadingEdges(mesh.base.nodes, robEdges) == |robEdges| &&
                LeadingPresent(mesh.base.nodes, dirichletNodes) == |dirichletNodes|
      ensures s.Failed? ==> s.error == NodeNotFound
      ensures s.Done? ==>
                System(MatOf(k), f[..]) ==
                PoissonSystem(
                  System(AssembledStiffness(NumDofs(), ElementsOf(mesh.base.nodes, mesh.base.cells, cellDofIds)),
                         AssembledLoad(NumDofs(), ElementsOf(mesh.base.nodes, mesh.base.cells, cellDofIds))),
                  NumDofs(), PresentEdges(mesh.base.nodes, neuEdges, len), PresentEdges(mesh.base.nodes, robEdges, len),
                  PresentDofs(mesh.base.nodes, dirichletNodes), alpha, gNeu, gRob)
    {
      k := AssembleStiffness();
      f := AssembleLoad();
      s := ApplyBoundaryConditions(k, f, dirichletNodes, neuEdges, robEdges, alpha, gNeu, gRob, len);
    }
  }
}
