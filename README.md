# XMFEM core in Dafny

A model of the core of XMFEM, a small C++ finite-element library. The core
solves the Poisson problem with linear (P1) Lagrange elements on
triangles. It has these parts:

- **Mesh lookups.** `MeshBase` stores nodes (id, x, y) and cells (id, node
  ids). A node is looked up by id, either as a value or as its position;
  an absent id throws "Node ID not found".
- **Structured triangulation.** `TriangleMesh::buildMesh` lays out an
  (nx+1) x (ny+1) lattice of nodes with ids 1, 2, ... row by row over a box
  `[xmin, xmax, ymin, ymax]`. It splits every grid square into two
  triangles. `sortCellNodes` reorders each triangle so that its
  right-angle vertex comes first and the vertices run counter-clockwise.
- **The P1 space.** `LagrangeFEMSpace` does the following:
  - gives one DOF per node, numbered by the node's position;
  - maps every cell to the DOFs of its nodes;
  - evaluates the reference basis 1 - xi - eta, xi, eta and its gradients;
  - builds each triangle's 3x3 matrix Ke(i, j) = area * grad.col(i) . grad.col(j),
    where `grad` is J^-1 times the reference gradients;
  - assembles the global stiffness matrix K and the load vector F for the
    source f = 1;
  - applies Neumann edge loads, Robin edge terms and Dirichlet rows, in
    that order, as `solvePoisson` does before it calls the sparse solver.
- **The entity store.** `MeshDS` maps an entity-type tag (0 nodes, 1 edges,
  2 faces, 3 cells) to a table of index rows. It supports get, set, clear,
  counts, the fixed topological dimension, and the (first, second) node
  pairs of the edge table.

The model is layered by module:

- `Errors`: the exceptions, as `Result`/`Status` values.
- `MeshBase`: the lookups.
- `TriangleMesh`: mesh generation and vertex ordering.
- `ReferenceBasis`, `ElementMatrix`: the basis and the element matrix.
- `Dense`: matrices and vectors as sequences.
- `Assembly`: the scatter-add of element matrices and loads.
- `DofMap`: the DOF bookkeeping.
- `Boundary`: the three boundary conditions and their order in `solvePoisson`.
- `LagrangeFEMSpace`: the class. K and F are arrays that its methods update
  in place. Each method is proved equal to the specification function of
  the module that defines it.
- `MeshDS`: the entity store.

The main results are:

- The assembled K is symmetric.
- Every row of K sums to zero, so constant fields lie in its kernel.
- The total load equals the total element area.
- A Neumann or Robin edge adds g * L to the total load.
- After Dirichlet rows are applied, each constrained DOF reads u_d = value.
- Applying the Dirichlet rows is idempotent and keeps K symmetric.
- The system `solvePoisson` hands to the solver is exactly the composition
  of these functions.
- Each generated triangle is sorted with its right angle first and
  counter-clockwise.

`Index` is `nat` and `Tensor` is `seq<seq<Index>>`. Reals stand for
doubles.

## Model

| member | source | states |
|---|---|---|
| MeshBase.NodeIndex | include/MeshBase.h:34-39 | Ok exactly when some node has the id; the result is the first position holding it; otherwise "Node ID not found" |
| MeshBase.NodeById | include/MeshBase.h:25-30 | Ok exactly when some node has the id, and the returned node carries that id |
| MeshBase.LookupsAgree | include/MeshBase.h:25-39 | the two lookups succeed together; the node found is the node at the index found; both fail with the same error |
| MeshBase.MeshBase.constructor | include/MeshBase.h:19-22 | a fresh mesh has no nodes and no cells |
| MeshBase.MeshBase.GetNodeById | include/MeshBase.h:25-30 | the loop returns the first node with the id, Ok iff the id is present, else throws "Node ID not found" |
| MeshBase.MeshBase.GetNodeIndexById | include/MeshBase.h:34-39 | the loop returns the first position with the id, which is in range; it fails iff the id is absent |
| TriangleMesh.TriangleMesh.constructor | include/TriangleMesh.h:14-16 | a fresh triangle mesh has an empty node and cell list |
| TriangleMesh.TriangleMesh.BuildMesh | include/TriangleMesh.h:18-71 | a box without 4 entries throws invalid_argument and leaves the mesh unchanged; otherwise the nodes are the lattice and there are 2*nx*ny cells, each the sorted triangle at its position |
| TriangleMesh.TriangleMesh.AddLatticeNodes | include/TriangleMesh.h:36-46 | the node loop yields exactly the (nx+1)(ny+1) lattice, row by row, leaving the cells alone |
| TriangleMesh.TriangleMesh.AddGridCells | include/TriangleMesh.h:49-70 | the cell loop yields 2*nx*ny cells, the lower and then the upper triangle of each square, each passed through sortCellNodes |
| TriangleMesh.TriangleMesh.AddSquare | include/TriangleMesh.h:53-68 | one pass of the inner loop pushes the two sorted triangles of square (i, j), keeping the nodes and extending the generated cell list by two |
| TriangleMesh.LatticeNodes | include/TriangleMesh.h:36-46 | the lattice has (nx+1)(ny+1) nodes |
| TriangleMesh.LatticeCorner | include/TriangleMesh.h:36-46 | node j*(nx+1)+i is the grid point (xmin + i dx, ymin + j dy) |
| TriangleMesh.LatticeIds | include/TriangleMesh.h:31-41 | the node at position k has id k+1 |
| TriangleMesh.LatticeLookup | include/TriangleMesh.h:31-46 | an id is present iff 1 <= id <= node count, and it is then found at position id-1 |
| TriangleMesh.QuadTriangleIds | include/TriangleMesh.h:53-66 | each written triangle has three distinct ids in range, covering the expected three corners of its square |
| TriangleMesh.WrittenIdsOfSquare | include/TriangleMesh.h:49-68 | cells 2(j nx + i) and 2(j nx + i)+1 are the two triangles of square (i, j) |
| TriangleMesh.QuadTriangleNodes | include/TriangleMesh.h:53-66 | the ids of a written triangle resolve to the expected lattice points |
| TriangleMesh.GridTriangleGeometry | include/TriangleMesh.h:53-66 | a grid triangle has its right angle at its first vertex, and its orientation is the sign of dx*dy |
| TriangleMesh.QuadTriangleSorted | include/TriangleMesh.h:58-68 | sortCellNodes keeps a grid triangle as written when dx*dy >= 0, and otherwise swaps its last two vertices |
| TriangleMesh.SquareTriangleSorted | include/TriangleMesh.h:58-68 | sortCellNodes of either written triangle of a square succeeds and yields the generated cell at its position |
| TriangleMesh.GridKeepsWrittenOrder | include/TriangleMesh.h:49-70 | on a box with xmin < xmax and ymin < ymax every cell keeps its written vertex order |
| TriangleMesh.GridCellSorted | include/TriangleMesh.h:58-68 | every generated cell is sortCellNodes of the written ids |
| TriangleMesh.GridCellsAppend | include/TriangleMesh.h:58-68 | pushing the two sorted triangles of the next square extends the generated cell list |
| TriangleMesh.GridSquareCellIds | include/TriangleMesh.h:53-68 | the stored cells of square (i, j), whatever order sortCellNodes gave them, hold its corners: cell 2k the multiset {n1, n1+1, n1+nx+2} and cell 2k+1 the multiset {n1, n1+nx+1, n1+nx+2}, with k = j nx + i and n1 = j(nx+1) + i + 1 |
| TriangleMesh.FirstRightAngle | include/TriangleMesh.h:93-112 | -1 iff no vertex has a dot product below 1e-8, and otherwise the first vertex that does |
| TriangleMesh.TriangleMesh.FindRightAngle | include/TriangleMesh.h:93-112 | the search loop with its break computes that first right-angle index |
| TriangleMesh.CellNodes | include/TriangleMesh.h:83-85 | the looked-up vertices have the same count as the ids, and each is the node with its id |
| TriangleMesh.TriangleMesh.LookupVertices | include/TriangleMesh.h:83-85 | the three getNodeById calls succeed iff all three ids are present, and otherwise throw "Node ID not found" |
| TriangleMesh.SortedCell | include/TriangleMesh.h:74-141 | fails iff the cell does not have 3 ids (runtime_error "A triangle must have 3 nodes") or an id is absent ("Node ID not found") |
| TriangleMesh.TriangleMesh.SortCellNodes | include/TriangleMesh.h:74-141 | the method returns exactly the sorted cell |
| TriangleMesh.ArrangeCommutesWithLookup | include/TriangleMesh.h:124-137 | rotating and swapping ids and their vertices commute with the lookup |
| TriangleMesh.RotationPermutes | include/TriangleMesh.h:124-127 | starting at the right-angle vertex only rotates the cell |
| TriangleMesh.ArrangePermutes | include/TriangleMesh.h:124-138 | rotation followed by the optional swap is a permutation |
| TriangleMesh.SwapLastGeometry | include/TriangleMesh.h:134-138 | the swap keeps the right angle at the first vertex and flips the sign of the cross product |
| TriangleMesh.ArrangedVerticesCanonical | include/TriangleMesh.h:123-140 | after sorting, the first vertex is a right angle and the cross product is >= 0 (counter-clockwise) |
| TriangleMesh.SortedCellPermutes | include/TriangleMesh.h:74-141 | the sorted cell keeps its id and is a permutation of the three ids; with no right angle it is left as given |
| TriangleMesh.SortedCellIsCanonical | include/TriangleMesh.h:114-140 | with a right angle, the sorted ids are the rotation (plus swap when clockwise), and they start at a right angle and run counter-clockwise |
| TriangleMesh.SortedCellAtFirst | include/TriangleMesh.h:124-140 | when vertex 0 is the right angle, sorting only swaps the last two ids on a negative cross product |
| TriangleMesh.TriangleMesh.GetNodeIndexById | include/TriangleMesh.h:143-151 | the first position with the id, in range; it fails iff the id is absent |
| ReferenceBasis.BasisValue | LagrangeFEMSpace.h:51-58 | defined exactly for i in 0..2, else invalid_argument "basisValue index out of range" |
| ReferenceBasis.BasisGradXi | LagrangeFEMSpace.h:60-63 | defined exactly for i in 0..2, else invalid_argument "basisGradXi index out of range" |
| ReferenceBasis.BasisGradEta | LagrangeFEMSpace.h:64-67 | defined exactly for i in 0..2, else invalid_argument "basisGradEta index out of range" |
| ReferenceBasis.PartitionOfUnity | LagrangeFEMSpace.h:51-58 | the three basis values sum to 1 at every point |
| ReferenceBasis.KroneckerAtVertices | LagrangeFEMSpace.h:51-58 | basis function i is 1 at reference vertex i and 0 at the others |
| ReferenceBasis.GradientsSumToZero | LagrangeFEMSpace.h:60-67 | the reference gradients sum to zero in each direction |
| ReferenceBasis.GradientsMatchValues | LagrangeFEMSpace.h:51-67 | the derivative functions are the exact slopes of the value functions |
| ElementMatrix.Jacobian | LagrangeFEMSpace.h:76-78 | J, with columns p1 - p0 and p2 - p0, is the Jacobian of the affine map that sends the reference vertices (0, 0), (1, 0), (0, 1) to p0, p1, p2 |
| ElementMatrix.Inverse | LagrangeFEMSpace.h:85 | the explicit 2x2 inverse (1/det) [[d, -b], [-c, a]] is a two-sided inverse of J whenever det J != 0 |
| ElementMatrix.Area | LagrangeFEMSpace.h:79-80 | the element area 0.5 abs(det J) is non-negative |
| ElementMatrix.LoadAreaIsArea | LagrangeFEMSpace.h:118 | the area formula in assembleLoad equals the one in computeElementStiffnessMatrix |
| ElementMatrix.PhysGrads | LagrangeFEMSpace.h:82-86 | grad has three columns, column i being J^-1 times reference gradient i |
| Dense.Abs | LagrangeFEMSpace.h:80 | std::abs: a non-negative value equal to x or -x |
| ElementMatrix.Gram | LagrangeFEMSpace.h:88-91 | a 3x3 matrix with entry (i, j) equal to area * grad_i . grad_j |
| ElementMatrix.ElementStiffness | LagrangeFEMSpace.h:70-93 | for det J != 0, Ke is 3x3 with entry (i, j) equal to area * grad.col(i) . grad.col(j), where column i of grad is J^-1 times reference gradient i |
| ElementMatrix.PhysGradsSumToZero | LagrangeFEMSpace.h:82-86 | the columns of grad = J^-1 grad_ref also sum to zero |
| ElementMatrix.GramSymmetric | LagrangeFEMSpace.h:88-91 | Ke is symmetric |
| ElementMatrix.GramDiagonal | LagrangeFEMSpace.h:88-91 | the diagonal of Ke is non-negative |
| ElementMatrix.GramRowSum | LagrangeFEMSpace.h:88-91 | each row of Ke sums to zero |
| ElementMatrix.ElementStiffnessProperties | LagrangeFEMSpace.h:70-93 | for det J != 0, Ke is a symmetric 3x3 matrix with non-negative diagonal whose rows sum to zero |
| LagrangeFEMSpace.LagrangeFEMSpace.GramArray | LagrangeFEMSpace.h:88-91 | the double loop fills a fresh 3x3 array with exactly the Gram matrix |
| LagrangeFEMSpace.LagrangeFEMSpace.ComputeElementStiffnessMatrix | LagrangeFEMSpace.h:70-93 | Ok iff the cell's first three node ids resolve, else "Node ID not found"; the result is the element stiffness of those vertices |
| Dense.Zeros | LagrangeFEMSpace.h:111 | VectorXd::Zero(n): n zeros |
| Dense.ZeroMatrix | LagrangeFEMSpace.h:98 | MatrixXd::Zero(n, n): an n x n zero matrix |
| Dense.AddAt | LagrangeFEMSpace.h:121 | F(i) += x changes entry i by x and no other |
| Dense.AddAt2 | LagrangeFEMSpace.h:104 | K(r, s) += x changes entry (r, s) by x and no other |
| Dense.SumAddAt | LagrangeFEMSpace.h:121 | adding x to one entry adds x to the sum |
| Dense.SumZeros | LagrangeFEMSpace.h:111 | the zero vector sums to zero |
| Assembly.ScatterRow | LagrangeFEMSpace.h:103-104 | the inner scatter loop keeps an n x n matrix |
| Assembly.ScatterRows | LagrangeFEMSpace.h:102-104 | the double scatter loop keeps an n x n matrix |
| Assembly.Scatter | LagrangeFEMSpace.h:100-104 | scattering one element keeps an n x n matrix |
| Assembly.AssembledStiffness | LagrangeFEMSpace.h:96-106 | K after the cell loop is n x n |
| Assembly.ScatterRowAt | LagrangeFEMSpace.h:103-104 | after the inner loop, entry (r, s) has gained the matching Ke(i, j) terms |
| Assembly.ScatterRowsAt | LagrangeFEMSpace.h:102-104 | after the double loop, entry (r, s) has gained the matching terms of all rows |
| Assembly.ScatterAt | LagrangeFEMSpace.h:100-104 | entry (r, s) gains the sum of Ke(i, j) over local pairs with dofs[i] == r and dofs[j] == s |
| Assembly.AssembledStiffnessAt | LagrangeFEMSpace.h:96-106 | K(r, s) is the total coupling of r and s over all cells |
| Assembly.CouplingTerms | LagrangeFEMSpace.h:102-104 | the coupling of one element is the sum of its nine local terms |
| Assembly.CouplingSymmetric | LagrangeFEMSpace.h:102-104 | a symmetric Ke couples r to s as it couples s to r |
| Assembly.TotalCouplingSymmetric | LagrangeFEMSpace.h:99-105 | the total coupling over symmetric elements is symmetric |
| Assembly.AssembledStiffnessSymmetric | LagrangeFEMSpace.h:96-106 | symmetric element matrices assemble into a symmetric K |
| Assembly.UncoupledTotal | LagrangeFEMSpace.h:99-105 | a pair of DOFs that no cell holds together has zero total coupling |
| Assembly.AssembledStiffnessUncoupled | LagrangeFEMSpace.h:96-106 | K(r, s) stays zero unless some cell holds both r and s |
| Assembly.ScatterRowSum | LagrangeFEMSpace.h:103-104 | the inner loop adds the partial row sum of Ke to row dofs[i] of K |
| Assembly.ScatterRowsSum | LagrangeFEMSpace.h:102-104 | the scatter of an element with zero row sums leaves every row sum of K unchanged |
| Assembly.AssembledStiffnessRowSum | LagrangeFEMSpace.h:96-106 | every row of K sums to zero when every Ke's rows do |
| Assembly.ScatterLoad | LagrangeFEMSpace.h:121 | the load scatter keeps a vector of length n |
| Assembly.AssembledLoad | LagrangeFEMSpace.h:109-123 | F after the cell loop has length n |
| Assembly.ScatterLoadSum | LagrangeFEMSpace.h:119-121 | scattering t entries of Fe adds t * area / 3 to the sum of F |
| Assembly.AssembledLoadSum | LagrangeFEMSpace.h:109-123 | the entries of F sum to the total area of the cells |
| DofMap.IdentityDofs | LagrangeFEMSpace.h:29-33 | global_dof_ids has one entry per node, and entry i is i |
| DofMap.DofList | LagrangeFEMSpace.h:36-40 | a cell's DOF list exists iff all its node ids are present, and entry k is the position of node id k; otherwise "Node ID not found" |
| DofMap.DofListErr | LagrangeFEMSpace.h:36-40 | once a prefix of the ids holds an absent id, the whole list fails with "Node ID not found" |
| DofMap.LeadingPresent | LagrangeFEMSpace.h:127-131 | the length of the longest prefix of present ids; the id after it, if any, is absent |
| DofMap.DofsOf | LagrangeFEMSpace.h:128 | all given ids are present; entry k is the position of id k |
| DofMap.PresentDofs | LagrangeFEMSpace.h:127-131 | the DOFs the Dirichlet loop reaches before it throws: one per leading present id |
| DofMap.LeadingEdges | LagrangeFEMSpace.h:136-145 | the longest prefix of edges whose two endpoint lookups succeed; the next one fails |
| DofMap.EdgeOf | LagrangeFEMSpace.h:137-143 | an edge's two DOFs are the positions of its endpoint ids, in range |
| DofMap.EdgesOf | LagrangeFEMSpace.h:136-145 | one edge per input pair, each fitting the system |
| DofMap.PresentEdges | LagrangeFEMSpace.h:136-145 | the edges an edge loop processes before it throws, each resolving in order |
| LagrangeFEMSpace.LagrangeFEMSpace.Create | LagrangeFEMSpace.h:23-25 | construction succeeds iff every cell's node ids resolve; the space then refers to the mesh and its DOFs are assigned; otherwise "Node ID not found" |
| LagrangeFEMSpace.LagrangeFEMSpace.Init | LagrangeFEMSpace.h:16-20 | the space refers to the mesh and starts with empty DOF maps |
| LagrangeFEMSpace.LagrangeFEMSpace.AssignDof | LagrangeFEMSpace.h:28-43 | global_dof_ids is the identity; it succeeds iff every cell resolves, and then cell c's list holds the positions of its nodes; on failure the lists built so far are correct and the next cell fails |
| LagrangeFEMSpace.LagrangeFEMSpace.CellDofs | LagrangeFEMSpace.h:36-41 | the per-cell inner loop builds exactly that cell's DOF list, and fails with "Node ID not found" iff one of its ids is absent |
| LagrangeFEMSpace.LagrangeFEMSpace.NumDofs | LagrangeFEMSpace.h:46-48 | the DOF count is the node count, one DOF per node |
| LagrangeFEMSpace.Vertices | LagrangeFEMSpace.h:71-76 | the three vertices of a cell whose first three ids resolve |
| LagrangeFEMSpace.ElementOf | LagrangeFEMSpace.h:99-104 | what cell c contributes: its first three DOFs, a 3x3 Ke that is the element stiffness of its vertices when det J != 0, and area 0.5 abs(det J) |
| LagrangeFEMSpace.AssignedResolves | LagrangeFEMSpace.h:28-43 | after assignment every triangle's vertices resolve and its three DOFs are in range |
| LagrangeFEMSpace.AssignedFit | LagrangeFEMSpace.h:28-43 | on a triangular mesh, the assigned lists fit every cell: its first three ids resolve and its first three DOFs are node positions |
| LagrangeFEMSpace.ElementsOf | LagrangeFEMSpace.h:99-105 | one element per cell, each with in-range DOFs |
| LagrangeFEMSpace.MapCellsAt | LagrangeFEMSpace.h:99-105 | the cell loop's k-th result is built from cell k and its DOF list alone |
| LagrangeFEMSpace.ElementsOfAt | LagrangeFEMSpace.h:99-105 | element c is built from cell c and its DOF list |
| LagrangeFEMSpace.ElementOfProperties | LagrangeFEMSpace.h:70-93 | the element matrix of a non-degenerate cell is symmetric 3x3 with zero row sums |
| LagrangeFEMSpace.ElementsProperties | LagrangeFEMSpace.h:99-105 | on a mesh of non-degenerate triangles all element matrices are symmetric with zero row sums |
| LagrangeFEMSpace.AssembledStiffnessProperties | LagrangeFEMSpace.h:96-106 | the assembled K of the mesh is symmetric and every row sums to zero |
| LagrangeFEMSpace.PoissonSystemSymmetric | LagrangeFEMSpace.h:168-176 | the matrix solvePoisson passes to the solver is symmetric |
| LagrangeFEMSpace.MatOf | LagrangeFEMSpace.h:96-98 | the sequence view of a K array has the same shape and entries |
| LagrangeFEMSpace.AddToEntry | LagrangeFEMSpace.h:104 | K(r, s) += x on the array is AddAt2 on its view |
| LagrangeFEMSpace.LagrangeFEMSpace.ScatterElement | LagrangeFEMSpace.h:101-104 | the double loop adds Ke into K at the element's DOFs |
| LagrangeFEMSpace.LagrangeFEMSpace.AddCellStiffness | LagrangeFEMSpace.h:100-104 | one pass of the cell loop scatters that cell's element |
| LagrangeFEMSpace.LagrangeFEMSpace.AssembleStiffness | LagrangeFEMSpace.h:96-106 | K is a fresh NumDofs x NumDofs array equal to the assembled stiffness of all cells |
| LagrangeFEMSpace.LagrangeFEMSpace.ScatterLoadInto | LagrangeFEMSpace.h:119-121 | F(dofs[i]) += area/3 for i in 0..2 |
| LagrangeFEMSpace.LagrangeFEMSpace.AddCellLoad | LagrangeFEMSpace.h:113-121 | one pass of the cell loop scatters that cell's load |
| LagrangeFEMSpace.LagrangeFEMSpace.AssembleLoad | LagrangeFEMSpace.h:109-123 | F is a fresh NumDofs array equal to the assembled load of all cells |
| Boundary.Constrain | LagrangeFEMSpace.h:128-130 | constraining one DOF keeps the system sizes |
| Boundary.DirichletAll | LagrangeFEMSpace.h:126-132 | constraining a list of DOFs keeps the system sizes |
| Boundary.ConstrainEffect | LagrangeFEMSpace.h:129-130 | row and column d are zero except K(d, d) = 1 and F(d) = val; constraints already in force stay in force; all other entries are unchanged |
| Boundary.ConstrainFixed | LagrangeFEMSpace.h:129-130 | re-constraining an already constrained DOF changes nothing |
| Boundary.ConstrainSymmetric | LagrangeFEMSpace.h:129 | zeroing row and column d keeps K symmetric |
| Boundary.DirichletAllConstrains | LagrangeFEMSpace.h:126-132 | after the loop every listed DOF is constrained to val |
| Boundary.DirichletAllFrame | LagrangeFEMSpace.h:126-132 | entries outside the listed rows and columns are untouched |
| Boundary.DirichletAllSymmetric | LagrangeFEMSpace.h:126-132 | the Dirichlet loop keeps K symmetric |
| Boundary.DirichletAllFixed | LagrangeFEMSpace.h:126-132 | a system whose listed DOFs are already constrained is unchanged |
| Boundary.DirichletIdempotent | LagrangeFEMSpace.h:126-132 | applying the Dirichlet loop twice is the same as applying it once |
| Boundary.DirichletAllSnoc | LagrangeFEMSpace.h:127-131 | one more boundary node constrains one more DOF on top of the earlier ones |
| LagrangeFEMSpace.LagrangeFEMSpace.ConstrainDof | LagrangeFEMSpace.h:129-130 | setZero on row and column, K(d, d) = 1, F(d) = val is Constrain on the arrays |
| LagrangeFEMSpace.LagrangeFEMSpace.ApplyDirichletBC | LagrangeFEMSpace.h:126-132 | the arrays become DirichletAll of the DOFs reached; Done iff every node id resolves, else "Node ID not found" |
| Boundary.EdgeLoad | LagrangeFEMSpace.h:141-144 | F(d1) += c and F(d2) += c keep the length of F |
| Boundary.NeumannAll | LagrangeFEMSpace.h:135-146 | the Neumann loop keeps the length of F |
| Boundary.NeumannAllSnoc | LagrangeFEMSpace.h:136-145 | one more edge adds its edge load on top |
| Boundary.EdgeLoadAt | LagrangeFEMSpace.h:141-144 | each endpoint of the edge gains g * L / 2 (twice for a loop edge); other entries are unchanged |
| Boundary.EdgeLoadSum | LagrangeFEMSpace.h:140-144 | an edge adds g * L to the total load |
| Boundary.NeumannFluxStep | LagrangeFEMSpace.h:136-145 | the last edge of the loop adds its own flux g L to the sum of F |
| Boundary.TotalFluxFactor | LagrangeFEMSpace.h:136-145 | the flux of all edges is g times their total length |
| Boundary.NeumannAllFlux | LagrangeFEMSpace.h:135-146 | the Neumann loop adds the total flux to the sum of F |
| Boundary.NeumannAllSum | LagrangeFEMSpace.h:135-146 | the Neumann loop adds g times the total boundary length to the sum of F |
| Boundary.NeumannAllFrame | LagrangeFEMSpace.h:135-146 | a DOF that no edge touches keeps its load |
| LagrangeFEMSpace.LagrangeFEMSpace.LoadEdge | LagrangeFEMSpace.h:141-144 | the two array updates are EdgeLoad on the view |
| LagrangeFEMSpace.LagrangeFEMSpace.NeumannEdge | LagrangeFEMSpace.h:137-144 | Done iff both endpoint ids resolve, and then F gains that edge's load; else F is unchanged and the error is "Node ID not found" |
| LagrangeFEMSpace.LagrangeFEMSpace.ApplyNeumannBC | LagrangeFEMSpace.h:135-146 | F becomes NeumannAll of the edges reached; Done iff all edges resolve |
| Boundary.RobinStiffness | LagrangeFEMSpace.h:157-161 | the 2x2 Robin block update keeps K square |
| Boundary.RobinBlock | LagrangeFEMSpace.h:157-161 | the Robin block entry is zero unless r and s are both endpoints of the edge; it is 2 alpha L / 6 on the diagonal and alpha L / 6 off it, and alpha L for an edge whose two endpoints are the same DOF |
| Boundary.RobinEdge | LagrangeFEMSpace.h:153-163 | one Robin edge keeps the system sizes |
| Boundary.RobinAll | LagrangeFEMSpace.h:149-165 | the Robin loop keeps the system sizes |
| Boundary.RobinAllSnoc | LagrangeFEMSpace.h:152-164 | one more edge adds its Robin terms on top |
| Boundary.RobinEdgeAt | LagrangeFEMSpace.h:157-161 | K(r, s) gains the Robin block entry, which is symmetric in r and s and zero off the edge's two DOFs |
| Boundary.RobinLoadIsNeumann | LagrangeFEMSpace.h:162-163 | the load part of the Robin loop is the Neumann loop with g |
| Boundary.RobinEdgeSymmetric | LagrangeFEMSpace.h:160-161 | one Robin edge keeps K symmetric |
| Boundary.RobinAllSymmetric | LagrangeFEMSpace.h:149-165 | the Robin loop keeps K symmetric |
| Boundary.RobinAllFrame | LagrangeFEMSpace.h:149-165 | a row no edge touches keeps its entries |
| LagrangeFEMSpace.LagrangeFEMSpace.RobinBlockInto | LagrangeFEMSpace.h:157-161 | the four K updates with coeff = alpha L / 6 are RobinStiffness on the view |
| LagrangeFEMSpace.LagrangeFEMSpace.RobinEdgeStep | LagrangeFEMSpace.h:153-163 | Done iff both ids resolve, and then the system becomes RobinEdge of it; else the system is unchanged |
| LagrangeFEMSpace.LagrangeFEMSpace.ApplyRobinBC | LagrangeFEMSpace.h:149-165 | the system becomes RobinAll of the edges reached; Done iff all edges resolve |
| Boundary.PoissonSystem | LagrangeFEMSpace.h:174-176 | Neumann, then Robin, then Dirichlet at 0 keeps the system sizes |
| Boundary.PoissonSystemProperties | LagrangeFEMSpace.h:174-176 | every Dirichlet DOF of the final system reads u_d = 0; a symmetric K stays symmetric; the system is a fixed point of the Dirichlet step |
| LagrangeFEMSpace.LagrangeFEMSpace.ApplyBoundaryConditions | LagrangeFEMSpace.h:174-176 | Done iff every Neumann edge, Robin edge and Dirichlet node resolves, and then the system is PoissonSystem of it; else "Node ID not found" |
| LagrangeFEMSpace.LagrangeFEMSpace.SolvePoisson | LagrangeFEMSpace.h:168-176 | fresh K and F of size NumDofs; the outcome is Done iff all boundary ids resolve, and then (K, F) is PoissonSystem of the assembled stiffness and load |
| MeshDS.MeshDS.constructor | src/mesh/MeshDS.cpp:6 | top_dimension() is topDim and the store is empty, so every number_of_* is 0 |
| MeshDS.MeshDS.GetEntity | src/mesh/MeshDS.cpp:9-11 | Ok with the stored table iff the tag is present, else out_of_range |
| MeshDS.MeshDS.SetEntity | src/mesh/MeshDS.cpp:14-16 | the tag now maps to the table, get returns it, its count is the table's row count, and every other tag is unchanged |
| MeshDS.MeshDS.Clear | src/mesh/MeshDS.cpp:19-21 | the store is empty: every get fails with out_of_range and every count is 0 |
| MeshDS.MeshDS.Count | src/mesh/MeshDS.cpp:29-35 | the row count of the table get returns, or 0 when get fails |
| MeshDS.MeshDS.TopDimension | src/mesh/MeshDS.cpp:24-26 | top_dimension() is the dimension fixed at construction |
| MeshDS.SetCount | src/mesh/MeshDS.cpp:14-16 | after set_entity, that tag's count is the table's row count and every other count is unchanged (so setting tag 1 changes only number_of_edges) |
| MeshDS.MeshDS.NumberOfNodes | src/mesh/MeshDS.hpp:37 | count(0) |
| MeshDS.MeshDS.NumberOfEdges | src/mesh/MeshDS.hpp:38 | count(1) |
| MeshDS.MeshDS.NumberOfFaces | src/mesh/MeshDS.hpp:39 | count(2) |
| MeshDS.MeshDS.NumberOfCells | src/mesh/MeshDS.hpp:40 | count(3) |
| MeshDS.MeshDS.EdgeToNode | src/mesh/MeshDS.cpp:38-48 | the loop returns the pairs of the edge table and nothing when there is none; there are never more pairs than count(1) |
| MeshDS.EdgePairs | src/mesh/MeshDS.cpp:42-45 | the pairs the edge loop collects, never more than the rows of the table |
| MeshDS.EdgePairsLength | src/mesh/MeshDS.cpp:42-45 | one pair per row with at least two entries, so never more pairs than rows |
| MeshDS.EdgePairsSound | src/mesh/MeshDS.cpp:42-45 | every pair is (row[0], row[1]) of some row with at least two entries |
| MeshDS.EdgePairsComplete | src/mesh/MeshDS.cpp:42-45 | every row with at least two entries contributes its pair |
| MeshDS.EdgePairsAllLong | src/mesh/MeshDS.cpp:42-45 | if every row has at least two entries, pair k is (row_k[0], row_k[1]) for every k |

## Left out

- Logging: `LOG_ERROR` and the `std::cerr` warning in `sortCellNodes` are no-ops; include/LogManager.h is not part of this model.
- The sparse Cholesky solve at the end of `solvePoisson` (Eigen `SimplicialLLT`) is not modelled. SolvePoisson returns the system (K, F) it would hand to the solver, plus a Status.
- Floating point: every double is a Dafny `real`, with exact arithmetic and no rounding, NaN or infinity.
- The 1e-8 tolerance of the right-angle test is kept; it is applied to exact reals.
- The Euclidean length `(p2 - p1).norm()` needs a square root. It is a parameter `len`. The model proves nothing about its values.
- Eigen's `J.inverse()` is the explicit 2x2 formula. It is used only where det J != 0.
- LagrangeFEMSpace.LagrangeFEMSpace.AssembleStiffness: requires every triangle to be non-degenerate (det J != 0), as do ElementMatrix.ElementStiffness, ComputeElementStiffnessMatrix and SolvePoisson. The source would invert a singular matrix and carry infinities. In the specification function `ElementOf`, a degenerate cell gets a zero element matrix; only the load, which does not use that matrix, is built from such cells.
- LagrangeFEMSpace.LagrangeFEMSpace.AssembleLoad: requires, like AssembleStiffness and SolvePoisson, every cell to have at least three node ids. The source reads `node_ids[0..2]` and `dofs[0..2]` without a check, so shorter cells are undefined behaviour.
- LagrangeFEMSpace.LagrangeFEMSpace.ComputeElementStiffnessMatrix: requires the index c to be a valid cell index. The source indexes `cells[c]` unchecked.
- ElementMatrix.PhysGrads: follows the source's `grad = J.inverse() * grad_ref`. A basis function's gradient is J^-T times its reference gradient, so the two agree only when J^-1 = J^-T. The model therefore states nothing about Ke being the standard P1 stiffness matrix; it states only the properties of the matrix the source computes (symmetry, non-negative diagonal, zero row sums).
- TriangleMesh.TriangleMesh.BuildMesh: requires nx >= 1 and ny >= 1, which the source does not check. With nx or ny equal to 0 it divides by zero and computes non-finite coordinates, which reals cannot represent. With a negative nx or ny every node and cell loop runs zero times and the mesh stays empty. Neither case is modelled.
- TriangleMesh.TriangleMesh.BuildMesh: the cells' own `id` field is never set by the source; the model carries it through but states nothing about it.
- Node-id uniqueness is not assumed. Both lookups return the first match, as the loops do.
- The space keeps a raw pointer to the mesh. Methods other than AssignDof require `Assigned()`, which says the DOF lists match the mesh. A mesh changed after the space was built is outside the model.
- `dof_per_node` is the constant 1, as the source never changes it.
- Exceptions are `Result`/`Status` values. AssignDof, ApplyDirichletBC, ApplyNeumannBC and ApplyRobinBC state what their loop has done when an id fails to resolve.
- LagrangeFEMSpace.LagrangeFEMSpace.ApplyBoundaryConditions: on failure it states only the error, not the partly updated K and F; the same holds for SolvePoisson.
- A `std::map::at` failure is `OutOfRange`. Its message (implementation-defined) is not modelled.
- MeshDS.MeshDS.NumberOfNodes: returns, like NumberOfEdges, NumberOfFaces and NumberOfCells, an unbounded `nat`. The source narrows `size_t` to `int`; that narrowing is not modelled.
- `Index` is `std::size_t`, modelled as `nat`, so wrap-around is not modelled.
- `MeshDS::print_entity` writes to standard output and is not modelled.
- The other adjacency queries (face_to_node, cell_to_edge, ...) exist only as a comment in src/mesh/MeshDS.hpp:28-31; there is no code to model.
- `main.cpp`, the example driver and the MeshDS tests are callers; they are not modelled.
- Several source loops are split into helper methods, each proved against the same specification function as the loop it is part of:
  - `AddLatticeNodes`/`AddGridCells`/`AddSquare` for `buildMesh`;
  - `LookupVertices`/`FindRightAngle` for `sortCellNodes`;
  - `GramArray` for the Ke loop;
  - `CellDofs` for the per-cell loop of `assignDof`;
  - `AddCellStiffness`, `ScatterElement`, `AddCellLoad` and `ScatterLoadInto` for the cell loops;
  - `ConstrainDof`, `NeumannEdge`, `LoadEdge`, `RobinEdgeStep` and `RobinBlockInto` for the per-node and per-edge bodies;
  - `ApplyBoundaryConditions` for the boundary part of `solvePoisson`.
  No update order is changed.
