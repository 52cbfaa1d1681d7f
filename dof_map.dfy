/** The node-to-DOF bookkeeping of the P1 space: one DOF per node, the
    identity global numbering, per-cell DOF lists, and the resolution of
    the node ids and edges that the boundary conditions name. */
module DofMap {
  import opened Errors
  import opened MeshBase
  import opened Boundary

  /** global_dof_ids after assignDof: DOF i for the node at position i. */
  function IdentityDofs(n: nat): (g: seq<int>)
    ensures |g| == n && forall i | 0 <= i < n :: g[i] == i
  {
    seq(n, i => i)
  }

  /** The DOF list of a cell with node ids `ids`: the position of each
      node, or "Node ID not found" for the first absent id. */
  function DofList(nodes: seq<Node>, ids: seq<int>): (r: Result<seq<int>>)
    ensures r.Ok? <==> forall k | 0 <= k < |ids| :: HasId(nodes, ids[k])
    ensures r.Ok? ==> |r.value| == |ids|
    ensures r.Ok? ==> forall k | 0 <= k < |ids| ::
              NodeIndex(nodes, ids[k]) == Ok(r.value[k]) && 0 <= r.value[k] < |nodes|
    ensures r.Err? ==> r.error == NodeNotFound
  {
    if |ids| == 0 then Ok([])
    else
      var pre := ids[..|ids| - 1];
      assert forall k | 0 <= k < |pre| :: pre[k] == ids[k];
      match DofList(nodes, pre)
      case Err(e) => Err(e)
      case Ok(ds) =>
        match NodeIndex(nodes, ids[|ids| - 1])
        case Err(e) => Err(e)
        case Ok(i) => Ok(ds + [i as int])
  }

  /** A lookup that fails on a prefix fails on the whole list. */
  lemma DofListErr(nodes: seq<Node>, ids: seq<int>, k: nat)
    requires k <= |ids| && DofList(nodes, ids[..k]).Err?
    ensures DofList(nodes, ids) == Err(NodeNotFound)
  {
    var j :| 0 <= j < k && !HasId(nodes, ids[..k][j]);
    assert ids[..k][j] == ids[j];
  }

  /** cell_dof_ids describes the cells: one DOF list per cell. */
  predicate DofsAssigned(nodes: seq<Node>, cells: seq<Cell>, cellDofIds: seq<seq<int>>)
  {
    |cellDofIds| == |cells| &&
    forall c | 0 <= c < |cells| :: DofList(nodes, cells[c].nodeIds) == Ok(cellDofIds[c])
  }

  /** The number of leading ids that are present; the next one, if any,
      is the id whose lookup throws. */
  function LeadingPresent(nodes: seq<Node>, ids: seq<int>): (q: nat)
    ensures q <= |ids|
    ensures forall k | 0 <= k < q :: HasId(nodes, ids[k])
    ensures q < |ids| ==> !HasId(nodes, ids[q])
  {
    if |ids| == 0 then 0
    else if HasId(nodes, ids[0]) then
      assert forall k | 1 <= k < |ids| :: ids[1..][k - 1] == ids[k];
      1 + LeadingPresent(nodes, ids[1..])
    else 0
  }

  /** The DOFs of present node ids. */
  function DofsOf(nodes: seq<Node>, ids: seq<int>): (ds: seq<nat>)
    requires forall k | 0 <= k < |ids| :: HasId(nodes, ids[k])
    ensures |ds| == |ids|
    ensures forall k | 0 <= k < |ids| :: NodeIndex(nodes, ids[k]) == Ok(ds[k]) && ds[k] < |nodes|
  {
    seq(|ids|, k requires 0 <= k < |ids| => NodeIndex(nodes, ids[k]).value)
  }

  /** When the first k ids are present and the next is absent (or there
      is none), k ids lead. */
  lemma LeadingPresentIs(nodes: seq<Node>, ids: seq<int>, k: nat)
    requires k <= |ids| && forall j | 0 <= j < k :: HasId(nodes, ids[j])
    requires k < |ids| ==> !HasId(nodes, ids[k])
    ensures LeadingPresent(nodes, ids) == k
  {
  }

  /** One more present id adds its DOF at the end. */
  lemma DofsOfSnoc(nodes: seq<Node>, ids: seq<int>, q: nat)
    requires q < |ids| && forall j | 0 <= j <= q :: HasId(nodes, ids[j])
    ensures DofsOf(nodes, ids[..q + 1]) == DofsOf(nodes, ids[..q]) + [NodeIndex(nodes, ids[q]).value]
  {
    assert forall j | 0 <= j < q :: ids[..q + 1][j] == ids[..q][j];
  }

  /** The DOFs of the leading present ids: what the Dirichlet loop
      constrains before it throws, or all of them. */
  function PresentDofs(nodes: seq<Node>, ids: seq<int>): (ds: seq<nat>)
    ensures |ds| == LeadingPresent(nodes, ids)
    ensures forall k | 0 <= k < |ds| :: NodeIndex(nodes, ids[k]) == Ok(ds[k]) && ds[k] < |nodes|
  {
    var q := LeadingPresent(nodes, ids);
    assert forall k | 0 <= k < q :: ids[..q][k] == ids[k];
    DofsOf(nodes, ids[..q])
  }

  /** Both endpoints of the edge are present. */
  predicate EdgeResolves(nodes: seq<Node>, e: (int, int))
  {
    HasId(nodes, e.0) && HasId(nodes, e.1)
  }

  /** The number of leading edges whose two lookups succeed. */
  function LeadingEdges(nodes: seq<Node>, edges: seq<(int, int)>): (q: nat)
    ensures q <= |edges|
    ensures forall k | 0 <= k < q :: EdgeResolves(nodes, edges[k])
    ensures q < |edges| ==> !EdgeResolves(nodes, edges[q])
  {
    if |edges| == 0 then 0
    else if EdgeResolves(nodes, edges[0]) then
      assert forall k | 1 <= k < |edges| :: edges[1..][k - 1] == edges[k];
      1 + LeadingEdges(nodes, edges[1..])
    else 0
  }

  lemma LeadingEdgesIs(nodes: seq<Node>, edges: seq<(int, int)>, k: nat)
    requires k <= |edges| && forall j | 0 <= j < k :: EdgeResolves(nodes, edges[j])
    requires k < |edges| ==> !EdgeResolves(nodes, edges[k])
    ensures LeadingEdges(nodes, edges) == k
  {
  }

  /** The DOFs of the two endpoints and the length L = len(p2 - p1). */
  function EdgeOf(nodes: seq<Node>, e: (int, int), len: (real, real) -> real): (r: Edge)
    requires EdgeResolves(nodes, e)
    ensures NodeIndex(nodes, e.0) == Ok(r.d1) && NodeIndex(nodes, e.1) == Ok(r.d2)
    ensures 0 <= r.d1 < |nodes| && 0 <= r.d2 < |nodes|
  {
    var p1 := NodeById(nodes, e.0).value;
    var p2 := NodeById(nodes, e.1).value;
    Edge(NodeIndex(nodes, e.0).value, NodeIndex(nodes, e.1).value, len(p2.x - p1.x, p2.y - p1.y))
  }

  function EdgesOf(nodes: seq<Node>, edges: seq<(int, int)>, len: (real, real) -> real): (es: seq<Edge>)
    requires forall k | 0 <= k < |edges| :: EdgeResolves(nodes, edges[k])
    ensures |es| == |edges| && EdgesFit(es, |nodes|)
    ensures forall k | 0 <= k < |edges| :: es[k] == EdgeOf(nodes, edges[k], len)
  {
    seq(|edges|, k requires 0 <= k < |edges| => EdgeOf(nodes, edges[k], len))
  }

  /** One more resolvable edge adds its edge at the end. */
  lemma EdgesOfSnoc(nodes: seq<Node>, edges: seq<(int, int)>, len: (real, real) -> real, q: nat)
    requires q < |edges| && forall j | 0 <= j <= q :: EdgeResolves(nodes, edges[j])
    ensures EdgesOf(nodes, edges[..q + 1], len) == EdgesOf(nodes, edges[..q], len) + [EdgeOf(nodes, edges[q], len)]
  {
    assert forall j | 0 <= j < q :: edges[..q + 1][j] == edges[..q][j];
  }

  /** The leading resolvable edges: what an edge loop processes before it
      throws, or all of them. */
  function PresentEdges(nodes: seq<Node>, edges: seq<(int, int)>, len: (real, real) -> real): (es: seq<Edge>)
    ensures |es| == LeadingEdges(nodes, edges) && EdgesFit(es, |nodes|)
    ensures forall k | 0 <= k < |es| :: es[k] == EdgeOf(nodes, edges[k], len)
  {
    var q := LeadingEdges(nodes, edges);
    assert forall k | 0 <= k < q :: edges[..q][k] == edges[k];
    EdgesOf(nodes, edges[..q], len)
  }
}
