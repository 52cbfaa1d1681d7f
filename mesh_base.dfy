/** Node and cell records and the node lookups of the mesh base class. */
module MeshBase {
  import opened Errors

  datatype Node = Node(id: int, x: real, y: real)

  /** A cell lists the ids of its nodes; for a triangle there are three. */
  datatype Cell = Cell(id: int, nodeIds: seq<int>)

  /** Some stored node carries `id`. */
  predicate HasId(nodes: seq<Node>, id: int)
  {
    exists k | 0 <= k < |nodes| :: nodes[k].id == id
  }

  /** Specification of getNodeIndexById: the position of the first node
      carrying `id`, or "Node ID not found". */
  function NodeIndex(nodes: seq<Node>, id: int): (r: Result<nat>)
    ensures r.Ok? <==> HasId(nodes, id)
    ensures r.Ok? ==> r.value < |nodes| && nodes[r.value].id == id
    ensures r.Ok? ==> forall j | 0 <= j < r.value :: nodes[j].id != id
    ensures r.Err? ==> r.error == NodeNotFound
  {
    if |nodes| == 0 then Err(NodeNotFound)
    else if nodes[0].id == id then Ok(0)
    else
      match NodeIndex(nodes[1..], id)
      case Ok(k) =>
        assert nodes[k + 1] == nodes[1..][k];
        Ok(k + 1)
      case Err(e) =>
        assert forall j | 1 <= j < |nodes| :: nodes[j] == nodes[1..][j - 1];
        Err(e)
  }

  /** Specification of getNodeById: the first node carrying `id`, or
      "Node ID not found". */
  function NodeById(nodes: seq<Node>, id: int): (r: Result<Node>)
    ensures r.Ok? <==> HasId(nodes, id)
    ensures r.Ok? ==> r.value.id == id
  {
    if |nodes| == 0 then Err(NodeNotFound)
    else if nodes[0].id == id then Ok(nodes[0])
    else
      assert forall j | 1 <= j < |nodes| :: nodes[j] == nodes[1..][j - 1];
      NodeById(nodes[1..], id)
  }

  /** The two lookups agree: getNodeById returns the node that sits at the
      index getNodeIndexById reports, and both fail together. */
  lemma {:induction false} LookupsAgree(nodes: seq<Node>, id: int)
    ensures NodeById(nodes, id).Ok? <==> NodeIndex(nodes, id).Ok?
    ensures NodeById(nodes, id).Ok? ==>
              NodeById(nodes, id).value == nodes[NodeIndex(nodes, id).value]
    ensures NodeById(nodes, id).Err? ==> NodeById(nodes, id).error == NodeNotFound
  {
    if |nodes| > 0 && nodes[0].id != id {
      LookupsAgree(nodes[1..], id);
      if NodeIndex(nodes[1..], id).Ok? {
        assert nodes[NodeIndex(nodes, id).value] == nodes[1..][NodeIndex(nodes[1..], id).value];
      }
    }
  }

  /** The node store: public vectors of nodes and cells. Both lookups
      only read it. */
  class MeshBase {
    var nodes: seq<Node>
    var cells: seq<Cell>

    constructor ()
      ensures nodes == [] && cells == []
    {
      nodes := [];
      cells := [];
    }

    /** Linear scan for the first node whose id is `id`. */
    method GetNodeById(id: int) returns (r: Result<Node>)
      ensures r == NodeById(nodes, id)
      ensures r.Ok? <==> HasId(nodes, id)
      ensures r.Ok? ==> exists k | 0 <= k < |nodes| ::
                          nodes[k] == r.value && r.value.id == id &&
                          forall j | 0 <= j < k :: nodes[j].id != id
      ensures r.Err? ==> r.error == NodeNotFound
    {
      LookupsAgree(nodes, id);
      for k := 0 to |nodes|
        invariant NodeById(nodes[k..], id) == NodeById(nodes, id)
        invariant forall j | 0 <= j < k :: nodes[j].id != id
      {
        if nodes[k].id == id {
          return Ok(nodes[k]);
        }
        assert nodes[k..][1..] == nodes[k + 1..];
      }
      return Err(NodeNotFound);
    }

    /** Linear scan for the position of the first node whose id is `id`. */
    method GetNodeIndexById(id: int) returns (r: Result<nat>)
      ensures r == NodeIndex(nodes, id)
      ensures r.Ok? ==> r.value < |nodes| && nodes[r.value].id == id
      ensures r.Ok? ==> forall j | 0 <= j < r.value :: nodes[j].id != id
      ensures r.Err? <==> !HasId(nodes, id)
    {
      for i := 0 to |nodes|
        invariant forall j | 0 <= j < i :: nodes[j].id != id
      {
        if nodes[i].id == id {
          return Ok(i);
        }
      }
      return Err(NodeNotFound);
    }
  }
}
