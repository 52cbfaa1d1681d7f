/** The generic mesh entity store: a topological dimension fixed at
    construction and a map from entity-type tag (0 nodes, 1 edges, 2 faces,
    3 cells) to a table of index rows, with lookup, replacement, clearing,
    row counts and the edge-to-node pairs of the edge table. */
module MeshDS {
  import opened Errors

  /** A node or entity index (std::size_t). */
  type Index = nat

  /** A table with one row of indices per entity; rows have no fixed
      length. */
  type Tensor = seq<seq<Index>>

  const NodeTag := 0
  const EdgeTag := 1
  const FaceTag := 2
  const CellTag := 3

  /** The number of rows stored under a tag, 0 when the tag is absent. */
  function StoredCount(storage: map<int, Tensor>, etype: int): nat
  {
    if etype in storage then |storage[etype]| else 0
  }

  /** The pair (row[0], row[1]) of every row with at least two entries, in
      row order. */
  function EdgePairs(t: Tensor): (pairs: seq<(Index, Index)>)
    ensures |pairs| <= |t|
  {
    if |t| == 0 then []
    else
      var row := t[|t| - 1];
      EdgePairs(t[..|t| - 1]) + (if |row| >= 2 then [(row[0], row[1])] else [])
  }

  /** The number of rows with at least two entries. */
  function LongRows(t: Tensor): nat
  {
    if |t| == 0 then 0 else LongRows(t[..|t| - 1]) + (if |t[|t| - 1]| >= 2 then 1 else 0)
  }

  /** One pair per long row, so never more pairs than rows. */
  lemma {:induction false} EdgePairsLength(t: Tensor)
    ensures |EdgePairs(t)| == LongRows(t) <= |t|
  {
    if |t| > 0 {
      EdgePairsLength(t[..|t| - 1]);
    }
  }

  /** p is the first two entries of a row of t with at least two entries. */
  predicate RowPair(t: Tensor, p: (Index, Index))
  {
    exists i | 0 <= i < |t| :: |t[i]| >= 2 && p == (t[i][0], t[i][1])
  }

  /** Every pair is the first two entries of some long row. */
  lemma {:induction false} EdgePairsSound(t: Tensor)
    ensures forall k | 0 <= k < |EdgePairs(t)| :: RowPair(t, EdgePairs(t)[k])
  {
    if |t| > 0 {
      var pre := t[..|t| - 1];
      EdgePairsSound(pre);
      var ps := EdgePairs(t);
      var qs := EdgePairs(pre);
      assert ps == qs + (if |t[|t| - 1]| >= 2 then [(t[|t| - 1][0], t[|t| - 1][1])] else []);
      forall k | 0 <= k < |ps|
        ensures RowPair(t, ps[k])
      {
        if k < |qs| {
          assert ps[k] == qs[k];
          assert RowPair(pre, qs[k]);
          var i :| 0 <= i < |pre| && |pre[i]| >= 2 && qs[k] == (pre[i][0], pre[i][1]);
          assert pre[i] == t[i];
        } else {
          var i := |t| - 1;
          assert |t[i]| >= 2 && ps[k] == (t[i][0], t[i][1]);
        }
      }
    }
  }

  /** Every long row contributes its pair. */
  lemma {:induction false} EdgePairsComplete(t: Tensor, i: nat)
    requires i < |t| && |t[i]| >= 2
    ensures (t[i][0], t[i][1]) in EdgePairs(t)
  {
    var pre := t[..|t| - 1];
    if i < |t| - 1 {
      assert pre[i] == t[i];
      EdgePairsComplete(pre, i);
    }
  }

  /** When every row is long, the pairs are exactly the rows' first two
      entries, position by position. */
  lemma {:induction false} EdgePairsAllLong(t: Tensor)
    requires forall i | 0 <= i < |t| :: |t[i]| >= 2
    ensures |EdgePairs(t)| == |t|
    ensures forall i | 0 <= i < |t| :: EdgePairs(t)[i] == (t[i][0], t[i][1])
  {
    if |t| > 0 {
      var pre := t[..|t| - 1];
      assert forall i | 0 <= i < |pre| :: pre[i] == t[i];
      EdgePairsAllLong(pre);
    }
  }

  /** Replacing one tag's table sets its count and no other. */
  lemma SetCount(storage: map<int, Tensor>, etype: int, t: Tensor, other: int)
    ensures StoredCount(storage[etype := t], etype) == |t|
    ensures other != etype ==> StoredCount(storage[etype := t], other) == StoredCount(storage, other)
  {
  }

  class MeshDS {
    /** TD, the topological dimension. */
    const td: int
    /** entity_storage: at most one table per tag. */
    var entityStorage: map<int, Tensor>

    /** A store of dimension topDim with no tables. */
    constructor(topDim: int)
      ensures td == topDim && entityStorage == map[]
      ensures TopDimension() == topDim
      ensures NumberOfNodes() == 0 && NumberOfEdges() == 0 && NumberOfFaces() == 0 && NumberOfCells() == 0
    {
      td := topDim;
      entityStorage := map[];
    }

    /** The table of a tag; entity_storage.at throws out_of_range for an
        absent tag. */
    function GetEntity(etype: int): (r: Result<Tensor>)
      reads this
      ensures r.Ok? <==> etype in entityStorage
      ensures r.Ok? ==> r.value == entityStorage[etype]
      ensures r.Err? ==> r.error == OutOfRange
    {
      if etype in entityStorage then Ok(entityStorage[etype]) else Err(OutOfRange)
    }

    /** Stores entity under etype, replacing any earlier table. */
    method SetEntity(etype: int, entity: Tensor)
      modifies this
      ensures entityStorage == old(entityStorage)[etype := entity]
      ensures GetEntity(etype) == Ok(entity)
      ensures forall e | e != etype :: GetEntity(e) == old(GetEntity(e))
      ensures Count(etype) == |entity|
    {
      entityStorage := entityStorage[etype := entity];
    }

    /** Removes every table. */
    method Clear()
      modifies this
      ensures entityStorage == map[]
      ensures forall e :: GetEntity(e) == Err(OutOfRange) && Count(e) == 0
    {
      entityStorage := map[];
    }

    /** top_dimension: the dimension fixed at construction. */
    function TopDimension(): (r: int)
      ensures r == td
    {
      td
    }

    /** count: the number of rows stored under etype, 0 when absent. */
    function Count(etype: int): (r: nat)
      reads this
      ensures r == StoredCount(entityStorage, etype)
      ensures GetEntity(etype).Ok? ==> r == |GetEntity(etype).value|
      ensures GetEntity(etype).Err? ==> r == 0
    {
      if etype in entityStorage then |entityStorage[etype]| else 0
    }

    function NumberOfNodes(): (r: nat)
      reads this
      ensures r == StoredCount(entityStorage, NodeTag)
    {
      Count(NodeTag)
    }

    function NumberOfEdges(): (r: nat)
      reads this
      ensures r == StoredCount(entityStorage, EdgeTag)
    {
      Count(EdgeTag)
    }

    function NumberOfFaces(): (r: nat)
      reads this
      ensures r == StoredCount(entityStorage, FaceTag)
    {
      Count(FaceTag)
    }

    function NumberOfCells(): (r: nat)
      reads this
      ensures r == StoredCount(entityStorage, CellTag)
    {
      Count(CellTag)
    }

    /** The (row[0], row[1]) pairs of the edge table's rows with at least
        two entries, in storage order; empty when there is no edge table. */
    method EdgeToNode() returns (edges: seq<(Index, Index)>)
      ensures edges == if EdgeTag in entityStorage then EdgePairs(entityStorage[EdgeTag]) else []
      ensures |edges| <= Count(EdgeTag)
    {
      edges := [];
      if EdgeTag in entityStorage {
        var t := entityStorage[EdgeTag];
        for k := 0 to |t|
          invariant edges == EdgePairs(t[..k])
        {
          var edge := t[k];
          assert t[..k + 1][..k] == t[..k];
          if |edge| >= 2 {
            edges := edges + [(edge[0], edge[1])];
          }
        }
        assert t[..|t|] == t;
        EdgePairsLength(t);
      }
    }
  }
}
