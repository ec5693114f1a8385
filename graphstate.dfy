/** The mutable GraphState class of graphix_zx/graphstate.py. */
module Graph {
  import opened Wrappers
  import opened Common
  import opened Sets
  import opened GraphSpec

  class GraphState {
    var inputNodes: set<int>
    var outputNodes: set<int>
    var physicalNodes: set<int>
    var physicalEdges: map<int, set<int>>
    var measPlanes: map<int, Plane>
    var measAngles: map<int, Angle>
    var qIndices: map<int, int>

    /** The current value of the fields. */
    function Data(): GraphData
      reads this
    {
      GraphData(inputNodes, outputNodes, physicalNodes, physicalEdges, measPlanes, measAngles, qIndices)
    }

    ghost predicate Valid()
      reads this
    {
      WellFormed(Data())
    }

    constructor ()
      ensures Valid() && Data() == EmptyGraph()
    {
      inputNodes, outputNodes, physicalNodes := {}, {}, {};
      physicalEdges, measPlanes, measAngles, qIndices := map[], map[], map[], map[];
    }

    method SetQIndex(node: int, qIndex: int) returns (r: Outcome<GraphError>)
      requires Valid()
      modifies this
      ensures Valid()
      ensures (Data(), r) == GraphSpec.SetQIndex(old(Data()), node, qIndex)
    {
      if qIndex < -1 {
        return Fail(InvalidQubitIndex(qIndex));
      }
      qIndices := qIndices[node := qIndex];
      r := Pass;
    }

    method AddPhysicalNode(node: int, qIndex: int, isInput: bool, isOutput: bool) returns (r: Outcome<GraphError>)
      requires Valid()
      modifies this
      ensures Valid()
      ensures (Data(), r) == AddNode(old(Data()), node, qIndex, isInput, isOutput)
    {
      if node in physicalNodes {
        return Fail(NodeAlreadyExists(node));
      }
      physicalNodes := physicalNodes + {node};
      physicalEdges := physicalEdges[node := {}];
      r := SetQIndex(node, qIndex);
      if r.Fail? {
        return;
      }
      if isInput {
        inputNodes := inputNodes + {node};
      }
      if isOutput {
        outputNodes := outputNodes + {node};
      }
    }

    method AddPhysicalEdge(node1: int, node2: int) returns (r: Outcome<GraphError>)
      requires Valid()
      modifies this
      ensures Valid()
      ensures (Data(), r) == AddEdge(old(Data()), node1, node2)
    {
      if node1 !in physicalNodes {
        return Fail(NodeDoesNotExist(node1));
      }
      if node2 !in physicalNodes {
        return Fail(NodeDoesNotExist(node2));
      }
      if node1 in physicalEdges[node2] || node2 in physicalEdges[node1] {
        return Fail(EdgeAlreadyExists(node1, node2));
      }
      physicalEdges := physicalEdges[node1 := physicalEdges[node1] + {node2}];
      physicalEdges := physicalEdges[node2 := physicalEdges[node2] + {node1}];
      r := Pass;
    }

    method SetInput(node: int) returns (r: Outcome<GraphError>)
      requires Valid()
      modifies this
      ensures Valid()
      ensures (Data(), r) == GraphSpec.SetInput(old(Data()), node)
    {
      if node !in physicalNodes {
        return Fail(NodeDoesNotExist(node));
      }
      inputNodes := inputNodes + {node};
      r := Pass;
    }

    method SetOutput(node: int) returns (r: Outcome<GraphError>)
      requires Valid()
      modifies this
      ensures Valid()
      ensures (Data(), r) == GraphSpec.SetOutput(old(Data()), node)
    {
      if node !in physicalNodes {
        return Fail(NodeDoesNotExist(node));
      }
      outputNodes := outputNodes + {node};
      r := Pass;
    }

    method SetMeasPlane(node: int, plane: Plane) returns (r: Outcome<GraphError>)
      requires Valid()
      modifies this
      ensures Valid()
      ensures (Data(), r) == GraphSpec.SetMeasPlane(old(Data()), node, plane)
    {
      if node !in physicalNodes {
        return Fail(NodeDoesNotExist(node));
      }
      measPlanes := measPlanes[node := plane];
      r := Pass;
    }

    method SetMeasAngle(node: int, angle: Angle) returns (r: Outcome<GraphError>)
      requires Valid()
      modifies this
      ensures Valid()
      ensures (Data(), r) == GraphSpec.SetMeasAngle(old(Data()), node, angle)
    {
      if node !in physicalNodes {
        return Fail(NodeDoesNotExist(node));
      }
      measAngles := measAngles[node := angle];
      r := Pass;
    }

    method ResetInputOutput(node: int)
      requires Valid()
      modifies this
      ensures Valid()
      ensures Data() == GraphSpec.ResetInputOutput(old(Data()), node)
    {
      if node in inputNodes {
        inputNodes := inputNodes - {node};
      }
      if node in outputNodes {
        outputNodes := outputNodes - {node};
      }
    }

    /** get_physical_edges: every edge once, as (smaller, larger). */
    method GetPhysicalEdges() returns (edges: set<(int, int)>)
      ensures edges == EdgeSet(physicalEdges)
    {
      edges := {};
      var todo := physicalEdges.Keys;
      while todo != {}
        invariant todo <= physicalEdges.Keys
        invariant edges == EdgesFrom(physicalEdges, physicalEdges.Keys - todo)
        decreases todo
      {
        NonEmptyHasNode(todo);
        var node1 :| node1 in todo;
        var neighbors := physicalEdges[node1];
        var rest := neighbors;
        ghost var before := edges;
        while rest != {}
          invariant rest <= neighbors
          invariant edges == before + (set b | b in neighbors - rest && node1 < b :: (node1, b))
          decreases rest
        {
          NonEmptyHasNode(rest);
          var node2 :| node2 in rest;
          if node1 < node2 {
            edges := edges + {(node1, node2)};
          }
          rest := rest - {node2};
        }
        EdgesFromStep(physicalEdges, physicalEdges.Keys - todo, node1);
        assert physicalEdges.Keys - (todo - {node1}) == (physicalEdges.Keys - todo) + {node1};
        todo := todo - {node1};
      }
    }

    /** num_physical_edges: the sum of the adjacency-set sizes, halved (rounding down). */
    method NumPhysicalEdges() returns (n: int)
      ensures n == |Darts(physicalEdges)| / 2
    {
      var total := 0;
      var todo := physicalEdges.Keys;
      while todo != {}
        invariant todo <= physicalEdges.Keys
        invariant total == |DartsFrom(physicalEdges, physicalEdges.Keys - todo)|
        decreases todo
      {
        NonEmptyHasNode(todo);
        var node :| node in todo;
        DartsFromStep(physicalEdges, physicalEdges.Keys - todo, node);
        assert physicalEdges.Keys - (todo - {node}) == (physicalEdges.Keys - todo) + {node};
        total := total + |physicalEdges[node]|;
        todo := todo - {node};
      }
      assert physicalEdges.Keys - todo == physicalEdges.Keys;
      n := total / 2;
    }

    /** get_neighbors: the adjacency set of an existing node; adjacency is symmetric. */
    function GetNeighbors(node: int): (nbrs: set<int>)
      reads this
      requires Valid() && node in physicalNodes
      ensures nbrs <= physicalNodes
      ensures forall m :: m in nbrs <==> m in physicalNodes && node in physicalEdges[m]
    {
      assert forall m :: m in physicalEdges[node] ==> m in physicalEdges && node in physicalEdges[m];
      physicalEdges[node]
    }
  
    /**
     * append: merges `other` into this graph over the border (this graph's
     * outputs that are other's inputs). The graphs may share no node but
     * the border. A shared edge or a disagreeing qubit index raises after
     * the earlier loops have already changed this graph.
     */
    method Append(other: GraphState) returns (r: Outcome<GraphError>)
      requires Valid() && other.Valid() && other != this
      modifies this
      ensures Valid()
      ensures !BoundaryOk(old(Data()), other.Data()) ==> r == Fail(BoundaryMismatch) && Data() == old(Data())
      ensures BoundaryOk(old(Data()), other.Data()) ==>
                (r.Pass? <==> !EdgeClash(old(Data()), other.Data()) && !QMismatch(old(Data()), other.Data()))
      ensures r.Pass? ==> Data() == Appended(old(Data()), other.Data())
      ensures r.Fail? && BoundaryOk(old(Data()), other.Data()) ==>
                var a := Appended(old(Data()), other.Data());
                Data().(adj := a.adj, qIndices := a.qIndices) == a
      ensures r.Fail? && BoundaryOk(old(Data()), other.Data()) && EdgeClash(old(Data()), other.Data()) ==>
                && r.error.EdgeAlreadyExists?
                && Data().qIndices == MergeNodes(old(Data()), other.Data(), other.Data().nodes).qIndices
      ensures r.Fail? && BoundaryOk(old(Data()), other.Data()) && !EdgeClash(old(Data()), other.Data()) ==>
                && (r.error.QubitIndexMismatch? || r.error.MissingQubitIndex?)
                && var a := Appended(old(Data()), other.Data());
                   Data().(qIndices := a.qIndices) == a
    {
      ghost var g := Data();
      ghost var o := other.Data();
      var common := physicalNodes * other.physicalNodes;
      var border := outputNodes * other.inputNodes;
      if common != border {
        return Fail(BoundaryMismatch);
      }
      AppendNodes(other, border);
      ghost var m := Data();
      EdgeSetMergedAdj(g.adj, o.nodes - border);
      assert m.adj == MergedAdj(g.adj, o.nodes - border);
      r := AppendEdges(other);
      if r.Fail? {
        assert EdgeClash(g, o);
        return;
      }
      QMismatchAfterMerge(g, o);
      r := AppendQIndices(other, common);
    }

    /** append's node loop: other's nodes join, border nodes are reset, then outputs and planes are set. */
    method AppendNodes(other: GraphState, border: set<int>)
      requires Valid() && other.Valid() && other != this
      requires BoundaryOk(Data(), other.Data()) && border == Border(Data(), other.Data())
      modifies this
      ensures Valid()
      ensures Data() == MergeNodes(old(Data()), other.Data(), other.physicalNodes)
    {
      ghost var g := Data();
      ghost var o := other.Data();
      var todo := other.physicalNodes;
      ghost var done: set<int> := {};
      assert MergeNodes(g, o, done) == g;
      while todo != {}
        invariant Valid()
        invariant unchanged(other)
        invariant done <= o.nodes && todo == o.nodes - done
        invariant Data() == MergeNodes(g, o, done)
        decreases todo
      {
        NonEmptyHasNode(todo);
        var node :| node in todo;
        MergeOneStep(g, o, done, node);
        MergeNodeFirst(other, border, node);
        MergeNodeSecond(other, node);
        SetStepNodes(o.nodes, done, node);
        done := done + {node};
        todo := todo - {node};
      }
      assert done == o.nodes;
    }

    /** The first half of one round of append's node loop. */
    method MergeNodeFirst(other: GraphState, border: set<int>, node: int)
      requires Valid() && other.Valid() && other != this
      modifies this
      ensures Valid()
      ensures Data() == MergeFirst(old(Data()), other.Data(), border, node)
    {
      if node in border {
        ResetInputOutput(node);
      } else {
        var _ := AddPhysicalNode(node, -1, false, false);
        if node in other.inputNodes - outputNodes {
          var _ := SetInput(node);
        }
      }
    }

    /** The second half of one round of append's node loop. */
    method MergeNodeSecond(other: GraphState, node: int)
      requires Valid() && other.Valid() && other != this
      modifies this
      ensures Valid()
      ensures Data() == MergeSecond(old(Data()), other.Data(), node)
    {
      if node in other.outputNodes {
        var _ := SetOutput(node);
      } else {
        var _ := SetMeasPlane(node, PlaneOf(other.Data(), node));
        var _ := SetMeasAngle(node, AngleOf(other.Data(), node));
      }
    }

    /**
     * append's edge loop: each edge of other is added in turn; the first one
     * this graph already has raises, leaving the earlier ones added.
     */
    method AppendEdges(other: GraphState) returns (r: Outcome<GraphError>)
      requires Valid() && other.Valid() && other != this
      requires other.physicalNodes <= physicalNodes
      modifies this
      ensures Valid()
      ensures r.Pass? <==> EdgeSet(old(physicalEdges)) !! EdgeSet(other.physicalEdges)
      ensures r.Pass? ==> Data() == old(Data()).(adj := WithEdges(old(physicalEdges), EdgeSet(other.physicalEdges)))
      ensures r.Fail? ==> r.error.EdgeAlreadyExists? && Data() == old(Data()).(adj := physicalEdges)
    {
      ghost var adj := physicalEdges;
      var edges := other.GetPhysicalEdges();
      var todo := edges;
      ghost var done: set<(int, int)> := {};
      WithNoEdges(adj);
      assert Symmetric(adj) && adj.Keys == physicalNodes;
      ghost var otherAdj := other.physicalEdges;
      assert otherAdj.Keys <= adj.Keys && Symmetric(otherAdj);
      r := Pass;
      while todo != {}
        invariant Valid()
        invariant done <= edges && todo == edges - done
        invariant physicalEdges == WithEdges(adj, done)
        invariant unchanged(this`inputNodes, this`outputNodes, this`physicalNodes)
        invariant unchanged(this`measPlanes, this`measAngles, this`qIndices)
        invariant done !! EdgeSet(adj)
        invariant r == Pass
        invariant other.physicalEdges == otherAdj
        decreases todo
      {
        NonEmptyHasPair(todo);
        var edge :| edge in todo;
        EdgeSetMember(otherAdj, edge);
        assert forall d :: d in done ==> d.0 < d.1 by {
          forall d | d in done ensures d.0 < d.1 {
            EdgeSetMember(otherAdj, d);
          }
        }
        assert edge !in done;
        SymmetricAt(otherAdj, edge.0, edge.1);
        WithEdgesClash(adj, done, edge);
        WithEdgesStep(adj, done, edge);
        r := AddPhysicalEdge(edge.0, edge.1);
        if r.Fail? {
          assert edge in EdgeSet(adj) * edges;
          return;
        }
        SetStep(edges, done, edge);
        done := done + {edge};
        todo := todo - {edge};
      }
      assert done == edges;
    }

    /**
     * append's qubit-index loop: other's indices overwrite this graph's; a
     * shared node this graph has no index for (a KeyError in the source) or
     * a different one for raises, leaving the earlier indices written.
     */
    method AppendQIndices(other: GraphState, common: set<int>) returns (r: Outcome<GraphError>)
      requires Valid() && other.Valid() && other != this
      modifies this
      ensures Valid()
      ensures r.Pass? <==> forall k :: k in other.qIndices && k in common ==>
                             k in old(qIndices) && old(qIndices)[k] == other.qIndices[k]
      ensures r.Pass? ==> Data() == old(Data()).(qIndices := old(qIndices) + other.qIndices)
      ensures r.Fail? ==> (r.error.QubitIndexMismatch? || r.error.MissingQubitIndex?)
                          && Data() == old(Data()).(qIndices := qIndices)
    {
      ghost var q := qIndices;
      ghost var oq := other.qIndices;
      var todo := other.qIndices.Keys;
      ghost var done: set<int> := {};
      while todo != {}
        invariant Valid()
        invariant done <= oq.Keys && todo == oq.Keys - done
        invariant Data() == old(Data()).(qIndices := Overlay(q, oq, done))
        invariant forall k :: k in done && k in common ==> k in q && q[k] == oq[k]
        decreases todo
      {
        NonEmptyHasNode(todo);
        var node :| node in todo;
        var qIndex := other.qIndices[node];
        OverlayStep(q, oq, done, node);
        if node in common {
          if node !in qIndices {
            return Fail(MissingQubitIndex(node));
          }
          if qIndices[node] != qIndex {
            return Fail(QubitIndexMismatch(node));
          }
        }
        var _ := SetQIndex(node, qIndex);
        done := done + {node};
        todo := todo - {node};
      }
      assert done == oq.Keys;
      OverlayAll(q, oq);
      r := Pass;
    }
  }
}
