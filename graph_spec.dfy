/**
 * The open graph state of graphix_zx/graphstate.py, as values.
 *
 * `GraphData` is the value of a graph's fields at one moment, and the
 * functions over it (AddNode, AddEdge, SetInput, ...) say what each mutator
 * of the source does to them, raising included: a mutator that raises is
 * an `Outcome.Fail` together with whatever the source had already changed.
 * The class `Graph.GraphState` holds the same fields and its methods are
 * proved against these functions.
 */
module GraphSpec {
  import opened Wrappers
  import opened Common
  import opened Sets

  /** The ValueErrors (and the one KeyError) the graph operations raise. */
  datatype GraphError =
    | NodeAlreadyExists(node: int)
    | NodeDoesNotExist(node: int)
    | EdgeAlreadyExists(node1: int, node2: int)
    | InvalidQubitIndex(qIndex: int)
    | BoundaryMismatch
    | QubitIndexMismatch(node: int)
    | MissingQubitIndex(node: int)

  /** The fields of a GraphState. */
  datatype GraphData = GraphData(
    inputs: set<int>,
    outputs: set<int>,
    nodes: set<int>,
    adj: map<int, set<int>>,
    planes: map<int, Plane>,
    angles: map<int, Angle>,
    qIndices: map<int, int>)

  function EmptyGraph(): GraphData
  {
    GraphData({}, {}, {}, map[], map[], map[], map[])
  }

  /** Adjacency is symmetric: b is a neighbour of a exactly when a is one of b. */
  ghost predicate Symmetric(adj: map<int, set<int>>)
  {
    forall a, b :: a in adj && b in adj[a] ==> b in adj && a in adj[b]
  }

  /** Symmetry, used at one edge. */
  lemma SymmetricAt(adj: map<int, set<int>>, a: int, b: int)
    requires Symmetric(adj) && a in adj && b in adj[a]
    ensures b in adj && a in adj[b]
  {
  }

  /** The invariant every mutator keeps. */
  ghost predicate WellFormed(g: GraphData)
  {
    && g.adj.Keys == g.nodes
    && Symmetric(g.adj)
    && g.inputs <= g.nodes
    && g.outputs <= g.nodes
    && g.planes.Keys <= g.nodes
    && g.angles.Keys <= g.nodes
    && (forall n :: n in g.qIndices ==> g.qIndices[n] >= -1)
  }

  ghost predicate NoSelfLoops(adj: map<int, set<int>>)
  {
    forall a :: a in adj ==> a !in adj[a]
  }

  /** The edges (smaller, larger) whose smaller end is one of `keys`. */
  ghost function EdgesFrom(adj: map<int, set<int>>, keys: set<int>): set<(int, int)>
  {
    set a, b | a in keys && a in adj && b in adj[a] && a < b :: (a, b)
  }

  /** Every undirected edge once, as (smaller, larger); self-loops do not appear. */
  ghost function EdgeSet(adj: map<int, set<int>>): set<(int, int)>
  {
    EdgesFrom(adj, adj.Keys)
  }

  /** The (node, neighbour) pairs whose first node is one of `keys`. */
  ghost function DartsFrom(adj: map<int, set<int>>, keys: set<int>): set<(int, int)>
  {
    set a, b | a in keys && a in adj && b in adj[a] :: (a, b)
  }

  /** Every (node, neighbour) pair; its size is the sum of the adjacency-set sizes. */
  ghost function Darts(adj: map<int, set<int>>): set<(int, int)>
  {
    DartsFrom(adj, adj.Keys)
  }

  /** The pairs (k, b) for b in s. */
  ghost function Star(k: int, s: set<int>): set<(int, int)>
  {
    set b | b in s :: (k, b)
  }

  /** Each pair reversed. */
  ghost function Swap(es: set<(int, int)>): set<(int, int)>
  {
    set e | e in es :: (e.1, e.0)
  }

  lemma {:induction false} StarSize(k: int, s: set<int>)
    ensures |Star(k, s)| == |s|
    decreases s
  {
    if s != {} {
      NonEmptyHasNode(s);
      var x :| x in s;
      StarSize(k, s - {x});
      assert Star(k, s) == Star(k, s - {x}) + {(k, x)};
    }
  }

  lemma {:induction false} SwapSize(es: set<(int, int)>)
    ensures |Swap(es)| == |es|
    decreases es
  {
    if es != {} {
      NonEmptyHasPair(es);
      var x :| x in es;
      SwapSize(es - {x});
      assert Swap(es) == Swap(es - {x}) + {(x.1, x.0)};
    }
  }

  /** Adding one node's adjacency set to the pairs counted so far adds its size. */
  lemma DartsFromStep(adj: map<int, set<int>>, done: set<int>, k: int)
    requires k in adj && k !in done
    ensures |DartsFrom(adj, done + {k})| == |DartsFrom(adj, done)| + |adj[k]|
  {
    assert DartsFrom(adj, done + {k}) == DartsFrom(adj, done) + Star(k, adj[k]);
    assert DartsFrom(adj, done) !! Star(k, adj[k]);
    StarSize(k, adj[k]);
  }

  /** The edges of one more node: its larger neighbours. */
  lemma EdgesFromStep(adj: map<int, set<int>>, done: set<int>, k: int)
    requires k in adj
    ensures EdgesFrom(adj, done + {k}) == EdgesFrom(adj, done) + (set b | b in adj[k] && k < b :: (k, b))
  {
  }

  /**
   * Handshake: without self-loops every edge is counted from both ends, so the
   * sum of the adjacency-set sizes is twice the number of edges.
   */
  lemma Handshake(adj: map<int, set<int>>)
    requires Symmetric(adj) && NoSelfLoops(adj)
    ensures |Darts(adj)| == 2 * |EdgeSet(adj)|
  {
    var es := EdgeSet(adj);
    forall d | d in Darts(adj) ensures d in es + Swap(es) {
      var a, b :| a in adj && b in adj[a] && d == (a, b);
      if b < a {
        assert (b, a) in es;
      }
    }
    assert Darts(adj) == es + Swap(es);
    assert es !! Swap(es);
    SwapSize(es);
  }

  /**
   * num_physical_edges (half the sum of the adjacency-set sizes) equals the
   * number of edges get_physical_edges reports, for a well-formed graph with
   * no self-loops.
   */
  lemma EdgeCountMatchesEdgeSet(g: GraphData)
    requires WellFormed(g) && NoSelfLoops(g.adj)
    ensures |Darts(g.adj)| / 2 == |EdgeSet(g.adj)|
  {
    Handshake(g.adj);
  }

  // ---------------------------------------------------------------------------
  // Mutators on values

  /** set_q_index: rejects indices below -1 and does not look at the node set. */
  function SetQIndex(g: GraphData, node: int, qIndex: int): (r: (GraphData, Outcome<GraphError>))
    ensures WellFormed(g) ==> WellFormed(r.0)
    ensures r.1.Fail? <==> qIndex < -1
    ensures r.1.Fail? ==> r.0 == g
    ensures r.1.Pass? ==> r.0 == g.(qIndices := g.qIndices[node := qIndex])
  {
    if qIndex < -1 then (g, Fail(InvalidQubitIndex(qIndex)))
    else (g.(qIndices := g.qIndices[node := qIndex]), Pass)
  }

  /**
   * add_physical_node: the node and its empty adjacency set go in before the
   * qubit index is checked, so an index below -1 leaves them behind.
   */
  function AddNode(g: GraphData, node: int, qIndex: int, isInput: bool, isOutput: bool): (r: (GraphData, Outcome<GraphError>))
    ensures WellFormed(g) ==> WellFormed(r.0) && EdgeSet(r.0.adj) == EdgeSet(g.adj)
    ensures r.1.Fail? <==> node in g.nodes || qIndex < -1
    ensures node in g.nodes ==> r == (g, Fail(NodeAlreadyExists(node)))
    ensures node !in g.nodes ==> r.0.nodes == g.nodes + {node} && r.0.adj == g.adj[node := {}]
    ensures r.1.Pass? ==> && r.0.qIndices == g.qIndices[node := qIndex]
                          && (r.0.inputs == if isInput then g.inputs + {node} else g.inputs)
                          && (r.0.outputs == if isOutput then g.outputs + {node} else g.outputs)
                          && r.0.planes == g.planes && r.0.angles == g.angles
    ensures r.1.Fail? ==> r.0.qIndices == g.qIndices && r.0.inputs == g.inputs && r.0.outputs == g.outputs
  {
    if node in g.nodes then (g, Fail(NodeAlreadyExists(node)))
    else
      var g1 := g.(nodes := g.nodes + {node}, adj := g.adj[node := {}]);
      assert WellFormed(g) ==> EdgeSet(g1.adj) == EdgeSet(g.adj) by {
        if WellFormed(g) {
          forall e | e in EdgeSet(g1.adj) ensures e in EdgeSet(g.adj) {
            var a, b :| a in g1.adj && b in g1.adj[a] && a < b && e == (a, b);
          }
        }
      }
      var (g2, o) := SetQIndex(g1, node, qIndex);
      if o.Fail? then (g2, o)
      else
        (g2.(inputs := if isInput then g2.inputs + {node} else g2.inputs,
             outputs := if isOutput then g2.outputs + {node} else g2.outputs), Pass)
  }

  /**
   * add_physical_edge: both endpoints must exist and the edge must be new in
   * either direction. A self-loop (node1 == node2) is not rejected.
   */
  function AddEdge(g: GraphData, node1: int, node2: int): (r: (GraphData, Outcome<GraphError>))
    requires WellFormed(g)
    ensures WellFormed(r.0)
    ensures r.1.Pass? <==> node1 in g.nodes && node2 in g.nodes && node2 !in g.adj[node1]
    ensures r.1.Fail? ==> r.0 == g
    ensures r.1.Pass? ==> r.0 == g.(adj := r.0.adj)
    ensures r.1.Pass? ==> Darts(r.0.adj) == Darts(g.adj) + {(node1, node2), (node2, node1)}
  {
    if node1 !in g.nodes then (g, Fail(NodeDoesNotExist(node1)))
    else if node2 !in g.nodes then (g, Fail(NodeDoesNotExist(node2)))
    else if node1 in g.adj[node2] || node2 in g.adj[node1] then (g, Fail(EdgeAlreadyExists(node1, node2)))
    else
      var adj1 := g.adj[node1 := g.adj[node1] + {node2}];
      var adj2 := adj1[node2 := adj1[node2] + {node1}];
      DartsAddEdge(g.adj, node1, node2);
      (g.(adj := adj2), Pass)
  }

  /** add_physical_edge adds node2 to node1's neighbours, node1 to node2's, and nothing else. */
  lemma AddEdgeNeighbours(g: GraphData, node1: int, node2: int)
    requires WellFormed(g)
    requires AddEdge(g, node1, node2).1.Pass?
    ensures AddEdge(g, node1, node2).0.adj.Keys == g.adj.Keys
    ensures forall x :: x in g.adj ==>
              AddEdge(g, node1, node2).0.adj[x] ==
                g.adj[x] + (if x == node1 then {node2} else {}) + (if x == node2 then {node1} else {})
  {
  }

  /**
   * The edges get_physical_edges reports after add_physical_edge: one more,
   * ordered (smaller, larger), except that a self-loop is accepted but never
   * reported.
   */
  lemma AddEdgeEdgeSet(g: GraphData, a: int, b: int)
    requires WellFormed(g)
    requires AddEdge(g, a, b).1.Pass?
    ensures EdgeSet(AddEdge(g, a, b).0.adj) ==
              EdgeSet(g.adj) + (if a < b then {(a, b)} else if b < a then {(b, a)} else {})
  {
    var adj := AddEdge(g, a, b).0.adj;
    forall e | e in EdgeSet(adj)
      ensures e in EdgeSet(g.adj) + (if a < b then {(a, b)} else if b < a then {(b, a)} else {})
    {
      if e != (a, b) && e != (b, a) {
        assert e.1 in g.adj[e.0];
      }
    }
    forall e | e in EdgeSet(g.adj) ensures e in EdgeSet(adj) {
      assert e.1 in adj[e.0];
    }
    if a < b {
      assert b in adj[a];
    } else if b < a {
      assert a in adj[b];
    }
  }

  /**
   * Self-loops break the degree count: a self-loop on each of two nodes adds
   * two pairs to the degree sum, so num_physical_edges grows by one, while
   * get_physical_edges reports no new edge.
   */
  lemma SelfLoopsMiscount(g: GraphData, a: int, b: int)
    requires WellFormed(g)
    requires a in g.nodes && b in g.nodes && a != b
    requires a !in g.adj[a] && b !in g.adj[b]
    ensures var (g2, o2) := AddEdge(g, a, a);
            var (g3, o3) := AddEdge(g2, b, b);
            && o2.Pass? && o3.Pass?
            && |Darts(g3.adj)| == |Darts(g.adj)| + 2
            && EdgeSet(g3.adj) == EdgeSet(g.adj)
  {
    var g2 := AddEdge(g, a, a).0;
    AddEdgeNeighbours(g, a, a);
    AddEdgeEdgeSet(g, a, a);
    assert (a, a) !in Darts(g.adj);
    assert g2.adj[b] == g.adj[b];
    var g3 := AddEdge(g2, b, b).0;
    AddEdgeNeighbours(g2, b, b);
    AddEdgeEdgeSet(g2, b, b);
    assert (b, b) !in Darts(g2.adj);
  }

  lemma DartsAddEdge(adj: map<int, set<int>>, a: int, b: int)
    requires a in adj && b in adj
    ensures var adj1 := adj[a := adj[a] + {b}];
            Darts(adj1[b := adj1[b] + {a}]) == Darts(adj) + {(a, b), (b, a)}
  {
    var adj1 := adj[a := adj[a] + {b}];
    var adj2 := adj1[b := adj1[b] + {a}];
    forall e | e in Darts(adj2) ensures e in Darts(adj) + {(a, b), (b, a)} {
      var x, y :| x in adj2 && y in adj2[x] && e == (x, y);
      if e != (a, b) && e != (b, a) {
        assert x in adj && y in adj[x];
      }
    }
    forall e | e in Darts(adj) + {(a, b), (b, a)} ensures e in Darts(adj2) {
      if e == (a, b) {
        assert b in adj2[a];
      } else if e == (b, a) {
        assert a in adj2[b];
      } else {
        var x, y :| x in adj && y in adj[x] && e == (x, y);
        assert y in adj2[x];
      }
    }
  }

  /** set_input: the node must exist; only the input set changes. */
  function SetInput(g: GraphData, node: int): (r: (GraphData, Outcome<GraphError>))
    ensures WellFormed(g) ==> WellFormed(r.0)
    ensures r.1.Fail? <==> node !in g.nodes
    ensures r.0 == if node in g.nodes then g.(inputs := g.inputs + {node}) else g
  {
    if node !in g.nodes then (g, Fail(NodeDoesNotExist(node)))
    else (g.(inputs := g.inputs + {node}), Pass)
  }

  /** set_output: the node must exist; only the output set changes. */
  function SetOutput(g: GraphData, node: int): (r: (GraphData, Outcome<GraphError>))
    ensures WellFormed(g) ==> WellFormed(r.0)
    ensures r.1.Fail? <==> node !in g.nodes
    ensures r.0 == if node in g.nodes then g.(outputs := g.outputs + {node}) else g
  {
    if node !in g.nodes then (g, Fail(NodeDoesNotExist(node)))
    else (g.(outputs := g.outputs + {node}), Pass)
  }

  /** set_meas_plane: the node must exist; only the plane map changes. */
  function SetMeasPlane(g: GraphData, node: int, plane: Plane): (r: (GraphData, Outcome<GraphError>))
    ensures WellFormed(g) ==> WellFormed(r.0)
    ensures r.1.Fail? <==> node !in g.nodes
    ensures r.0 == if node in g.nodes then g.(planes := g.planes[node := plane]) else g
  {
    if node !in g.nodes then (g, Fail(NodeDoesNotExist(node)))
    else (g.(planes := g.planes[node := plane]), Pass)
  }

  /** set_meas_angle: the node must exist; only the angle map changes. */
  function SetMeasAngle(g: GraphData, node: int, angle: Angle): (r: (GraphData, Outcome<GraphError>))
    ensures WellFormed(g) ==> WellFormed(r.0)
    ensures r.1.Fail? <==> node !in g.nodes
    ensures r.0 == if node in g.nodes then g.(angles := g.angles[node := angle]) else g
  {
    if node !in g.nodes then (g, Fail(NodeDoesNotExist(node)))
    else (g.(angles := g.angles[node := angle]), Pass)
  }

  /** _reset_input_output: the node leaves the input and the output set. */
  function ResetInputOutput(g: GraphData, node: int): (r: GraphData)
    ensures WellFormed(g) ==> WellFormed(r)
    ensures r == g.(inputs := r.inputs, outputs := r.outputs)
    ensures node !in r.inputs && node !in r.outputs
    ensures r.inputs <= g.inputs && r.outputs <= g.outputs
    ensures r.inputs + {node} >= g.inputs && r.outputs + {node} >= g.outputs
  {
    g.(inputs := g.inputs - {node}, outputs := g.outputs - {node})
  }

  // ---------------------------------------------------------------------------
  // append
  // ---------------------------------------------------------------------------

  /** The border of `append`: self's outputs that are other's inputs. */
  function Border(g: GraphData, o: GraphData): set<int>
  {
    g.outputs * o.inputs
  }

  /** append's first check: the nodes the graphs share are exactly the border. */
  predicate BoundaryOk(g: GraphData, o: GraphData)
  {
    g.nodes * o.nodes == Border(g, o)
  }

  /** Other's plane for a node, XY when it has none. */
  function PlaneOf(o: GraphData, node: int): Plane
  {
    if node in o.planes then o.planes[node] else XY
  }

  /** Other's angle for a node, 0 when it has none. */
  function AngleOf(o: GraphData, node: int): Angle
  {
    if node in o.angles then o.angles[node] else 0.0
  }

  /**
   * One pass of append's node loop: a border node leaves self's input and
   * output sets, any other node is added (and marked input when other has it
   * as an input that is not currently one of self's outputs); then the node
   * is marked output when other has it as output, and otherwise takes other's
   * plane and angle.
   */
  ghost function MergeOne(cur: GraphData, o: GraphData, border: set<int>, node: int): GraphData
  {
    MergeSecond(MergeFirst(cur, o, border, node), o, node)
  }

  /** The first half of a node loop pass: reset a border node, or add another one. */
  ghost function MergeFirst(cur: GraphData, o: GraphData, border: set<int>, node: int): GraphData
  {
    if node in border then ResetInputOutput(cur, node)
    else
      var a := AddNode(cur, node, -1, false, false).0;
      if node in o.inputs - a.outputs then SetInput(a, node).0 else a
  }

  /** The second half: mark an output of other as output, or give the node other's measurement. */
  ghost function MergeSecond(c1: GraphData, o: GraphData, node: int): GraphData
  {
    if node in o.outputs then SetOutput(c1, node).0
    else SetMeasAngle(SetMeasPlane(c1, node, PlaneOf(o, node)).0, node, AngleOf(o, node)).0
  }

  /** The graph after append's node loop has visited the nodes `done` of other. */
  ghost function MergeNodes(g: GraphData, o: GraphData, done: set<int>): GraphData
  {
    var b := Border(g, o);
    GraphData(
      (g.inputs - done * b) + (done - b) * o.inputs,
      (g.outputs - done * b) + done * o.outputs,
      g.nodes + done,
      MergedAdj(g.adj, done - b),
      MergedPlanes(g.planes, o, done - o.outputs),
      MergedAngles(g.angles, o, done - o.outputs),
      MergedQIndices(g.qIndices, done - b))
  }

  /** The adjacency with an empty set for each added node. */
  ghost function MergedAdj(adj: map<int, set<int>>, added: set<int>): map<int, set<int>>
  {
    map n | n in adj.Keys + added :: if n in added then {} else adj[n]
  }

  /** Other's plane (XY by default) for each measured node visited. */
  ghost function MergedPlanes(planes: map<int, Plane>, o: GraphData, measured: set<int>): map<int, Plane>
  {
    map n | n in planes.Keys + measured :: if n in measured then PlaneOf(o, n) else planes[n]
  }

  /** Other's angle (0 by default) for each measured node visited. */
  ghost function MergedAngles(angles: map<int, Angle>, o: GraphData, measured: set<int>): map<int, Angle>
  {
    map n | n in angles.Keys + measured :: if n in measured then AngleOf(o, n) else angles[n]
  }

  /** Index -1 for each added node. */
  ghost function MergedQIndices(q: map<int, int>, added: set<int>): map<int, int>
  {
    map n | n in q.Keys + added :: if n in added then -1 else q[n]
  }

  lemma MergedAdjStep(adj: map<int, set<int>>, added: set<int>, n: int)
    ensures MergedAdj(adj, added + {n}) == MergedAdj(adj, added)[n := {}]
  {
  }

  lemma MergedPlanesStep(planes: map<int, Plane>, o: GraphData, measured: set<int>, n: int)
    ensures MergedPlanes(planes, o, measured + {n}) == MergedPlanes(planes, o, measured)[n := PlaneOf(o, n)]
  {
  }

  lemma MergedAnglesStep(angles: map<int, Angle>, o: GraphData, measured: set<int>, n: int)
    ensures MergedAngles(angles, o, measured + {n}) == MergedAngles(angles, o, measured)[n := AngleOf(o, n)]
  {
  }

  lemma MergedQIndicesStep(q: map<int, int>, added: set<int>, n: int)
    ensures MergedQIndices(q, added + {n}) == MergedQIndices(q, added)[n := -1]
  {
  }

  /** One pass of the node loop, with the source's mutators unfolded. */
  ghost function MergeOneDirect(cur: GraphData, o: GraphData, border: set<int>, node: int): GraphData
  {
    var c1 :=
      if node in border then cur.(inputs := cur.inputs - {node}, outputs := cur.outputs - {node})
      else cur.(inputs := if node in o.inputs then cur.inputs + {node} else cur.inputs,
                nodes := cur.nodes + {node}, adj := cur.adj[node := {}],
                qIndices := cur.qIndices[node := -1]);
    if node in o.outputs then c1.(outputs := c1.outputs + {node})
    else c1.(planes := c1.planes[node := PlaneOf(o, node)], angles := c1.angles[node := AngleOf(o, node)])
  }

  lemma MergeOneUnfold(cur: GraphData, o: GraphData, border: set<int>, node: int)
    requires node in border ==> node in cur.nodes
    requires node !in border ==> node !in cur.nodes && node !in cur.outputs
    ensures MergeOne(cur, o, border, node) == MergeOneDirect(cur, o, border, node)
  {
  }

  /** Each node loop pass moves MergeNodes on by one node, whatever the visiting order. */
  lemma MergeOneStep(g: GraphData, o: GraphData, done: set<int>, node: int)
    requires WellFormed(g) && WellFormed(o) && BoundaryOk(g, o)
    requires done <= o.nodes && node in o.nodes && node !in done
    ensures MergeOne(MergeNodes(g, o, done), o, Border(g, o), node) == MergeNodes(g, o, done + {node})
  {
    var b := Border(g, o);
    var cur := MergeNodes(g, o, done);
    assert node in b ==> node in cur.nodes;
    assert node !in b ==> node !in cur.nodes && node !in cur.outputs;
    MergeOneUnfold(cur, o, b, node);
    assert node !in b ==> node !in g.nodes;
    assert node in b ==> node in g.nodes;
    MergeDirectStep(g, o, done, node);
  }

  lemma MergeDirectStep(g: GraphData, o: GraphData, done: set<int>, node: int)
    requires node in Border(g, o) ==> node in g.nodes
    requires node !in Border(g, o) ==> node !in g.inputs && node !in g.outputs
    requires node !in done
    ensures MergeOneDirect(MergeNodes(g, o, done), o, Border(g, o), node) == MergeNodes(g, o, done + {node})
  {
    BoundarySetsStep(g.inputs, g.outputs, o.inputs, o.outputs, Border(g, o), done, node);
    MeasuredStep(g, o, done, node);
    AddedStep(g, o, done, node);
  }

  /** The node set, adjacency and qubit indices of MergeNodes after one more node. */
  lemma AddedStep(g: GraphData, o: GraphData, done: set<int>, node: int)
    requires node in Border(g, o) ==> node in g.nodes
    ensures var b := Border(g, o);
            var cur := MergeNodes(g, o, done);
            var next := MergeNodes(g, o, done + {node});
            && next.nodes == (if node in b then cur.nodes else cur.nodes + {node})
            && next.adj == (if node in b then cur.adj else cur.adj[node := {}])
            && next.qIndices == (if node in b then cur.qIndices else cur.qIndices[node := -1])
  {
    var b := Border(g, o);
    if node in b {
      assert done + {node} - b == done - b;
    } else {
      assert done + {node} - b == (done - b) + {node};
      MergedAdjStep(g.adj, done - b, node);
      MergedQIndicesStep(g.qIndices, done - b, node);
    }
  }

  /** The plane and angle maps of MergeNodes after one more node. */
  lemma MeasuredStep(g: GraphData, o: GraphData, done: set<int>, node: int)
    ensures var planes := MergedPlanes(g.planes, o, done - o.outputs);
            var angles := MergedAngles(g.angles, o, done - o.outputs);
            && MergedPlanes(g.planes, o, done + {node} - o.outputs)
               == (if node in o.outputs then planes else planes[node := PlaneOf(o, node)])
            && MergedAngles(g.angles, o, done + {node} - o.outputs)
               == (if node in o.outputs then angles else angles[node := AngleOf(o, node)])
  {
    if node !in o.outputs {
      assert done + {node} - o.outputs == (done - o.outputs) + {node};
      MergedPlanesStep(g.planes, o, done - o.outputs, node);
      MergedAnglesStep(g.angles, o, done - o.outputs, node);
    } else {
      assert done + {node} - o.outputs == done - o.outputs;
    }
  }

  /** The input and output sets of MergeNodes after one more node. */
  lemma BoundarySetsStep(gi: set<int>, go: set<int>, oi: set<int>, oo: set<int>, b: set<int>, done: set<int>, node: int)
    requires node !in b ==> node !in gi && node !in go
    ensures var ins := (gi - done * b) + (done - b) * oi;
            var outs := (go - done * b) + done * oo;
            var c1ins := if node in b then ins - {node} else if node in oi then ins + {node} else ins;
            var c1outs := if node in b then outs - {node} else outs;
            && c1ins == (gi - (done + {node}) * b) + ((done + {node}) - b) * oi
            && (if node in oo then c1outs + {node} else c1outs) == (go - (done + {node}) * b) + (done + {node}) * oo
  {
  }

  /** The adjacency with the undirected edges `es` added at both ends. */
  ghost function WithEdges(adj: map<int, set<int>>, es: set<(int, int)>): map<int, set<int>>
  {
    map a | a in adj :: adj[a] + (set e | e in es && e.0 == a :: e.1) + (set e | e in es && e.1 == a :: e.0)
  }

  /** append's edge loop is failure-free exactly when no edge of other is already one of self. */
  ghost predicate EdgeClash(g: GraphData, o: GraphData)
  {
    !(EdgeSet(g.adj) !! EdgeSet(o.adj))
  }

  /** A shared node whose qubit index other fixes but self lacks or disagrees with. */
  ghost predicate QMismatch(g: GraphData, o: GraphData)
  {
    exists k :: k in o.qIndices && k in g.nodes && k in o.nodes
                && (k !in g.qIndices || g.qIndices[k] != o.qIndices[k])
  }

  /**
   * append's qubit-index loop compares against the indices after the node
   * loop; on the shared nodes those are still self's.
   */
  lemma QMismatchAfterMerge(g: GraphData, o: GraphData)
    requires BoundaryOk(g, o)
    ensures var q := MergeNodes(g, o, o.nodes).qIndices;
            QMismatch(g, o) <==> !(forall k :: k in o.qIndices && k in g.nodes * o.nodes ==> k in q && q[k] == o.qIndices[k])
  {
    var q := MergeNodes(g, o, o.nodes).qIndices;
    forall k | k in g.nodes * o.nodes
      ensures (k in q <==> k in g.qIndices) && (k in q ==> q[k] == g.qIndices[k])
    {
      assert k !in o.nodes - Border(g, o);
    }
  }

  /** The graph a successful append leaves behind. */
  ghost function Appended(g: GraphData, o: GraphData): GraphData
  {
    var m := MergeNodes(g, o, o.nodes);
    m.(adj := WithEdges(m.adj, EdgeSet(o.adj)), qIndices := m.qIndices + o.qIndices)
  }

  /** An edge of EdgeSet is ordered and joins two nodes of the adjacency. */
  lemma EdgeSetMember(adj: map<int, set<int>>, e: (int, int))
    requires e in EdgeSet(adj)
    ensures e.0 < e.1 && e.0 in adj && e.1 in adj[e.0]
  {
  }

  lemma WithNoEdges(adj: map<int, set<int>>)
    ensures WithEdges(adj, {}) == adj
  {
    forall k | k in adj ensures WithEdges(adj, {})[k] == adj[k] {
      assert (set e: (int, int) | e in {} && e.0 == k :: e.1) == {};
      assert (set e: (int, int) | e in {} && e.1 == k :: e.0) == {};
    }
  }

  /** Each edge loop pass adds one edge at both ends. */
  lemma WithEdgesStep(adj: map<int, set<int>>, es: set<(int, int)>, e: (int, int))
    requires e.0 in adj && e.1 in adj
    ensures var w := WithEdges(adj, es);
            var w1 := w[e.0 := w[e.0] + {e.1}];
            w1[e.1 := w1[e.1] + {e.0}] == WithEdges(adj, es + {e})
  {
    var w := WithEdges(adj, es);
    var w1 := w[e.0 := w[e.0] + {e.1}];
    var w2 := w1[e.1 := w1[e.1] + {e.0}];
    var v := WithEdges(adj, es + {e});
    assert w2.Keys == v.Keys;
    forall k | k in adj ensures w2[k] == v[k] {
      WithEdgesStepAt(adj, es, e, k);
    }
  }

  lemma WithEdgesStepAt(adj: map<int, set<int>>, es: set<(int, int)>, e: (int, int), k: int)
    requires e.0 in adj && e.1 in adj && k in adj
    ensures var w := WithEdges(adj, es);
            var w1 := w[e.0 := w[e.0] + {e.1}];
            w1[e.1 := w1[e.1] + {e.0}][k] == WithEdges(adj, es + {e})[k]
  {
    EndsStep(es, e, k);
  }

  /** The partners of k among the edges, one edge more. */
  lemma EndsStep(es: set<(int, int)>, e: (int, int), k: int)
    ensures (set d | d in es + {e} && d.0 == k :: d.1)
         == (set d | d in es && d.0 == k :: d.1) + (if e.0 == k then {e.1} else {})
    ensures (set d | d in es + {e} && d.1 == k :: d.0)
         == (set d | d in es && d.1 == k :: d.0) + (if e.1 == k then {e.0} else {})
  {
  }

  /**
   * With ordered edges, add_physical_edge finds an edge of other already
   * present exactly when it was an edge of self.
   */
  lemma WithEdgesClash(adj: map<int, set<int>>, es: set<(int, int)>, e: (int, int))
    requires Symmetric(adj)
    requires forall d :: d in es ==> d.0 < d.1
    requires e.0 < e.1 && e.0 in adj && e.1 in adj && e !in es
    ensures var w := WithEdges(adj, es);
            (e.0 in w[e.1] || e.1 in w[e.0]) <==> e in EdgeSet(adj)
  {
    var w := WithEdges(adj, es);
    if e.1 in w[e.0] && e.1 !in adj[e.0] {
      var d :| d in es && ((d.0 == e.0 && d.1 == e.1) || (d.1 == e.0 && d.0 == e.1));
      assert false;
    }
    if e.0 in w[e.1] && e.0 !in adj[e.1] {
      var d :| d in es && ((d.0 == e.1 && d.1 == e.0) || (d.1 == e.1 && d.0 == e.0));
      assert false;
    }
  }

  /** Adding ordered edges between existing nodes keeps symmetry and adds exactly those edges. */
  lemma EdgeSetWithEdges(adj: map<int, set<int>>, es: set<(int, int)>)
    requires Symmetric(adj)
    requires forall e :: e in es ==> e.0 < e.1 && e.0 in adj && e.1 in adj
    ensures Symmetric(WithEdges(adj, es))
    ensures EdgeSet(WithEdges(adj, es)) == EdgeSet(adj) + es
  {
    var w := WithEdges(adj, es);
    forall a, b | a in w && b in w[a] ensures b in w && a in w[b] {
      if b !in adj[a] {
        var d :| d in es && ((d.0 == a && d.1 == b) || (d.1 == a && d.0 == b));
      }
    }
    forall e | e in EdgeSet(w) ensures e in EdgeSet(adj) + es {
      if e.1 !in adj[e.0] {
        var d :| d in es && ((d.0 == e.0 && d.1 == e.1) || (d.1 == e.0 && d.0 == e.1));
      }
    }
    forall e | e in EdgeSet(adj) + es ensures e in EdgeSet(w) {
      if e in es {
        assert e.1 in w[e.0];
      } else {
        assert e.1 in adj[e.0];
      }
    }
  }

  /** Empty adjacency sets for new nodes add no edge and keep symmetry. */
  lemma EdgeSetMergedAdj(adj: map<int, set<int>>, added: set<int>)
    requires Symmetric(adj) && added !! adj.Keys
    ensures Symmetric(MergedAdj(adj, added))
    ensures EdgeSet(MergedAdj(adj, added)) == EdgeSet(adj)
  {
    var m := MergedAdj(adj, added);
    forall a, b | a in m && b in m[a] ensures b in m && a in m[b] {
      assert a in adj && b in adj[a];
    }
    forall e | e in EdgeSet(m) ensures e in EdgeSet(adj) {
      assert e.0 in adj && e.1 in adj[e.0];
    }
  }

  /**
   * A successful append leaves a well-formed graph whose node set and edge
   * set are the unions of the two graphs' (other's self-loops are not
   * among its edges and are dropped).
   */
  lemma AppendedGraph(g: GraphData, o: GraphData)
    requires WellFormed(g) && WellFormed(o) && BoundaryOk(g, o)
    ensures WellFormed(Appended(g, o))
    ensures Appended(g, o).nodes == g.nodes + o.nodes
    ensures EdgeSet(Appended(g, o).adj) == EdgeSet(g.adj) + EdgeSet(o.adj)
  {
    AppendedAdjacency(g, o);
    AppendedBoundary(g, o);
    AppendedMeasurement(g, o);
    AppendedQIndices(g, o);
  }

  lemma AppendedAdjacency(g: GraphData, o: GraphData)
    requires WellFormed(g) && WellFormed(o) && BoundaryOk(g, o)
    ensures Appended(g, o).adj.Keys == g.nodes + o.nodes == Appended(g, o).nodes
    ensures Symmetric(Appended(g, o).adj)
    ensures EdgeSet(Appended(g, o).adj) == EdgeSet(g.adj) + EdgeSet(o.adj)
  {
    var m := MergeNodes(g, o, o.nodes);
    EdgeSetMergedAdj(g.adj, o.nodes - Border(g, o));
    assert m.adj.Keys == g.nodes + o.nodes;
    forall e | e in EdgeSet(o.adj) ensures e.0 < e.1 && e.0 in m.adj && e.1 in m.adj {
    }
    EdgeSetWithEdges(m.adj, EdgeSet(o.adj));
  }

  /**
   * The border nodes leave self's input and output sets and come back as
   * outputs exactly when they are outputs of other; other's non-border
   * inputs become inputs.
   */
  lemma AppendedBoundary(g: GraphData, o: GraphData)
    requires WellFormed(g) && WellFormed(o) && BoundaryOk(g, o)
    ensures Appended(g, o).inputs == (g.inputs - Border(g, o)) + (o.inputs - Border(g, o))
    ensures Appended(g, o).outputs == (g.outputs - Border(g, o)) + o.outputs
  {
  }

  /**
   * Every node other does not output takes other's plane and angle (XY and
   * 0 by default); every other node keeps self's.
   */
  lemma AppendedMeasurement(g: GraphData, o: GraphData)
    ensures Appended(g, o).planes.Keys == g.planes.Keys + (o.nodes - o.outputs)
    ensures Appended(g, o).angles.Keys == g.angles.Keys + (o.nodes - o.outputs)
    ensures forall n :: n in o.nodes && n !in o.outputs ==>
              && n in Appended(g, o).planes && Appended(g, o).planes[n] == PlaneOf(o, n)
              && n in Appended(g, o).angles && Appended(g, o).angles[n] == AngleOf(o, n)
    ensures forall n :: n in g.planes && !(n in o.nodes && n !in o.outputs) ==>
              n in Appended(g, o).planes && Appended(g, o).planes[n] == g.planes[n]
    ensures forall n :: n in g.angles && !(n in o.nodes && n !in o.outputs) ==>
              n in Appended(g, o).angles && Appended(g, o).angles[n] == g.angles[n]
  {
  }

  /**
   * Other's qubit indices win; a node new to self without one gets -1;
   * every other index of self is kept.
   */
  lemma AppendedQIndices(g: GraphData, o: GraphData)
    ensures (forall n :: n in g.qIndices ==> g.qIndices[n] >= -1) && (forall n :: n in o.qIndices ==> o.qIndices[n] >= -1) ==>
              forall n :: n in Appended(g, o).qIndices ==> Appended(g, o).qIndices[n] >= -1
    ensures var q := Appended(g, o).qIndices;
            && (forall n :: n in o.qIndices ==> n in q && q[n] == o.qIndices[n])
            && (forall n :: n in o.nodes - Border(g, o) && n !in o.qIndices ==> n in q && q[n] == -1)
            && (forall n :: n in g.qIndices && n !in o.qIndices && n !in o.nodes - Border(g, o) ==>
                  n in q && q[n] == g.qIndices[n])
  {
  }
}
