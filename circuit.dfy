// The MBQC circuit front end: a circuit of J, CZ and phase-gadget gates, and
// circuit2graph, which turns it into a graph state together with its flow.

module Circuit {
  import opened Wrappers
  import opened Common
  import opened Sets
  import opened GraphSpec
  import Graph

  // ---------------------------------------------------------------------------
  // Gates and the circuit
  // ---------------------------------------------------------------------------

  /** The three gate kinds; a closed datatype, so no other instruction exists. */
  datatype Gate =
    | J(qubit: int, angle: Angle)
    | CZ(qubits: (int, int))
    | PhaseGadget(targets: seq<int>, angle: Angle)

  /** An MBQC circuit: a qubit count and the gates appended so far. */
  class MBQCCircuit {
    var numQubits: int
    var instructions: seq<Gate>

    constructor (qubits: int)
      ensures numQubits == qubits && instructions == []
    {
      numQubits := qubits;
      instructions := [];
    }

    /** j: one J gate goes at the end of the instruction list. */
    method AddJ(qubit: int, angle: Angle)
      modifies this
      ensures numQubits == old(numQubits)
      ensures instructions == old(instructions) + [J(qubit, angle)]
    {
      instructions := instructions + [J(qubit, angle)];
    }

    /** cz: one CZ gate goes at the end of the instruction list. */
    method AddCZ(qubit1: int, qubit2: int)
      modifies this
      ensures numQubits == old(numQubits)
      ensures instructions == old(instructions) + [CZ((qubit1, qubit2))]
    {
      instructions := instructions + [CZ((qubit1, qubit2))];
    }

    /** phase_gadget: one phase gadget goes at the end of the instruction list. */
    method AddPhaseGadget(qubits: seq<int>, angle: Angle)
      modifies this
      ensures numQubits == old(numQubits)
      ensures instructions == old(instructions) + [PhaseGadget(qubits, angle)]
    {
      instructions := instructions + [PhaseGadget(qubits, angle)];
    }
  }

  // ---------------------------------------------------------------------------
  // circuit2graph, as a function of values
  // ---------------------------------------------------------------------------

  /** Why circuit2graph raises: a list index out of range, or a graph error. */
  datatype CircuitError =
    | IndexOutOfRange(qubit: int)
    | GraphFailure(error: GraphError)

  /** The translation's working state: graph, flow, front node of each qubit, node counter. */
  datatype Build = Build(graph: GraphData, flow: map<int, set<int>>, front: seq<int>, count: int)

  /** The node numbers 0 .. k-1. */
  function Range(k: int): (r: set<int>)
    ensures forall x :: x in r <==> 0 <= x < k
    decreases k
  {
    if k <= 0 then {} else Range(k - 1) + {k - 1}
  }

  predicate Distinct(s: seq<int>)
  {
    forall i, j :: 0 <= i < j < |s| ==> s[i] != s[j]
  }

  /** The list [0, 1, .., k-1]. */
  function Iota(k: int): (r: seq<int>)
    ensures |r| == Width(k)
    ensures forall i :: 0 <= i < |r| ==> r[i] == i
    decreases k
  {
    if k <= 0 then [] else Iota(k - 1) + [k - 1]
  }

  /** range(n) is empty for a negative n. */
  function Width(n: int): nat
  {
    if n < 0 then 0 else n
  }

  /**
   * Python list indexing: an index in [0, length) is itself, one in
   * [-length, 0) counts from the end, anything else raises IndexError.
   */
  function PyIndex(length: int, q: int): (r: Option<int>)
    ensures r.Some? <==> -length <= q < length
    ensures r.Some? ==> 0 <= r.value < length
    ensures r.Some? ==> r.value == (if q < 0 then q + length else q)
  {
    if 0 <= q < length then Some(q)
    else if -length <= q < 0 then Some(q + length)
    else None
  }

  /** The state after the input loop: nodes 0..n-1, inputs, qubit i on node i. */
  function InitBuild(n: int): (r: Build)
    ensures WellFormed(r.graph)
  {
    var w := Width(n);
    Build(GraphData(Range(w), {}, Range(w), map i | i in Range(w) :: {}, map[], map[], map i | i in Range(w) :: i),
          map[], Iota(w), w)
  }

  /** A J gate: a new node, joined to the qubit's front, which becomes an XY node flowing to it. */
  function StepJ(b: Build, q: int, angle: Angle): (r: Result<Build, CircuitError>)
    requires WellFormed(b.graph)
    ensures r.Success? ==> WellFormed(r.value.graph)
  {
    var s1 := AddNode(b.graph, b.count, -1, false, false);
    if s1.1.Fail? then Failure(GraphFailure(s1.1.error))
    else
      var idx := PyIndex(|b.front|, q);
      if idx.None? then Failure(IndexOutOfRange(q))
      else
        var prev := b.front[idx.value];
        var s2 := AddEdge(s1.0, prev, b.count);
        if s2.1.Fail? then Failure(GraphFailure(s2.1.error))
        else
          // prev is a node now, so neither setter can fail
          var s3 := SetMeasPlane(s2.0, prev, XY);
          var s4 := SetMeasAngle(s3.0, prev, angle);
          var s5 := SetQIndex(s4.0, b.count, q);
          if s5.1.Fail? then Failure(GraphFailure(s5.1.error))
          else Success(Build(s5.0, b.flow[prev := {b.count}], b.front[idx.value := b.count], b.count + 1))
  }

  /** A CZ gate: an edge between the two qubits' front nodes. */
  function StepCZ(b: Build, q1: int, q2: int): (r: Result<Build, CircuitError>)
    requires WellFormed(b.graph)
    ensures r.Success? ==> WellFormed(r.value.graph)
  {
    var i1 := PyIndex(|b.front|, q1);
    if i1.None? then Failure(IndexOutOfRange(q1))
    else
      var i2 := PyIndex(|b.front|, q2);
      if i2.None? then Failure(IndexOutOfRange(q2))
      else
        var s := AddEdge(b.graph, b.front[i1.value], b.front[i2.value]);
        if s.1.Fail? then Failure(GraphFailure(s.1.error))
        else Success(b.(graph := s.0))
  }

  /** The phase gadget's edges, one per listed qubit in order, from its front node to `node`. */
  function GadgetEdges(g: GraphData, front: seq<int>, qs: seq<int>, node: int): (r: Result<GraphData, CircuitError>)
    requires WellFormed(g)
    ensures r.Success? ==> WellFormed(r.value) && r.value.nodes == g.nodes
    decreases |qs|
  {
    if qs == [] then Success(g)
    else
      var idx := PyIndex(|front|, qs[0]);
      if idx.None? then Failure(IndexOutOfRange(qs[0]))
      else
        var s := AddEdge(g, front[idx.value], node);
        if s.1.Fail? then Failure(GraphFailure(s.1.error))
        else GadgetEdges(s.0, front, qs[1..], node)
  }

  /** A phase gadget: a new YZ node, joined to the listed qubits' fronts, flowing to itself. */
  function StepPhaseGadget(b: Build, qs: seq<int>, angle: Angle): (r: Result<Build, CircuitError>)
    requires WellFormed(b.graph)
    ensures r.Success? ==> WellFormed(r.value.graph)
  {
    var s1 := AddNode(b.graph, b.count, -1, false, false);
    if s1.1.Fail? then Failure(GraphFailure(s1.1.error))
    else
      // the new node exists now, so neither setter can fail
      var s2 := SetMeasAngle(s1.0, b.count, angle);
      var s3 := SetMeasPlane(s2.0, b.count, YZ);
      var e := GadgetEdges(s3.0, b.front, qs, b.count);
      if e.Failure? then Failure(e.error)
      else Success(Build(e.value, b.flow[b.count := {b.count}], b.front, b.count + 1))
  }

  function Step(b: Build, gate: Gate): (r: Result<Build, CircuitError>)
    requires WellFormed(b.graph)
    ensures r.Success? ==> WellFormed(r.value.graph)
  {
    match gate
    case J(q, angle) => StepJ(b, q, angle)
    case CZ(qs) => StepCZ(b, qs.0, qs.1)
    case PhaseGadget(qs, angle) => StepPhaseGadget(b, qs, angle)
  }

  /** The gates in order; the first failure ends the translation. */
  function Steps(b: Build, gates: seq<Gate>): (r: Result<Build, CircuitError>)
    requires WellFormed(b.graph)
    ensures r.Success? ==> WellFormed(r.value.graph)
    decreases |gates|
  {
    if gates == [] then Success(b)
    else
      var prior := Steps(b, gates[..|gates| - 1]);
      if prior.Failure? then prior
      else Step(prior.value, gates[|gates| - 1])
  }

  /** The final loop: every front node, in qubit order, becomes an output. */
  function MarkOutputs(g: GraphData, front: seq<int>): (r: Result<GraphData, CircuitError>)
    requires WellFormed(g)
    ensures r.Success? ==> WellFormed(r.value)
  {
    if front == [] then Success(g)
    else
      var prior := MarkOutputs(g, front[..|front| - 1]);
      if prior.Failure? then prior
      else
        var s := SetOutput(prior.value, front[|front| - 1]);
        if s.1.Fail? then Failure(GraphFailure(s.1.error))
        else Success(s.0)
  }

  /** circuit2graph on a qubit count and a gate list: the graph and the flow, or the error raised. */
  function Translate(n: int, gates: seq<Gate>): Result<(GraphData, map<int, set<int>>), CircuitError>
  {
    var b := Steps(InitBuild(n), gates);
    if b.Failure? then Failure(b.error)
    else
      var g := MarkOutputs(b.value.graph, b.value.front);
      if g.Failure? then Failure(g.error)
      else Success((g.value, b.value.flow))
  }

  // ---------------------------------------------------------------------------
  // The invariant of the translation
  // ---------------------------------------------------------------------------

  /** Which new nodes the gates create: one per J, one per phase gadget. */
  function NewNodes(gates: seq<Gate>): (r: nat)
    ensures r <= |gates|
  {
    if gates == [] then 0
    else NewNodes(gates[..|gates| - 1]) + (if gates[|gates| - 1].CZ? then 0 else 1)
  }

  /**
   * A flow entry: a phase-gadget node is a YZ node that flows to itself; any
   * other entry is an XY node flowing to one later neighbour.
   */
  ghost predicate FlowEntry(g: GraphData, k: int, succ: set<int>)
  {
    && k in g.planes && k in g.adj
    && ((succ == {k} && g.planes[k] == YZ)
        || (g.planes[k] == XY && |succ| == 1 && forall m :: m in succ ==> k < m && m in g.adj[k]))
  }

  ghost predicate FlowShape(g: GraphData, flow: map<int, set<int>>)
  {
    forall k :: k in flow ==> FlowEntry(g, k, flow[k])
  }

  /** The graph between gates: nodes 0 .. count-1, the w inputs keep their qubit indices, no outputs yet. */
  ghost predicate GraphInv(w: nat, b: Build)
  {
    && WellFormed(b.graph)
    && w <= b.count
    && b.graph.nodes == Range(b.count)
    && b.graph.inputs == Range(w)
    && b.graph.outputs == {}
    && (forall i :: 0 <= i < w ==> i in b.graph.qIndices && b.graph.qIndices[i] == i)
  }

  /** The fronts between gates: one distinct existing node per qubit. */
  ghost predicate FrontInv(w: nat, b: Build)
  {
    && |b.front| == w
    && Distinct(b.front)
    && (forall i :: 0 <= i < |b.front| ==> 0 <= b.front[i] < b.count)
  }

  /** The flow between gates: its sources are exactly the nodes that are no longer fronts. */
  ghost predicate FlowInv(b: Build)
  {
    && (forall k :: k in b.flow ==> 0 <= k < b.count && k !in b.front)
    && (forall x :: 0 <= x < b.count ==> x in b.flow || x in b.front)
    && FlowShape(b.graph, b.flow)
  }

  /** What holds between the gates of a circuit of w qubits. */
  ghost predicate Inv(w: nat, b: Build)
  {
    GraphInv(w, b) && FrontInv(w, b) && FlowInv(b)
  }

  lemma RangeStep(k: int)
    requires k >= 0
    ensures Range(k + 1) == Range(k) + {k}
  {
  }

  /** After the input loop the invariant holds, with n nodes and no flow. */
  lemma InitInv(n: int)
    ensures Inv(Width(n), InitBuild(n))
  {
    var b := InitBuild(n);
    forall x | 0 <= x < b.count
      ensures x in b.front
    {
      assert b.front[x] == x;
    }
  }

  /** Flow entries survive when their planes stay and their neighbourhoods only grow. */
  lemma FlowShapeGrows(g: GraphData, g2: GraphData, flow: map<int, set<int>>)
    requires FlowShape(g, flow)
    requires forall k :: k in flow ==> k in g2.planes && g2.planes[k] == g.planes[k]
    requires forall k :: k in flow ==> k in g2.adj && g.adj[k] <= g2.adj[k]
    ensures FlowShape(g2, flow)
  {
    forall k | k in flow
      ensures FlowEntry(g2, k, flow[k])
    {
      assert FlowEntry(g, k, flow[k]);
    }
  }

  /** The state after a J gate on the qubit at front position i, in closed form. */
  function JBuild(b: Build, i: int, q: int, angle: Angle): Build
    requires 0 <= i < |b.front| && b.front[i] in b.graph.adj
  {
    var prev := b.front[i];
    var g := b.graph;
    Build(g.(nodes := g.nodes + {b.count},
             adj := g.adj[b.count := {prev}][prev := g.adj[prev] + {b.count}],
             planes := g.planes[prev := XY],
             angles := g.angles[prev := angle],
             qIndices := g.qIndices[b.count := q]),
          b.flow[prev := {b.count}], b.front[i := b.count], b.count + 1)
  }

  /**
   * A J gate on qubit q: it raises IndexError when q is no list index of the
   * front, and rejects q below -1 as a qubit index; otherwise the new node is
   * joined to the old front alone, the old front becomes an XY node with the
   * gate's angle flowing to the new node, the new node carries qubit index q
   * and takes the old front's place.
   */
  lemma {:induction false} StepJSpec(w: nat, b: Build, q: int, angle: Angle)
    requires Inv(w, b)
    ensures PyIndex(w, q).None? ==> StepJ(b, q, angle) == Failure(IndexOutOfRange(q))
    ensures PyIndex(w, q).Some? && q < -1 ==> StepJ(b, q, angle) == Failure(GraphFailure(InvalidQubitIndex(q)))
    ensures PyIndex(w, q).Some? && q >= -1 ==> StepJ(b, q, angle) == Success(JBuild(b, PyIndex(w, q).value, q, angle))
  {
    var idx := PyIndex(|b.front|, q);
    if idx.Some? {
      var prev := b.front[idx.value];
      JEdge(w, b, idx.value);
      if q >= -1 {
        JSetters(w, b, idx.value, q, angle);
      }
    }
  }

  /** After the edge, the J gate's three setters leave exactly the graph of JBuild. */
  lemma {:induction false} JSetters(w: nat, b: Build, i: int, q: int, angle: Angle)
    requires Inv(w, b)
    requires 0 <= i < w && q >= -1
    ensures var prev := b.front[i];
            var g2 := AddEdge(AddNode(b.graph, b.count, -1, false, false).0, prev, b.count).0;
            SetQIndex(SetMeasAngle(SetMeasPlane(g2, prev, XY).0, prev, angle).0, b.count, q).0
              == JBuild(b, i, q, angle).graph
  {
    JEdge(w, b, i);
    assert b.front[i] in b.graph.nodes;
  }

  /** The J gate's new node and its edge to the front always go in. */
  lemma {:induction false} JEdge(w: nat, b: Build, i: int)
    requires Inv(w, b)
    requires 0 <= i < w
    ensures var s1 := AddNode(b.graph, b.count, -1, false, false);
            var prev := b.front[i];
            && s1.1.Pass?
            && AddEdge(s1.0, prev, b.count).1.Pass?
            && AddEdge(s1.0, prev, b.count).0 ==
                 s1.0.(adj := b.graph.adj[b.count := {prev}][prev := b.graph.adj[prev] + {b.count}])
  {
    assert b.count !in b.graph.nodes;
    assert b.front[i] in b.graph.nodes;
    NewNodeEdge(b.graph, b.front[i], b.count);
  }

  /** A fresh node joined to an existing one: the edge goes in and only the two neighbourhoods change. */
  lemma NewNodeEdge(g: GraphData, prev: int, node: int)
    requires WellFormed(g)
    requires prev in g.nodes && node !in g.nodes
    ensures var s1 := AddNode(g, node, -1, false, false);
            && s1.1.Pass?
            && AddEdge(s1.0, prev, node).1.Pass?
            && AddEdge(s1.0, prev, node).0 == s1.0.(adj := g.adj[node := {prev}][prev := g.adj[prev] + {node}])
  {
    var s1 := AddNode(g, node, -1, false, false);
    assert node !in s1.0.adj[prev] by {
      if node in s1.0.adj[prev] {
        SymmetricAt(g.adj, prev, node);
        assert false;
      }
    }
    AddEdgeNeighbours(s1.0, prev, node);
    var adj := AddEdge(s1.0, prev, node).0.adj;
    var target := g.adj[node := {prev}][prev := g.adj[prev] + {node}];
    assert adj.Keys == target.Keys;
    forall x | x in adj
      ensures adj[x] == target[x]
    {
    }
    assert adj == target;
  }

  /** The closed-form J state keeps the invariant. */
  lemma {:induction false} JBuildInv(w: nat, b: Build, i: int, q: int, angle: Angle)
    requires Inv(w, b)
    requires 0 <= i < w && q >= -1
    requires WellFormed(JBuild(b, i, q, angle).graph)
    ensures Inv(w, JBuild(b, i, q, angle))
  {
    JBuildGraphInv(w, b, i, q, angle);
    JBuildFrontInv(w, b, i, q, angle);
    JBuildFlowInv(w, b, i, q, angle);
  }

  lemma {:induction false} JBuildGraphInv(w: nat, b: Build, i: int, q: int, angle: Angle)
    requires Inv(w, b)
    requires 0 <= i < w && q >= -1
    requires WellFormed(JBuild(b, i, q, angle).graph)
    ensures GraphInv(w, JBuild(b, i, q, angle))
  {
    RangeStep(b.count);
  }

  lemma {:induction false} JBuildFrontInv(w: nat, b: Build, i: int, q: int, angle: Angle)
    requires Inv(w, b)
    requires 0 <= i < w && q >= -1
    ensures FrontInv(w, JBuild(b, i, q, angle))
  {
    var r := JBuild(b, i, q, angle);
    forall j1, j2 | 0 <= j1 < j2 < |r.front|
      ensures r.front[j1] != r.front[j2]
    {
      assert b.front[j1] < b.count && b.front[j2] < b.count;
    }
  }

  lemma {:induction false} JBuildFlowInv(w: nat, b: Build, i: int, q: int, angle: Angle)
    requires Inv(w, b)
    requires 0 <= i < w && q >= -1
    ensures FlowInv(JBuild(b, i, q, angle))
  {
    var r := JBuild(b, i, q, angle);
    var prev := b.front[i];
    forall k | k in b.flow
      ensures k in r.graph.adj && b.graph.adj[k] <= r.graph.adj[k]
      ensures k in r.graph.planes && r.graph.planes[k] == b.graph.planes[k]
    {
      assert k != prev;
      assert FlowEntry(b.graph, k, b.flow[k]);
    }
    FlowShapeGrows(b.graph, r.graph, b.flow);
    assert FlowEntry(r.graph, prev, {b.count});
    JBuildCovers(w, b, i, q, angle);
    forall k | k in r.flow
      ensures 0 <= k < r.count && k !in r.front
    {
      forall j | 0 <= j < |r.front|
        ensures r.front[j] != k
      {
        if j != i {
          assert r.front[j] == b.front[j] != b.front[i];
          if k != prev {
            assert b.front[j] in b.front;
          }
        }
      }
    }
  }

  /** After a J gate every node is still a flow source or a front. */
  lemma {:induction false} JBuildCovers(w: nat, b: Build, i: int, q: int, angle: Angle)
    requires Inv(w, b)
    requires 0 <= i < w && q >= -1
    ensures var r := JBuild(b, i, q, angle);
            forall x :: 0 <= x < r.count ==> x in r.flow || x in r.front
  {
    var r := JBuild(b, i, q, angle);
    var prev := b.front[i];
    forall x | 0 <= x < r.count && x !in r.flow
      ensures x in r.front
    {
      if x == b.count {
        assert r.front[i] == x;
      } else {
        assert x != prev && x in b.front;
        var j :| 0 <= j < |b.front| && b.front[j] == x;
        assert j != i && r.front[j] == x;
      }
    }
  }

  /** The phase gadget's edges change only the adjacency, which only grows. */
  lemma {:induction false} GadgetEdgesFrame(g: GraphData, front: seq<int>, qs: seq<int>, node: int)
    requires WellFormed(g)
    requires GadgetEdges(g, front, qs, node).Success?
    ensures var r := GadgetEdges(g, front, qs, node).value;
            && r == g.(adj := r.adj)
            && r.adj.Keys == g.adj.Keys
            && forall x :: x in g.adj ==> g.adj[x] <= r.adj[x]
    decreases |qs|
  {
    if qs != [] {
      var idx := PyIndex(|front|, qs[0]);
      var s := AddEdge(g, front[idx.value], node);
      AddEdgeNeighbours(g, front[idx.value], node);
      GadgetEdgesFrame(s.0, front, qs[1..], node);
    }
  }

  /** The front nodes a phase gadget's qubit list names, or None if one index is out of range. */
  function Targets(front: seq<int>, qs: seq<int>): (r: Option<seq<int>>)
    ensures r.Some? ==> |r.value| == |qs|
    ensures r.Some? <==> forall j :: 0 <= j < |qs| ==> PyIndex(|front|, qs[j]).Some?
  {
    if qs == [] then Some([])
    else
      var idx := PyIndex(|front|, qs[0]);
      var rest := Targets(front, qs[1..]);
      if idx.None? || rest.None? then
        assert idx.Some? ==> PyIndex(|front|, qs[1..][0]).None? || exists j :: 0 <= j < |qs[1..]| && PyIndex(|front|, qs[1..][j]).None?;
        None
      else
        assert forall j :: 0 <= j < |qs[1..]| ==> qs[1..][j] == qs[j + 1];
        Some([front[idx.value]] + rest.value)
  }

  /**
   * The phase gadget's edges all go in exactly when every listed qubit is a
   * list index of the front and the front nodes they name are distinct and
   * not yet neighbours of the gadget node; the gadget node then gains exactly
   * those neighbours.
   */
  lemma {:induction false} GadgetEdgesSpec(g: GraphData, front: seq<int>, qs: seq<int>, node: int)
    requires WellFormed(g)
    requires node in g.nodes
    requires forall i :: 0 <= i < |front| ==> front[i] in g.nodes
    ensures GadgetEdges(g, front, qs, node).Success? <==>
              && Targets(front, qs).Some?
              && Distinct(Targets(front, qs).value)
              && (forall t :: t in Targets(front, qs).value ==> t !in g.adj[node])
    decreases |qs|
  {
    if qs != [] {
      var idx := PyIndex(|front|, qs[0]);
      if idx.Some? {
        var t := front[idx.value];
        var s := AddEdge(g, t, node);
        var rest := Targets(front, qs[1..]);
        GadgetEdgeStep(g, t, node);
        if s.1.Pass? {
          GadgetEdgesSpec(s.0, front, qs[1..], node);
          if rest.Some? {
            assert Targets(front, qs).value == [t] + rest.value;
            DistinctCons(t, rest.value, g.adj[node]);
          }
        } else {
          if rest.Some? {
            assert Targets(front, qs).value[0] == t;
          }
        }
      }
    }
  }

  /** One gadget edge from t: it goes in exactly when t is not yet a neighbour, and adds t alone. */
  lemma GadgetEdgeStep(g: GraphData, t: int, node: int)
    requires WellFormed(g)
    requires node in g.nodes && t in g.nodes
    ensures AddEdge(g, t, node).1.Pass? <==> t !in g.adj[node]
    ensures AddEdge(g, t, node).1.Pass? ==> AddEdge(g, t, node).0.adj[node] == g.adj[node] + {t}
  {
    assert node !in g.adj[t] <==> t !in g.adj[node] by {
      if node in g.adj[t] { SymmetricAt(g.adj, t, node); }
      if t in g.adj[node] { SymmetricAt(g.adj, node, t); }
    }
    if AddEdge(g, t, node).1.Pass? {
      AddEdgeNeighbours(g, t, node);
    }
  }

  /** A list headed by t avoids a set and repeats nothing exactly when t avoids it and the tail avoids it and t. */
  lemma DistinctCons(t: int, rest: seq<int>, avoid: set<int>)
    requires t !in avoid
    ensures (Distinct([t] + rest) && forall x :: x in [t] + rest ==> x !in avoid) <==>
            (Distinct(rest) && forall x :: x in rest ==> x !in avoid + {t})
  {
    var ts := [t] + rest;
    if Distinct(rest) && (forall x :: x in rest ==> x !in avoid + {t}) {
      forall a, c | 0 <= a < c < |ts| ensures ts[a] != ts[c] {
        if a == 0 { assert ts[c] in rest; }
        else { assert ts[a] == rest[a - 1] && ts[c] == rest[c - 1]; }
      }
    }
    if Distinct(ts) && (forall x :: x in ts ==> x !in avoid) {
      forall x | x in rest ensures x !in avoid + {t} {
        var c :| 0 <= c < |rest| && rest[c] == x;
        assert ts[c + 1] == x && ts[0] == t;
      }
      forall a, c | 0 <= a < c < |rest| ensures rest[a] != rest[c] {
        assert ts[a + 1] == rest[a] && ts[c + 1] == rest[c];
      }
    }
  }

  /** On success the gadget node gains exactly the named front nodes as neighbours. */
  lemma {:induction false} GadgetEdgesNeighbours(g: GraphData, front: seq<int>, qs: seq<int>, node: int)
    requires WellFormed(g)
    requires node in g.nodes
    requires forall i :: 0 <= i < |front| ==> front[i] in g.nodes
    requires GadgetEdges(g, front, qs, node).Success?
    ensures Targets(front, qs).Some?
    ensures GadgetEdges(g, front, qs, node).value.adj[node] == g.adj[node] + Elems(Targets(front, qs).value)
    decreases |qs|
  {
    if qs != [] {
      var idx := PyIndex(|front|, qs[0]);
      var t := front[idx.value];
      var s := AddEdge(g, t, node);
      GadgetEdgeStep(g, t, node);
      GadgetEdgesNeighbours(s.0, front, qs[1..], node);
      var rest := Targets(front, qs[1..]).value;
      assert Targets(front, qs).value == [t] + rest;
      assert Elems([t] + rest) == {t} + Elems(rest);
    } else {
      assert Elems([]) == {};
    }
  }

  /** The state after a phase gadget whose edges gave adjacency adj, in closed form. */
  function GadgetBuild(b: Build, adj: map<int, set<int>>, angle: Angle): Build
  {
    var g := b.graph;
    Build(g.(nodes := g.nodes + {b.count},
             adj := adj,
             planes := g.planes[b.count := YZ],
             angles := g.angles[b.count := angle],
             qIndices := g.qIndices[b.count := -1]),
          b.flow[b.count := {b.count}], b.front, b.count + 1)
  }

  /**
   * A phase gadget: it succeeds exactly when every listed qubit is a list
   * index of the front and the front nodes they name are distinct; the new
   * node is then a YZ node with the gadget's angle and qubit index -1,
   * flowing to itself, whose neighbours are exactly the named front nodes,
   * the other neighbourhoods only grow and the fronts do not move.
   */
  lemma {:induction false} StepPhaseGadgetSpec(w: nat, b: Build, qs: seq<int>, angle: Angle)
    requires Inv(w, b)
    ensures StepPhaseGadget(b, qs, angle).Success? <==>
              Targets(b.front, qs).Some? && Distinct(Targets(b.front, qs).value)
    ensures StepPhaseGadget(b, qs, angle).Success? ==>
              var r := StepPhaseGadget(b, qs, angle).value;
              && r == GadgetBuild(b, r.graph.adj, angle)
              && r.graph.adj.Keys == b.graph.adj.Keys + {b.count}
              && r.graph.adj[b.count] == Elems(Targets(b.front, qs).value)
              && (forall x :: x in b.graph.adj ==> b.graph.adj[x] <= r.graph.adj[x])
  {
    var s1 := AddNode(b.graph, b.count, -1, false, false);
    var s2 := SetMeasAngle(s1.0, b.count, angle);
    var s3 := SetMeasPlane(s2.0, b.count, YZ);
    assert s3.0.adj[b.count] == {};
    GadgetEdgesSpec(s3.0, b.front, qs, b.count);
    if GadgetEdges(s3.0, b.front, qs, b.count).Success? {
      GadgetEdgesFrame(s3.0, b.front, qs, b.count);
      GadgetEdgesNeighbours(s3.0, b.front, qs, b.count);
    }
  }

  /** The closed-form phase-gadget state keeps the invariant. */
  lemma {:induction false} GadgetBuildInv(w: nat, b: Build, adj: map<int, set<int>>, angle: Angle)
    requires Inv(w, b)
    requires WellFormed(GadgetBuild(b, adj, angle).graph)
    requires forall x :: x in b.graph.adj ==> b.graph.adj[x] <= adj[x]
    ensures Inv(w, GadgetBuild(b, adj, angle))
  {
    RangeStep(b.count);
    assert GraphInv(w, GadgetBuild(b, adj, angle));
    GadgetBuildFlowInv(w, b, adj, angle);
  }

  lemma {:induction false} GadgetBuildFlowInv(w: nat, b: Build, adj: map<int, set<int>>, angle: Angle)
    requires Inv(w, b)
    requires WellFormed(GadgetBuild(b, adj, angle).graph)
    requires forall x :: x in b.graph.adj ==> b.graph.adj[x] <= adj[x]
    ensures FlowInv(GadgetBuild(b, adj, angle))
  {
    var r := GadgetBuild(b, adj, angle);
    forall k | k in b.flow
      ensures k in r.graph.adj && b.graph.adj[k] <= r.graph.adj[k]
      ensures k in r.graph.planes && r.graph.planes[k] == b.graph.planes[k]
    {
      assert FlowEntry(b.graph, k, b.flow[k]);
    }
    FlowShapeGrows(b.graph, r.graph, b.flow);
    assert FlowEntry(r.graph, b.count, {b.count});
    assert b.count !in b.front;
  }

  /**
   * A CZ gate: IndexError for an index out of range, else it succeeds exactly
   * when the two front nodes are not yet neighbours (a CZ of a qubit with
   * itself makes a self-loop once), and then only that edge is added.
   */
  lemma {:induction false} StepCZSpec(w: nat, b: Build, q1: int, q2: int)
    requires Inv(w, b)
    ensures PyIndex(w, q1).None? ==> StepCZ(b, q1, q2) == Failure(IndexOutOfRange(q1))
    ensures PyIndex(w, q1).Some? && PyIndex(w, q2).None? ==> StepCZ(b, q1, q2) == Failure(IndexOutOfRange(q2))
    ensures StepCZ(b, q1, q2).Success? <==>
              && PyIndex(w, q1).Some? && PyIndex(w, q2).Some?
              && b.front[PyIndex(w, q2).value] !in b.graph.adj[b.front[PyIndex(w, q1).value]]
    ensures StepCZ(b, q1, q2).Success? ==>
              var r := StepCZ(b, q1, q2).value;
              var a := b.front[PyIndex(w, q1).value];
              var c := b.front[PyIndex(w, q2).value];
              && r == b.(graph := b.graph.(adj := r.graph.adj))
              && r.graph.adj.Keys == b.graph.adj.Keys
              && (forall x :: x in b.graph.adj ==>
                    r.graph.adj[x] == b.graph.adj[x] + (if x == a then {c} else {}) + (if x == c then {a} else {}))
  {
    var i1 := PyIndex(w, q1);
    var i2 := PyIndex(w, q2);
    if i1.Some? && i2.Some? {
      var a := b.front[i1.value];
      var c := b.front[i2.value];
      assert a in b.graph.nodes && c in b.graph.nodes;
      if AddEdge(b.graph, a, c).1.Pass? {
        AddEdgeNeighbours(b.graph, a, c);
      }
    }
  }

  /** A state whose neighbourhoods only grew keeps the invariant. */
  lemma {:induction false} EdgesInv(w: nat, b: Build, adj: map<int, set<int>>)
    requires Inv(w, b)
    requires WellFormed(b.graph.(adj := adj))
    requires forall x :: x in b.graph.adj ==> b.graph.adj[x] <= adj[x]
    ensures Inv(w, b.(graph := b.graph.(adj := adj)))
  {
    var r := b.(graph := b.graph.(adj := adj));
    forall k | k in b.flow
      ensures k in r.graph.adj && b.graph.adj[k] <= r.graph.adj[k]
      ensures k in r.graph.planes && r.graph.planes[k] == b.graph.planes[k]
    {
      assert FlowEntry(b.graph, k, b.flow[k]);
    }
    FlowShapeGrows(b.graph, r.graph, b.flow);
  }

  /** Every gate keeps the invariant; J and phase gadgets add one node each. */
  lemma {:induction false} StepInv(w: nat, b: Build, gate: Gate)
    requires Inv(w, b)
    requires Step(b, gate).Success?
    ensures Inv(w, Step(b, gate).value)
    ensures Step(b, gate).value.count == b.count + (if gate.CZ? then 0 else 1)
  {
    match gate
    case J(q, angle) =>
      StepJSpec(w, b, q, angle);
      JBuildInv(w, b, PyIndex(w, q).value, q, angle);
    case CZ(qs) =>
      StepCZSpec(w, b, qs.0, qs.1);
      EdgesInv(w, b, StepCZ(b, qs.0, qs.1).value.graph.adj);
    case PhaseGadget(qs, angle) =>
      StepPhaseGadgetSpec(w, b, qs, angle);
      GadgetBuildInv(w, b, StepPhaseGadget(b, qs, angle).value.graph.adj, angle);
  }
  /** The invariant holds after any successful run of gates. */
  lemma {:induction false} StepsInv(w: nat, b: Build, gates: seq<Gate>)
    requires Inv(w, b)
    requires Steps(b, gates).Success?
    ensures Inv(w, Steps(b, gates).value)
    ensures Steps(b, gates).value.count == b.count + NewNodes(gates)
    decreases |gates|
  {
    if gates != [] {
      var prefix := gates[..|gates| - 1];
      StepsInv(w, b, prefix);
      StepInv(w, Steps(b, prefix).value, gates[|gates| - 1]);
    }
  }

  /** Once a prefix of the gates fails, the whole run fails with that error. */
  lemma {:induction false} StepsFailureSticks(b: Build, gates: seq<Gate>, k: nat)
    requires WellFormed(b.graph)
    requires k <= |gates|
    requires Steps(b, gates[..k]).Failure?
    ensures Steps(b, gates) == Steps(b, gates[..k])
    decreases |gates|
  {
    if k < |gates| {
      var prefix := gates[..|gates| - 1];
      assert prefix[..k] == gates[..k];
      StepsFailureSticks(b, prefix, k);
    } else {
      assert gates[..k] == gates;
    }
  }

  /** The output loop succeeds on existing nodes and adds exactly them as outputs. */
  lemma {:induction false} MarkOutputsSpec(g: GraphData, front: seq<int>)
    requires WellFormed(g)
    requires forall i :: 0 <= i < |front| ==> front[i] in g.nodes
    ensures MarkOutputs(g, front) == Success(g.(outputs := g.outputs + Elems(front)))
    decreases |front|
  {
    if front != [] {
      var prefix := front[..|front| - 1];
      var last := front[|front| - 1];
      MarkOutputsSpec(g, prefix);
      var before := g.(outputs := g.outputs + Elems(prefix));
      assert Elems(front) == Elems(prefix) + {last} by {
        assert front == prefix + [last];
      }
      assert SetOutput(before, last).0 == g.(outputs := g.outputs + Elems(front)) by {
        assert g.outputs + Elems(prefix) + {last} == g.outputs + Elems(front);
      }
    } else {
      assert g.outputs + Elems(front) == g.outputs;
    }
  }

  /** Distinct elements: the set of them is as large as the list. */
  lemma {:induction false} DistinctCard(s: seq<int>)
    requires Distinct(s)
    ensures |Elems(s)| == |s|
    decreases |s|
  {
    if s != [] {
      var prefix := s[..|s| - 1];
      DistinctCard(prefix);
      assert Elems(s) == Elems(prefix) + {s[|s| - 1]} by {
        assert s == prefix + [s[|s| - 1]];
      }
      assert s[|s| - 1] !in Elems(prefix);
    }
  }

  /**
   * circuit2graph on n qubits: it fails exactly when a gate fails; on success
   * the nodes are 0 .. n + (J and phase-gadget count) - 1, the inputs are
   * the first n nodes, node i carrying qubit index i, the outputs are the n
   * distinct final front nodes, the flow sources are exactly the nodes that
   * are not outputs, and every flow
   * entry is an XY node flowing to one later neighbour or a YZ node flowing
   * to itself.
   */
  lemma {:induction false} TranslateSpec(n: int, gates: seq<Gate>)
    ensures Translate(n, gates).Success? <==> Steps(InitBuild(n), gates).Success?
    ensures Translate(n, gates).Success? ==>
              var g := Translate(n, gates).value.0;
              var flow := Translate(n, gates).value.1;
              var b := Steps(InitBuild(n), gates).value;
              && WellFormed(g)
              && (forall x :: x in g.nodes <==> 0 <= x < Width(n) + NewNodes(gates))
              && (forall x :: x in g.inputs <==> 0 <= x < Width(n))
              && (forall i :: 0 <= i < Width(n) ==> i in g.qIndices && g.qIndices[i] == i)
              && g.outputs == Elems(b.front)
              && |g.outputs| == Width(n)
              && (forall k :: k in flow ==> k in g.nodes && k !in g.outputs)
              && (forall k :: k in g.nodes ==> (k in flow <==> k !in g.outputs))
              && FlowShape(g, flow)
  {
    InitInv(n);
    var s := Steps(InitBuild(n), gates);
    if s.Success? {
      StepsInv(Width(n), InitBuild(n), gates);
      FinalSpec(Width(n), s.value);
      var b := s.value;
      assert InitBuild(n).count == Width(n);
      assert b.count == Width(n) + NewNodes(gates);
    } else {
      assert Translate(n, gates).Failure?;
    }
  }

  /** Marking the fronts of a state that keeps the invariant as outputs succeeds and gives the promised graph. */
  lemma {:induction false} FinalSpec(w: nat, b: Build)
    requires Inv(w, b)
    ensures MarkOutputs(b.graph, b.front) == Success(b.graph.(outputs := Elems(b.front)))
    ensures var g := b.graph.(outputs := Elems(b.front));
            && WellFormed(g)
            && g.nodes == Range(b.count)
            && g.inputs == Range(w)
            && (forall i :: 0 <= i < w ==> i in g.qIndices && g.qIndices[i] == i)
            && |g.outputs| == w
            && (forall k :: k in b.flow ==> k in g.nodes && k !in g.outputs)
            && (forall k :: k in g.nodes ==> (k in b.flow <==> k !in g.outputs))
            && FlowShape(g, b.flow)
  {
    MarkOutputsSpec(b.graph, b.front);
    DistinctCard(b.front);
    var g := b.graph.(outputs := Elems(b.front));
    assert b.graph.outputs + Elems(b.front) == Elems(b.front);
    forall k | k in b.flow
      ensures FlowEntry(g, k, b.flow[k])
    {
      assert FlowEntry(b.graph, k, b.flow[k]);
    }
  }

  // ---------------------------------------------------------------------------
  // circuit2graph, on a GraphState
  // ---------------------------------------------------------------------------

  /** The method's outcome agrees with one step of the translation. */
  ghost predicate Agrees(spec: Result<Build, CircuitError>, g: GraphData,
                         r: Result<(map<int, set<int>>, seq<int>, int), CircuitError>)
  {
    match r
    case Failure(e) => spec == Failure(e)
    case Success(v) => spec == Success(Build(g, v.0, v.1, v.2))
  }

  /** The J branch of circuit2graph's gate loop. */
  method ApplyJ(graph: Graph.GraphState, flow: map<int, set<int>>, front: seq<int>, count: int, q: int, angle: Angle)
    returns (r: Result<(map<int, set<int>>, seq<int>, int), CircuitError>)
    requires graph.Valid()
    modifies graph
    ensures graph.Valid()
    ensures Agrees(StepJ(Build(old(graph.Data()), flow, front, count), q, angle), graph.Data(), r)
  {
    var o := graph.AddPhysicalNode(count, -1, false, false);
    if o.Fail? {
      return Failure(GraphFailure(o.error));
    }
    var idx := PyIndex(|front|, q);
    if idx.None? {
      return Failure(IndexOutOfRange(q));
    }
    var prev := front[idx.value];
    o := graph.AddPhysicalEdge(prev, count);
    if o.Fail? {
      return Failure(GraphFailure(o.error));
    }
    o := graph.SetMeasPlane(prev, XY);
    o := graph.SetMeasAngle(prev, angle);
    o := graph.SetQIndex(count, q);
    if o.Fail? {
      return Failure(GraphFailure(o.error));
    }
    r := Success((flow[prev := {count}], front[idx.value := count], count + 1));
  }

  /** The CZ branch of circuit2graph's gate loop. */
  method ApplyCZ(graph: Graph.GraphState, flow: map<int, set<int>>, front: seq<int>, count: int, q1: int, q2: int)
    returns (r: Result<(map<int, set<int>>, seq<int>, int), CircuitError>)
    requires graph.Valid()
    modifies graph
    ensures graph.Valid()
    ensures Agrees(StepCZ(Build(old(graph.Data()), flow, front, count), q1, q2), graph.Data(), r)
  {
    var i1 := PyIndex(|front|, q1);
    if i1.None? {
      return Failure(IndexOutOfRange(q1));
    }
    var i2 := PyIndex(|front|, q2);
    if i2.None? {
      return Failure(IndexOutOfRange(q2));
    }
    var o := graph.AddPhysicalEdge(front[i1.value], front[i2.value]);
    if o.Fail? {
      return Failure(GraphFailure(o.error));
    }
    r := Success((flow, front, count));
  }

  /** The phase-gadget branch of circuit2graph's gate loop. */
  method ApplyPhaseGadget(graph: Graph.GraphState, flow: map<int, set<int>>, front: seq<int>, count: int,
                          qs: seq<int>, angle: Angle)
    returns (r: Result<(map<int, set<int>>, seq<int>, int), CircuitError>)
    requires graph.Valid()
    modifies graph
    ensures graph.Valid()
    ensures Agrees(StepPhaseGadget(Build(old(graph.Data()), flow, front, count), qs, angle), graph.Data(), r)
  {
    var o := graph.AddPhysicalNode(count, -1, false, false);
    if o.Fail? {
      return Failure(GraphFailure(o.error));
    }
    o := graph.SetMeasAngle(count, angle);
    o := graph.SetMeasPlane(count, YZ);
    ghost var start := graph.Data();
    var t := 0;
    while t < |qs|
      invariant 0 <= t <= |qs|
      invariant graph.Valid()
      invariant GadgetEdges(start, front, qs, count) == GadgetEdges(graph.Data(), front, qs[t..], count)
    {
      var idx := PyIndex(|front|, qs[t]);
      if idx.None? {
        return Failure(IndexOutOfRange(qs[t]));
      }
      o := graph.AddPhysicalEdge(front[idx.value], count);
      if o.Fail? {
        return Failure(GraphFailure(o.error));
      }
      assert qs[t..][1..] == qs[t + 1..];
      t := t + 1;
    }
    r := Success((flow[count := {count}], front, count + 1));
  }

  /** One gate of circuit2graph's gate loop, dispatched on its kind. */
  method ApplyGate(graph: Graph.GraphState, flow: map<int, set<int>>, front: seq<int>, count: int, gate: Gate)
    returns (r: Result<(map<int, set<int>>, seq<int>, int), CircuitError>)
    requires graph.Valid()
    modifies graph
    ensures graph.Valid()
    ensures Agrees(Step(Build(old(graph.Data()), flow, front, count), gate), graph.Data(), r)
  {
    match gate
    case J(q, angle) =>
      r := ApplyJ(graph, flow, front, count, q, angle);
    case CZ(qs) =>
      r := ApplyCZ(graph, flow, front, count, qs.0, qs.1);
    case PhaseGadget(qs, angle) =>
      r := ApplyPhaseGadget(graph, flow, front, count, qs, angle);
  }

  /** circuit2graph's input loop: node i for qubit i, an input carrying qubit index i. */
  method AddInputs(graph: Graph.GraphState, n: int) returns (front: seq<int>, count: int)
    requires graph.Valid() && graph.Data() == EmptyGraph()
    modifies graph
    ensures graph.Valid()
    ensures graph.Data() == InitBuild(n).graph && front == InitBuild(n).front && count == InitBuild(n).count
  {
    front := [];
    count := 0;
    for i := 0 to Width(n)
      invariant graph.Valid()
      invariant graph.Data() == InitBuild(i).graph && front == Iota(i) && count == i
    {
      AddInput(graph, i);
      front := front + [count];
      count := count + 1;
    }
    assert Width(Width(n)) == Width(n);
  }

  /** One round of the input loop: node i joins as an input carrying qubit index i. */
  method AddInput(graph: Graph.GraphState, i: nat)
    requires graph.Valid() && graph.Data() == InitBuild(i).graph
    modifies graph
    ensures graph.Valid() && graph.Data() == InitBuild(i + 1).graph
  {
    InputStep(i);
    var o := graph.AddPhysicalNode(i, -1, true, false);
    o := graph.SetQIndex(i, i);
  }

  /** circuit2graph's output loop: each front node in turn becomes an output. */
  method MarkOutputNodes(graph: Graph.GraphState, front: seq<int>) returns (o: Outcome<CircuitError>)
    requires graph.Valid()
    modifies graph
    ensures graph.Valid()
    ensures o.Pass? ==> MarkOutputs(old(graph.Data()), front) == Success(graph.Data())
    ensures o.Fail? ==> MarkOutputs(old(graph.Data()), front) == Failure(o.error)
  {
    ghost var start := graph.Data();
    var j := 0;
    while j < |front|
      invariant 0 <= j <= |front|
      invariant graph.Valid()
      invariant MarkOutputs(start, front[..j]) == Success(graph.Data())
    {
      assert front[..j + 1][..j] == front[..j];
      var s := graph.SetOutput(front[j]);
      if s.Fail? {
        MarkOutputsFailureSticks(start, front, j + 1);
        return Fail(GraphFailure(s.error));
      }
      j := j + 1;
    }
    assert front[..j] == front;
    o := Pass;
  }

  /**
   * circuit2graph: a fresh graph state and the flow, built gate by gate, or
   * the error the first failing call raises; either way what Translate says.
   */
  method Circuit2Graph(circuit: MBQCCircuit) returns (r: Result<(Graph.GraphState, map<int, set<int>>), CircuitError>)
    ensures r.Failure? ==> Translate(circuit.numQubits, circuit.instructions) == Failure(r.error)
    ensures r.Success? ==> && fresh(r.value.0) && r.value.0.Valid()
                           && Translate(circuit.numQubits, circuit.instructions) == Success((r.value.0.Data(), r.value.1))
  {
    var graph := new Graph.GraphState();
    var front, numNodes := AddInputs(graph, circuit.numQubits);
    var run := ApplyGates(graph, front, numNodes, circuit.numQubits, circuit.instructions);
    if run.Failure? {
      return Failure(run.error);
    }
    var o := MarkOutputNodes(graph, run.value.1);
    if o.Fail? {
      return Failure(o.error);
    }
    r := Success((graph, run.value.0));
  }

  /** circuit2graph's gate loop, from the state the input loop leaves. */
  method ApplyGates(graph: Graph.GraphState, front0: seq<int>, count0: int, n: int, instrs: seq<Gate>)
    returns (r: Result<(map<int, set<int>>, seq<int>, int), CircuitError>)
    requires graph.Valid()
    requires graph.Data() == InitBuild(n).graph && front0 == InitBuild(n).front && count0 == InitBuild(n).count
    modifies graph
    ensures graph.Valid()
    ensures Agrees(Steps(InitBuild(n), instrs), graph.Data(), r)
  {
    var flow: map<int, set<int>> := map[];
    var front, numNodes := front0, count0;
    ghost var b0 := InitBuild(n);
    var k := 0;
    while k < |instrs|
      invariant 0 <= k <= |instrs|
      invariant graph.Valid()
      invariant Steps(b0, instrs[..k]) == Success(Build(graph.Data(), flow, front, numNodes))
      decreases |instrs| - k
    {
      var step := ApplyGate(graph, flow, front, numNodes, instrs[k]);
      assert instrs[..k + 1][..k] == instrs[..k];
      if step.Failure? {
        StepsFailureSticks(b0, instrs, k + 1);
        return Failure(step.error);
      }
      flow, front, numNodes := step.value.0, step.value.1, step.value.2;
      k := k + 1;
    }
    assert instrs[..k] == instrs;
    r := Success((flow, front, numNodes));
  }

  /** One round of the input loop: node i, an input carrying qubit index i. */
  lemma InputStep(i: nat)
    ensures var b := InitBuild(i);
            var s1 := AddNode(b.graph, i, -1, true, false);
            var s2 := SetQIndex(s1.0, i, i);
            && s1.1.Pass? && s2.1.Pass?
            && InitBuild(i + 1).graph == s2.0
            && InitBuild(i + 1).front == b.front + [i]
            && InitBuild(i + 1).count == i + 1
  {
    var b := InitBuild(i);
    var b1 := InitBuild(i + 1);
    RangeStep(i);
    assert b1.graph.adj == b.graph.adj[i := {}];
    assert b1.graph.qIndices == b.graph.qIndices[i := i];
    assert b1.front == b.front + [i];
  }

  /** Once a prefix of the output loop fails, the whole loop fails with that error. */
  lemma {:induction false} MarkOutputsFailureSticks(g: GraphData, front: seq<int>, k: nat)
    requires WellFormed(g)
    requires k <= |front|
    requires MarkOutputs(g, front[..k]).Failure?
    ensures MarkOutputs(g, front) == MarkOutputs(g, front[..k])
    decreases |front|
  {
    if k < |front| {
      var prefix := front[..|front| - 1];
      assert prefix[..k] == front[..k];
      MarkOutputsFailureSticks(g, prefix, k);
    } else {
      assert front[..k] == front;
    }
  }
}
