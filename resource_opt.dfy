/**
 * The space-minimising measurement scheduler of graphix_zx/resource_opt.py.
 *
 * The dependency DAG comes from a flow-construction routine that is not part
 * of this model; it is a parameter here (node -> the nodes that must be
 * measured after it). The graph is read through its field values
 * (`GraphData`), except in `GetSubgraphSequences`, which also writes to the
 * graph's input set.
 */
module ResourceOpt {
  import opened Wrappers
  import opened Sets
  import opened GraphSpec
  import opened Graph

  datatype ScheduleError =
    | MissingKey(node: int)
    | NoMinimum
    | CycleDetected

  // ---------------------------------------------------------------------------
  // Dependencies
  // ---------------------------------------------------------------------------

  /** Every child in the DAG is itself a key of the DAG. */
  predicate Closed(dag: map<int, set<int>>)
  {
    forall m :: m in dag ==> dag[m] <= dag.Keys
  }

  /**
   * get_dependencies: the inverted DAG, mapping each node to the nodes it
   * depends on. A child that is not a key raises (a KeyError in the source).
   */
  method GetDependencies(dag: map<int, set<int>>) returns (r: Result<map<int, set<int>>, ScheduleError>)
    ensures r.Success? <==> Closed(dag)
    ensures r.Success? ==> r.value.Keys == dag.Keys
    ensures r.Success? ==> forall c, m :: c in r.value ==> (m in r.value[c] <==> m in dag && c in dag[m])
    ensures r.Failure? ==> r.error.MissingKey? && r.error.node !in dag &&
                           exists m :: m in dag && r.error.node in dag[m]
  {
    var inverted: map<int, set<int>> := map node | node in dag :: {};
    var todo := dag.Keys;
    while todo != {}
      invariant todo <= dag.Keys && inverted.Keys == dag.Keys
      invariant forall m :: m in dag.Keys - todo ==> dag[m] <= dag.Keys
      invariant forall c, m :: c in inverted ==> (m in inverted[c] <==> m in dag.Keys - todo && c in dag[m])
      decreases todo
    {
      NonEmptyHasNode(todo);
      var node :| node in todo;
      var children := dag[node];
      var left := children;
      while left != {}
        invariant left <= children && inverted.Keys == dag.Keys
        invariant children - left <= dag.Keys
        invariant forall c, m :: c in inverted ==>
                    (m in inverted[c] <==> (m in dag.Keys - todo && c in dag[m]) || (m == node && c in children - left))
        decreases left
      {
        NonEmptyHasNode(left);
        var child :| child in left;
        if child !in inverted {
          return Failure(MissingKey(child));
        }
        inverted := inverted[child := inverted[child] + {node}];
        left := left - {child};
      }
      todo := todo - {node};
    }
    assert dag.Keys - todo == dag.Keys;
    r := Success(inverted);
  }

  /** The inverted DAG as a value. */
  ghost function Inverted(dag: map<int, set<int>>): map<int, set<int>>
  {
    map c | c in dag :: set m | m in dag && c in dag[m]
  }

  // ---------------------------------------------------------------------------
  // Activation
  // ---------------------------------------------------------------------------

  /** get_activation_nodes: the target's neighbours not yet activated. */
  function ActivationNodes(g: GraphData, target: int, activated: set<int>): (r: set<int>)
    requires target in g.adj
    ensures r <= g.adj[target] && r !! activated
    ensures forall n :: n in g.adj[target] ==> n in r || n in activated
  {
    g.adj[target] - activated
  }

  /** count_activation_cost: how many neighbours measuring the target would newly activate. */
  function ActivationCost(g: GraphData, target: int, activated: set<int>): (r: nat)
    requires target in g.adj
    ensures r <= |g.adj[target]|
    ensures r == 0 <==> g.adj[target] <= activated
  {
    SubsetSize(ActivationNodes(g, target, activated), g.adj[target]);
    |ActivationNodes(g, target, activated)|
  }

  lemma SubsetSize(a: set<int>, b: set<int>)
    requires a <= b
    ensures |a| <= |b|
  {
    assert b == a + (b - a);
  }

  /**
   * The activated nodes after measuring the targets in order: the inputs,
   * then each target and its neighbours.
   */
  function Activated(g: GraphData, order: seq<int>): set<int>
    requires forall i :: 0 <= i < |order| ==> order[i] in g.adj
  {
    if order == [] then g.inputs
    else
      var t := order[|order| - 1];
      Activated(g, order[..|order| - 1]) + ActivationNodes(g, t, Activated(g, order[..|order| - 1])) + {t}
  }

  /** In a well-formed graph every activated node is a node. */
  lemma {:induction false} ActivatedInNodes(g: GraphData, order: seq<int>)
    requires WellFormed(g)
    requires forall i :: 0 <= i < |order| ==> order[i] in g.adj
    ensures Activated(g, order) <= g.nodes
  {
    if order != [] {
      var t := order[|order| - 1];
      ActivatedInNodes(g, order[..|order| - 1]);
      forall b | b in g.adj[t] ensures b in g.nodes {
        SymmetricAt(g.adj, t, b);
      }
    }
  }

  /** The activated nodes are the inputs, the targets and the targets' neighbours. */
  lemma {:induction false} ActivatedSpec(g: GraphData, order: seq<int>)
    requires forall i :: 0 <= i < |order| ==> order[i] in g.adj
    ensures forall n :: n in Activated(g, order) <==>
              n in g.inputs || exists i :: 0 <= i < |order| && (n == order[i] || n in g.adj[order[i]])
  {
    if order != [] {
      var init := order[..|order| - 1];
      ActivatedSpec(g, init);
      forall n ensures n in Activated(g, order) <==>
                       n in g.inputs || exists i :: 0 <= i < |order| && (n == order[i] || n in g.adj[order[i]])
      {
        if exists i :: 0 <= i < |order| && (n == order[i] || n in g.adj[order[i]]) {
          var i :| 0 <= i < |order| && (n == order[i] || n in g.adj[order[i]]);
          if i < |init| {
            assert init[i] == order[i];
          }
        }
        if exists i :: 0 <= i < |init| && (n == init[i] || n in g.adj[init[i]]) {
          var i :| 0 <= i < |init| && (n == init[i] || n in g.adj[init[i]]);
          assert init[i] == order[i];
        }
      }
    }
  }

  // ---------------------------------------------------------------------------
  // find_min_from_dict
  // ---------------------------------------------------------------------------

  /** Entry i has the least value, and no earlier entry has it. */
  predicate FirstMinimum(entries: seq<(int, int)>, i: int)
    requires 0 <= i < |entries|
  {
    && (forall j :: 0 <= j < |entries| ==> entries[i].1 <= entries[j].1)
    && (forall j :: 0 <= j < i ==> entries[j].1 > entries[i].1)
  }

  /**
   * find_min_from_dict over the entries in iteration order: the key of the
   * first entry with the least value; raises on no entries.
   */
  method FindMinFromDict(entries: seq<(int, int)>) returns (r: Result<int, ScheduleError>)
    ensures r.Failure? <==> entries == []
    ensures r.Failure? ==> r.error == NoMinimum
    ensures r.Success? ==> exists i :: 0 <= i < |entries| && entries[i].0 == r.value && FirstMinimum(entries, i)
  {
    var minIndex: Option<int> := None;
    var minValue := 0;
    ghost var pos := 0;
    var k := 0;
    while k < |entries|
      invariant 0 <= k <= |entries|
      invariant minIndex.None? <==> k == 0
      invariant minIndex.Some? ==> 0 <= pos < k && entries[pos].0 == minIndex.value && entries[pos].1 == minValue
      invariant minIndex.Some? ==> forall j :: 0 <= j < k ==> minValue <= entries[j].1
      invariant minIndex.Some? ==> forall j :: 0 <= j < pos ==> entries[j].1 > minValue
    {
      var (key, value) := entries[k];
      if minIndex.None? || value < minValue {
        minIndex := Some(key);
        minValue := value;
        pos := k;
      }
      k := k + 1;
    }
    if minIndex.None? {
      return Failure(NoMinimum);
    }
    r := Success(minIndex.value);
  }

  // ---------------------------------------------------------------------------
  // get_minimized_sp_meas_order
  // ---------------------------------------------------------------------------

  /** The unmeasured non-output nodes whose dependencies are all measured. */
  ghost function Candidates(g: GraphData, inv: map<int, set<int>>, done: set<int>): set<int>
  {
    set n | n in g.nodes && n !in g.outputs && n !in done && n in inv && inv[n] <= done
  }

  /** Step i measured a candidate of least activation cost. */
  ghost predicate Greedy(g: GraphData, inv: map<int, set<int>>, order: seq<int>, i: int)
    requires 0 <= i < |order|
    requires g.nodes == g.adj.Keys
    requires forall k :: 0 <= k < |order| ==> order[k] in g.adj
  {
    var done := order[..i];
    && order[i] in Candidates(g, inv, Elems(done))
    && forall c :: c in Candidates(g, inv, Elems(done)) ==>
         ActivationCost(g, order[i], Activated(g, done)) <= ActivationCost(g, c, Activated(g, done))
  }

  /** A measurement order the greedy scheduler can produce. */
  ghost predicate Schedule(g: GraphData, inv: map<int, set<int>>, order: seq<int>)
  {
    && g.nodes == g.adj.Keys
    && (forall k :: 0 <= k < |order| ==> order[k] in g.adj)
    && forall i :: 0 <= i < |order| ==> Greedy(g, inv, order, i)
  }

  /** Appending a least-cost candidate keeps a schedule a schedule. */
  lemma ScheduleExtend(g: GraphData, inv: map<int, set<int>>, order: seq<int>, t: int)
    requires WellFormed(g) && Schedule(g, inv, order)
    requires t in Candidates(g, inv, Elems(order))
    requires forall c :: c in Candidates(g, inv, Elems(order)) ==>
               ActivationCost(g, t, Activated(g, order)) <= ActivationCost(g, c, Activated(g, order))
    ensures Schedule(g, inv, order + [t])
  {
    var next := order + [t];
    forall i | 0 <= i < |next| ensures Greedy(g, inv, next, i) {
      if i < |order| {
        assert next[..i] == order[..i];
        assert Greedy(g, inv, order, i);
      } else {
        assert next[..i] == order;
      }
    }
  }

  /** Every node of a schedule is measured after all the nodes it depends on, and once. */
  lemma ScheduleOrder(g: GraphData, dag: map<int, set<int>>, order: seq<int>)
    requires Schedule(g, Inverted(dag), order)
    ensures forall i, m :: 0 <= i < |order| && m in dag && order[i] in dag[m] ==> m in order[..i]
    ensures forall i, j :: 0 <= i < j < |order| ==> order[i] != order[j]
  {
    forall i, m | 0 <= i < |order| && m in dag && order[i] in dag[m] ensures m in order[..i] {
      assert Greedy(g, Inverted(dag), order, i);
      assert m in Inverted(dag)[order[i]];
    }
    forall i, j | 0 <= i < j < |order| ensures order[i] != order[j] {
      assert Greedy(g, Inverted(dag), order, j);
      assert order[i] in order[..j];
    }
  }

  /**
   * A node depending on an output can never be measured: no schedule that
   * covers every non-output node exists, so the scheduler reports a cycle.
   */
  lemma OutputDependencyBlocks(g: GraphData, dag: map<int, set<int>>, order: seq<int>, m: int, n: int)
    requires Schedule(g, Inverted(dag), order)
    requires m in dag && m in g.outputs && n in dag[m] && n in g.nodes && n !in g.outputs
    ensures n !in Elems(order) && Elems(order) != g.nodes - g.outputs
  {
    ScheduleOrder(g, dag, order);
    forall i | 0 <= i < |order| ensures order[i] != n {
      forall j | 0 <= j < i ensures order[..i][j] != m {
        assert Greedy(g, Inverted(dag), order, j);
      }
      assert m !in order[..i];
    }
  }

  /** The nodes among the unmeasured whose remaining dependency set is empty. */
  function Ready(unmeasured: set<int>, inverted: map<int, set<int>>): set<int>
  {
    set n | n in unmeasured && n in inverted && inverted[n] == {}
  }

  /**
   * The candidate scan: the ready nodes, or a raise on an unmeasured node
   * that is not a key.
   */
  method ReadyNodes(unmeasured: set<int>, inverted: map<int, set<int>>) returns (r: Result<set<int>, ScheduleError>)
    ensures r.Success? <==> unmeasured <= inverted.Keys
    ensures r.Success? ==> r.value == Ready(unmeasured, inverted)
    ensures r.Failure? ==> r.error.MissingKey? && r.error.node in unmeasured && r.error.node !in inverted
  {
    var candidates: set<int> := {};
    var todo := unmeasured;
    while todo != {}
      invariant todo <= unmeasured
      invariant unmeasured - todo <= inverted.Keys
      invariant candidates == Ready(unmeasured - todo, inverted)
      decreases todo
    {
      NonEmptyHasNode(todo);
      var node :| node in todo;
      if node !in inverted {
        return Failure(MissingKey(node));
      }
      if |inverted[node]| == 0 {
        candidates := candidates + {node};
      }
      todo := todo - {node};
    }
    assert unmeasured - todo == unmeasured;
    r := Success(candidates);
  }

  /** The keys of a list of entries. */
  function EntryKeys(entries: seq<(int, int)>): set<int>
  {
    set i | 0 <= i < |entries| :: entries[i].0
  }

  lemma EntryKeysAppend(entries: seq<(int, int)>, e: (int, int))
    ensures EntryKeys(entries + [e]) == EntryKeys(entries) + {e.0}
  {
    var r := entries + [e];
    assert forall i :: 0 <= i < |entries| ==> r[i] == entries[i];
    assert r[|entries|] == e;
  }

  /** The activation cost of every candidate, as (node, cost) entries in iteration order. */
  method CostEntries(g: GraphData, candidates: set<int>, activated: set<int>) returns (entries: seq<(int, int)>)
    requires candidates <= g.adj.Keys
    ensures forall i :: 0 <= i < |entries| ==>
              entries[i].0 in candidates && entries[i].1 == ActivationCost(g, entries[i].0, activated)
    ensures EntryKeys(entries) == candidates
    ensures |entries| == |candidates|
  {
    entries := [];
    var todo := candidates;
    while todo != {}
      invariant todo <= candidates
      invariant |entries| == |EntryKeys(entries)|
      invariant forall i :: 0 <= i < |entries| ==>
                  entries[i].0 in candidates && entries[i].1 == ActivationCost(g, entries[i].0, activated)
      invariant EntryKeys(entries) == candidates - todo
      decreases todo
    {
      NonEmptyHasNode(todo);
      var node :| node in todo;
      EntryKeysAppend(entries, (node, ActivationCost(g, node, activated)));
      entries := entries + [(node, ActivationCost(g, node, activated))];
      todo := todo - {node};
    }
  }

  /**
   * One round of the scheduler: among the ready nodes, the one find_min_from_dict
   * picks, of least activation cost; raises on a missing key, and reports a
   * cycle when no node is ready.
   */
  method ChooseTarget(g: GraphData, unmeasured: set<int>, inverted: map<int, set<int>>, activated: set<int>)
    returns (r: Result<int, ScheduleError>)
    requires unmeasured <= g.adj.Keys
    ensures !(unmeasured <= inverted.Keys) ==> r.Failure? && r.error.MissingKey? && r.error.node in unmeasured - inverted.Keys
    ensures unmeasured <= inverted.Keys ==> (r == Failure(CycleDetected) <==> Ready(unmeasured, inverted) == {})
    ensures unmeasured <= inverted.Keys ==> r.Success? || r == Failure(CycleDetected)
    ensures r.Success? ==> && r.value in Ready(unmeasured, inverted)
                           && forall c :: c in Ready(unmeasured, inverted) ==>
                                ActivationCost(g, r.value, activated) <= ActivationCost(g, c, activated)
  {
    var ready := ReadyNodes(unmeasured, inverted);
    if ready.Failure? {
      return Failure(ready.error);
    }
    var candidates := ready.value;
    if candidates == {} {
      return Failure(CycleDetected);
    }
    var entries := CostEntries(g, candidates, activated);
    assert entries != [] by {
      NonEmptyHasNode(candidates);
      var some :| some in candidates;
      assert some in EntryKeys(entries);
    }
    var found := FindMinFromDict(entries);
    var target := found.value;
    var i :| 0 <= i < |entries| && entries[i].0 == target && FirstMinimum(entries, i);
    assert target in EntryKeys(entries);
    forall c | c in candidates
      ensures ActivationCost(g, target, activated) <= ActivationCost(g, c, activated)
    {
      assert c in EntryKeys(entries);
      var j :| 0 <= j < |entries| && entries[j].0 == c;
    }
    r := Success(target);
  }

  /** The inverted DAG with the measured nodes taken out of every dependency set. */
  ghost function Remaining(inv: map<int, set<int>>, done: set<int>): map<int, set<int>>
  {
    map k | k in inv :: inv[k] - done
  }

  lemma RemainingNone(inv: map<int, set<int>>)
    ensures Remaining(inv, Elems([])) == inv
  {
    assert Elems([]) == {};
    forall k | k in inv ensures Remaining(inv, {})[k] == inv[k] {
    }
  }

  lemma RemainingStep(inv: map<int, set<int>>, done: set<int>, t: int)
    ensures (map k | k in Remaining(inv, done) :: Remaining(inv, done)[k] - {t}) == Remaining(inv, done + {t})
  {
    var stepped := map k | k in Remaining(inv, done) :: Remaining(inv, done)[k] - {t};
    forall k | k in inv ensures stepped[k] == Remaining(inv, done + {t})[k] {
    }
  }

  /** The scheduler's loop invariant. */
  ghost predicate SchedulerState(g: GraphData, inv: map<int, set<int>>, order: seq<int>,
                                 inverted: map<int, set<int>>, unmeasured: set<int>, activated: set<int>)
  {
    && WellFormed(g)
    && inverted == Remaining(inv, Elems(order))
    && Elems(order) <= g.nodes - g.outputs
    && unmeasured == (g.nodes - g.outputs) - Elems(order)
    && |order| == |Elems(order)|
    && Schedule(g, inv, order)
    && activated == Activated(g, order)
  }

  lemma EmptyDifference(a: set<int>, b: set<int>)
    ensures a - b == {} <==> a <= b
  {
    if a <= b {
      assert forall x :: x !in a - b;
    }
    if a - b == {} {
      forall x | x in a ensures x in b {
        assert x !in a - b;
      }
    }
  }

  /** In the scheduler's state, the ready nodes are the candidates. */
  lemma ReadyAreCandidates(g: GraphData, inv: map<int, set<int>>, order: seq<int>,
                           inverted: map<int, set<int>>, unmeasured: set<int>, activated: set<int>)
    requires SchedulerState(g, inv, order, inverted, unmeasured, activated)
    ensures Ready(unmeasured, inverted) == Candidates(g, inv, Elems(order))
  {
    forall n ensures n in Ready(unmeasured, inverted) <==> n in Candidates(g, inv, Elems(order)) {
      if n in inverted {
        assert inverted[n] == inv[n] - Elems(order);
        EmptyDifference(inv[n], Elems(order));
      }
    }
  }

  /** Measuring a least-cost ready node keeps the scheduler's invariant. */
  lemma SchedulerStep(g: GraphData, inv: map<int, set<int>>, order: seq<int>,
                      inverted: map<int, set<int>>, unmeasured: set<int>, activated: set<int>, t: int)
    requires SchedulerState(g, inv, order, inverted, unmeasured, activated)
    requires t in Ready(unmeasured, inverted)
    requires forall c :: c in Ready(unmeasured, inverted) ==>
               ActivationCost(g, t, activated) <= ActivationCost(g, c, activated)
    ensures SchedulerState(g, inv, order + [t], map k | k in inverted :: inverted[k] - {t},
                           unmeasured - {t}, activated + ActivationNodes(g, t, activated) + {t})
  {
    ReadyAreCandidates(g, inv, order, inverted, unmeasured, activated);
    ScheduleExtend(g, inv, order, t);
    var next := order + [t];
    assert Elems(next) == Elems(order) + {t};
    assert next[..|order|] == order;
    RemainingStep(inv, Elems(order), t);
  }

  /**
   * get_minimized_sp_meas_order: repeatedly measure, among the non-output
   * nodes whose dependencies are all measured, one that newly activates the
   * fewest neighbours. On success every non-output node is measured once;
   * when no node is ready the scheduler stops with "cycle detected", and
   * `stuck` is the order reached so far.
   */
  method GetMinimizedSpMeasOrder(g: GraphData, dag: map<int, set<int>>)
    returns (r: Result<seq<int>, ScheduleError>, ghost stuck: seq<int>)
    requires WellFormed(g)
    ensures !Closed(dag) ==> r.Failure? && r.error.MissingKey? && r.error.node !in dag
    ensures Closed(dag) && !(g.nodes - g.outputs <= dag.Keys) ==>
              r.Failure? && r.error.MissingKey? && r.error.node in g.nodes - g.outputs && r.error.node !in dag
    ensures Closed(dag) && g.nodes - g.outputs <= dag.Keys ==> r.Success? || r == Failure(CycleDetected)
    ensures r.Success? ==> && Schedule(g, Inverted(dag), r.value)
                           && Elems(r.value) == g.nodes - g.outputs
                           && |r.value| == |g.nodes - g.outputs|
    ensures r == Failure(CycleDetected) ==> && Schedule(g, Inverted(dag), stuck)
                                            && Elems(stuck) < g.nodes - g.outputs
                                            && Candidates(g, Inverted(dag), Elems(stuck)) == {}
  {
    stuck := [];
    var dependencies := GetDependencies(dag);
    if dependencies.Failure? {
      return Failure(dependencies.error), stuck;
    }
    var inverted := dependencies.value;
    assert inverted == Inverted(dag) by {
      forall c | c in inverted ensures inverted[c] == Inverted(dag)[c] {
        forall m ensures m in inverted[c] <==> m in Inverted(dag)[c] {
        }
      }
    }
    r, stuck := MeasureAll(g, inverted);
  }

  /** The scheduler's loop, over the inverted DAG `inv`. */
  method MeasureAll(g: GraphData, inv: map<int, set<int>>) returns (r: Result<seq<int>, ScheduleError>, ghost stuck: seq<int>)
    requires WellFormed(g)
    ensures !(g.nodes - g.outputs <= inv.Keys) ==>
              r.Failure? && r.error.MissingKey? && r.error.node in g.nodes - g.outputs && r.error.node !in inv
    ensures g.nodes - g.outputs <= inv.Keys ==> r.Success? || r == Failure(CycleDetected)
    ensures r.Success? ==> && Schedule(g, inv, r.value)
                           && Elems(r.value) == g.nodes - g.outputs
                           && |r.value| == |g.nodes - g.outputs|
    ensures r == Failure(CycleDetected) ==> && Schedule(g, inv, stuck)
                                            && Elems(stuck) < g.nodes - g.outputs
                                            && Candidates(g, inv, Elems(stuck)) == {}
  {
    stuck := [];
    var inverted := inv;
    var activated := g.inputs;
    var unmeasured := g.nodes - g.outputs;
    var order: seq<int> := [];
    RemainingNone(inv);
    while unmeasured != {}
      invariant SchedulerState(g, inv, order, inverted, unmeasured, activated)
      invariant order != [] ==> g.nodes - g.outputs <= inv.Keys
      decreases unmeasured
    {
      var chosen := ChooseTarget(g, unmeasured, inverted, activated);
      if chosen.Failure? {
        assert inverted.Keys == inv.Keys;
        if chosen.error == CycleDetected {
          ReadyAreCandidates(g, inv, order, inverted, unmeasured, activated);
          stuck := order;
        }
        return Failure(chosen.error), stuck;
      }
      var target := chosen.value;
      SchedulerStep(g, inv, order, inverted, unmeasured, activated, target);
      order := order + [target];
      activated := activated + ActivationNodes(g, target, activated) + {target};
      unmeasured := unmeasured - {target};
      inverted := map k | k in inverted :: inverted[k] - {target};
    }
    SchedulerDone(g, inv, order, inverted, activated);
    r := Success(order);
  }

  /** With nothing left unmeasured, the order holds every non-output node exactly once. */
  lemma SchedulerDone(g: GraphData, inv: map<int, set<int>>, order: seq<int>,
                      inverted: map<int, set<int>>, activated: set<int>)
    requires SchedulerState(g, inv, order, inverted, {}, activated)
    ensures Elems(order) == g.nodes - g.outputs
    ensures |order| == |g.nodes - g.outputs|
  {
    EmptyDifference(g.nodes - g.outputs, Elems(order));
  }

  // ---------------------------------------------------------------------------
  // get_subgraph_sequences
  // ---------------------------------------------------------------------------

  /** The q-index map restricted to some nodes. */
  function IndicesOf(g: GraphData, nodes: set<int>): map<int, int>
    requires nodes <= g.qIndices.Keys
  {
    map n | n in nodes :: g.qIndices[n]
  }

  /** The first snapshot: the inputs alone, each marked input and output. */
  function InitialSnapshot(g: GraphData): GraphData
    requires g.inputs <= g.qIndices.Keys
  {
    GraphData(g.inputs, g.inputs, g.inputs, map n | n in g.inputs :: {}, map[], map[], IndicesOf(g, g.inputs))
  }

  /**
   * The snapshot before measuring the target: the target joined to each of
   * its neighbours. Already activated neighbours (and the target, if
   * activated) are inputs; all neighbours are outputs.
   */
  function Snapshot(g: GraphData, target: int, activated: set<int>): GraphData
    requires target in g.adj && target in g.planes && target in g.angles
    requires target in g.qIndices && g.adj[target] <= g.qIndices.Keys
  {
    var nbrs := g.adj[target];
    GraphData(
      (if target in activated then {target} else {}) + (nbrs - ActivationNodes(g, target, activated)),
      nbrs,
      {target} + nbrs,
      map n | n in {target} + nbrs :: if n == target then nbrs else {target},
      map[target := g.planes[target]],
      map[target := g.angles[target]],
      IndicesOf(g, {target} + nbrs))
  }

  /** The last snapshot: the outputs alone, marked input and output, with the edges among them. */
  function LastSnapshot(g: GraphData): GraphData
    requires g.nodes == g.adj.Keys && g.outputs <= g.nodes && g.outputs <= g.qIndices.Keys
  {
    GraphData(g.outputs, g.outputs, g.outputs, map n | n in g.outputs :: g.adj[n] * g.outputs - {n},
              map[], map[], IndicesOf(g, g.outputs))
  }

  /**
   * What the source reads from the graph for a measured node (its neighbours,
   * plane and angle, and the qubit indices of it and its neighbours), and no
   * self-loop on it.
   */
  predicate Measurable(g: GraphData, t: int)
  {
    && t in g.adj && t in g.planes && t in g.angles
    && t in g.qIndices && g.adj[t] <= g.qIndices.Keys
    && t !in g.adj[t]
  }

  /** An undirected edge as (smaller, larger). */
  function Ordered(a: int, b: int): (int, int)
  {
    if a < b then (a, b) else (b, a)
  }

  /** The first snapshot is a graph holding just the inputs, with no edges. */
  lemma InitialSnapshotSpec(g: GraphData)
    requires WellFormed(g) && g.inputs <= g.qIndices.Keys
    ensures var s := InitialSnapshot(g);
            && WellFormed(s) && s.nodes == s.inputs == s.outputs == g.inputs
            && EdgeSet(s.adj) == {}
            && forall n :: n in s.nodes ==> n in s.qIndices && s.qIndices[n] == g.qIndices[n]
  {
    var s := InitialSnapshot(g);
    assert forall e :: e !in EdgeSet(s.adj);
  }

  /**
   * A measurement snapshot is a graph on the target and its neighbours,
   * without self-loops; every neighbour is an output, the target is not, and
   * only the target has a plane and an angle.
   */
  lemma SnapshotShape(g: GraphData, t: int, activated: set<int>)
    requires WellFormed(g) && Measurable(g, t)
    ensures var s := Snapshot(g, t, activated);
            && WellFormed(s) && NoSelfLoops(s.adj)
            && s.nodes == {t} + g.adj[t]
            && s.outputs == g.adj[t] && t !in s.outputs
            && s.planes.Keys == s.angles.Keys == {t}
  {
  }

  /**
   * In a measurement snapshot a neighbour is an input exactly when it was
   * already activated, and so is the target.
   */
  lemma SnapshotInputs(g: GraphData, t: int, activated: set<int>)
    requires WellFormed(g) && Measurable(g, t)
    ensures var s := Snapshot(g, t, activated);
            && (forall n :: n in g.adj[t] ==> (n in s.inputs <==> n in activated))
            && (t in s.inputs <==> t in activated)
  {
  }

  /** The edges of a measurement snapshot are exactly target-neighbour, each once. */
  lemma SnapshotEdges(g: GraphData, t: int, activated: set<int>)
    requires WellFormed(g) && Measurable(g, t)
    ensures EdgeSet(Snapshot(g, t, activated).adj) == (set n | n in g.adj[t] :: Ordered(n, t))
  {
    var s := Snapshot(g, t, activated);
    var nbrs := g.adj[t];
    forall e | e in EdgeSet(s.adj) ensures e in set n | n in nbrs :: Ordered(n, t) {
      var a, b :| a in s.adj && b in s.adj[a] && a < b && e == (a, b);
      if a == t {
        assert b in nbrs;
      } else {
        assert b == t && a in nbrs;
      }
    }
    forall n | n in nbrs ensures Ordered(n, t) in EdgeSet(s.adj) {
      assert n != t;
      assert n in s.adj[t] && t in s.adj[n];
    }
  }

  /**
   * The last snapshot is a graph on the outputs whose edges are exactly the
   * graph's edges between two outputs, each once.
   */
  lemma LastSnapshotSpec(g: GraphData)
    requires WellFormed(g) && g.outputs <= g.qIndices.Keys
    ensures var s := LastSnapshot(g);
            && WellFormed(s) && NoSelfLoops(s.adj)
            && s.nodes == s.inputs == s.outputs == g.outputs
            && EdgeSet(s.adj) == (set e | e in EdgeSet(g.adj) && e.0 in g.outputs && e.1 in g.outputs)
  {
    var s := LastSnapshot(g);
    forall e | e in EdgeSet(s.adj) ensures e in EdgeSet(g.adj) {
      var a, b :| a in s.adj && b in s.adj[a] && a < b && e == (a, b);
    }
    forall e | e in EdgeSet(g.adj) && e.0 in g.outputs && e.1 in g.outputs ensures e in EdgeSet(s.adj) {
      var a, b :| a in g.adj && b in g.adj[a] && a < b && e == (a, b);
      assert b in s.adj[a];
    }
  }

  /**
   * Each target can be read from the graph: it has a neighbour set, a plane
   * and an angle, and it and its neighbours have qubit indices.
   */
  predicate Readable(g: GraphData, order: seq<int>)
  {
    forall i :: 0 <= i < |order| ==>
      && order[i] in g.adj && order[i] in g.planes && order[i] in g.angles
      && order[i] in g.qIndices && g.adj[order[i]] <= g.qIndices.Keys
  }

  /** The snapshots before each measurement, in order. */
  function Snapshots(g: GraphData, order: seq<int>): (r: seq<GraphData>)
    requires Readable(g, order)
    ensures |r| == |order|
  {
    if order == [] then []
    else
      var init := order[..|order| - 1];
      Snapshots(g, init) + [Snapshot(g, order[|order| - 1], Activated(g, init))]
  }

  /** Snapshot i shows target i with the nodes activated by the targets before it. */
  lemma {:induction false} SnapshotsAt(g: GraphData, order: seq<int>, i: int)
    requires Readable(g, order)
    requires 0 <= i < |order|
    ensures Snapshots(g, order)[i] == Snapshot(g, order[i], Activated(g, order[..i]))
    decreases |order|
  {
    var init := order[..|order| - 1];
    if i < |init| {
      SnapshotsAt(g, init, i);
      assert init[..i] == order[..i];
    }
  }

  /**
   * get_subgraph_sequences: a snapshot of the inputs, one snapshot before
   * each measurement, and a snapshot of the outputs. The activated set it
   * grows is the graph's own input set, so the graph's inputs end up as
   * all activated nodes, and the graph stays well formed.
   */
  method GetSubgraphSequences(graph: GraphState, measOrder: seq<int>) returns (subgraphs: seq<GraphData>)
    requires graph.Valid()
    requires graph.inputNodes + graph.outputNodes <= graph.qIndices.Keys
    requires Readable(graph.Data(), measOrder)
    requires forall i :: 0 <= i < |measOrder| ==> measOrder[i] !in graph.physicalEdges[measOrder[i]]
    modifies graph
    ensures graph.Valid()
    ensures graph.Data() == old(graph.Data()).(inputs := Activated(old(graph.Data()), measOrder))
    ensures subgraphs == [InitialSnapshot(old(graph.Data()))] + Snapshots(old(graph.Data()), measOrder)
                         + [LastSnapshot(old(graph.Data()))]
  {
    var g := graph.Data();
    var snapshots: seq<GraphData> := [];
    var k := 0;
    while k < |measOrder|
      invariant 0 <= k <= |measOrder|
      invariant graph.Data() == g.(inputs := Activated(g, measOrder[..k]))
      invariant snapshots == Snapshots(g, measOrder[..k])
    {
      var target := measOrder[k];
      assert measOrder[..k + 1][..k] == measOrder[..k];
      var activation := ActivationNodes(g, target, graph.inputNodes);
      snapshots := snapshots + [Snapshot(g, target, graph.inputNodes)];
      graph.inputNodes := graph.inputNodes + {target} + activation;
      k := k + 1;
    }
    assert measOrder[..k] == measOrder;
    ActivatedInNodes(g, measOrder);
    subgraphs := [InitialSnapshot(g)] + snapshots + [LastSnapshot(g)];
  }
}
