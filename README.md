# graphix_zx core, modelled in Dafny

This project models the discrete core of graphix_zx, a measurement-based
quantum computing (MBQC) tool-chain:

- the open graph state (`GraphState`): its nodes, symmetric adjacency,
  input/output boundary, measurement planes and angles, and qubit indices;
  its guarded mutators, and `append`, which merges two graphs over a boundary;
- the measurement-pattern builder (`MutablePattern`, `ImmutablePattern`,
  `is_standardized`): a command sequence with its live output set, the
  space counts, and boundary-checked concatenation;
- the space-minimising measurement scheduler and the per-measurement
  subgraph snapshots of `resource_opt.py`;
- the translation `circuit2graph` of a J / CZ / phase-gadget circuit into a
  graph state and its flow;
- the Pauli-axis / planar measurement-basis algebra of `common.py`, and the
  XOR decoder.

Angles are exact reals in units of pi: the angle `a` stands for `a * pi`
radians. Integers are unbounded, as Python's are.

Each mutable class of the source is a Dafny `class` with the same fields:
`Graph.GraphState`, `Pattern.MutablePattern` and `Circuit.MBQCCircuit`. Each
of its methods is proved against a function on the value of those fields
(`GraphSpec.GraphData`, `Pattern.PatternData`). The contract has the shape
`(Data(), r) == AddNode(old(Data()), ...)`.

A Python exception is an `Outcome.Fail` or a `Result.Failure`. It is kept
together with whatever state the source had already changed before raising.
Loops over Python sets and dicts pick their next element arbitrarily. So every
property of such a loop holds for every iteration order.

Modules, one per file:

- `wrappers.dfy`: Option, Result and Outcome.
- `sets.dfy`: small set and map facts.
- `common.dfy`: the basis algebra.
- `decoder.dfy`: the XOR decoder.
- `graph_spec.dfy`: the graph as values.
- `graphstate.dfy`: the `GraphState` class.
- `pattern.dfy`: the patterns.
- `resource_opt.dfy`: the scheduler.
- `circuit.dfy`: the circuit and `circuit2graph`.

Behaviours of the code that the model keeps as they are:

- **Self-loops.** `add_physical_edge(n, n)` is accepted (`graphstate.py:137-148`
  checks only that both ends exist and the edge is new). See `GraphSpec.AddEdge`
  and `GraphSpec.SelfLoopsMiscount`.
- **Partial mutation.** A failing mutation can leave partial changes:
  - `add_physical_node` with a qubit index below -1 leaves the node inserted;
  - `append` leaves the merged nodes behind when an edge clash raises, and the
    merged nodes and all of other's edges when a qubit-index check raises.
- **Error kinds.** The source's own errors are modelled:
  - `append`'s qubit-index disagreement is a `QubitIndexMismatch` raised after
    the merge. A shared node that self has no index for is a `MissingQubitIndex`
    (a KeyError in the source). Neither is a `BoundaryMismatch`.
  - `append_pattern` fails with `Incompatible` ("Patterns are not compatible").
  - The scheduler fails with `CycleDetected` ("Cycle detected in the graph").

## Model

| member | source | states |
|---|---|---|
| Common.AxisMeasBasis.MeasAngle | graphix_zx/common.py:215-235 | the angle of a Pauli axis basis lies in [0, 2π) |
| Common.DefaultMeasBasis | graphix_zx/common.py:283 | the default basis (XY, 0) is the planar form of the +X axis basis |
| Common.AxisPlaneInjective | graphix_zx/common.py:200-211 | each axis has its own plane: two axis bases share a plane exactly when they share the axis |
| Common.AxisFlipInvolution | graphix_zx/common.py:246 | flip keeps the axis, changes the sign, and flipping twice gives the basis back |
| Common.AxisFlipShiftsAngle | graphix_zx/common.py:231-246 | flip keeps the plane and turns the angle by π, modulo 2π |
| Common.AxisConjugateInvolution | graphix_zx/common.py:257-259 | conjugation keeps the plane, changes the sign exactly for the Y axis, and is an involution |
| Common.PlannerFlipTwice | graphix_zx/common.py:129 | planar flip keeps the plane; flipping twice turns the angle by a full 2π |
| Common.PlannerConjugateInvolution | graphix_zx/common.py:148-153 | planar conjugation keeps the plane, is an involution, and fixes a basis exactly when its plane is XZ or its angle is 0 |
| Common.AxisFlipAgreesWithPlanner | graphix_zx/common.py:238-246 | flipping an axis basis and then reading it as a planar basis agrees with flipping its planar form, up to 2π |
| Common.AxisConjugateAgreesWithPlanner | graphix_zx/common.py:248-259 | conjugating an axis basis agrees with conjugating its planar form, up to 2π |
| Decoder.Decode | graphix_zx/decoder_backend.py:42-58 | the keys are exactly the output positions (repeats collapse); each maps to the parity of the number of true input bits |
| Decoder.XorFoldIsParity | graphix_zx/decoder_backend.py:57 | the xor fold from acc is acc xor (an odd number of inputs are true) |
| Decoder.DecodeEmpty | graphix_zx/decoder_backend.py:57 | with no input bits every output decodes to false |
| Decoder.DecodeOrderIndependent | graphix_zx/decoder_backend.py:57 | two input mappings with the same multiset of values decode alike, whatever the entry order |
| GraphSpec.SetQIndex | graphix_zx/graphstate.py:162-166 | fails exactly for an index below -1, then changes nothing; otherwise only the node's index changes, whether or not the node exists |
| GraphSpec.AddNode | graphix_zx/graphstate.py:119-135 | fails exactly for an existing node (nothing changes) or an index below -1 (the node and its empty adjacency stay in); on success it joins inputs/outputs iff asked; keeps well-formedness and the edge set |
| GraphSpec.AddEdge | graphix_zx/graphstate.py:137-148 | succeeds iff both ends exist and the edge is new; then only the adjacency changes, gaining both directed pairs; keeps symmetry; a failure changes nothing |
| GraphSpec.AddEdgeNeighbours | graphix_zx/graphstate.py:147-148 | a new edge adds node2 to node1's neighbours, node1 to node2's, and nothing else |
| GraphSpec.AddEdgeEdgeSet | graphix_zx/graphstate.py:183-189 | after add_physical_edge the reported edge set gains exactly the ordered pair, and nothing for a self-loop |
| GraphSpec.EdgeCountMatchesEdgeSet | graphix_zx/graphstate.py:116-117 | without self-loops, half the degree sum equals the number of reported edges |
| GraphSpec.SelfLoopsMiscount | graphix_zx/graphstate.py:116-117 | two accepted self-loops raise the degree sum by 2 (one more counted edge) while the reported edge set is unchanged |
| GraphSpec.SetInput | graphix_zx/graphstate.py:150-154 | fails exactly for an absent node, changing nothing; otherwise only the input set gains the node |
| GraphSpec.SetOutput | graphix_zx/graphstate.py:156-160 | fails exactly for an absent node, changing nothing; otherwise only the output set gains the node |
| GraphSpec.SetMeasPlane | graphix_zx/graphstate.py:168-172 | fails exactly for an absent node, changing nothing; otherwise only that node's plane changes |
| GraphSpec.SetMeasAngle | graphix_zx/graphstate.py:174-178 | fails exactly for an absent node, changing nothing; otherwise only that node's angle changes |
| GraphSpec.ResetInputOutput | graphix_zx/graphstate.py:203-207 | the node leaves the input and output sets; nothing else changes |
| GraphSpec.MergeOneStep | graphix_zx/graphstate.py:218-230 | each pass of append's node loop moves the merged state on by one node, in any visiting order |
| GraphSpec.QMismatchAfterMerge | graphix_zx/graphstate.py:235-240 | the index check after the merge sees self's indices on the shared nodes, so it fails exactly on a disagreement or a missing index there |
| GraphSpec.AppendedGraph | graphix_zx/graphstate.py:210-240 | a successful append leaves a well-formed graph whose nodes and edges are the unions of the two graphs' |
| GraphSpec.AppendedAdjacency | graphix_zx/graphstate.py:232-233 | after append the adjacency covers both node sets, stays symmetric, and has exactly both graphs' edges |
| GraphSpec.AppendedBoundary | graphix_zx/graphstate.py:218-227 | border nodes leave self's boundary; the inputs are both graphs' non-border inputs; the outputs are self's non-border outputs plus other's outputs |
| GraphSpec.AppendedMeasurement | graphix_zx/graphstate.py:226-230 | every node other does not output takes other's plane and angle (XY and 0 by default); self's other measurements stay |
| GraphSpec.AppendedQIndices | graphix_zx/graphstate.py:235-240 | other's indices win, a new node without one gets -1, self's other indices stay, and all remain ≥ -1 |
| GraphSpec.EdgeSetWithEdges | graphix_zx/graphstate.py:232-233 | adding ordered edges at both ends keeps symmetry and adds exactly those edges |
| GraphSpec.WithEdgesClash | graphix_zx/graphstate.py:144-146 | during the edge loop an edge of other is found already present exactly when self had it |
| Graph.GraphState.constructor | graphix_zx/graphstate.py:93-101 | a new graph state is empty and well formed |
| Graph.GraphState.SetQIndex | graphix_zx/graphstate.py:162-166 | does what GraphSpec.SetQIndex says, keeping well-formedness |
| Graph.GraphState.AddPhysicalNode | graphix_zx/graphstate.py:119-135 | does what GraphSpec.AddNode says, partial insertion included |
| Graph.GraphState.AddPhysicalEdge | graphix_zx/graphstate.py:137-148 | does what GraphSpec.AddEdge says, keeping symmetric adjacency |
| Graph.GraphState.SetInput | graphix_zx/graphstate.py:150-154 | does what GraphSpec.SetInput says |
| Graph.GraphState.SetOutput | graphix_zx/graphstate.py:156-160 | does what GraphSpec.SetOutput says |
| Graph.GraphState.SetMeasPlane | graphix_zx/graphstate.py:168-172 | does what GraphSpec.SetMeasPlane says |
| Graph.GraphState.SetMeasAngle | graphix_zx/graphstate.py:174-178 | does what GraphSpec.SetMeasAngle says |
| Graph.GraphState.ResetInputOutput | graphix_zx/graphstate.py:203-207 | does what GraphSpec.ResetInputOutput says |
| Graph.GraphState.GetPhysicalEdges | graphix_zx/graphstate.py:183-189 | returns every edge exactly once as (smaller, larger), in any visiting order |
| Graph.GraphState.NumPhysicalEdges | graphix_zx/graphstate.py:116-117 | returns half the degree sum, rounded down |
| Graph.GraphState.GetNeighbors | graphix_zx/graphstate.py:194-195 | the neighbours are existing nodes, and m is a neighbour of n exactly when n is one of m |
| Graph.GraphState.Append | graphix_zx/graphstate.py:210-240 | a boundary mismatch changes nothing; otherwise it succeeds iff no edge is shared and no shared index disagrees, leaving the appended graph; on an edge clash (`EdgeAlreadyExists`) nodes, flags, planes and angles are merged and the indices are those the node loop left; on an index failure (`QubitIndexMismatch` or `MissingQubitIndex`) all of that and every edge of other are already in, and only the indices differ from the appended graph |
| Graph.GraphState.AppendNodes | graphix_zx/graphstate.py:218-230 | the node loop leaves exactly the merged node state, whatever the visiting order |
| Graph.GraphState.MergeNodeFirst | graphix_zx/graphstate.py:219-224 | a border node is reset; any other node is added, and made an input when other has it as one and self does not output it |
| Graph.GraphState.MergeNodeSecond | graphix_zx/graphstate.py:226-230 | an output of other becomes an output; any other node takes other's plane and angle |
| Graph.GraphState.AppendEdges | graphix_zx/graphstate.py:232-233 | succeeds iff the two edge sets are disjoint, then adds exactly other's edges; a failure is `EdgeAlreadyExists` and only the adjacency has changed |
| Graph.GraphState.AppendQIndices | graphix_zx/graphstate.py:235-240 | succeeds iff every shared node other indexes has the same index in self; then other's indices overwrite self's; a failure is `QubitIndexMismatch` or `MissingQubitIndex` and only indices changed |
| Pattern.AddCommand | graphix_zx/pattern.py:128-141 | fails iff an N command's node is currently live, changing nothing; otherwise appends the command, N makes its node live with its qubit index, M retires its node, and both flags clear |
| Pattern.ExtendSpec | graphix_zx/pattern.py:143-145 | extend succeeds iff no command re-prepares a live node; then the commands are appended, the live set is the replayed one, one node is counted per N, the flags clear; on failure a prefix of the commands stays added |
| Pattern.ExtendConcat | graphix_zx/pattern.py:143-145 | extending by a ++ b is extending by a and then, if that passed, by b |
| Pattern.Cleared | graphix_zx/pattern.py:147-150 | clear empties the commands and makes the live set the inputs, keeping qubit indices and flags |
| Pattern.MaxSpaceIsMax | graphix_zx/pattern.py:208-218 | the max space is the space of some prefix, at least that of every prefix, and at least the number of inputs |
| Pattern.SpaceListSpec | graphix_zx/pattern.py:220-230 | the space list has 1 + #N + #M entries, starts at the input count, ends at the final space, and its largest entry is the max space |
| Pattern.LastMeasurementKeys | graphix_zx/pattern.py:232-238 | the measured nodes are exactly the nodes of M commands |
| Pattern.LastMeasurementValues | graphix_zx/pattern.py:240-245 | each measured node maps to its last M command |
| Pattern.JoinedQIndices | graphix_zx/pattern.py:166-172 | the joined inputs' indices come from self where it has one, else from other |
| Pattern.JoinedSpec | graphix_zx/pattern.py:159-187 | a joined pattern has self's commands then other's, the joined inputs, the replayed live set, self-first indices on inputs not prepared, and each flag iff both operands had it; it fails iff the replay re-prepares a live node |
| Pattern.ExtendKeepsUnprepared | graphix_zx/pattern.py:174-179 | replaying commands keeps the qubit index of every node no N command prepares |
| Pattern.Rank | graphix_zx/pattern.py:283-290 | the standard order N < E < M < X < Z < C, one rank per kind |
| Pattern.IsStandardized | graphix_zx/pattern.py:281-301 | true iff the command kinds never go back in the standard order (so true for the empty pattern) |
| Pattern.ImmutablePattern.CalcMaxSpace | graphix_zx/pattern.py:82-92 | returns the max space over the prefixes; the same value as MutablePattern.CalcMaxSpace on the same fields |
| Pattern.PeakSpace | graphix_zx/pattern.py:208-218 | the running count and running maximum give the max space |
| Pattern.EnumerateInputs | graphix_zx/pattern.py:116-121 | numbers the inputs one-to-one onto 0 .. k-1 |
| Pattern.JoinIndices | graphix_zx/pattern.py:166-172 | succeeds iff every input has an index in the first or second map, taking the first's; otherwise reports a missing input |
| Pattern.MutablePattern.constructor | graphix_zx/pattern.py:102-126 | no commands, every input live, the given indices or else the inputs numbered one-to-one onto 0 .. k-1, flags clear |
| Pattern.MutablePattern.Add | graphix_zx/pattern.py:128-141 | does what Pattern.AddCommand says |
| Pattern.MutablePattern.Extend | graphix_zx/pattern.py:143-145 | add in turn, stopping at the first failure, as ExtendCommands |
| Pattern.MutablePattern.Clear | graphix_zx/pattern.py:147-150 | does what Pattern.Cleared says |
| Pattern.MutablePattern.Replace | graphix_zx/pattern.py:152-156 | optionally new inputs, then clear, then extend |
| Pattern.MutablePattern.GetNodes | graphix_zx/pattern.py:198-203 | returns exactly the nodes some N command prepares |
| Pattern.MutablePattern.CalcMaxSpace | graphix_zx/pattern.py:208-218 | returns the max space over the prefixes |
| Pattern.MutablePattern.GetSpaceList | graphix_zx/pattern.py:220-230 | returns the space at the start and after every N and M |
| Pattern.MutablePattern.GetMeasPlanes | graphix_zx/pattern.py:232-238 | maps exactly the measured nodes to the plane of their last M command |
| Pattern.MutablePattern.GetMeasAngles | graphix_zx/pattern.py:240-245 | maps exactly the measured nodes to the angle of their last M command |
| Pattern.MutablePattern.MarkRunnable | graphix_zx/pattern.py:254-255 | sets the runnable flag and nothing else |
| Pattern.MutablePattern.MarkDeterministic | graphix_zx/pattern.py:258-259 | sets the deterministic flag and nothing else |
| Pattern.MutablePattern.Freeze | graphix_zx/pattern.py:261-269 | the frozen pattern has the builder's current inputs, outputs, indices, commands and flags |
| Pattern.MutablePattern.AppendPattern | graphix_zx/pattern.py:159-187 | fails with Incompatible iff the commonly prepared nodes are not the border, with a missing index on an unindexed joined input, or with the replay's error; otherwise returns a fresh pattern equal to the joined one |
| ResourceOpt.GetDependencies | graphix_zx/resource_opt.py:107-114 | succeeds iff every child is a key; then the keys are the DAG's and m is a dependency of c iff c is a child of m |
| ResourceOpt.ActivationNodes | graphix_zx/resource_opt.py:117-119 | exactly the target's neighbours that are not activated |
| ResourceOpt.ActivationCost | graphix_zx/resource_opt.py:122-125 | at most the degree, and 0 iff every neighbour is already activated |
| ResourceOpt.ActivatedSpec | graphix_zx/resource_opt.py:79-99 | the activated nodes are the inputs, the measured targets and their neighbours |
| ResourceOpt.FindMinFromDict | graphix_zx/resource_opt.py:128-139 | fails iff there are no entries; otherwise the key of the first entry with the least value |
| ResourceOpt.ReadyNodes | graphix_zx/resource_opt.py:85-88 | the unmeasured nodes with no remaining dependency, or a missing-key error |
| ResourceOpt.CostEntries | graphix_zx/resource_opt.py:95 | exactly one entry per candidate (the keys are the candidates and there are as many entries as candidates), each with its activation cost |
| ResourceOpt.ChooseTarget | graphix_zx/resource_opt.py:85-97 | a ready node of least activation cost; a cycle is reported iff no node is ready |
| ResourceOpt.ScheduleExtend | graphix_zx/resource_opt.py:97-98 | appending a least-cost candidate keeps a greedy schedule |
| ResourceOpt.SchedulerStep | graphix_zx/resource_opt.py:97-103 | one round keeps the scheduler's invariant |
| ResourceOpt.SchedulerDone | graphix_zx/resource_opt.py:84 | when nothing is unmeasured, the order holds every non-output node once |
| ResourceOpt.ScheduleOrder | graphix_zx/resource_opt.py:84-103 | in a schedule every node comes after all nodes it depends on, and no node repeats |
| ResourceOpt.OutputDependencyBlocks | graphix_zx/resource_opt.py:84-92 | a node depending on an output is never scheduled, so no schedule covers the non-outputs |
| ResourceOpt.MeasureAll | graphix_zx/resource_opt.py:79-104 | on success a greedy schedule of every non-output node exactly once; a cycle report leaves a greedy prefix with no candidate left |
| ResourceOpt.GetMinimizedSpMeasOrder | graphix_zx/resource_opt.py:76-104 | errors on a missing key; otherwise a greedy least-activation schedule of every non-output node exactly once, or a cycle report at a real dead end |
| ResourceOpt.InitialSnapshotSpec | graphix_zx/resource_opt.py:19-23 | the first snapshot holds exactly the inputs, each input and output, no edges, with the graph's indices |
| ResourceOpt.SnapshotShape | graphix_zx/resource_opt.py:28-55 | a measurement snapshot is a well-formed graph on the target and its neighbours; the neighbours are outputs, and only the target is measured |
| ResourceOpt.SnapshotInputs | graphix_zx/resource_opt.py:33-47 | in a snapshot a node is an input exactly when it was already activated |
| ResourceOpt.SnapshotEdges | graphix_zx/resource_opt.py:41-52 | a snapshot's edges are exactly target-neighbour, each once |
| ResourceOpt.LastSnapshotSpec | graphix_zx/resource_opt.py:57-71 | the last snapshot holds exactly the outputs, input and output, and exactly the graph's output-output edges |
| ResourceOpt.SnapshotsAt | graphix_zx/resource_opt.py:26-55 | snapshot i shows target i with the nodes activated by the targets before it |
| ResourceOpt.GetSubgraphSequences | graphix_zx/resource_opt.py:15-73 | returns the first, one-per-target and last snapshots; the graph's own input set grows to all activated nodes |
| Circuit.MBQCCircuit.constructor | graphix_zx/circuit.py:87-89 | a circuit with the given qubit count and no instructions |
| Circuit.MBQCCircuit.AddJ | graphix_zx/circuit.py:98-99 | appends exactly one J instruction; the qubit count stays |
| Circuit.MBQCCircuit.AddCZ | graphix_zx/circuit.py:101-102 | appends exactly one CZ instruction; the qubit count stays |
| Circuit.MBQCCircuit.AddPhaseGadget | graphix_zx/circuit.py:104-105 | appends exactly one phase gadget; the qubit count stays |
| Circuit.PyIndex | graphix_zx/circuit.py:125 | Python list indexing: valid iff -len ≤ q < len, counting negative indices from the end |
| Circuit.InputStep | graphix_zx/circuit.py:116-120 | one input round adds node i as an input with qubit index i |
| Circuit.StepJSpec | graphix_zx/circuit.py:123-133 | IndexError for a bad index, an invalid qubit index for q < -1; otherwise a fresh node with index q joined to the old front, which becomes XY with the angle, flows to it, and is replaced by it |
| Circuit.JEdge | graphix_zx/circuit.py:124-125 | the J gate's new node and its edge always go in, changing only the two neighbourhoods |
| Circuit.JSetters | graphix_zx/circuit.py:126-128 | the J gate's setters leave exactly the closed-form J graph |
| Circuit.JBuildInv | graphix_zx/circuit.py:123-133 | a J gate keeps the translation invariant |
| Circuit.StepCZSpec | graphix_zx/circuit.py:135-136 | IndexError for a bad index; succeeds iff the two fronts are not yet neighbours, adding only that edge |
| Circuit.Targets | graphix_zx/circuit.py:141-142 | the named front nodes exist iff every listed qubit is a valid index |
| Circuit.GadgetEdgesSpec | graphix_zx/circuit.py:141-142 | the gadget's edges all go in iff every qubit is a valid index and the named fronts are distinct and not yet neighbours |
| Circuit.GadgetEdgesNeighbours | graphix_zx/circuit.py:141-142 | on success the gadget node gains exactly the named fronts as neighbours |
| Circuit.GadgetEdgesFrame | graphix_zx/circuit.py:141-142 | the gadget's edges change only the adjacency, which only grows |
| Circuit.StepPhaseGadgetSpec | graphix_zx/circuit.py:137-146 | succeeds iff the named fronts exist and are distinct; a fresh YZ node with the angle and index -1 flows to itself, its neighbours are exactly those fronts, fronts stay |
| Circuit.GadgetBuildInv | graphix_zx/circuit.py:137-146 | a phase gadget keeps the translation invariant |
| Circuit.StepInv | graphix_zx/circuit.py:122-146 | every gate keeps the invariant; J and phase gadgets add one node each, CZ none |
| Circuit.StepsInv | graphix_zx/circuit.py:122-146 | the invariant holds after any successful gate run; the node count grows by the number of J and phase gadgets |
| Circuit.StepsFailureSticks | graphix_zx/circuit.py:122-148 | once a prefix of the gates fails, the translation fails with that error |
| Circuit.MarkOutputsSpec | graphix_zx/circuit.py:150-151 | marking existing front nodes as outputs succeeds and adds exactly them |
| Circuit.FinalSpec | graphix_zx/circuit.py:150-153 | after the gates, the n distinct fronts become the outputs, and a node is a flow source exactly when it is not an output |
| Circuit.TranslateSpec | graphix_zx/circuit.py:108-153 | fails iff a gate fails; else nodes are 0 .. n+#J+#gadget-1, inputs are 0 .. n-1 with index i, outputs are the n distinct fronts, a node is a flow key exactly when it is not an output, each flow entry is XY to one later neighbour or YZ to itself |
| Circuit.AddInputs | graphix_zx/circuit.py:116-120 | the input loop leaves n input nodes with their qubit indices, the front 0 .. n-1 |
| Circuit.ApplyJ | graphix_zx/circuit.py:123-133 | the J branch, on the graph object, agrees with Circuit.StepJ |
| Circuit.ApplyCZ | graphix_zx/circuit.py:135-136 | the CZ branch agrees with Circuit.StepCZ |
| Circuit.ApplyPhaseGadget | graphix_zx/circuit.py:137-146 | the phase-gadget branch agrees with Circuit.StepPhaseGadget |
| Circuit.ApplyGate | graphix_zx/circuit.py:122-146 | one gate of the loop agrees with Circuit.Step |
| Circuit.ApplyGates | graphix_zx/circuit.py:122-146 | the gate loop agrees with Circuit.Steps from the state after the input loop |
| Circuit.MarkOutputNodes | graphix_zx/circuit.py:150-151 | the output loop agrees with Circuit.MarkOutputs |
| Circuit.Circuit2Graph | graphix_zx/circuit.py:108-153 | returns a fresh well-formed graph state and flow equal to Translate's, or Translate's error |

## Left out

- Floating point: angles are exact reals in units of π, so `flip`'s `+ np.pi` is exact and rounding is not modelled.
- `meas_basis` and `vector()` in `common.py`, and the gates' `get_matrix`, compute complex numpy vectors and matrices. They are not modelled.
- The `TypeError` checks in `common.py` cannot happen, because `Plane`, `Axis` and `Sign` are closed datatypes.
- Pattern.IsStandardized: the "Unknown command kind" ValueError cannot happen with the closed `Command` datatype.
- Circuit.Circuit2Graph: the "Invalid instruction" ValueError cannot happen with the closed `Gate` datatype.
- `Command` and `construct_dag` are defined in `command.py` and `flow.py`, which are not part of this model. `Command` is declared here with the fields `pattern.py` reads. The scheduler takes the dependency DAG as a parameter.
- Pattern.MutablePattern.constructor: a `q_indices` dict passed by the caller is stored as is, not copied (`pattern.py:123`). Every later `add` of an N command (`pattern.py:134`) therefore also writes into the caller's dict. The model copies the dict into a `map` value, so that aliasing is not modelled.
- Pattern.MutablePattern.Freeze: the frozen pattern is a value snapshot. In the source it shares the builder's list, set and dict, so later `add` calls also change the "immutable" pattern. That aliasing is not modelled.
- Graph.GraphState.Append: requires `other != this`, because appending a graph to itself (aliasing) is not modelled.
- Graph.GraphState.NumPhysicalEdges: returns an integer. In the source, `np.sum` of an empty list is the float `0.0`, so on a graph without nodes `num_physical_edges` returns `0.0` rather than `0`. The value is the same; the float type is not modelled.
- Graph.GraphState.GetNeighbors: requires an existing node. The source raises KeyError otherwise.
- ResourceOpt.ActivationNodes, ResourceOpt.ActivationCost: require the target to have an adjacency entry. The source raises KeyError otherwise.
- ResourceOpt.GetSubgraphSequences has four preconditions:
  - the graph is well formed (`Valid`), which every `GraphState` built through its own methods is;
  - every measured target has an adjacency entry, a plane and an angle, and it and its neighbours have qubit indices (`resource_opt.py:28`, `:35-39`, `:44-46`, `:51`);
  - every input and every output has a qubit index (`resource_opt.py:22`, `:62`);
  - no target has a self-loop.

  Other nodes may lack a qubit index, as the source never reads theirs. The first three are the dictionary reads that raise KeyError in the source when the key is missing. A self-loop makes the target its own neighbour, so the source adds the target to the snapshot a second time, which raises ValueError. The snapshots are `GraphData` values rather than `GraphState` objects built call by call.
- ResourceOpt.GetMinimizedSpMeasOrder: requires a well-formed graph.
- `resource_opt.py` (lines 18, 38-39 and 80) reads `physical_nodes`, `q_indices`, `meas_planes` and `meas_angles` as public attributes of the graph. The `GraphState` in `graphstate.py` defines no such attributes: its fields are the private `__physical_nodes`, `__q_indices`, `__meas_planes` and `__meas_angles`. So, against that `graphstate.py`, those reads raise AttributeError. The model assumes a graph API that exposes these fields and reads the modelled `GraphState` fields in their place; the AttributeError is not modelled.
- Python iteration order over sets and dicts is an arbitrary choice. `find_min_from_dict` takes the entries in their iteration order. Results that depend on the order are stated for every order.
- Plain getters and properties are field reads of the Dafny classes:
  - `get_input_nodes`, `get_output_nodes`, `get_q_indices`, `get_commands`;
  - `get_physical_nodes`, `num_physical_nodes`, `get_meas_planes`/`angles`;
  - `num_qubits`, `get_instructions`, `is_runnable`/`is_deterministic`.
- These are not modelled: the abstract base classes, the dunder methods of `BasePattern`, `NodeAlreadyPreparedError.__str__`, and `print_pattern`. Neither are the `NotImplementedError` stubs `standardize`, `shift_signals`, `pauli_simplification`, `is_runnable` and `is_deterministic`.
- `euler.py`, `gates.py`, `interface.py` and `simulator_backend.py` are not part of this model: they are numeric linear algebra, stubs, or interfaces without logic.
