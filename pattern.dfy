/**
 * Measurement patterns of graphix_zx/pattern.py: a command sequence with
 * its input nodes, the live (not yet measured) output nodes, qubit indices
 * and two flags.
 *
 * The command classes live in a file that is not part of this model; the
 * `Command` datatype below has the fields pattern.py reads from them.
 * `PatternData` is the value of a mutable pattern's fields, the functions
 * over it say what each mutator does (raising included), and the class
 * `MutablePattern` is proved against them.
 */
module Pattern {
  import opened Wrappers
  import opened Common
  import opened Sets

  /** The six command kinds: prepare, entangle, measure, two byproduct corrections, Clifford. */
  datatype Command =
    | N(node: int, qIndex: int)
    | E(nodes: (int, int))
    | M(node: int, plane: Plane, angle: Angle, sDomain: set<int>, tDomain: set<int>)
    | X(node: int, domain: set<int>)
    | Z(node: int, domain: set<int>)
    | C(node: int, cliffIndex: int)

  /** The errors pattern operations raise. */
  datatype PatternError =
    | NodeAlreadyPrepared(node: int)
    | Incompatible
    | MissingQubitIndex(node: int)

  /** The fields of a MutablePattern. */
  datatype PatternData = PatternData(
    inputs: set<int>,
    nNode: int,
    commands: seq<Command>,
    outputs: set<int>,
    qIndices: map<int, int>,
    runnable: bool,
    deterministic: bool)

  // ---------------------------------------------------------------------------
  // add, extend, clear, replace on values
  // ---------------------------------------------------------------------------

  /**
   * add: preparing a node that is currently an output raises; otherwise the
   * command is appended, N makes its node an output with the command's
   * qubit index, M retires its node, and both flags are cleared.
   */
  function AddCommand(p: PatternData, cmd: Command): (r: (PatternData, Outcome<PatternError>))
    ensures r.1.Fail? <==> cmd.N? && cmd.node in p.outputs
    ensures r.1.Fail? ==> r == (p, Fail(NodeAlreadyPrepared(cmd.node)))
    ensures r.1.Pass? ==>
              && r.0.commands == p.commands + [cmd]
              && r.0.inputs == p.inputs
              && !r.0.runnable && !r.0.deterministic
              && r.0.outputs == (if cmd.N? then p.outputs + {cmd.node} else if cmd.M? then p.outputs - {cmd.node} else p.outputs)
              && r.0.qIndices == (if cmd.N? then p.qIndices[cmd.node := cmd.qIndex] else p.qIndices)
              && r.0.nNode == (if cmd.N? then p.nNode + 1 else p.nNode)
  {
    var p1 :=
      match cmd
      case N(node, qIndex) =>
        if node in p.outputs then p
        else p.(nNode := p.nNode + 1, outputs := p.outputs + {node}, qIndices := p.qIndices[node := qIndex])
      case M(node, _, _, _, _) => p.(outputs := p.outputs - {node})
      case _ => p;
    if cmd.N? && cmd.node in p.outputs then (p, Fail(NodeAlreadyPrepared(cmd.node)))
    else (p1.(commands := p1.commands + [cmd], runnable := false, deterministic := false), Pass)
  }

  /** extend: add each command in turn; the first one that raises stops the rest. */
  function ExtendCommands(p: PatternData, cmds: seq<Command>): (PatternData, Outcome<PatternError>)
    decreases |cmds|
  {
    if cmds == [] then (p, Pass)
    else
      var (p1, o) := AddCommand(p, cmds[0]);
      if o.Fail? then (p1, o) else ExtendCommands(p1, cmds[1..])
  }

  /** clear: no commands, every input live again; qubit indices and flags stay. */
  function Cleared(p: PatternData): (r: PatternData)
    ensures r.commands == [] && r.outputs == r.inputs == p.inputs && r.nNode == |p.inputs|
    ensures r.qIndices == p.qIndices && r.runnable == p.runnable && r.deterministic == p.deterministic
  {
    p.(nNode := |p.inputs|, commands := [], outputs := p.inputs)
  }

  /** replace: optionally new inputs, then clear, then extend. */
  function Replaced(p: PatternData, cmds: seq<Command>, newInputs: Option<set<int>>): (PatternData, Outcome<PatternError>)
  {
    var p1 := if newInputs.Some? then p.(inputs := newInputs.value) else p;
    ExtendCommands(Cleared(p1), cmds)
  }

  /** The live outputs after the commands, ignoring errors: N adds its node, M removes it. */
  function LiveAfter(outputs: set<int>, cmds: seq<Command>): set<int>
    decreases |cmds|
  {
    if cmds == [] then outputs
    else
      var c := cmds[0];
      LiveAfter(if c.N? then outputs + {c.node} else if c.M? then outputs - {c.node} else outputs, cmds[1..])
  }

  /** No command prepares a node that is live at that point. */
  predicate NoReprepare(outputs: set<int>, cmds: seq<Command>)
    decreases |cmds|
  {
    cmds == [] ||
    (var c := cmds[0];
     !(c.N? && c.node in outputs) &&
     NoReprepare(if c.N? then outputs + {c.node} else if c.M? then outputs - {c.node} else outputs, cmds[1..]))
  }

  /** The number of N commands. */
  function CountN(s: seq<Command>): nat
  {
    if s == [] then 0 else CountN(s[..|s| - 1]) + (if s[|s| - 1].N? then 1 else 0)
  }

  /** The number of M commands. */
  function CountM(s: seq<Command>): nat
  {
    if s == [] then 0 else CountM(s[..|s| - 1]) + (if s[|s| - 1].M? then 1 else 0)
  }

  lemma {:induction false} CountNCons(c: Command, s: seq<Command>)
    ensures CountN([c] + s) == (if c.N? then 1 else 0) + CountN(s)
    decreases |s|
  {
    if s != [] {
      assert ([c] + s)[..|[c] + s| - 1] == [c] + s[..|s| - 1];
      CountNCons(c, s[..|s| - 1]);
    }
  }

  /**
   * extend succeeds exactly when no command re-prepares a live node; then
   * the commands are appended, the live set is LiveAfter, one node is
   * counted per N, and the flags are cleared unless nothing was added. On
   * failure the commands before the offending one stay added.
   */
  lemma {:induction false} ExtendSpec(p: PatternData, cmds: seq<Command>)
    ensures var (r, o) := ExtendCommands(p, cmds);
            && (o.Pass? <==> NoReprepare(p.outputs, cmds))
            && r.inputs == p.inputs
            && (o.Pass? ==> && r.commands == p.commands + cmds
                            && r.outputs == LiveAfter(p.outputs, cmds)
                            && r.nNode == p.nNode + CountN(cmds)
                            && (cmds != [] ==> !r.runnable && !r.deterministic))
            && (o.Fail? ==> (o.error.NodeAlreadyPrepared? &&
                               exists k :: 0 <= k < |cmds| && r.commands == p.commands + cmds[..k]))
    decreases |cmds|
  {
    if cmds != [] {
      var (p1, o1) := AddCommand(p, cmds[0]);
      if o1.Pass? {
        ExtendSpec(p1, cmds[1..]);
        var (r, o) := ExtendCommands(p1, cmds[1..]);
        assert [cmds[0]] + cmds[1..] == cmds;
        CountNCons(cmds[0], cmds[1..]);
        if o.Fail? {
          var k :| 0 <= k < |cmds[1..]| && r.commands == p1.commands + cmds[1..][..k];
          assert p1.commands + cmds[1..][..k] == p.commands + cmds[..k + 1];
        }
      } else {
        assert p.commands + cmds[..0] == p.commands;
      }
    }
  }

  /** Extending by two lists is extending by the first, then (if it passed) the second. */
  lemma {:induction false} ExtendConcat(p: PatternData, a: seq<Command>, b: seq<Command>)
    ensures ExtendCommands(p, a + b) ==
              var (q, o) := ExtendCommands(p, a);
              if o.Fail? then (q, o) else ExtendCommands(q, b)
    decreases |a|
  {
    if a == [] {
      assert a + b == b;
    } else {
      assert (a + b)[0] == a[0] && (a + b)[1..] == a[1..] + b;
      var (p1, o1) := AddCommand(p, a[0]);
      if o1.Pass? {
        ExtendConcat(p1, a[1..], b);
      }
    }
  }

  // ---------------------------------------------------------------------------
  // space
  // ---------------------------------------------------------------------------

  /** The number of live qubits after the commands: inputs plus preparations minus measurements. */
  function Space(k: int, s: seq<Command>): int
  {
    k + CountN(s) - CountM(s)
  }

  /** The largest space over all prefixes, the empty one included. */
  function MaxSpace(k: int, s: seq<Command>): int
  {
    if s == [] then k
    else
      var prev := MaxSpace(k, s[..|s| - 1]);
      if Space(k, s) > prev then Space(k, s) else prev
  }

  /** The space after the start and after every N and M command. */
  function SpaceList(k: int, s: seq<Command>): seq<int>
  {
    if s == [] then [k]
    else
      var prev := SpaceList(k, s[..|s| - 1]);
      if s[|s| - 1].N? || s[|s| - 1].M? then prev + [Space(k, s)] else prev
  }

  /** MaxSpace is the space of some prefix and at least the space of every prefix. */
  lemma {:induction false} MaxSpaceIsMax(k: int, s: seq<Command>)
    ensures forall i :: 0 <= i <= |s| ==> Space(k, s[..i]) <= MaxSpace(k, s)
    ensures exists i :: 0 <= i <= |s| && Space(k, s[..i]) == MaxSpace(k, s)
    ensures MaxSpace(k, s) >= k
  {
    if s == [] {
      assert s[..0] == s;
    } else {
      var init := s[..|s| - 1];
      MaxSpaceIsMax(k, init);
      forall i | 0 <= i <= |s| ensures Space(k, s[..i]) <= MaxSpace(k, s) {
        if i < |s| {
          assert s[..i] == init[..i];
        } else {
          assert s[..i] == s;
        }
      }
      var j :| 0 <= j <= |init| && Space(k, init[..j]) == MaxSpace(k, init);
      assert init[..j] == s[..j];
      assert s[..|s|] == s;
      assert s[..0] == [];
    }
  }

  /**
   * get_space_list has one entry to start with and one per N and M; it
   * starts at the number of inputs, ends at the final space, and its largest
   * entry is MaxSpace.
   */
  lemma {:induction false} SpaceListSpec(k: int, s: seq<Command>)
    ensures |SpaceList(k, s)| == 1 + CountN(s) + CountM(s)
    ensures SpaceList(k, s)[0] == k
    ensures SpaceList(k, s)[|SpaceList(k, s)| - 1] == Space(k, s)
    ensures forall x :: x in SpaceList(k, s) ==> x <= MaxSpace(k, s)
    ensures MaxSpace(k, s) in SpaceList(k, s)
  {
    if s != [] {
      var init := s[..|s| - 1];
      SpaceListSpec(k, init);
      if !(s[|s| - 1].N? || s[|s| - 1].M?) {
        assert Space(k, s) == Space(k, init);
      }
    }
  }

  // ---------------------------------------------------------------------------
  // nodes and measurements
  // ---------------------------------------------------------------------------

  /** The nodes some N command prepares. */
  function Prepared(s: seq<Command>): set<int>
  {
    set i | 0 <= i < |s| && s[i].N? :: s[i].node
  }

  /** For each measured node, its last M command. */
  function LastMeasurement(s: seq<Command>): map<int, Command>
  {
    if s == [] then map[]
    else
      var prev := LastMeasurement(s[..|s| - 1]);
      if s[|s| - 1].M? then prev[s[|s| - 1].node := s[|s| - 1]] else prev
  }

  /** The position i holds the last M command on its node. */
  predicate LastMOn(s: seq<Command>, i: int)
    requires 0 <= i < |s|
  {
    s[i].M? && forall j :: i < j < |s| ==> !(s[j].M? && s[j].node == s[i].node)
  }

  /** The measured nodes are exactly the nodes of M commands. */
  lemma {:induction false} LastMeasurementKeys(s: seq<Command>)
    ensures forall n :: n in LastMeasurement(s) <==> exists i :: 0 <= i < |s| && s[i].M? && s[i].node == n
  {
    if s != [] {
      var init := s[..|s| - 1];
      var last := |s| - 1;
      LastMeasurementKeys(init);
      forall n ensures n in LastMeasurement(s) <==> exists i :: 0 <= i < |s| && s[i].M? && s[i].node == n {
        if n in LastMeasurement(init) {
          var i :| 0 <= i < |init| && init[i].M? && init[i].node == n;
          assert s[i] == init[i];
        }
        if exists i :: 0 <= i < |s| && s[i].M? && s[i].node == n {
          var i :| 0 <= i < |s| && s[i].M? && s[i].node == n;
          if i < last {
            assert init[i] == s[i];
          }
        }
      }
    }
  }

  /** Each node maps to its last M command. */
  lemma {:induction false} LastMeasurementValues(s: seq<Command>)
    ensures forall i :: 0 <= i < |s| && LastMOn(s, i) ==>
              s[i].node in LastMeasurement(s) && LastMeasurement(s)[s[i].node] == s[i]
  {
    if s != [] {
      var init := s[..|s| - 1];
      var last := |s| - 1;
      LastMeasurementValues(init);
      forall i | 0 <= i < |s| && LastMOn(s, i)
        ensures s[i].node in LastMeasurement(s) && LastMeasurement(s)[s[i].node] == s[i]
      {
        if i < last {
          assert init[i] == s[i];
          assert LastMOn(init, i);
        }
      }
    }
  }

  // ---------------------------------------------------------------------------
  // append_pattern on values
  // ---------------------------------------------------------------------------

  /** append_pattern's inputs: self's, and other's that neither pattern prepares in common. */
  function JoinedInputs(a: PatternData, b: PatternData): set<int>
  {
    a.inputs + (b.inputs - Prepared(a.commands) * Prepared(b.commands))
  }

  /** append_pattern's check: the commonly prepared nodes are exactly self's outputs that are other's inputs. */
  predicate Compatible(a: PatternData, b: PatternData)
  {
    Prepared(a.commands) * Prepared(b.commands) == a.outputs * b.inputs
  }

  /** Every joined input has a qubit index in self or in other. */
  predicate IndexedInputs(a: PatternData, b: PatternData)
  {
    forall n :: n in JoinedInputs(a, b) ==> n in a.qIndices || n in b.qIndices
  }

  /** The joined inputs' qubit indices, self's first. */
  function JoinedQIndices(a: PatternData, b: PatternData): (q: map<int, int>)
    requires IndexedInputs(a, b)
    ensures q.Keys == JoinedInputs(a, b)
    ensures forall n :: n in q ==> q[n] == (if n in a.qIndices then a.qIndices[n] else b.qIndices[n])
  {
    map n | n in JoinedInputs(a, b) :: if n in a.qIndices then a.qIndices[n] else b.qIndices[n]
  }

  /** A fresh pattern over the given inputs with the given qubit indices. */
  function Fresh(inputs: set<int>, q: map<int, int>): PatternData
  {
    PatternData(inputs, |inputs|, [], inputs, q, false, false)
  }

  /**
   * append_pattern when the check passes and every joined input has an
   * index: a fresh pattern over the joined inputs replays self's commands,
   * then other's; the flags are set when both operands had them.
   */
  function Joined(a: PatternData, b: PatternData): (r: Result<PatternData, PatternError>)
    requires IndexedInputs(a, b)
  {
    var (p, o) := ExtendCommands(Fresh(JoinedInputs(a, b), JoinedQIndices(a, b)), a.commands + b.commands);
    if o.Fail? then Failure(o.error)
    else Success(p.(runnable := a.runnable && b.runnable, deterministic := a.deterministic && b.deterministic))
  }

  /**
   * A successful append_pattern has self's commands followed by other's, the
   * joined inputs with self's qubit indices first, and each flag set exactly
   * when both operands had it; it fails exactly when the replay re-prepares
   * a live node.
   */
  lemma JoinedSpec(a: PatternData, b: PatternData)
    requires IndexedInputs(a, b)
    ensures Joined(a, b).Success? <==> NoReprepare(JoinedInputs(a, b), a.commands + b.commands)
    ensures Joined(a, b).Success? ==>
              var p := Joined(a, b).value;
              && p.commands == a.commands + b.commands
              && p.inputs == JoinedInputs(a, b)
              && p.outputs == LiveAfter(JoinedInputs(a, b), a.commands + b.commands)
              && (forall n :: n in JoinedInputs(a, b) && n !in Prepared(a.commands + b.commands) ==>
                    n in p.qIndices && p.qIndices[n] == (if n in a.qIndices then a.qIndices[n] else b.qIndices[n]))
              && p.runnable == (a.runnable && b.runnable)
              && p.deterministic == (a.deterministic && b.deterministic)
  {
    var f := Fresh(JoinedInputs(a, b), JoinedQIndices(a, b));
    ExtendSpec(f, a.commands + b.commands);
    ExtendKeepsUnprepared(f, a.commands + b.commands);
    assert Joined(a, b).Success? <==> ExtendCommands(f, a.commands + b.commands).1.Pass?;
  }

  /** Replaying commands leaves the qubit index of a node no N command prepares. */
  lemma {:induction false} ExtendKeepsUnprepared(p: PatternData, cmds: seq<Command>)
    ensures forall n :: n in p.qIndices && n !in Prepared(cmds) ==>
              n in ExtendCommands(p, cmds).0.qIndices && ExtendCommands(p, cmds).0.qIndices[n] == p.qIndices[n]
    decreases |cmds|
  {
    if cmds != [] {
      var (p1, o1) := AddCommand(p, cmds[0]);
      if o1.Pass? {
        ExtendKeepsUnprepared(p1, cmds[1..]);
        forall n | n in p.qIndices && n !in Prepared(cmds)
          ensures n in p1.qIndices && p1.qIndices[n] == p.qIndices[n] && n !in Prepared(cmds[1..])
        {
          assert cmds[0].N? ==> cmds[0].node in Prepared(cmds);
          forall i | 0 <= i < |cmds[1..]| && cmds[1..][i].N? ensures cmds[1..][i].node != n {
            assert cmds[1..][i] == cmds[i + 1];
          }
        }
      }
    }
  }

  // ---------------------------------------------------------------------------
  // is_standardized
  // ---------------------------------------------------------------------------

  /** A command kind's place in the standard order N, E, M, X, Z, C. */
  function Rank(c: Command): (r: nat)
    ensures r < 6
    ensures (r == 0 <==> c.N?) && (r == 1 <==> c.E?) && (r == 2 <==> c.M?)
    ensures (r == 3 <==> c.X?) && (r == 4 <==> c.Z?) && (r == 5 <==> c.C?)
  {
    match c
    case N(_, _) => 0
    case E(_) => 1
    case M(_, _, _, _, _) => 2
    case X(_, _) => 3
    case Z(_, _) => 4
    case C(_, _) => 5
  }

  /** Command kinds never go back in the standard order. */
  predicate Standardized(s: seq<Command>)
  {
    forall i, j :: 0 <= i < j < |s| ==> Rank(s[i]) <= Rank(s[j])
  }

  /** is_standardized: true exactly when the kinds are in standard order (so for the empty pattern). */
  method IsStandardized(s: seq<Command>) returns (standardized: bool)
    ensures standardized <==> Standardized(s)
  {
    standardized := true;
    var current := 0;
    var i := 0;
    while i < |s|
      invariant 0 <= i <= |s|
      invariant Standardized(s[..i])
      invariant forall j :: 0 <= j < i ==> Rank(s[j]) <= current
      invariant i > 0 ==> current == Rank(s[i - 1])
      invariant i == 0 ==> current == 0
      invariant current < 6
    {
      var rank := Rank(s[i]);
      if rank == current {
        i := i + 1;
        continue;
      }
      if rank < current {
        standardized := false;
        assert Rank(s[i - 1]) > Rank(s[i]);
        return;
      }
      current := rank;
      i := i + 1;
    }
    assert s[..i] == s;
  }

  // ---------------------------------------------------------------------------
  // The patterns
  // ---------------------------------------------------------------------------

  /** A frozen pattern: a value. */
  datatype ImmutablePattern = ImmutablePattern(
    inputNodes: set<int>,
    outputNodes: set<int>,
    qIndices: map<int, int>,
    commands: seq<Command>,
    runnable: bool,
    deterministic: bool)
  {
    /** calc_max_space: the largest number of live qubits over the prefixes. */
    method CalcMaxSpace() returns (maxNodes: int)
      ensures maxNodes == MaxSpace(|inputNodes|, commands)
    {
      maxNodes := PeakSpace(|inputNodes|, commands);
    }
  }

  /** The loop both calc_max_space methods run: a running count and its running maximum. */
  method PeakSpace(k: int, s: seq<Command>) returns (maxNodes: int)
    ensures maxNodes == MaxSpace(k, s)
  {
    var nodes := k;
    maxNodes := nodes;
    var i := 0;
    while i < |s|
      invariant 0 <= i <= |s|
      invariant nodes == Space(k, s[..i])
      invariant maxNodes == MaxSpace(k, s[..i])
    {
      assert s[..i + 1][..i] == s[..i];
      if s[i].N? {
        nodes := nodes + 1;
      } else if s[i].M? {
        nodes := nodes - 1;
      }
      if nodes > maxNodes {
        maxNodes := nodes;
      }
      i := i + 1;
    }
    assert s[..i] == s;
  }

  /**
   * Number the inputs 0 .. k-1 in visiting order: the qubit indices a new
   * pattern gets when none are given.
   */
  method EnumerateInputs(inputs: set<int>) returns (q: map<int, int>)
    ensures q.Keys == inputs
    ensures forall n :: n in q ==> 0 <= q[n] < |inputs|
    ensures forall a, b :: a in q && b in q && a != b ==> q[a] != q[b]
  {
    q := map[];
    var count := 0;
    var todo := inputs;
    while todo != {}
      invariant todo <= inputs && q.Keys == inputs - todo
      invariant count == |q.Keys|
      invariant forall n :: n in q ==> 0 <= q[n] < count
      invariant forall a, b :: a in q && b in q && a != b ==> q[a] != q[b]
      decreases todo
    {
      NonEmptyHasNode(todo);
      var node :| node in todo;
      EnumerateStep(q, node, count, q[node := count]);
      q := q[node := count];
      count := count + 1;
      todo := todo - {node};
    }
  }

  /** Giving a new node the next number keeps the numbering below the count and one-to-one. */
  lemma EnumerateStep(q: map<int, int>, node: int, count: int, r: map<int, int>)
    requires node !in q && count == |q.Keys|
    requires forall n :: n in q ==> 0 <= q[n] < count
    requires forall a, b :: a in q && b in q && a != b ==> q[a] != q[b]
    requires r == q[node := count]
    ensures r.Keys == q.Keys + {node}
    ensures count + 1 == |r.Keys|
    ensures forall n :: n in r ==> 0 <= r[n] < count + 1
    ensures forall a, b :: a in r && b in r && a != b ==> r[a] != r[b]
  {
    assert r.Keys == q.Keys + {node};
  }

  /**
   * The qubit indices of the inputs, from the first map where it has one and
   * from the second otherwise; fails on an input neither map has.
   */
  method JoinIndices(inputs: set<int>, first: map<int, int>, second: map<int, int>)
    returns (r: Result<map<int, int>, PatternError>)
    ensures r.Success? <==> forall n :: n in inputs ==> n in first || n in second
    ensures r.Success? ==> r.value.Keys == inputs
    ensures r.Success? ==> forall n :: n in r.value ==>
              r.value[n] == (if n in first then first[n] else second[n])
    ensures r.Failure? ==> r.error.MissingQubitIndex? && r.error.node in inputs &&
                           r.error.node !in first && r.error.node !in second
  {
    var q: map<int, int> := map[];
    var todo := inputs;
    while todo != {}
      invariant todo <= inputs
      invariant q.Keys == inputs - todo
      invariant forall n :: n in q ==> (n in first || n in second)
      invariant forall n :: n in q ==> q[n] == (if n in first then first[n] else second[n])
      decreases todo
    {
      NonEmptyHasNode(todo);
      var node :| node in todo;
      if node in first {
        q := q[node := first[node]];
      } else if node in second {
        q := q[node := second[node]];
      } else {
        return Failure(MissingQubitIndex(node));
      }
      todo := todo - {node};
    }
    r := Success(q);
  }

  /** A pattern built command by command. */
  class MutablePattern {
    var inputNodes: set<int>
    var nNode: int
    var commands: seq<Command>
    var outputNodes: set<int>
    var qIndices: map<int, int>
    var runnable: bool
    var deterministic: bool

    /** The current value of the fields. */
    function Data(): PatternData
      reads this
    {
      PatternData(inputNodes, nNode, commands, outputNodes, qIndices, runnable, deterministic)
    }

    /**
     * A new pattern: no commands, every input live, the given qubit indices
     * or else the inputs numbered 0 .. k-1.
     */
    constructor (inputs: set<int>, q: Option<map<int, int>>)
      ensures inputNodes == inputs && nNode == |inputs| && commands == [] && outputNodes == inputs
      ensures q.Some? ==> qIndices == q.value
      ensures q.None? ==> qIndices.Keys == inputs && (forall n :: n in qIndices ==> 0 <= qIndices[n] < |inputs|)
      ensures q.None? ==> forall a, b :: a in qIndices && b in qIndices && a != b ==> qIndices[a] != qIndices[b]
      ensures !runnable && !deterministic
    {
      var indices: map<int, int>;
      if q.Some? {
        indices := q.value;
      } else {
        indices := EnumerateInputs(inputs);
      }
      inputNodes := inputs;
      nNode := |inputs|;
      commands := [];
      outputNodes := inputs;
      qIndices := indices;
      runnable := false;
      deterministic := false;
    }

    method Add(cmd: Command) returns (r: Outcome<PatternError>)
      modifies this
      ensures (Data(), r) == AddCommand(old(Data()), cmd)
    {
      if cmd.N? {
        if cmd.node in outputNodes {
          return Fail(NodeAlreadyPrepared(cmd.node));
        }
        nNode := nNode + 1;
        outputNodes := outputNodes + {cmd.node};
        qIndices := qIndices[cmd.node := cmd.qIndex];
      } else if cmd.M? {
        outputNodes := outputNodes - {cmd.node};
      }
      commands := commands + [cmd];
      runnable := false;
      deterministic := false;
      r := Pass;
    }

    method Extend(cmds: seq<Command>) returns (r: Outcome<PatternError>)
      modifies this
      ensures (Data(), r) == ExtendCommands(old(Data()), cmds)
    {
      var i := 0;
      while i < |cmds|
        invariant 0 <= i <= |cmds|
        invariant ExtendCommands(old(Data()), cmds) == ExtendCommands(Data(), cmds[i..])
      {
        assert cmds[i..][1..] == cmds[i + 1..];
        r := Add(cmds[i]);
        if r.Fail? {
          return;
        }
        i := i + 1;
      }
      r := Pass;
    }

    method Clear()
      modifies this
      ensures Data() == Cleared(old(Data()))
    {
      nNode := |inputNodes|;
      commands := [];
      outputNodes := inputNodes;
    }

    method Replace(cmds: seq<Command>, newInputs: Option<set<int>>) returns (r: Outcome<PatternError>)
      modifies this
      ensures (Data(), r) == Replaced(old(Data()), cmds, newInputs)
    {
      if newInputs.Some? {
        inputNodes := newInputs.value;
      }
      Clear();
      r := Extend(cmds);
    }

    /** get_nodes: the nodes some N command prepares. */
    method GetNodes() returns (nodes: set<int>)
      ensures nodes == Prepared(commands)
    {
      nodes := {};
      var i := 0;
      while i < |commands|
        invariant 0 <= i <= |commands|
        invariant nodes == Prepared(commands[..i])
      {
        assert commands[..i + 1] == commands[..i] + [commands[i]];
        if commands[i].N? {
          nodes := nodes + {commands[i].node};
        }
        i := i + 1;
      }
      assert commands[..i] == commands;
    }

    /** calc_max_space: the largest number of live qubits over the prefixes. */
    method CalcMaxSpace() returns (maxNodes: int)
      ensures maxNodes == MaxSpace(|inputNodes|, commands)
    {
      maxNodes := PeakSpace(|inputNodes|, commands);
    }

    /** get_space_list: the space at the start and after every N and M. */
    method GetSpaceList() returns (spaces: seq<int>)
      ensures spaces == SpaceList(|inputNodes|, commands)
    {
      var k := |inputNodes|;
      var nodes := k;
      spaces := [nodes];
      var i := 0;
      while i < |commands|
        invariant 0 <= i <= |commands|
        invariant nodes == Space(k, commands[..i])
        invariant spaces == SpaceList(k, commands[..i])
      {
        assert commands[..i + 1][..i] == commands[..i];
        if commands[i].N? {
          nodes := nodes + 1;
          spaces := spaces + [nodes];
        } else if commands[i].M? {
          nodes := nodes - 1;
          spaces := spaces + [nodes];
        }
        i := i + 1;
      }
      assert commands[..i] == commands;
    }

    /** get_meas_planes: each measured node's plane, from its last M command. */
    method GetMeasPlanes() returns (planes: map<int, Plane>)
      ensures planes.Keys == LastMeasurement(commands).Keys
      ensures forall n :: n in planes ==> LastMeasurement(commands)[n].M? && planes[n] == LastMeasurement(commands)[n].plane
    {
      planes := map[];
      var i := 0;
      while i < |commands|
        invariant 0 <= i <= |commands|
        invariant planes.Keys == LastMeasurement(commands[..i]).Keys
        invariant forall n :: n in planes ==> LastMeasurement(commands[..i])[n].M?
        invariant forall n :: n in planes ==> planes[n] == LastMeasurement(commands[..i])[n].plane
      {
        assert commands[..i + 1][..i] == commands[..i];
        MeasuredAreM(commands[..i]);
        if commands[i].M? {
          planes := planes[commands[i].node := commands[i].plane];
        }
        i := i + 1;
      }
      assert commands[..i] == commands;
    }

    /** get_meas_angles: each measured node's angle, from its last M command. */
    method GetMeasAngles() returns (angles: map<int, Angle>)
      ensures angles.Keys == LastMeasurement(commands).Keys
      ensures forall n :: n in angles ==> LastMeasurement(commands)[n].M? && angles[n] == LastMeasurement(commands)[n].angle
    {
      angles := map[];
      var i := 0;
      while i < |commands|
        invariant 0 <= i <= |commands|
        invariant angles.Keys == LastMeasurement(commands[..i]).Keys
        invariant forall n :: n in angles ==> LastMeasurement(commands[..i])[n].M?
        invariant forall n :: n in angles ==> angles[n] == LastMeasurement(commands[..i])[n].angle
      {
        assert commands[..i + 1][..i] == commands[..i];
        MeasuredAreM(commands[..i]);
        if commands[i].M? {
          angles := angles[commands[i].node := commands[i].angle];
        }
        i := i + 1;
      }
      assert commands[..i] == commands;
    }

    method MarkRunnable()
      modifies this
      ensures Data() == old(Data()).(runnable := true)
    {
      runnable := true;
    }

    method MarkDeterministic()
      modifies this
      ensures Data() == old(Data()).(deterministic := true)
    {
      deterministic := true;
    }

    /** freeze: an immutable snapshot of the fields. */
    function Freeze(): (p: ImmutablePattern)
      reads this
      ensures p.inputNodes == inputNodes && p.outputNodes == outputNodes && p.qIndices == qIndices
      ensures p.commands == commands && p.runnable == runnable && p.deterministic == deterministic
    {
      ImmutablePattern(inputNodes, outputNodes, qIndices, commands, runnable, deterministic)
    }

    /**
     * append_pattern: a new pattern with self's commands followed by other's,
     * over self's inputs and other's inputs that neither prepares in common.
     * Raises when the commonly prepared nodes are not the border, when a
     * joined input has no qubit index in either pattern (a KeyError in the
     * source), or when the replay re-prepares a live node.
     */
    method AppendPattern(other: MutablePattern) returns (r: Result<MutablePattern, PatternError>)
      ensures !Compatible(Data(), other.Data()) ==> r == Failure(Incompatible)
      ensures Compatible(Data(), other.Data()) && !IndexedInputs(Data(), other.Data()) ==>
                && r.Failure? && r.error.MissingQubitIndex?
                && r.error.node in JoinedInputs(Data(), other.Data())
                && r.error.node !in qIndices && r.error.node !in other.qIndices
      ensures Compatible(Data(), other.Data()) && IndexedInputs(Data(), other.Data()) ==>
                match Joined(Data(), other.Data())
                case Failure(e) => r == Failure(e)
                case Success(p) => r.Success? && fresh(r.value) && r.value.Data() == p
    {
      var selfNodes := GetNodes();
      var otherNodes := other.GetNodes();
      var common := selfNodes * otherNodes;
      var border := outputNodes * other.inputNodes;
      if common != border {
        return Failure(Incompatible);
      }
      var newInputs := inputNodes + (other.inputNodes - common);
      var joined := JoinIndices(newInputs, qIndices, other.qIndices);
      if joined.Failure? {
        return Failure(joined.error);
      }
      var q := joined.value;
      ghost var a, b := Data(), other.Data();
      assert newInputs == JoinedInputs(a, b);
      assert IndexedInputs(a, b);
      forall n | n in q ensures q[n] == JoinedQIndices(a, b)[n] {
      }
      assert q == JoinedQIndices(a, b);
      var pattern := new MutablePattern(newInputs, Some(q));
      ghost var start := pattern.Data();
      assert start == Fresh(JoinedInputs(a, b), JoinedQIndices(a, b));
      ExtendConcat(start, commands, other.commands);
      var o := pattern.Extend(commands);
      if o.Fail? {
        assert ExtendCommands(start, a.commands + b.commands) == (pattern.Data(), o);
        return Failure(o.error);
      }
      ghost var middle := pattern.Data();
      o := pattern.Extend(other.commands);
      assert ExtendCommands(start, a.commands + b.commands) == (pattern.Data(), o);
      if o.Fail? {
        return Failure(o.error);
      }
      ghost var replayed := pattern.Data();
      assert !replayed.runnable && !replayed.deterministic by {
        ExtendSpec(start, a.commands + b.commands);
      }
      assert Joined(a, b) == Success(replayed.(runnable := a.runnable && b.runnable, deterministic := a.deterministic && b.deterministic));
      if runnable && other.runnable {
        pattern.MarkRunnable();
      }
      if deterministic && other.deterministic {
        pattern.MarkDeterministic();
      }
      assert Data() == a && other.Data() == b;
      assert pattern.Data() == Joined(a, b).value;
      r := Success(pattern);
    }
  }

  /** Each measured node's last M command is an M command. */
  lemma MeasuredAreM(s: seq<Command>)
    ensures forall n :: n in LastMeasurement(s) ==> LastMeasurement(s)[n].M?
  {
    if s != [] {
      MeasuredAreM(s[..|s| - 1]);
    }
  }
}
