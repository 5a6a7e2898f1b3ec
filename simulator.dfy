/** `simulate_verilog_graph`: every input combination, every node in topological order,
    and the values of the nodes with out-degree 0. */
module Simulator {
  import opened Wrappers
  import opened Seqs
  import opened Gates
  import opened Netlist
  import opened Enumeration

  /** Why a simulation raises: a non-input node without a label (KeyError 'label'), a
      predecessor without a value yet (KeyError on node_values), or the gate evaluator's error. */
  datatype SimError = Unlabelled(node: Signal) | MissingValue(node: Signal) | GateFailed(node: Signal, cause: GateError)

  /** One entry of the result dict: the input tuple and the values of the sink nodes. */
  datatype Row = Row(inputs: seq<Bit>, outputs: map<Signal, Bit>)

  /** `dict(zip(input_names, input_combination))`: zip stops at the shorter sequence, and a
      repeated name keeps the value of its last occurrence. */
  function ZipToMap(names: seq<Signal>, bits: seq<Bit>): (m: map<Signal, Bit>)
    ensures |names| <= |bits| ==> forall i | 0 <= i < |names| :: names[i] in m
  {
    if names == [] || bits == [] then map[]
    else map[names[0] := bits[0]] + ZipToMap(names[1..], bits[1..])
  }

  /** A declared input gets the tuple component at its last position among the names. */
  lemma {:induction false} ZipLastWins(names: seq<Signal>, bits: seq<Bit>, i: nat)
    requires i < |names| && i < |bits|
    requires forall j | i < j < |names| && j < |bits| :: names[j] != names[i]
    ensures names[i] in ZipToMap(names, bits) && ZipToMap(names, bits)[names[i]] == bits[i]
  {
    if i > 0 {
      forall j | i - 1 < j < |names[1..]| && j < |bits[1..]| ensures names[1..][j] != names[1..][i - 1] {
        assert names[1..][j] == names[j + 1];
      }
      ZipLastWins(names[1..], bits[1..], i - 1);
    } else if |names| > 1 && |bits| > 1 {
      if names[0] in ZipToMap(names[1..], bits[1..]) {
        ZipKeys(names[1..], bits[1..], names[0]);
      }
    }
  }

  lemma {:induction false} ZipKeys(names: seq<Signal>, bits: seq<Bit>, n: Signal)
    requires n in ZipToMap(names, bits)
    ensures exists j | 0 <= j < |names| && j < |bits| :: names[j] == n
  {
    if names[0] != n {
      ZipKeys(names[1..], bits[1..], n);
      var j :| 0 <= j < |names[1..]| && j < |bits[1..]| && names[1..][j] == n;
      assert names[j + 1] == n;
    }
  }

  /** `[node_values[pre] for pre, _ in G.in_edges(node)]`: the first predecessor without a
      value raises. */
  function PredValues(values: map<Signal, Bit>, ps: seq<Signal>): (r: Result<seq<Bit>, Signal>)
    ensures r.Success? <==> forall u | u in ps :: u in values
    ensures r.Success? ==> |r.value| == |ps| && forall i | 0 <= i < |ps| :: r.value[i] == values[ps[i]]
    ensures r.Failure? ==> r.error in ps && r.error !in values
  {
    if ps == [] then Success([])
    else if ps[0] !in values then Failure(ps[0])
    else match PredValues(values, ps[1..])
      case Failure(u) => Failure(u)
      case Success(rest) => Success([values[ps[0]]] + rest)
  }

  /** A value stored for a node outside `ps` does not change what `ps` reads. */
  lemma PredValuesFrame(values: map<Signal, Bit>, ps: seq<Signal>, w: Signal, b: Bit)
    requires w !in ps
    ensures PredValues(values[w := b], ps) == PredValues(values, ps)
  {
    var r, r' := PredValues(values[w := b], ps), PredValues(values, ps);
    if r'.Success? {
      assert r.Success?;
      assert r.value == r'.value;
    } else if ps != [] && ps[0] in values {
      PredValuesFrame(values, ps[1..], w, b);
    }
  }

  /** One pass of the inner loop for `node`: a declared input takes its tuple value, any
      other node its gate applied to the values of its predecessors. */
  function Step(g: Graph, names: seq<Signal>, inputValues: map<Signal, Bit>, values: map<Signal, Bit>, node: Signal): (r: Result<map<Signal, Bit>, SimError>)
    requires node in g.preds
    requires forall n | n in names :: n in inputValues
    ensures r.Success? ==> r.value.Keys == values.Keys + {node}
    ensures r.Success? ==> forall w | w in values && w != node :: r.value[w] == values[w]
    ensures r.Failure? && r.error.MissingValue? ==> r.error.node in g.preds[node] && r.error.node !in values
    ensures r.Failure? && !r.error.MissingValue? ==> r.error.node == node
  {
    if node in names then Success(values[node := inputValues[node]])
    else if node !in g.labels then Failure(Unlabelled(node))
    else match PredValues(values, g.preds[node])
      case Failure(u) => Failure(MissingValue(u))
      case Success(ins) =>
        match SimulateLogic(g.labels[node], ins)
        case Failure(e) => Failure(GateFailed(node, e))
        case Success(b) => Success(values[node := b])
  }

  /** The inner loop of `simulate_verilog_graph` over `order`: `node_values` at the end,
      or the first exception. */
  function Run(g: Graph, names: seq<Signal>, inputValues: map<Signal, Bit>, order: seq<Signal>): Result<map<Signal, Bit>, SimError>
    requires forall i | 0 <= i < |order| :: order[i] in g.preds
    requires forall n | n in names :: n in inputValues
    decreases |order|
  {
    if order == [] then Success(map[])
    else
      var init := order[..|order| - 1];
      assert forall i | 0 <= i < |init| :: init[i] == order[i];
      match Run(g, names, inputValues, init)
      case Failure(e) => Failure(e)
      case Success(values) => Step(g, names, inputValues, values, order[|order| - 1])
  }

  /** The value of node `v` agrees with the circuit: its tuple value for a declared input,
      otherwise its gate applied to its predecessors' values in edge order. */
  ghost predicate NodeRule(g: Graph, names: seq<Signal>, inputValues: map<Signal, Bit>, values: map<Signal, Bit>, v: Signal)
    requires v in g.preds && v in values
    requires forall n | n in names :: n in inputValues
  {
    if v in names then values[v] == inputValues[v]
    else
      && v in g.labels
      && PredValues(values, g.preds[v]).Success?
      && SimulateLogic(g.labels[v], PredValues(values, g.preds[v]).value) == Success(values[v])
  }

  /** A value for every node, each agreeing with the circuit. */
  ghost predicate Consistent(g: Graph, names: seq<Signal>, inputValues: map<Signal, Bit>, values: map<Signal, Bit>)
    requires forall n | n in names :: n in inputValues
  {
    values.Keys == g.preds.Keys && forall v | v in g.preds :: NodeRule(g, names, inputValues, values, v)
  }

  /** Whether the inner loop can evaluate node `v` at all. */
  predicate Evaluable(g: Graph, names: seq<Signal>, v: Signal)
    requires v in g.preds
  {
    v in names || (v in g.labels && Accepts(g.labels[v], |g.preds[v]|))
  }

  /** The exception the inner loop raises at a node it cannot evaluate: a missing label,
      or the gate evaluator's error, which depends only on the tag and the arity. */
  function Fault(g: Graph, names: seq<Signal>, v: Signal): (e: SimError)
    requires v in g.preds && !Evaluable(g, names, v)
    ensures e.node == v && !e.MissingValue?
  {
    if v !in g.labels then Unlabelled(v)
    else GateFailed(v, if IsPrimitive(g.labels[v]) then NoOperand else GateNotFound)
  }

  /** The first `n` nodes of the order have values that agree with the circuit. */
  ghost predicate Evaluated(g: Graph, names: seq<Signal>, inputValues: map<Signal, Bit>, order: seq<Signal>, n: nat, values: map<Signal, Bit>)
    requires forall i | 0 <= i < |order| :: order[i] in g.preds
    requires forall m | m in names :: m in inputValues
    requires n <= |order|
  {
    && values.Keys <= g.preds.Keys
    && forall j | 0 <= j < n :: order[j] in values && NodeRule(g, names, inputValues, values, order[j])
  }

  /** When node `i` of the order is reached, all its predecessors have a value. */
  lemma PredecessorsReady(g: Graph, order: seq<Signal>, n: nat, values: map<Signal, Bit>)
    requires Valid(g) && IsTopologicalOrder(g, order)
    requires n < |order|
    requires forall j | 0 <= j < n :: order[j] in values
    ensures PredValues(values, g.preds[order[n]]).Success?
  {
    forall u | u in g.preds[order[n]] ensures u in values {
      var k := PredIndex(g, order, n, u);
    }
  }

  /** One pass of the inner loop keeps the values in agreement with the circuit, never
      misses a predecessor's value, and fails exactly on a node it cannot evaluate. */
  lemma StepPreserves(g: Graph, names: seq<Signal>, inputValues: map<Signal, Bit>, order: seq<Signal>, n: nat, values: map<Signal, Bit>)
    requires Valid(g) && IsTopologicalOrder(g, order)
    requires forall m | m in names :: m in inputValues
    requires n < |order|
    requires Evaluated(g, names, inputValues, order, n, values)
    ensures Step(g, names, inputValues, values, order[n]).Success? <==> Evaluable(g, names, order[n])
    ensures Step(g, names, inputValues, values, order[n]).Failure? ==> Step(g, names, inputValues, values, order[n]).error == Fault(g, names, order[n])
    ensures Step(g, names, inputValues, values, order[n]).Success? ==> Evaluated(g, names, inputValues, order, n + 1, Step(g, names, inputValues, values, order[n]).value)
  {
    var node := order[n];
    PredecessorsReady(g, order, n, values);
    var r := Step(g, names, inputValues, values, node);
    if r.Success? {
      var b := r.value[node];
      assert r.value == values[node := b];
      StoreKeepsRules(g, names, inputValues, order, n, values, b, n + 1);
    }
  }

  /** Storing a value for node `n` leaves intact what every node up to `n` reads: none of
      them has node `n` as a predecessor. */
  lemma StoreKeepsRules(g: Graph, names: seq<Signal>, inputValues: map<Signal, Bit>, order: seq<Signal>, n: nat, values: map<Signal, Bit>, b: Bit, m: nat)
    requires Valid(g) && IsTopologicalOrder(g, order)
    requires forall k | k in names :: k in inputValues
    requires n < |order| && m <= n + 1
    requires Evaluated(g, names, inputValues, order, n, values)
    requires PredValues(values, g.preds[order[n]]).Success?
    requires order[n] in names ==> b == inputValues[order[n]]
    requires order[n] !in names ==> order[n] in g.labels && SimulateLogic(g.labels[order[n]], PredValues(values, g.preds[order[n]]).value) == Success(b)
    ensures Evaluated(g, names, inputValues, order, m, values[order[n] := b])
  {
    var node := order[n];
    forall j | 0 <= j < m ensures order[j] in values[node := b] && NodeRule(g, names, inputValues, values[node := b], order[j]) {
      var v := order[j];
      forall u | u in g.preds[v] ensures u != node {
        var k := PredIndex(g, order, j, u);
      }
      PredValuesFrame(values, g.preds[v], node, b);
    }
  }

  /** Running the loop over the first `n` nodes: the values agree with the circuit, no
      predecessor value is ever missing, and it fails exactly when some node of the prefix
      cannot be evaluated. */
  lemma {:induction false} RunPrefix(g: Graph, names: seq<Signal>, inputValues: map<Signal, Bit>, order: seq<Signal>, n: nat)
    requires Valid(g) && IsTopologicalOrder(g, order)
    requires forall m | m in names :: m in inputValues
    requires n <= |order|
    ensures Run(g, names, inputValues, order[..n]).Success? <==> forall j | 0 <= j < n :: Evaluable(g, names, order[j])
    ensures Run(g, names, inputValues, order[..n]).Failure? ==> !Run(g, names, inputValues, order[..n]).error.MissingValue?
    ensures Run(g, names, inputValues, order[..n]).Success? ==> Evaluated(g, names, inputValues, order, n, Run(g, names, inputValues, order[..n]).value)
  {
    if n > 0 {
      RunPrefix(g, names, inputValues, order, n - 1);
      var prev := Run(g, names, inputValues, order[..n - 1]);
      RunSnoc(g, names, inputValues, order, n - 1);
      if prev.Success? {
        StepPreserves(g, names, inputValues, order, n - 1, prev.value);
      }
    }
  }

  /** A failing run fails at the first node of the order that cannot be evaluated, with
      that node's fault. */
  lemma {:induction false} RunFailsAtFirstFault(g: Graph, names: seq<Signal>, inputValues: map<Signal, Bit>, order: seq<Signal>, n: nat) returns (k: nat)
    requires Valid(g) && IsTopologicalOrder(g, order)
    requires forall m | m in names :: m in inputValues
    requires n <= |order|
    requires Run(g, names, inputValues, order[..n]).Failure?
    ensures k < n && !Evaluable(g, names, order[k])
    ensures forall j | 0 <= j < k :: Evaluable(g, names, order[j])
    ensures Run(g, names, inputValues, order[..n]).error == Fault(g, names, order[k])
  {
    var prev := Run(g, names, inputValues, order[..n - 1]);
    RunSnoc(g, names, inputValues, order, n - 1);
    RunPrefix(g, names, inputValues, order, n - 1);
    if prev.Failure? {
      k := RunFailsAtFirstFault(g, names, inputValues, order, n - 1);
    } else {
      StepPreserves(g, names, inputValues, order, n - 1, prev.value);
      k := n - 1;
    }
  }

  /** Running one more node of the order: the loop carries on from the prefix's values. */
  lemma RunSnoc(g: Graph, names: seq<Signal>, inputValues: map<Signal, Bit>, order: seq<Signal>, n: nat)
    requires forall i | 0 <= i < |order| :: order[i] in g.preds
    requires forall m | m in names :: m in inputValues
    requires n < |order|
    ensures Run(g, names, inputValues, order[..n + 1]) ==
      if Run(g, names, inputValues, order[..n]).Failure? then Run(g, names, inputValues, order[..n])
      else Step(g, names, inputValues, Run(g, names, inputValues, order[..n]).value, order[n])
  {
    assert order[..n + 1][..n] == order[..n];
  }

  /** From a successful prefix the loop evaluates node `n`, all of whose predecessors
      already have values. */
  lemma RunNext(g: Graph, names: seq<Signal>, inputValues: map<Signal, Bit>, order: seq<Signal>, n: nat, values: map<Signal, Bit>)
    requires Valid(g) && IsTopologicalOrder(g, order)
    requires forall m | m in names :: m in inputValues
    requires n < |order|
    requires Run(g, names, inputValues, order[..n]) == Success(values)
    requires forall j | 0 <= j < n :: order[j] in values
    ensures forall u | u in g.preds[order[n]] :: u in values
    ensures Run(g, names, inputValues, order[..n + 1]) == Step(g, names, inputValues, values, order[n])
    ensures Step(g, names, inputValues, values, order[n]).Success? ==>
      forall j | 0 <= j <= n :: order[j] in Step(g, names, inputValues, values, order[n]).value
  {
    PredecessorsReady(g, order, n, values);
    RunSnoc(g, names, inputValues, order, n);
  }

  /** A failure stops the loop: a failing prefix makes the whole run fail with its error. */
  lemma {:induction false} RunFailureSticks(g: Graph, names: seq<Signal>, inputValues: map<Signal, Bit>, order: seq<Signal>, n: nat)
    requires forall i | 0 <= i < |order| :: order[i] in g.preds
    requires forall m | m in names :: m in inputValues
    requires n <= |order|
    requires Run(g, names, inputValues, order[..n]).Failure?
    ensures Run(g, names, inputValues, order) == Run(g, names, inputValues, order[..n])
    decreases |order| - n
  {
    if n < |order| {
      assert order[..n + 1][..n] == order[..n];
      RunFailureSticks(g, names, inputValues, order, n + 1);
    } else {
      assert order[..n] == order;
    }
  }

  /** The body of the inner loop for one node: its tuple value if it is a declared input,
      otherwise its gate applied to its predecessors' values. */
  method EvaluateNode(g: Graph, names: seq<Signal>, inputValues: map<Signal, Bit>, nodeValues: map<Signal, Bit>, node: Signal) returns (r: Result<map<Signal, Bit>, SimError>)
    requires node in g.preds
    requires forall m | m in names :: m in inputValues
    requires forall u | u in g.preds[node] :: u in nodeValues
    ensures r == Step(g, names, inputValues, nodeValues, node)
    ensures r.Failure? ==> !r.error.MissingValue?
  {
    if node in names {
      return Success(nodeValues[node := inputValues[node]]);
    }
    if node !in g.labels {
      return Failure(Unlabelled(node));
    }
    var gateType := g.labels[node];
    var inputs := PredValues(nodeValues, g.preds[node]);
    var out := SimulateLogic(gateType, inputs.value);
    if out.Failure? {
      return Failure(GateFailed(node, out.error));
    }
    return Success(nodeValues[node := out.value]);
  }

  /** The inner loop of `simulate_verilog_graph` for one input combination. */
  method Evaluate(g: Graph, names: seq<Signal>, inputValues: map<Signal, Bit>, order: seq<Signal>) returns (r: Result<map<Signal, Bit>, SimError>)
    requires Valid(g) && IsTopologicalOrder(g, order)
    requires forall m | m in names :: m in inputValues
    ensures r == Run(g, names, inputValues, order)
    ensures r.Failure? ==> !r.error.MissingValue?
  {
    var nodeValues: map<Signal, Bit> := map[];
    var i := 0;
    assert order[..i] == [];
    while i < |order|
      invariant 0 <= i <= |order|
      invariant Run(g, names, inputValues, order[..i]) == Success(nodeValues)
      invariant forall j | 0 <= j < i :: order[j] in nodeValues
    {
      RunNext(g, names, inputValues, order, i, nodeValues);
      var next := EvaluateNode(g, names, inputValues, nodeValues, order[i]);
      if next.Failure? {
        RunFailureSticks(g, names, inputValues, order, i + 1);
        return next;
      }
      nodeValues := next.value;
      i := i + 1;
    }
    assert order[..i] == order;
    r := Success(nodeValues);
  }

  /** A successful run solves the circuit: every node has a value that agrees with its
      gate and its predecessors' values. */
  lemma RunSolves(g: Graph, names: seq<Signal>, inputValues: map<Signal, Bit>, order: seq<Signal>)
    requires Valid(g) && IsTopologicalOrder(g, order)
    requires forall m | m in names :: m in inputValues
    requires Run(g, names, inputValues, order).Success?
    ensures Consistent(g, names, inputValues, Run(g, names, inputValues, order).value)
  {
    RunPrefix(g, names, inputValues, order, |order|);
    assert order[..|order|] == order;
    EvaluatedAll(g, names, inputValues, order, Run(g, names, inputValues, order).value);
  }

  /** Values that agree with the circuit on the whole order solve it. */
  lemma EvaluatedAll(g: Graph, names: seq<Signal>, inputValues: map<Signal, Bit>, order: seq<Signal>, values: map<Signal, Bit>)
    requires IsTopologicalOrder(g, order)
    requires forall m | m in names :: m in inputValues
    requires Evaluated(g, names, inputValues, order, |order|, values)
    ensures Consistent(g, names, inputValues, values)
  {
    forall v | v in g.preds ensures v in values && NodeRule(g, names, inputValues, values, v) {
      var k :| 0 <= k < |order| && order[k] == v;
    }
  }

  /** The run succeeds exactly when every node is a declared input or a gate that accepts
      its number of inputs; otherwise it fails with the fault of the earliest such node,
      never with a missing predecessor value. */
  lemma RunSucceedsIff(g: Graph, names: seq<Signal>, inputValues: map<Signal, Bit>, order: seq<Signal>)
    requires Valid(g) && IsTopologicalOrder(g, order)
    requires forall m | m in names :: m in inputValues
    ensures Run(g, names, inputValues, order).Success? <==> forall v | v in g.preds :: Evaluable(g, names, v)
    ensures Run(g, names, inputValues, order).Failure? ==> !Run(g, names, inputValues, order).error.MissingValue?
  {
    RunPrefix(g, names, inputValues, order, |order|);
    assert order[..|order|] == order;
    if forall j | 0 <= j < |order| :: Evaluable(g, names, order[j]) {
      forall v | v in g.preds ensures Evaluable(g, names, v) {
        var k :| 0 <= k < |order| && order[k] == v;
      }
    }
  }

  /** Whether and where the run fails depends on the circuit alone, not on the input values. */
  lemma RunFailureIgnoresInputs(g: Graph, names: seq<Signal>, a: map<Signal, Bit>, b: map<Signal, Bit>, order: seq<Signal>)
    requires Valid(g) && IsTopologicalOrder(g, order)
    requires forall m | m in names :: m in a && m in b
    requires Run(g, names, a, order).Failure?
    ensures Run(g, names, b, order) == Run(g, names, a, order)
  {
    RunSucceedsIff(g, names, a, order);
    RunSucceedsIff(g, names, b, order);
    assert order[..|order|] == order;
    var ka := RunFailsAtFirstFault(g, names, a, order, |order|);
    var kb := RunFailsAtFirstFault(g, names, b, order, |order|);
    assert !(ka < kb) && !(kb < ka);
  }

  /** On a graph with a topological order there is at most one solution of the circuit. */
  lemma ConsistentUnique(g: Graph, names: seq<Signal>, inputValues: map<Signal, Bit>, order: seq<Signal>, a: map<Signal, Bit>, b: map<Signal, Bit>)
    requires Valid(g) && IsTopologicalOrder(g, order)
    requires forall m | m in names :: m in inputValues
    requires Consistent(g, names, inputValues, a) && Consistent(g, names, inputValues, b)
    ensures a == b
  {
    ConsistentAgreeUpTo(g, names, inputValues, order, a, b, |order|);
    forall v | v in g.preds ensures a[v] == b[v] {
      var k :| 0 <= k < |order| && order[k] == v;
    }
  }

  lemma {:induction false} ConsistentAgreeUpTo(g: Graph, names: seq<Signal>, inputValues: map<Signal, Bit>, order: seq<Signal>, a: map<Signal, Bit>, b: map<Signal, Bit>, n: nat)
    requires Valid(g) && IsTopologicalOrder(g, order)
    requires forall m | m in names :: m in inputValues
    requires Consistent(g, names, inputValues, a) && Consistent(g, names, inputValues, b)
    requires n <= |order|
    ensures forall j | 0 <= j < n :: a[order[j]] == b[order[j]]
  {
    if n > 0 {
      ConsistentAgreeUpTo(g, names, inputValues, order, a, b, n - 1);
      var v := order[n - 1];
      forall u | u in g.preds[v] ensures u in a && u in b && a[u] == b[u] {
        var k := PredIndex(g, order, n - 1, u);
      }
      NodeRuleAgree(g, names, inputValues, a, b, v);
    }
  }

  /** Two solutions that agree on the predecessors of `v` agree on `v`. */
  lemma NodeRuleAgree(g: Graph, names: seq<Signal>, inputValues: map<Signal, Bit>, a: map<Signal, Bit>, b: map<Signal, Bit>, v: Signal)
    requires forall m | m in names :: m in inputValues
    requires v in g.preds && v in a && v in b
    requires NodeRule(g, names, inputValues, a, v) && NodeRule(g, names, inputValues, b, v)
    requires forall u | u in g.preds[v] :: u in a && u in b && a[u] == b[u]
    ensures a[v] == b[v]
  {
    if v !in names {
      assert PredValues(a, g.preds[v]).value == PredValues(b, g.preds[v]).value;
    }
  }

  /** When the circuit has a solution, the run succeeds and computes it. */
  lemma RunFindsSolution(g: Graph, names: seq<Signal>, inputValues: map<Signal, Bit>, order: seq<Signal>, values: map<Signal, Bit>)
    requires Valid(g) && IsTopologicalOrder(g, order)
    requires forall m | m in names :: m in inputValues
    requires Consistent(g, names, inputValues, values)
    ensures Run(g, names, inputValues, order) == Success(values)
  {
    forall v | v in g.preds ensures Evaluable(g, names, v) {
      assert NodeRule(g, names, inputValues, values, v);
    }
    RunSucceedsIff(g, names, inputValues, order);
    RunSolves(g, names, inputValues, order);
    ConsistentUnique(g, names, inputValues, order, values, Run(g, names, inputValues, order).value);
  }

  /** A declared input node holds the tuple component at the last position of its name,
      whatever gate may drive it. */
  lemma InputNodeValue(g: Graph, names: seq<Signal>, combo: seq<Bit>, values: map<Signal, Bit>, i: nat)
    requires |combo| == |names| && i < |names|
    requires forall j | i < j < |names| :: names[j] != names[i]
    requires names[i] in g.preds
    requires Consistent(g, names, ZipToMap(names, combo), values)
    ensures values[names[i]] == combo[i]
  {
    ZipLastWins(names, combo, i);
    assert NodeRule(g, names, ZipToMap(names, combo), values, names[i]);
  }

  /** Whether the run succeeds, and the node values when it does, do not depend on which
      topological order networkx picks (which node a failure names can). */
  lemma RunOrderIndependent(g: Graph, names: seq<Signal>, inputValues: map<Signal, Bit>, order: seq<Signal>, order': seq<Signal>)
    requires Valid(g) && IsTopologicalOrder(g, order) && IsTopologicalOrder(g, order')
    requires forall m | m in names :: m in inputValues
    ensures Run(g, names, inputValues, order).Success? <==> Run(g, names, inputValues, order').Success?
    ensures Run(g, names, inputValues, order).Success? ==> Run(g, names, inputValues, order) == Run(g, names, inputValues, order')
  {
    RunSucceedsIff(g, names, inputValues, order);
    RunSucceedsIff(g, names, inputValues, order');
    var r, r' := Run(g, names, inputValues, order), Run(g, names, inputValues, order');
    if r.Success? {
      RunSolves(g, names, inputValues, order);
      RunSolves(g, names, inputValues, order');
      ConsistentUnique(g, names, inputValues, order, r.value, r'.value);
    }
  }

  /** `{node: value for node, value in node_values.items() if G.out_degree(node) == 0}`. */
  function SinkValues(g: Graph, values: map<Signal, Bit>): map<Signal, Bit>
  {
    map u | u in values && IsSink(g, u) :: values[u]
  }

  /** The work of one outer iteration: the node values for one input tuple, then its row. */
  function RowOf(g: Graph, names: seq<Signal>, order: seq<Signal>, combo: seq<Bit>): (r: Result<Row, SimError>)
    requires forall i | 0 <= i < |order| :: order[i] in g.preds
    requires |combo| == |names|
    ensures r.Success? ==> r.value.inputs == combo
  {
    var inputValues := ZipToMap(names, combo);
    match Run(g, names, inputValues, order)
    case Failure(e) => Failure(e)
    case Success(values) => Success(Row(combo, SinkValues(g, values)))
  }

  /** The outer loop of `simulate_verilog_graph` over `combos`: the result rows in insertion
      order, or the first exception. */
  function Table(g: Graph, names: seq<Signal>, order: seq<Signal>, combos: seq<seq<Bit>>): (r: Result<seq<Row>, SimError>)
    requires forall i | 0 <= i < |order| :: order[i] in g.preds
    requires forall n | 0 <= n < |combos| :: |combos[n]| == |names|
    ensures r.Success? ==> |r.value| == |combos| && forall n | 0 <= n < |combos| :: r.value[n].inputs == combos[n]
    decreases |combos|
  {
    if combos == [] then Success([])
    else
      var init := combos[..|combos| - 1];
      assert forall n | 0 <= n < |init| :: init[n] == combos[n];
      match Table(g, names, order, init)
      case Failure(e) => Failure(e)
      case Success(rows) =>
        match RowOf(g, names, order, combos[|combos| - 1])
        case Failure(e) => Failure(e)
        case Success(row) => Success(rows + [row])
  }

  /** Running the outer loop over one more tuple. */
  lemma TableSnoc(g: Graph, names: seq<Signal>, order: seq<Signal>, combos: seq<seq<Bit>>, n: nat)
    requires forall i | 0 <= i < |order| :: order[i] in g.preds
    requires forall m | 0 <= m < |combos| :: |combos[m]| == |names|
    requires n < |combos|
    ensures Table(g, names, order, combos[..n + 1]) ==
      if Table(g, names, order, combos[..n]).Failure? then Table(g, names, order, combos[..n])
      else if RowOf(g, names, order, combos[n]).Failure? then Failure(RowOf(g, names, order, combos[n]).error)
      else Success(Table(g, names, order, combos[..n]).value + [RowOf(g, names, order, combos[n]).value])
  {
    assert combos[..n + 1][..n] == combos[..n];
  }

  /** An exception ends the outer loop: a failing prefix makes the whole table fail. */
  lemma {:induction false} TableFailureSticks(g: Graph, names: seq<Signal>, order: seq<Signal>, combos: seq<seq<Bit>>, n: nat)
    requires forall i | 0 <= i < |order| :: order[i] in g.preds
    requires forall m | 0 <= m < |combos| :: |combos[m]| == |names|
    requires n <= |combos|
    requires Table(g, names, order, combos[..n]).Failure?
    ensures Table(g, names, order, combos) == Table(g, names, order, combos[..n])
    decreases |combos| - n
  {
    if n < |combos| {
      TableSnoc(g, names, order, combos, n);
      TableFailureSticks(g, names, order, combos, n + 1);
    } else {
      assert combos[..n] == combos;
    }
  }

  /** A failure does not depend on the input tuple: if one tuple fails, every tuple fails
      with the same exception. */
  lemma RowFailureUniform(g: Graph, names: seq<Signal>, order: seq<Signal>, c: seq<Bit>, c': seq<Bit>)
    requires Valid(g) && IsTopologicalOrder(g, order)
    requires |c| == |names| && |c'| == |names|
    requires RowOf(g, names, order, c).Failure?
    ensures RowOf(g, names, order, c') == RowOf(g, names, order, c)
  {
    RunFailureIgnoresInputs(g, names, ZipToMap(names, c), ZipToMap(names, c'), order);
  }

  /** The outer loop over a prefix: either one row per tuple, each computed from its tuple,
      or the exception of the first tuple. */
  lemma {:induction false} TablePrefix(g: Graph, names: seq<Signal>, order: seq<Signal>, combos: seq<seq<Bit>>, n: nat)
    requires Valid(g) && IsTopologicalOrder(g, order)
    requires forall m | 0 <= m < |combos| :: |combos[m]| == |names|
    requires n <= |combos|
    ensures Table(g, names, order, combos[..n]).Success? ==>
      && |Table(g, names, order, combos[..n]).value| == n
      && forall m | 0 <= m < n :: RowOf(g, names, order, combos[m]) == Success(Table(g, names, order, combos[..n]).value[m])
    ensures n > 0 && RowOf(g, names, order, combos[0]).Failure? ==>
      Table(g, names, order, combos[..n]) == Failure(RowOf(g, names, order, combos[0]).error)
    ensures n > 0 && RowOf(g, names, order, combos[0]).Success? ==> Table(g, names, order, combos[..n]).Success?
  {
    if n > 0 {
      TablePrefix(g, names, order, combos, n - 1);
      TableSnoc(g, names, order, combos, n - 1);
      if RowOf(g, names, order, combos[0]).Success? && RowOf(g, names, order, combos[n - 1]).Failure? {
        RowFailureUniform(g, names, order, combos[n - 1], combos[0]);
      }
      if RowOf(g, names, order, combos[0]).Failure? && n > 1 {
        assert Table(g, names, order, combos[..n - 1]).Failure?;
      }
    }
  }

  /** A table is determined by its rows: one successful row per tuple, in tuple order. */
  lemma TableOfRows(g: Graph, names: seq<Signal>, order: seq<Signal>, combos: seq<seq<Bit>>, rows: seq<Row>)
    requires Valid(g) && IsTopologicalOrder(g, order)
    requires forall m | 0 <= m < |combos| :: |combos[m]| == |names|
    requires |rows| == |combos|
    requires forall m | 0 <= m < |combos| :: RowOf(g, names, order, combos[m]) == Success(rows[m])
    ensures Table(g, names, order, combos) == Success(rows)
  {
    TablePrefix(g, names, order, combos, |combos|);
    assert combos[..|combos|] == combos;
    if combos != [] {
      assert RowOf(g, names, order, combos[0]) == Success(rows[0]);
      assert Table(g, names, order, combos[..|combos|]).Success?;
      var value := Table(g, names, order, combos).value;
      assert |value| == |rows|;
      assert forall m | 0 <= m < |combos| :: value[m] == rows[m];
      assert value == rows;
    }
  }

  /** `simulate_verilog_graph`: one row per input tuple in `itertools.product` order, or the
      first exception. */
  method Simulate(g: Graph, inputNames: seq<Signal>, order: seq<Signal>) returns (r: Result<seq<Row>, SimError>)
    requires Valid(g) && IsTopologicalOrder(g, order)
    ensures r == Table(g, inputNames, order, Combinations(|inputNames|))
  {
    var combos := Combinations(|inputNames|);
    var rows: seq<Row> := [];
    var i := 0;
    while i < |combos|
      invariant 0 <= i <= |combos|
      invariant Table(g, inputNames, order, combos[..i]) == Success(rows)
    {
      var inputValues := ZipToMap(inputNames, combos[i]);
      var values := Evaluate(g, inputNames, inputValues, order);
      TableSnoc(g, inputNames, order, combos, i);
      if values.Failure? {
        r := Failure(values.error);
        TableFailureSticks(g, inputNames, order, combos, i + 1);
        return;
      }
      var outputValues := SinkValues(g, values.value);
      rows := rows + [Row(combos[i], outputValues)];
      i := i + 1;
    }
    assert combos[..i] == combos;
    r := Success(rows);
  }

  /** The result has one row per input tuple, keyed by distinct tuples, in binary counting
      order: row n's inputs read as a binary number give n. */
  lemma SimulationRows(g: Graph, names: seq<Signal>, order: seq<Signal>)
    requires Valid(g) && IsTopologicalOrder(g, order)
    requires Table(g, names, order, Combinations(|names|)).Success?
    ensures var rows := Table(g, names, order, Combinations(|names|)).value;
      && |rows| == Pow2(|names|)
      && (forall n | 0 <= n < |rows| :: rows[n].inputs == Combinations(|names|)[n] && FromBits(rows[n].inputs) == n)
      && (forall i, j | 0 <= i < j < |rows| :: rows[i].inputs != rows[j].inputs)
  {
    var rows := Table(g, names, order, Combinations(|names|)).value;
    RowsCountUp(|names|, rows);
  }

  /** Rows keyed by the enumeration are keyed by distinct tuples, counting up in binary. */
  lemma RowsCountUp(k: nat, rows: seq<Row>)
    requires |rows| == Pow2(k) && forall n | 0 <= n < |rows| :: rows[n].inputs == Combinations(k)[n]
    ensures forall n | 0 <= n < |rows| :: FromBits(rows[n].inputs) == n
    ensures forall i, j | 0 <= i < j < |rows| :: rows[i].inputs != rows[j].inputs
  {
    forall n | 0 <= n < |rows| ensures FromBits(rows[n].inputs) == n {
      CombinationValue(k, n);
    }
    CombinationsDistinct(k);
  }

  /** The simulation succeeds exactly when every node is a declared input or a gate that
      accepts its number of inputs; a failure is never a missing predecessor value. */
  lemma SimulationSucceedsIff(g: Graph, names: seq<Signal>, order: seq<Signal>)
    requires Valid(g) && IsTopologicalOrder(g, order)
    ensures Table(g, names, order, Combinations(|names|)).Success? <==> forall v | v in g.preds :: Evaluable(g, names, v)
    ensures Table(g, names, order, Combinations(|names|)).Failure? ==> !Table(g, names, order, Combinations(|names|)).error.MissingValue?
  {
    var combos := Combinations(|names|);
    TablePrefix(g, names, order, combos, |combos|);
    assert combos[..|combos|] == combos;
    var inputValues := ZipToMap(names, combos[0]);
    RunSucceedsIff(g, names, inputValues, order);
  }

  /** Row n of a successful table is computed from a successful run on its own input tuple. */
  lemma RowFromRun(g: Graph, names: seq<Signal>, order: seq<Signal>, combos: seq<seq<Bit>>, n: nat)
    requires Valid(g) && IsTopologicalOrder(g, order)
    requires forall m | 0 <= m < |combos| :: |combos[m]| == |names|
    requires Table(g, names, order, combos).Success?
    requires n < |combos|
    ensures Run(g, names, ZipToMap(names, combos[n]), order).Success?
    ensures Table(g, names, order, combos).value[n] == Row(combos[n], SinkValues(g, Run(g, names, ZipToMap(names, combos[n]), order).value))
  {
    TablePrefix(g, names, order, combos, |combos|);
    assert combos[..|combos|] == combos;
    assert RowOf(g, names, order, combos[n]) == Success(Table(g, names, order, combos).value[n]);
  }

  /** The keys of the output dict are exactly the sinks of the graph. */
  lemma SinkValuesKeys(g: Graph, values: map<Signal, Bit>)
    requires values.Keys == g.preds.Keys
    ensures SinkValues(g, values).Keys == set u | u in g.preds && IsSink(g, u)
  {
  }

  /** Row n holds the sink values of the circuit's solution for its input tuple: each
      output has the value every solution gives it. */
  lemma RowSemantics(g: Graph, names: seq<Signal>, order: seq<Signal>, combos: seq<seq<Bit>>, n: nat, values: map<Signal, Bit>)
    requires Valid(g) && IsTopologicalOrder(g, order)
    requires forall m | 0 <= m < |combos| :: |combos[m]| == |names|
    requires Table(g, names, order, combos).Success?
    requires n < |combos|
    requires Consistent(g, names, ZipToMap(names, combos[n]), values)
    ensures Table(g, names, order, combos).value[n].outputs == SinkValues(g, values)
  {
    RowFromRun(g, names, order, combos, n);
    RunFindsSolution(g, names, ZipToMap(names, combos[n]), order, values);
  }

  /** The outputs of every row are exactly the sinks of the graph. */
  lemma RowOutputsAreSinks(g: Graph, names: seq<Signal>, order: seq<Signal>, combos: seq<seq<Bit>>, n: nat)
    requires Valid(g) && IsTopologicalOrder(g, order)
    requires forall m | 0 <= m < |combos| :: |combos[m]| == |names|
    requires Table(g, names, order, combos).Success?
    requires n < |combos|
    ensures Table(g, names, order, combos).value[n].outputs.Keys == set u | u in g.preds && IsSink(g, u)
  {
    var inputValues := ZipToMap(names, combos[n]);
    RowFromRun(g, names, order, combos, n);
    RunSolves(g, names, inputValues, order);
    SinkValuesKeys(g, Run(g, names, inputValues, order).value);
  }

  /** Every row has a solution behind it. */
  lemma RowHasSolution(g: Graph, names: seq<Signal>, order: seq<Signal>, combos: seq<seq<Bit>>, n: nat) returns (values: map<Signal, Bit>)
    requires Valid(g) && IsTopologicalOrder(g, order)
    requires forall m | 0 <= m < |combos| :: |combos[m]| == |names|
    requires Table(g, names, order, combos).Success?
    requires n < |combos|
    ensures Consistent(g, names, ZipToMap(names, combos[n]), values)
  {
    var inputValues := ZipToMap(names, combos[n]);
    RowFromRun(g, names, order, combos, n);
    RunSolves(g, names, inputValues, order);
    values := Run(g, names, inputValues, order).value;
  }
}
