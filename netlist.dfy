/** The circuit graph and the graph-building loop of `parse_verilog_to_graph`.

    A networkx DiGraph is modelled by the two things the core reads from it: the `label`
    attribute of each node and, per node, its predecessors in the order their edges were
    first added (networkx keeps them in a dict). The node set is the key set of `preds`.
    `add_node` and `add_edge` become functions returning the updated graph. */
module Netlist {
  import opened Seqs

  /** A wire name, the node identity of the graph. */
  type Signal = string

  /** One gate instance as the Verilog parser hands it over: the module name used as gate
      tag, the first port (the driven output) and the remaining ports in declared order. */
  datatype Instance = Instance(gateType: string, output: Signal, inputs: seq<Signal>)

  datatype Graph = Graph(labels: map<Signal, string>, preds: map<Signal, seq<Signal>>)

  const EmptyGraph: Graph := Graph(map[], map[])

  /** What a DiGraph guarantees: labels sit on nodes, a node has each predecessor once
      (no parallel edges), and every predecessor is a node. */
  ghost predicate Valid(g: Graph)
  {
    && g.labels.Keys <= g.preds.Keys
    && forall v | v in g.preds :: NoDup(g.preds[v]) && forall u | u in g.preds[v] :: u in g.preds
  }

  /** `G.add_node(n, label=gateType)`: creates `n` without edges if absent, and (re)sets its label. */
  function AddNode(g: Graph, n: Signal, gateType: string): (r: Graph)
    ensures Valid(g) ==> Valid(r)
    ensures r.labels == g.labels[n := gateType]
    ensures r.preds.Keys == g.preds.Keys + {n}
    ensures n !in g.preds ==> r.preds[n] == []
    ensures forall v | v in g.preds :: r.preds[v] == g.preds[v]
  {
    Graph(g.labels[n := gateType], if n in g.preds then g.preds else g.preds[n := []])
  }

  /** `G.add_edge(u, v)`: creates missing endpoints unlabelled; adds `u` as the last
      predecessor of `v` unless the edge already exists. */
  function AddEdge(g: Graph, u: Signal, v: Signal): (r: Graph)
    ensures Valid(g) ==> Valid(r)
    ensures r.labels == g.labels
    ensures r.preds.Keys == g.preds.Keys + {u, v}
    ensures v in r.preds && r.preds[v] == AppendNew(if v in g.preds then g.preds[v] else [], u)
    ensures forall w | w in r.preds && w != v :: r.preds[w] == if w in g.preds then g.preds[w] else []
  {
    var withU := if u in g.preds then g.preds else g.preds[u := []];
    var withV := if v in withU then withU else withU[v := []];
    Graph(g.labels, withV[v := AppendNew(withV[v], u)])
  }

  /** The inner loop of the builder: one edge from each input port to the output. */
  function AddEdges(g: Graph, inputs: seq<Signal>, v: Signal): (r: Graph)
    ensures Valid(g) ==> Valid(r)
    ensures r.labels == g.labels
    decreases |inputs|
  {
    if inputs == [] then g
    else AddEdge(AddEdges(g, inputs[..|inputs| - 1], v), inputs[|inputs| - 1], v)
  }

  /** Adding the edges of one instance to output `v`, an existing node: the nodes gained
      are the input ports, `v`'s predecessor list is extended by them, and no other node
      gains a predecessor. */
  lemma {:induction false} AddEdgesEffect(g: Graph, inputs: seq<Signal>, v: Signal)
    requires v in g.preds
    ensures forall w :: w in AddEdges(g, inputs, v).preds <==> w in g.preds || w in inputs
    ensures AddEdges(g, inputs, v).preds[v] == Extend(g.preds[v], inputs)
    ensures forall w | w in AddEdges(g, inputs, v).preds && w != v ::
      AddEdges(g, inputs, v).preds[w] == if w in g.preds then g.preds[w] else []
    decreases |inputs|
  {
    if inputs != [] {
      var init := inputs[..|inputs| - 1];
      AddEdgesEffect(g, init, v);
      assert inputs == init + [inputs[|inputs| - 1]];
    }
  }

  /** One pass of the outer loop: label the output with the gate type, then add its edges. */
  function AddInstance(g: Graph, inst: Instance): (r: Graph)
    ensures Valid(g) ==> Valid(r)
    ensures r.labels == g.labels[inst.output := inst.gateType]
    ensures inst.output in r.preds
  {
    AddEdges(AddNode(g, inst.output, inst.gateType), inst.inputs, inst.output)
  }

  /** Instance `k` drives `v`. */
  predicate Drives(s: seq<Instance>, k: int, v: Signal)
  {
    0 <= k < |s| && s[k].output == v
  }

  /** Some instance drives `v`. */
  predicate Driven(s: seq<Instance>, v: Signal)
  {
    exists k | 0 <= k < |s| :: Drives(s, k, v)
  }

  /** Some instance names `v` as one of its ports. */
  predicate Mentioned(s: seq<Instance>, v: Signal)
  {
    exists k | 0 <= k < |s| :: s[k].output == v || v in s[k].inputs
  }

  /** The input ports of every instance driving `v`, concatenated in instance order. */
  function DriverInputs(s: seq<Instance>, v: Signal): seq<Signal>
  {
    if s == [] then []
    else DriverInputs(s[..|s| - 1], v) + (if s[|s| - 1].output == v then s[|s| - 1].inputs else [])
  }

  /** The graph the builder produces from the instances, processed in order. */
  function Built(s: seq<Instance>): (g: Graph)
    ensures Valid(g)
    decreases |s|
  {
    if s == [] then EmptyGraph else AddInstance(Built(s[..|s| - 1]), s[|s| - 1])
  }

  /** The nodes are exactly the signals some instance names as a port. */
  lemma {:induction false} BuiltNodes(s: seq<Instance>)
    ensures forall v :: v in Built(s).preds <==> Mentioned(s, v)
    decreases |s|
  {
    if s != [] {
      var s' := s[..|s| - 1];
      var last := s[|s| - 1];
      BuiltNodes(s');
      AddEdgesEffect(AddNode(Built(s'), last.output, last.gateType), last.inputs, last.output);
      forall v ensures Mentioned(s, v) <==> Mentioned(s', v) || last.output == v || v in last.inputs {
        MentionedSnoc(s, v);
      }
    }
  }

  /** The signals the instances mention are those the earlier ones mention and the ports of the last. */
  lemma MentionedSnoc(s: seq<Instance>, v: Signal)
    requires s != []
    ensures Mentioned(s, v) <==> Mentioned(s[..|s| - 1], v) || s[|s| - 1].output == v || v in s[|s| - 1].inputs
  {
    var s' := s[..|s| - 1];
    if Mentioned(s, v) {
      var k :| 0 <= k < |s| && (s[k].output == v || v in s[k].inputs);
      if k < |s| - 1 { assert s'[k] == s[k]; }
    }
    if Mentioned(s', v) {
      var k :| 0 <= k < |s'| && (s'[k].output == v || v in s'[k].inputs);
      assert s[k] == s'[k];
    }
  }

  /** The labelled nodes are exactly the driven signals. */
  lemma {:induction false} BuiltLabels(s: seq<Instance>)
    ensures forall v :: v in Built(s).labels <==> Driven(s, v)
    decreases |s|
  {
    if s != [] {
      var s' := s[..|s| - 1];
      BuiltLabels(s');
      forall v ensures Driven(s, v) <==> Driven(s', v) || s[|s| - 1].output == v {
        if Driven(s, v) {
          var k :| 0 <= k < |s| && Drives(s, k, v);
          if k < |s| - 1 { assert Drives(s', k, v); }
        }
        if Driven(s', v) {
          var k :| 0 <= k < |s'| && Drives(s', k, v);
          assert Drives(s, k, v);
        }
        if s[|s| - 1].output == v { assert Drives(s, |s| - 1, v); }
      }
    }
  }

  /** `parse_verilog_to_graph` after parsing: the nested loops over instances and their
      input ports, mutating the graph with add_node and add_edge. */
  method BuildGraph(instances: seq<Instance>) returns (g: Graph)
    ensures g == Built(instances)
  {
    g := EmptyGraph;
    var i := 0;
    while i < |instances|
      invariant 0 <= i <= |instances|
      invariant g == Built(instances[..i])
    {
      var inst := instances[i];
      ghost var before := g;
      g := AddNode(g, inst.output, inst.gateType);
      var j := 0;
      while j < |inst.inputs|
        invariant 0 <= j <= |inst.inputs|
        invariant g == AddEdges(AddNode(before, inst.output, inst.gateType), inst.inputs[..j], inst.output)
      {
        AddEdgesSnoc(AddNode(before, inst.output, inst.gateType), inst.inputs, inst.output, j);
        g := AddEdge(g, inst.inputs[j], inst.output);
        j := j + 1;
      }
      assert inst.inputs[..j] == inst.inputs;
      BuiltSnoc(instances, i);
      i := i + 1;
    }
    assert instances[..i] == instances;
  }

  /** One more edge of the instance being added. */
  lemma AddEdgesSnoc(g: Graph, inputs: seq<Signal>, v: Signal, j: nat)
    requires j < |inputs|
    ensures AddEdges(g, inputs[..j + 1], v) == AddEdge(AddEdges(g, inputs[..j], v), inputs[j], v)
  {
    assert inputs[..j + 1][..j] == inputs[..j];
  }

  /** One more instance of the netlist. */
  lemma BuiltSnoc(s: seq<Instance>, i: nat)
    requires i < |s|
    ensures Built(s[..i + 1]) == AddInstance(Built(s[..i]), s[i])
  {
    assert s[..i + 1][..i] == s[..i];
  }

  /** Each driven signal carries the gate type of the LAST instance driving it: a later
      add_node overwrites the earlier label. */
  lemma {:induction false} LabelIsLastDriver(s: seq<Instance>, k: nat)
    requires k < |s|
    requires forall k2 | k < k2 < |s| :: s[k2].output != s[k].output
    ensures s[k].output in Built(s).labels && Built(s).labels[s[k].output] == s[k].gateType
    decreases |s|
  {
    if k < |s| - 1 {
      var s' := s[..|s| - 1];
      assert s'[k] == s[k];
      LabelIsLastDriver(s', k);
    }
  }

  /** Signals that are only ever inputs are nodes without a label. */
  lemma InputOnlyUnlabelled(s: seq<Instance>, v: Signal)
    requires Mentioned(s, v)
    requires forall k | 0 <= k < |s| :: s[k].output != v
    ensures v in Built(s).preds && v !in Built(s).labels
  {
    BuiltNodes(s);
    BuiltLabels(s);
  }

  /** The predecessors of a node are the input ports of the instances driving it, in
      port order, each listed once at its first occurrence. */
  lemma {:induction false} PredsAreDriverPorts(s: seq<Instance>, v: Signal)
    requires v in Built(s).preds
    ensures Built(s).preds[v] == Dedup(DriverInputs(s, v))
    decreases |s|
  {
    var s' := s[..|s| - 1];
    var last := s[|s| - 1];
    var g' := Built(s');
    var withNode := AddNode(g', last.output, last.gateType);
    AddEdgesEffect(withNode, last.inputs, last.output);
    assert Built(s) == AddEdges(withNode, last.inputs, last.output);
    var ds := DriverInputs(s', v);
    if v in g'.preds {
      PredsAreDriverPorts(s', v);
      assert withNode.preds[v] == Dedup(ds);
      if last.output == v {
        assert DriverInputs(s, v) == ds + last.inputs;
        ExtendConcat([], ds, last.inputs);
        assert Built(s).preds[v] == Extend(Dedup(ds), last.inputs);
        assert Dedup(ds) == Extend([], ds);
        assert Dedup(DriverInputs(s, v)) == Extend([], ds + last.inputs);
      } else {
        assert DriverInputs(s, v) == ds + [] == ds;
        assert Built(s).preds[v] == withNode.preds[v];
      }
    } else {
      BuiltNodes(s');
      NotMentionedNotDriven(s', v);
      if last.output == v {
        assert DriverInputs(s, v) == [] + last.inputs == last.inputs;
        assert Built(s).preds[v] == Extend([], last.inputs);
      } else {
        assert DriverInputs(s, v) == [] + [] == [];
        assert Built(s).preds[v] == [];
      }
    }
  }

  /** A signal no instance mentions is driven by none of them. */
  lemma {:induction false} NotMentionedNotDriven(s: seq<Instance>, v: Signal)
    requires !Mentioned(s, v)
    ensures DriverInputs(s, v) == []
    decreases |s|
  {
    if s != [] {
      var s' := s[..|s| - 1];
      assert !Mentioned(s', v) by {
        forall k | 0 <= k < |s'| ensures s'[k].output != v && v !in s'[k].inputs {
          assert s'[k] == s[k];
        }
      }
      NotMentionedNotDriven(s', v);
      assert s[|s| - 1].output != v;
    }
  }

  /** A port of one of the instances driving `v` is exactly what DriverInputs collects. */
  lemma {:induction false} DriverInputsMembers(s: seq<Instance>, v: Signal, u: Signal)
    ensures u in DriverInputs(s, v) <==> exists k :: Drives(s, k, v) && u in s[k].inputs
    decreases |s|
  {
    if s != [] {
      var s' := s[..|s| - 1];
      DriverInputsMembers(s', v, u);
      if exists k :: Drives(s, k, v) && u in s[k].inputs {
        var k :| Drives(s, k, v) && u in s[k].inputs;
        if k < |s| - 1 { assert Drives(s', k, v) && u in s'[k].inputs; }
      }
      if exists k :: Drives(s', k, v) && u in s'[k].inputs {
        var k :| Drives(s', k, v) && u in s'[k].inputs;
        assert Drives(s, k, v) && u in s[k].inputs;
      }
    }
  }

  /** There is an edge u -> v exactly when some instance drives `v` with `u` among its
      input ports, and that edge appears once, however often the port is repeated. */
  lemma EdgeIffPort(s: seq<Instance>, u: Signal, v: Signal)
    requires v in Built(s).preds
    ensures u in Built(s).preds[v] <==> exists k :: Drives(s, k, v) && u in s[k].inputs
    ensures NoDup(Built(s).preds[v])
  {
    PredsAreDriverPorts(s, v);
    DriverInputsMembers(s, v, u);
  }

  /** The only instance driving `v` determines its predecessors; with distinct input ports
      they are those ports in declared order. */
  lemma {:induction false} SingleDriverPorts(s: seq<Instance>, k: nat)
    requires k < |s|
    requires forall k2 | 0 <= k2 < |s| && k2 != k :: s[k2].output != s[k].output
    ensures s[k].output in Built(s).preds
    ensures Built(s).preds[s[k].output] == Dedup(s[k].inputs)
    ensures NoDup(s[k].inputs) ==> Built(s).preds[s[k].output] == s[k].inputs
  {
    var v := s[k].output;
    BuiltNodes(s);
    assert Mentioned(s, v);
    PredsAreDriverPorts(s, v);
    OnlyDriverInputs(s, k);
    if NoDup(s[k].inputs) { DedupOfDistinct(s[k].inputs); }
  }

  lemma {:induction false} OnlyDriverInputs(s: seq<Instance>, k: nat)
    requires k < |s|
    requires forall k2 | 0 <= k2 < |s| && k2 != k :: s[k2].output != s[k].output
    ensures DriverInputs(s, s[k].output) == s[k].inputs
    decreases |s|
  {
    var s' := s[..|s| - 1];
    var v := s[k].output;
    if k == |s| - 1 {
      NoDriverNoInputs(s', v);
    } else {
      assert s'[k] == s[k];
      OnlyDriverInputs(s', k);
      assert DriverInputs(s, v) == DriverInputs(s', v) + [];
    }
  }

  lemma {:induction false} NoDriverNoInputs(s: seq<Instance>, v: Signal)
    requires forall k | 0 <= k < |s| :: s[k].output != v
    ensures DriverInputs(s, v) == []
    decreases |s|
  {
    if s != [] {
      var s' := s[..|s| - 1];
      assert forall k | 0 <= k < |s'| :: s'[k] == s[k];
      NoDriverNoInputs(s', v);
    }
  }

  /** `u` feeds no gate: out-degree 0 in the graph. */
  predicate IsSink(g: Graph, u: Signal)
  {
    forall v | v in g.preds :: u !in g.preds[v]
  }

  /** What `nx.topological_sort(G)` yields: every node exactly once, and for every edge
      u -> v, u before v. */
  ghost predicate IsTopologicalOrder(g: Graph, order: seq<Signal>)
  {
    && NoDup(order)
    && (forall i | 0 <= i < |order| :: order[i] in g.preds)
    && (forall v | v in g.preds :: v in order)
    && forall i, j | 0 <= i < |order| && 0 <= j < |order| && order[j] in g.preds[order[i]] :: j < i
  }

  /** Every predecessor of the node at position `i` sits at an earlier position. */
  lemma PredIndex(g: Graph, order: seq<Signal>, i: nat, u: Signal) returns (j: nat)
    requires Valid(g) && IsTopologicalOrder(g, order)
    requires i < |order| && u in g.preds[order[i]]
    ensures j < i && order[j] == u
  {
    assert u in g.preds;
    j :| 0 <= j < |order| && order[j] == u;
  }
}
