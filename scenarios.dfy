/** Small circuits worked through the model: the graph the builder produces and the table
    the simulator returns. */
module Scenarios {
  import opened Wrappers
  import opened Seqs
  import opened Gates
  import opened Netlist
  import opened Enumeration
  import opened Simulator

  /** `and g1(y, a, b);` */
  const AndCircuit: seq<Instance> := [Instance("and", "y", ["a", "b"])]

  /** The graph of `AndCircuit`: y labelled `and`, fed by the unlabelled inputs a and b. */
  const AndGraph: Graph := Graph(map["y" := "and"], map["y" := ["a", "b"], "a" := [], "b" := []])

  /** The builder gives `y` the label `and` and the in-edges a -> y, b -> y, in port order,
      and a and b become unlabelled nodes. */
  lemma AndBuilt()
    ensures Built(AndCircuit) == AndGraph
  {
    assert AndCircuit[..0] == [];
    var g0 := AddNode(EmptyGraph, "y", "and");
    AndNode(EmptyGraph);
    assert ["a", "b"][..1] == ["a"] && ["a"][..0] == [];
    var g1 := AddEdges(g0, ["a"], "y");
    assert g1 == AddEdge(g0, "a", "y");
    AndEdgeA(g0);
    AndEdgeB(g1);
    assert AddEdges(g0, ["a", "b"], "y") == AddEdge(g1, "b", "y");
  }

  lemma AndNode(g: Graph)
    requires g == EmptyGraph
    ensures AddNode(g, "y", "and") == Graph(map["y" := "and"], map["y" := []])
  {
  }

  lemma AndEdgeA(g: Graph)
    requires g == Graph(map["y" := "and"], map["y" := []])
    ensures AddEdge(g, "a", "y") == Graph(map["y" := "and"], map["y" := ["a"], "a" := []])
  {
    assert "a" != "y";
    assert AppendNew([], "a") == ["a"];
  }

  lemma AndEdgeB(g: Graph)
    requires g == Graph(map["y" := "and"], map["y" := ["a"], "a" := []])
    ensures AddEdge(g, "b", "y") == AndGraph
  {
    assert "a" != "y" && "b" != "y" && "a" != "b";
    assert "b" !in ["a"];
    assert AppendNew(["a"], "b") == ["a", "b"];
  }

  /** a, b, y is the topological order networkx yields for this graph. */
  lemma AndOrder()
    ensures Valid(AndGraph) && IsTopologicalOrder(AndGraph, ["a", "b", "y"])
  {
    assert "a" != "y" && "b" != "y" && "a" != "b";
    assert NoDup(["a", "b"]);
  }

  /** The input dict of tuple (x, z). */
  lemma AndInputs(x: Bit, z: Bit)
    ensures ZipToMap(["a", "b"], [x, z]) == map["a" := x, "b" := z]
  {
    assert ["a", "b"][1..] == ["b"] && [x, z][1..] == [z];
    assert ["b"][1..] == [] && [z][1..] == [];
    assert ZipToMap(["b"], [z]) == map["b" := z];
  }

  /** For tuple (x, z) the circuit's solution gives y the and of x and z. */
  lemma AndSolution(x: Bit, z: Bit)
    ensures Consistent(AndGraph, ["a", "b"], map["a" := x, "b" := z], map["a" := x, "b" := z, "y" := if x == 1 && z == 1 then 1 else 0])
  {
    var values := map["a" := x, "b" := z, "y" := if x == 1 && z == 1 then 1 else 0];
    assert "a" != "y" && "b" != "y" && "a" != "b";
    assert values.Keys == AndGraph.preds.Keys;
    assert ["a", "b"][1..] == ["b"] && ["b"][1..] == [];
    assert PredValues(values, []) == Success([]) && [values["b"]] + [] == [z];
    assert PredValues(values, ["b"]) == Success([z]);
    assert [values["a"]] + [z] == [x, z];
    assert PredValues(values, ["a", "b"]) == Success([x, z]);
    assert [x, z][1..] == [z] && [z][1..] == [];
    assert AllOnes([]) && AllOnes([z]) == (z == 1);
    assert AllOnes([x, z]) == (x == 1 && z == 1);
    assert SimulateLogic("and", [x, z]) == Success(values["y"]);
    assert "y" !in ["a", "b"];
    assert NodeRule(AndGraph, ["a", "b"], map["a" := x, "b" := z], values, "y");
  }

  /** One input tuple through the inner loop: y gets the and of a and b. */
  lemma AndRun(x: Bit, z: Bit)
    ensures Run(AndGraph, ["a", "b"], ZipToMap(["a", "b"], [x, z]), ["a", "b", "y"]) ==
      Success(map["a" := x, "b" := z, "y" := if x == 1 && z == 1 then 1 else 0])
  {
    AndInputs(x, z);
    AndOrder();
    AndSolution(x, z);
    RunFindsSolution(AndGraph, ["a", "b"], map["a" := x, "b" := z], ["a", "b", "y"],
      map["a" := x, "b" := z, "y" := if x == 1 && z == 1 then 1 else 0]);
  }

  /** y is the only node without out-edges. */
  lemma AndSinks(values: map<Signal, Bit>)
    requires values.Keys == {"a", "b", "y"}
    ensures SinkValues(AndGraph, values) == map["y" := values["y"]]
  {
    assert "a" != "y" && "b" != "y" && "a" != "b";
    assert "a" in AndGraph.preds["y"] && "b" in AndGraph.preds["y"];
    assert IsSink(AndGraph, "y");
    assert SinkValues(AndGraph, values).Keys == {"y"};
  }

  /** `itertools.product([0, 1], repeat=2)`. */
  lemma TwoBitCombinations()
    ensures Combinations(2) == [[0, 0], [0, 1], [1, 0], [1, 1]]
  {
    assert Pow2(2) == 4 && Pow2(1) == 2;
    CombinationAt(2, 0);
    CombinationAt(2, 1);
    CombinationAt(2, 2);
    CombinationAt(2, 3);
    assert Bits(0, 0) == [] && Bits(0, 1) == [0] && Bits(1, 1) == [1];
    assert Bits(0, 2) == [0, 0] && Bits(1, 2) == [0, 1] && Bits(2, 2) == [1, 0] && Bits(3, 2) == [1, 1];
  }

  /** The row of tuple (x, z): y is the and of x and z. */
  lemma AndRow(names: seq<Signal>, order: seq<Signal>, x: Bit, z: Bit)
    requires names == ["a", "b"] && order == ["a", "b", "y"]
    ensures RowOf(AndGraph, names, order, [x, z]) == Success(Row([x, z], map["y" := if x == 1 && z == 1 then 1 else 0]))
  {
    AndRun(x, z);
    AndSinks(map["a" := x, "b" := z, "y" := if x == 1 && z == 1 then 1 else 0]);
  }

  /** The simulator returns the truth table of a two-input and. */
  lemma AndCircuitTable(names: seq<Signal>, order: seq<Signal>)
    requires names == ["a", "b"] && order == ["a", "b", "y"]
    ensures Table(Built(AndCircuit), names, order, Combinations(|names|)) == Success([
      Row([0, 0], map["y" := 0]),
      Row([0, 1], map["y" := 0]),
      Row([1, 0], map["y" := 0]),
      Row([1, 1], map["y" := 1])])
  {
    AndBuilt();
    TwoBitCombinations();
    AndTableRows(names, order, Combinations(2));
  }

  lemma AndTableRows(names: seq<Signal>, order: seq<Signal>, combos: seq<seq<Bit>>)
    requires names == ["a", "b"] && order == ["a", "b", "y"]
    requires combos == [[0, 0], [0, 1], [1, 0], [1, 1]]
    ensures Table(AndGraph, names, order, combos) == Success([
      Row([0, 0], map["y" := 0]),
      Row([0, 1], map["y" := 0]),
      Row([1, 0], map["y" := 0]),
      Row([1, 1], map["y" := 1])])
  {
    var rows := [Row([0, 0], map["y" := 0]), Row([0, 1], map["y" := 0]), Row([1, 0], map["y" := 0]), Row([1, 1], map["y" := 1])];
    AndOrder();
    AndRows(names, order, combos, rows);
    TableOfRows(AndGraph, names, order, combos, rows);
  }

  lemma AndRows(names: seq<Signal>, order: seq<Signal>, combos: seq<seq<Bit>>, rows: seq<Row>)
    requires names == ["a", "b"] && order == ["a", "b", "y"]
    requires combos == [[0, 0], [0, 1], [1, 0], [1, 1]]
    requires rows == [Row([0, 0], map["y" := 0]), Row([0, 1], map["y" := 0]), Row([1, 0], map["y" := 0]), Row([1, 1], map["y" := 1])]
    ensures forall m | 0 <= m < 4 :: RowOf(AndGraph, names, order, combos[m]) == Success(rows[m])
  {
    forall m | 0 <= m < 4 ensures RowOf(AndGraph, names, order, combos[m]) == Success(rows[m]) {
      AndRow(names, order, combos[m][0], combos[m][1]);
      assert combos[m] == [combos[m][0], combos[m][1]];
    }
  }

  /** `xor g2(y, a, a);` */
  const XorSelfCircuit: seq<Instance> := [Instance("xor", "y", ["a", "a"])]

  /** The repeated port becomes a single edge a -> y, as a DiGraph has no parallel edges. */
  lemma XorSelfGraph()
    ensures "y" in Built(XorSelfCircuit).preds && Built(XorSelfCircuit).preds["y"] == ["a"]
    ensures "y" in Built(XorSelfCircuit).labels && Built(XorSelfCircuit).labels["y"] == "xor"
  {
    SingleDriverPorts(XorSelfCircuit, 0);
    LabelIsLastDriver(XorSelfCircuit, 0);
    assert ["a", "a"][..1] == ["a"] && ["a"][..0] == [];
    assert Extend([], ["a"]) == ["a"];
    assert Dedup(["a", "a"]) == AppendNew(["a"], "a") == ["a"];
  }

  /** So the simulated y copies a instead of being 0, the value of a xor a. */
  lemma XorSelfCopies(names: seq<Signal>, inputValues: map<Signal, Bit>, values: map<Signal, Bit>)
    requires "y" !in names
    requires forall m | m in names :: m in inputValues
    requires Consistent(Built(XorSelfCircuit), names, inputValues, values)
    ensures "a" in values && values["y"] == values["a"]
  {
    var g := Built(XorSelfCircuit);
    XorSelfGraph();
    assert "a" in g.preds["y"] && "y" in values;
    assert NodeRule(g, names, inputValues, values, "y");
    XorValue(values, "xor", ["a"], values["y"]);
  }

  /** An xor node with the single in-edge from a holds the value of a. */
  lemma XorValue(values: map<Signal, Bit>, gateType: string, ps: seq<Signal>, b: Bit)
    requires gateType == "xor" && ps == ["a"]
    requires PredValues(values, ps).Success? && SimulateLogic(gateType, PredValues(values, ps).value) == Success(b)
    ensures "a" in values && b == values["a"]
  {
    var v := PredValues(values, ps).value;
    assert v == [values["a"]];
    assert v[1..] == [] && Sum(v) == values["a"];
  }

  /** `nand g3(n1, a, b); not g4(y, n1);` */
  const NandNotCircuit: seq<Instance> := [Instance("nand", "n1", ["a", "b"]), Instance("not", "y", ["n1"])]

  /** The builder gives n1 the label nand with in-edges from a and b, and y the label not
      with its in-edge from n1. */
  lemma NandNotGraph()
    ensures "n1" in Built(NandNotCircuit).preds && Built(NandNotCircuit).preds["n1"] == ["a", "b"]
    ensures "y" in Built(NandNotCircuit).preds && Built(NandNotCircuit).preds["y"] == ["n1"]
    ensures "n1" in Built(NandNotCircuit).labels && Built(NandNotCircuit).labels["n1"] == "nand"
    ensures "y" in Built(NandNotCircuit).labels && Built(NandNotCircuit).labels["y"] == "not"
  {
    NandNotPorts(NandNotCircuit);
    NandNotLabels(NandNotCircuit);
  }

  lemma NandNotPorts(s: seq<Instance>)
    requires s == NandNotCircuit
    ensures "n1" in Built(s).preds && Built(s).preds["n1"] == ["a", "b"]
    ensures "y" in Built(s).preds && Built(s).preds["y"] == ["n1"]
  {
    assert "n1" != "y";
    assert s[0].output == "n1" && s[1].output == "y";
    OnlyDriverPorts(s, 0);
    OnlyDriverPorts(s, 1);
  }

  /** Instance k of a two-instance circuit with distinct outputs and distinct ports. */
  lemma OnlyDriverPorts(s: seq<Instance>, k: nat)
    requires |s| == 2 && k < 2 && s[0].output != s[1].output && NoDup(s[k].inputs)
    ensures s[k].output in Built(s).preds && Built(s).preds[s[k].output] == s[k].inputs
  {
    SingleDriverPorts(s, k);
  }

  lemma NandNotLabels(s: seq<Instance>)
    requires s == NandNotCircuit
    ensures "n1" in Built(s).labels && Built(s).labels["n1"] == "nand"
    ensures "y" in Built(s).labels && Built(s).labels["y"] == "not"
  {
    assert "n1" != "y";
    LabelIsLastDriver(s, 0);
    LabelIsLastDriver(s, 1);
  }

  /** Double negation through two levels: in every solution y is the and of a and b. */
  lemma NandNotIsAnd(names: seq<Signal>, inputValues: map<Signal, Bit>, values: map<Signal, Bit>)
    requires "n1" !in names && "y" !in names
    requires forall m | m in names :: m in inputValues
    requires Consistent(Built(NandNotCircuit), names, inputValues, values)
    ensures "a" in values && "b" in values
    ensures values["y"] == if values["a"] == 1 && values["b"] == 1 then 1 else 0
  {
    var g := Built(NandNotCircuit);
    NandNotGraph();
    assert "a" in g.preds["n1"] && "b" in g.preds["n1"];
    assert "n1" in values && "y" in values;
    assert NodeRule(g, names, inputValues, values, "n1");
    assert NodeRule(g, names, inputValues, values, "y");
    NandValue(values, "nand", ["a", "b"], values["n1"]);
    NotValue(values, "not", ["n1"], values["y"]);
  }

  /** A nand node fed by a and b holds 1 minus their and. */
  lemma NandValue(values: map<Signal, Bit>, gateType: string, ps: seq<Signal>, b: Bit)
    requires gateType == "nand" && ps == ["a", "b"]
    requires PredValues(values, ps).Success? && SimulateLogic(gateType, PredValues(values, ps).value) == Success(b)
    ensures "a" in values && "b" in values
    ensures b == if values["a"] == 1 && values["b"] == 1 then 0 else 1
  {
    var x, z := values["a"], values["b"];
    assert PredValues(values, ps).value == [x, z];
    TruthTable([x, z]);
  }

  /** A not node fed by n1 holds 1 minus its value. */
  lemma NotValue(values: map<Signal, Bit>, gateType: string, ps: seq<Signal>, b: Bit)
    requires gateType == "not" && ps == ["n1"]
    requires PredValues(values, ps).Success? && SimulateLogic(gateType, PredValues(values, ps).value) == Success(b)
    ensures "n1" in values && b == 1 - values["n1"]
  {
    assert PredValues(values, ps).value == [values["n1"]];
  }
}
