# verilog_simulator core in Dafny

`python.py` of verilog_simulator reads a structural Verilog netlist of primitive gates
into a networkx `DiGraph`. In that graph every driven wire is a node labelled with its gate
type, and every input port gives an edge into the driven wire. The program then computes
a level for each node for drawing. It simulates the circuit exhaustively: for every
combination of the declared input names it evaluates the nodes in topological order, and it
reports the values of the nodes with out-degree 0.

The model has these modules:

- `Gates`: `simulate_logic`. It is a function from a gate tag and a list of bits to a bit,
  or to an error for an unknown tag and for `not` without inputs.
- `Netlist`: the graph and the graph-building loop of `parse_verilog_to_graph`.
  - The `DiGraph` is a value with a label map and, per node, its predecessors in edge
    insertion order. That is the order `G.in_edges(node)` reports them.
  - `add_node` and `add_edge` are functions on that value.
  - The nested builder loop is the method `BuildGraph`. It is proved equal to the
    specification `Built`, which drives the lemmas about labels, nodes and edges.
- `Levels`: `compute_levels`, a loop over a topological order. It is proved to yield the
  unique levelling: level 0 at the sources, one more than the deepest predecessor elsewhere.
- `Enumeration`: `itertools.product([0, 1], repeat=k)`, proved to be binary counting
  order, complete and without duplicates.
- `Simulator`: `simulate_verilog_graph`.
  - The inner loop (`Evaluate`) and the outer loop (`Simulate`) are methods. They are
    proved equal to the left folds `Run` and `Table`. An exception of the source is a
    `Failure` there.
  - The lemmas say what a successful run computes: the unique assignment consistent with
    every gate.
  - They say exactly when a run fails and with which error, and that a predecessor value
    is never missing.
  - They also say what the result table contains.
- `Scenarios`: three small netlists run through the model:
  - a two-input and;
  - an xor with a repeated port;
  - a nand followed by a not.

The result of `nx.topological_sort(G)` is a parameter `order`. Its precondition is the
property networkx guarantees: every node exactly once, and each edge's source before its
target.

Some behaviours of the code are worth spelling out; the model follows them:

- A `not` gate with more than one input reads its first input and ignores the rest. It does
  not fail.
- A gate type outside the primitives is not rejected while the graph is built. It is only
  rejected when such a node is evaluated (`GateFailed(node, GateNotFound)`).
- A node with no label that is not a declared input is not given a default value. Reading
  its label raises a `KeyError`, modelled as `Unlabelled(node)`.
- A gate's operands are its predecessors in edge insertion order: the declared port order,
  with a repeated port collapsed to one edge. When two instances drive the same wire, their
  port lists are concatenated and then deduplicated, each port keeping the position of its
  first occurrence.
- A missing predecessor value (`KeyError` on `node_values`) is modelled as `MissingValue`.
  It is proved never to happen when the order is topological.

## Model

| member | source | states |
|---|---|---|
| Gates.SimulateLogic | python.py:66-82 | succeeds exactly for the seven primitive tags, except `not` with no inputs; an unknown tag fails with GateNotFound, `not` without inputs with NoOperand; the result is always 0 or 1 |
| Gates.AllOnes | python.py:68 | Python's `all` over 0/1 values, by recursion over the list; its meaning is stated by AllOnesIffEvery |
| Gates.AnyOne | python.py:70 | Python's `any` over 0/1 values, by recursion over the list; its meaning is stated by AnyOneIffSome |
| Gates.Sum | python.py:78 | Python's `sum`, by recursion over the list; its meaning is stated by SumCountsOnes |
| Seqs.AppendNew | python.py:29 | the predecessor-dict insertion of add_edge: the result holds exactly the old elements and the new one, and stays free of duplicates |
| Gates.AllOnesIffEvery | python.py:68 | Python's `all` over the inputs holds exactly when every input is 1 |
| Gates.AnyOneIffSome | python.py:70 | Python's `any` over the inputs holds exactly when some input is 1 |
| Gates.SumCountsOnes | python.py:78 | `sum(inputs)` is the number of ones among the inputs |
| Gates.TruthTable | python.py:67-80 | and is 1 iff every input is 1 and or is 1 iff some input is 1; nand and nor are 1 minus those; xor is the number of ones mod 2 and xnor 1 minus that; not is 1 minus its first input |
| Gates.OrderIrrelevant | python.py:67-80 | for every tag but `not`, permuting the inputs (same multiset) does not change the result or whether it fails |
| Netlist.AddNode | python.py:27 | add_node sets the node's label, adds the node without predecessors if absent, and leaves every existing predecessor list unchanged |
| Netlist.AddEdge | python.py:29 | add_edge creates missing endpoints without predecessors, appends u to v's predecessors (empty if v is new) only if the edge is new, changes no label and no other node's predecessors, and keeps the graph well formed |
| Netlist.AddEdges | python.py:28-29 | the inner loop over the input ports keeps the graph well formed and changes no label |
| Netlist.AddInstance | python.py:27-29 | one pass of the outer loop keeps the graph well formed, sets the output's label to the gate type and leaves the output a node |
| Netlist.AddEdgesEffect | python.py:28-29 | the inner loop adds exactly the input ports as nodes, extends the output's predecessors by its ports in order without repetition, and gives no other node a predecessor |
| Netlist.Built | python.py:22-29 | the graph built from any instance sequence is well formed: labels sit on nodes, no parallel edges, and every predecessor is a node |
| Netlist.BuildGraph | python.py:22-29 | the nested loops of add_node and add_edge compute exactly the graph `Built` specifies |
| Netlist.BuiltNodes | python.py:22-29 | the nodes are exactly the signals some instance names as output or input port |
| Netlist.BuiltLabels | python.py:27 | the labelled nodes are exactly the signals some instance drives |
| Netlist.LabelIsLastDriver | python.py:27 | a driven signal is labelled with the gate type of the last instance driving it |
| Netlist.InputOnlyUnlabelled | python.py:27-29 | a signal that is only ever an input port is a node without a label |
| Netlist.PredsAreDriverPorts | python.py:28-29 | a node's predecessors are the input ports of all instances driving it, in order, each kept at its first occurrence |
| Netlist.EdgeIffPort | python.py:28-29 | there is an edge u -> v exactly when some instance driving v has u as an input port, and it occurs once among v's predecessors |
| Netlist.SingleDriverPorts | python.py:22-29 | for a wire driven once, its predecessors are that instance's deduplicated ports, and exactly its ports when they are distinct |
| Netlist.IsTopologicalOrder | python.py:93 | what `nx.topological_sort(G)` yields: every node exactly once, and for every edge u -> v, u before v |
| Netlist.IsSink | python.py:101 | `G.out_degree(node) == 0`: the node is a predecessor of no node |
| Netlist.PredIndex | python.py:93 | in a topological order, every predecessor of the node at position i sits at an earlier position |
| Levels.MaxLevel | python.py:40 | Python's `max` over the levels of a non-empty predecessor list; its meaning is stated by MaxLevelBounds and MaxLevelAttained |
| Levels.MaxLevelBounds | python.py:40 | the `max` over the predecessors' levels bounds each of them |
| Levels.MaxLevelAttained | python.py:40 | the `max` is the level of one of the predecessors |
| Levels.ComputeLevels | python.py:33-41 | walking a topological order assigns every node a level, 0 without in-edges and 1 plus the maximum predecessor level otherwise, and no other keys |
| Levels.PredecessorsLevelled | python.py:40 | when a node is reached, all its predecessors already have a level, so the lookup cannot fail |
| Levels.LevelZeroIffSource | python.py:37-38 | a node has level 0 exactly when it has no in-edges |
| Levels.LevelsIncrease | python.py:40 | every edge u -> v goes from a lower to a strictly higher level |
| Levels.LevelsUnique | python.py:35-40 | any two levellings obeying the rule coincide, so the result does not depend on which topological order is walked |
| Enumeration.Combinations | python.py:87 | the product yields 2^k tuples of length k; k = 0 yields the single empty tuple |
| Enumeration.CombinationAt | python.py:87 | the n-th tuple is the k-digit binary numeral of n: binary counting order |
| Enumeration.CombinationValue | python.py:87 | read as a binary number, the n-th tuple is n |
| Enumeration.CombinationsComplete | python.py:87 | every bit tuple of length k occurs, at the position it denotes |
| Enumeration.CombinationsDistinct | python.py:87 | no tuple occurs twice |
| Simulator.ZipToMap | python.py:90 | with at least as many values as names, every declared name gets a value |
| Simulator.ZipLastWins | python.py:90 | a name gets the tuple component at its last position, as later dict entries overwrite earlier ones |
| Simulator.PredValues | python.py:98 | the comprehension succeeds exactly when every predecessor has a value, and then lists those values in predecessor order; otherwise it names a predecessor without a value |
| Simulator.Step | python.py:94-99 | one pass of the inner loop: on success exactly the node is added and no other value changes; a missing value names a predecessor without a value, any other failure names the node itself |
| Simulator.Run | python.py:93-99 | the inner loop as a left fold over the order: each node is evaluated from the values of the nodes before it, and the first exception ends the loop |
| Simulator.RunNext | python.py:93-99 | after a successful prefix, all predecessors of the next node have values, the loop carries on with Step, and a successful step has values for the whole prefix |
| Simulator.Fault | python.py:96-99 | the exception at a node that cannot be evaluated names that node and is never a missing predecessor value |
| Simulator.PredecessorsReady | python.py:98 | with a topological order, when node n is reached every predecessor has a value |
| Simulator.EvaluateNode | python.py:94-99 | one pass of the inner loop: a declared input stores its tuple value, any other node its gate's result; it never fails for a missing predecessor value |
| Simulator.Evaluate | python.py:91-99 | the inner loop computes exactly the run `Run` specifies, and never fails for a missing predecessor value |
| Simulator.StepPreserves | python.py:94-99 | evaluating the next node succeeds exactly when it is a declared input or a gate accepting its arity, fails with that node's fault otherwise, and keeps every value computed so far in agreement with the circuit |
| Simulator.RunPrefix | python.py:93-99 | over each prefix of the order, the loop succeeds iff every node so far can be evaluated, never misses a value, and leaves values that agree with the circuit |
| Simulator.RunFailsAtFirstFault | python.py:93-99 | a failing run stops at the first node of the order that cannot be evaluated, with that node's fault |
| Simulator.RunFailureSticks | python.py:93-99 | an exception ends the inner loop: a failing prefix makes the whole run fail with the same error |
| Simulator.RunSolves | python.py:93-99 | a successful run gives every node a value, each declared input its tuple value and every other node its gate applied to its predecessors' values |
| Simulator.RunSucceedsIff | python.py:93-99 | the run succeeds exactly when every node is a declared input or a labelled gate accepting its arity; a failure is never a missing predecessor value |
| Simulator.RunFailureIgnoresInputs | python.py:93-99 | whether and with which error the run fails is independent of the input values |
| Simulator.ConsistentUnique | python.py:93-99 | a circuit with a topological order has at most one consistent assignment of values |
| Simulator.RunFindsSolution | python.py:93-99 | whenever a consistent assignment exists, the run succeeds and computes exactly it |
| Simulator.InputNodeValue | python.py:94-95 | a declared input node holds its component of the tuple, even if a gate drives it |
| Simulator.RunOrderIndependent | python.py:93 | whether the run succeeds, and the values it computes, are the same for every topological order |
| Simulator.SinkValues | python.py:101 | the node values restricted to the nodes of out-degree 0; its keys are stated by SinkValuesKeys |
| Simulator.RowOf | python.py:90-102 | the work of one outer iteration: a successful row is keyed by its own input tuple |
| Simulator.Table | python.py:89-102 | a successful table has one row per input tuple, in tuple order, keyed by that tuple |
| Simulator.Simulate | python.py:85-104 | the nested loops compute exactly the table `Table` specifies over the `itertools.product` tuples, or the first exception |
| Simulator.TableFailureSticks | python.py:89-102 | an exception ends the outer loop: a failing prefix makes the whole simulation fail with the same error |
| Simulator.RowFailureUniform | python.py:89-99 | if one input tuple makes the simulation fail, every tuple fails with the same exception |
| Simulator.TablePrefix | python.py:89-102 | over each prefix of the tuples, either one row per tuple, each computed from its own tuple, or the exception of the first tuple |
| Simulator.TableOfRows | python.py:89-102 | the table is exactly the sequence of rows its tuples produce when every tuple succeeds |
| Simulator.SimulationRows | python.py:87-102 | a successful simulation has exactly 2^k rows, keyed by distinct tuples in binary counting order (row n's tuple denotes n) |
| Simulator.SimulationSucceedsIff | python.py:85-104 | the simulation succeeds exactly when every node is a declared input or a labelled gate accepting its arity; a failure is never a missing predecessor value |
| Simulator.RowFromRun | python.py:90-102 | row n is its tuple with the sink values of a successful inner loop over that tuple |
| Simulator.SinkValuesKeys | python.py:101 | the output dict has exactly the nodes of out-degree 0 as keys |
| Simulator.RowSemantics | python.py:93-102 | the outputs of row n are the sink values of the circuit's unique consistent assignment for that tuple |
| Simulator.RowOutputsAreSinks | python.py:101-102 | every row reports exactly the nodes of out-degree 0, no other node |
| Simulator.RowHasSolution | python.py:93-102 | behind every row lies a consistent assignment of all node values for its tuple |
| Scenarios.AndBuilt | python.py:22-29 | for `and g1(y, a, b)` the builder yields exactly the graph where y is labelled `and` with predecessors a, b in port order, and a, b are unlabelled nodes without predecessors |
| Scenarios.AndCircuitTable | python.py:85-104 | simulating the built graph of `and g1(y, a, b)` over inputs a, b gives the four rows of the and truth table in counting order |
| Scenarios.XorSelfGraph | python.py:28-29 | for `xor g2(y, a, a)` the repeated port becomes a single edge a -> y |
| Scenarios.XorSelfCopies | python.py:77-78 | so in every consistent assignment y equals a, rather than a xor a = 0 |
| Scenarios.NandNotGraph | python.py:22-29 | for `nand g3(n1, a, b); not g4(y, n1)` the builder labels n1 nand with predecessors a, b and y not with predecessor n1 |
| Scenarios.NandNotIsAnd | python.py:93-99 | in every consistent assignment of that netlist y is the and of a and b |

## Left out

- The Verilog parser and the AST walk (python.py:15-21, 23-25). They are a foreign library.
  The model starts from the instance list they produce: gate type, first port, remaining
  ports.
- The internals of `nx.topological_sort`. They are a foreign library. The order is a
  parameter with the topological-order precondition. The code does not detect cycles, so a
  cyclic graph is outside the model.
- `draw_center_aligned_graph`, `write_results_to_file` and the `__main__` block. They are
  plotting with floating-point layout, file output, and hard-coded file names and input
  lists.
- The simulation calls `nx.topological_sort` once per input tuple. The model uses one order
  for all tuples, because networkx returns the same order for an unchanged graph.
  `RunOrderIndependent` shows that success and the computed values do not depend on the
  order anyway.
- The results dict is a sequence of rows in insertion order. Its keys are proved distinct,
  so that sequence is the dict. Each row's output dict is a map, so its iteration order is
  not modelled.
- The text of the exception messages is not modelled. Only the kind of exception and the
  node it concerns are kept.
- Simulator.RunOrderIndependent: for a failing simulation it does not state that two orders
  fail with the same error. The node named by the first fault depends on where the order
  places it.
