/** `compute_levels`: the depth of every node, filled in along a topological order. */
module Levels {
  import opened Seqs
  import opened Netlist

  /** `max(levels[u] for u in us)`, Python's builtin over a non-empty generator. */
  function MaxLevel(levels: map<Signal, nat>, us: seq<Signal>): nat
    requires us != []
    requires forall u | u in us :: u in levels
  {
    if |us| == 1 then levels[us[0]]
    else
      var rest := MaxLevel(levels, us[1..]);
      if levels[us[0]] >= rest then levels[us[0]] else rest
  }

  /** The maximum bounds the level of every node it ranges over. */
  lemma {:induction false} MaxLevelBounds(levels: map<Signal, nat>, us: seq<Signal>, u: Signal)
    requires forall w | w in us :: w in levels
    requires u in us
    ensures levels[u] <= MaxLevel(levels, us)
    decreases |us|
  {
    if u != us[0] {
      MaxLevelBounds(levels, us[1..], u);
    }
  }

  /** The maximum is the level of one of the nodes it ranges over. */
  lemma {:induction false} MaxLevelAttained(levels: map<Signal, nat>, us: seq<Signal>) returns (w: Signal)
    requires us != []
    requires forall u | u in us :: u in levels
    ensures w in us && levels[w] == MaxLevel(levels, us)
    decreases |us|
  {
    if |us| == 1 {
      w := us[0];
    } else if levels[us[0]] >= MaxLevel(levels, us[1..]) {
      w := us[0];
    } else {
      w := MaxLevelAttained(levels, us[1..]);
    }
  }

  /** The rule `compute_levels` applies to node `v`: 0 without in-edges, otherwise one
      more than its deepest predecessor. */
  ghost predicate LevelRule(g: Graph, levels: map<Signal, nat>, v: Signal)
    requires v in g.preds
  {
    && v in levels
    && (forall u | u in g.preds[v] :: u in levels)
    && levels[v] == if g.preds[v] == [] then 0 else 1 + MaxLevel(levels, g.preds[v])
  }

  /** A level for every node, each obeying the rule. */
  ghost predicate IsLevelling(g: Graph, levels: map<Signal, nat>)
  {
    levels.Keys == g.preds.Keys && forall v | v in g.preds :: LevelRule(g, levels, v)
  }

  /** The maximum only looks at the levels of the nodes it ranges over. */
  lemma {:induction false} MaxLevelAgree(a: map<Signal, nat>, b: map<Signal, nat>, us: seq<Signal>)
    requires us != []
    requires forall u | u in us :: u in a && u in b && a[u] == b[u]
    ensures MaxLevel(a, us) == MaxLevel(b, us)
    decreases |us|
  {
    if |us| > 1 {
      assert forall u | u in us[1..] :: u in us;
      MaxLevelAgree(a, b, us[1..]);
    }
  }

  /** `compute_levels`: walks the order and stores each node's level. */
  method ComputeLevels(g: Graph, order: seq<Signal>) returns (levels: map<Signal, nat>)
    requires Valid(g) && IsTopologicalOrder(g, order)
    ensures IsLevelling(g, levels)
  {
    levels := map[];
    var i := 0;
    while i < |order|
      invariant 0 <= i <= |order|
      invariant levels.Keys <= g.preds.Keys
      invariant forall j | 0 <= j < i :: LevelRule(g, levels, order[j])
    {
      var node := order[i];
      var inEdges := g.preds[node];
      PredecessorsLevelled(g, order, levels, i);
      var level: nat;
      if inEdges == [] {
        level := 0;
      } else {
        level := MaxLevel(levels, inEdges) + 1;
      }
      LevelRulesKept(g, order, levels, i, level);
      levels := levels[node := level];
      i := i + 1;
    }
    forall v | v in g.preds ensures v in levels {
      var k :| 0 <= k < |order| && order[k] == v;
      assert LevelRule(g, levels, order[k]);
    }
  }

  /** When node `i` of the order is reached, all its predecessors have a level. */
  lemma PredecessorsLevelled(g: Graph, order: seq<Signal>, levels: map<Signal, nat>, i: nat)
    requires Valid(g) && IsTopologicalOrder(g, order) && i < |order|
    requires forall j | 0 <= j < i :: LevelRule(g, levels, order[j])
    ensures forall u | u in g.preds[order[i]] :: u in levels
  {
    forall u | u in g.preds[order[i]] ensures u in levels {
      var k := PredIndex(g, order, i, u);
      assert LevelRule(g, levels, order[k]);
    }
  }

  /** Storing the level of node `i` keeps the rule of every earlier node and establishes it for node `i`. */
  lemma LevelRulesKept(g: Graph, order: seq<Signal>, levels: map<Signal, nat>, i: nat, level: nat)
    requires Valid(g) && IsTopologicalOrder(g, order) && i < |order|
    requires forall j | 0 <= j < i :: LevelRule(g, levels, order[j])
    requires forall u | u in g.preds[order[i]] :: u in levels
    requires level == if g.preds[order[i]] == [] then 0 else 1 + MaxLevel(levels, g.preds[order[i]])
    ensures forall j | 0 <= j <= i :: LevelRule(g, levels[order[i] := level], order[j])
  {
    var node := order[i];
    forall j | 0 <= j <= i ensures LevelRule(g, levels[node := level], order[j]) {
      var v := order[j];
      forall u | u in g.preds[v] ensures u != node {
        var k := PredIndex(g, order, j, u);
      }
      if j < i {
        assert LevelRule(g, levels, v);
      }
      if g.preds[v] != [] {
        MaxLevelAgree(levels, levels[node := level], g.preds[v]);
      }
    }
  }

  /** A node has level 0 exactly when it has no in-edges. */
  lemma LevelZeroIffSource(g: Graph, levels: map<Signal, nat>, v: Signal)
    requires IsLevelling(g, levels)
    requires v in g.preds
    ensures levels[v] == 0 <==> g.preds[v] == []
  {
    assert LevelRule(g, levels, v);
  }

  /** Every edge u -> v climbs at least one level. */
  lemma LevelsIncrease(g: Graph, levels: map<Signal, nat>, u: Signal, v: Signal)
    requires IsLevelling(g, levels)
    requires v in g.preds && u in g.preds[v]
    ensures levels[u] < levels[v]
  {
    assert LevelRule(g, levels, v);
    MaxLevelBounds(levels, g.preds[v], u);
  }

  /** On a graph that has a topological order the rule determines every level: the result
      of `compute_levels` does not depend on which topological order networkx picks. */
  lemma LevelsUnique(g: Graph, order: seq<Signal>, a: map<Signal, nat>, b: map<Signal, nat>)
    requires Valid(g) && IsTopologicalOrder(g, order)
    requires IsLevelling(g, a) && IsLevelling(g, b)
    ensures a == b
  {
    LevelsAgreeUpTo(g, order, a, b, |order|);
    forall v | v in g.preds ensures a[v] == b[v] {
      var k :| 0 <= k < |order| && order[k] == v;
    }
  }

  lemma {:induction false} LevelsAgreeUpTo(g: Graph, order: seq<Signal>, a: map<Signal, nat>, b: map<Signal, nat>, n: nat)
    requires Valid(g) && IsTopologicalOrder(g, order)
    requires IsLevelling(g, a) && IsLevelling(g, b)
    requires n <= |order|
    ensures forall j | 0 <= j < n :: a[order[j]] == b[order[j]]
  {
    if n > 0 {
      LevelsAgreeUpTo(g, order, a, b, n - 1);
      var v := order[n - 1];
      forall u | u in g.preds[v] ensures u in a && u in b && a[u] == b[u] {
        var k := PredIndex(g, order, n - 1, u);
      }
      LevelRuleAgree(g, a, b, v);
    }
  }

  /** Two levellings that agree on the predecessors of `v` agree on `v`. */
  lemma LevelRuleAgree(g: Graph, a: map<Signal, nat>, b: map<Signal, nat>, v: Signal)
    requires v in g.preds
    requires LevelRule(g, a, v) && LevelRule(g, b, v)
    requires forall u | u in g.preds[v] :: u in a && u in b && a[u] == b[u]
    ensures a[v] == b[v]
  {
    if g.preds[v] != [] {
      MaxLevelAgree(a, b, g.preds[v]);
    }
  }
}
