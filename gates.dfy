/** The gate evaluator: `simulate_logic`, applying one primitive gate to its input values. */
module Gates {
  import opened Wrappers

  /** A signal value, Python's 0 or 1. */
  type Bit = b: int | 0 <= b <= 1

  /** Why `simulate_logic` raises: an unknown gate tag (ValueError "Gate not found"),
      or `not` applied to an empty input list (IndexError on inputs[0]). */
  datatype GateError = GateNotFound | NoOperand

  /** The gate tags `simulate_logic` knows. */
  predicate IsPrimitive(gateType: string)
  {
    gateType in {"and", "or", "not", "nand", "nor", "xor", "xnor"}
  }

  /** Whether a gate of this tag can be evaluated on `arity` inputs. */
  predicate Accepts(gateType: string, arity: nat)
  {
    IsPrimitive(gateType) && (gateType == "not" ==> arity > 0)
  }

  /** Python's `all` over 0/1 values. */
  function AllOnes(v: seq<Bit>): bool
  {
    if v == [] then true else v[0] == 1 && AllOnes(v[1..])
  }

  /** Python's `any` over 0/1 values. */
  function AnyOne(v: seq<Bit>): bool
  {
    if v == [] then false else v[0] == 1 || AnyOne(v[1..])
  }

  /** Python's `sum`. */
  function Sum(v: seq<Bit>): nat
  {
    if v == [] then 0 else v[0] + Sum(v[1..])
  }

  /** One gate applied to its inputs, in the order of the gate's input ports.
      Extra inputs of `not` are ignored, as `inputs[0]` ignores them. */
  function SimulateLogic(gateType: string, inputs: seq<Bit>): (r: Result<Bit, GateError>)
    ensures r.Success? <==> Accepts(gateType, |inputs|)
    ensures r.Failure? ==> r.error == (if IsPrimitive(gateType) then NoOperand else GateNotFound)
  {
    if gateType == "and" then Success(if AllOnes(inputs) then 1 else 0)
    else if gateType == "or" then Success(if AnyOne(inputs) then 1 else 0)
    else if gateType == "not" then
      (if inputs == [] then Failure(NoOperand) else Success(1 - inputs[0]))
    else if gateType == "nand" then Success(if AllOnes(inputs) then 0 else 1)
    else if gateType == "nor" then Success(if AnyOne(inputs) then 0 else 1)
    else if gateType == "xor" then Success(Sum(inputs) % 2)
    else if gateType == "xnor" then Success(if Sum(inputs) % 2 == 0 then 1 else 0)
    else Failure(GateNotFound)
  }

  /** `all` holds exactly when every input is 1. */
  lemma {:induction false} AllOnesIffEvery(v: seq<Bit>)
    ensures AllOnes(v) <==> forall i | 0 <= i < |v| :: v[i] == 1
  {
    if v != [] {
      AllOnesIffEvery(v[1..]);
      assert forall i | 1 <= i < |v| :: v[i] == v[1..][i - 1];
    }
  }

  /** `any` holds exactly when some input is 1. */
  lemma {:induction false} AnyOneIffSome(v: seq<Bit>)
    ensures AnyOne(v) <==> exists i | 0 <= i < |v| :: v[i] == 1
  {
    if v != [] {
      AnyOneIffSome(v[1..]);
      if v[0] != 1 && exists i | 0 <= i < |v| :: v[i] == 1 {
        var i :| 0 <= i < |v| && v[i] == 1;
        assert v[1..][i - 1] == 1;
      }
      if AnyOne(v[1..]) {
        var i :| 0 <= i < |v[1..]| && v[1..][i] == 1;
        assert v[i + 1] == 1;
      }
    }
  }

  /** The sum of 0/1 values is the number of ones among them. */
  lemma {:induction false} SumCountsOnes(v: seq<Bit>)
    ensures Sum(v) == multiset(v)[1]
  {
    if v != [] {
      SumCountsOnes(v[1..]);
      assert v == [v[0]] + v[1..];
      assert multiset(v) == multiset([v[0]]) + multiset(v[1..]);
    }
  }

  /** The truth table of every primitive: and/or are all/any, nand/nor their complements,
      xor is the parity of the number of ones and xnor its complement, not negates its
      first input. */
  lemma {:induction false} TruthTable(v: seq<Bit>)
    ensures SimulateLogic("and", v) == Success(if forall i | 0 <= i < |v| :: v[i] == 1 then 1 else 0)
    ensures SimulateLogic("or", v) == Success(if exists i | 0 <= i < |v| :: v[i] == 1 then 1 else 0)
    ensures SimulateLogic("nand", v).Success? && SimulateLogic("nand", v).value == 1 - SimulateLogic("and", v).value
    ensures SimulateLogic("nor", v).Success? && SimulateLogic("nor", v).value == 1 - SimulateLogic("or", v).value
    ensures SimulateLogic("xor", v) == Success(multiset(v)[1] % 2)
    ensures SimulateLogic("xnor", v) == Success(1 - multiset(v)[1] % 2)
    ensures v != [] ==> SimulateLogic("not", v) == Success(1 - v[0])
  {
    AllOnesIffEvery(v);
    AnyOneIffSome(v);
    SumCountsOnes(v);
  }

  /** Apart from `not`, which reads only its first input, a gate's result depends only on
      the multiset of its inputs, not on their order. */
  lemma {:induction false} OrderIrrelevant(gateType: string, v: seq<Bit>, w: seq<Bit>)
    requires gateType != "not"
    requires multiset(v) == multiset(w)
    ensures SimulateLogic(gateType, v) == SimulateLogic(gateType, w)
  {
    TruthTable(v);
    TruthTable(w);
    assert (forall i | 0 <= i < |v| :: v[i] == 1) <==> 0 !in multiset(v);
    assert (forall i | 0 <= i < |w| :: w[i] == 1) <==> 0 !in multiset(w);
    assert (exists i | 0 <= i < |v| :: v[i] == 1) <==> 1 in multiset(v);
    assert (exists i | 0 <= i < |w| :: w[i] == 1) <==> 1 in multiset(w);
    assert |v| == |w| by {
      assert |multiset(v)| == |v| && |multiset(w)| == |w|;
    }
  }
}
