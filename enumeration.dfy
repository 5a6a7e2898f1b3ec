/** `itertools.product([0, 1], repeat=k)`: every k-tuple of bits, in binary counting order. */
module Enumeration {
  import opened Seqs
  import opened Gates

  function Pow2(k: nat): (p: nat)
    ensures p >= 1
  {
    if k == 0 then 1 else 2 * Pow2(k - 1)
  }

  /** The tuples `itertools.product` yields: the first position varies slowest. */
  function Combinations(k: nat): (cs: seq<seq<Bit>>)
    ensures |cs| == Pow2(k)
    ensures forall n | 0 <= n < |cs| :: |cs[n]| == k
  {
    if k == 0 then [[]]
    else
      var rest := Combinations(k - 1);
      seq(|rest|, n requires 0 <= n < |rest| => [0 as Bit] + rest[n]) +
      seq(|rest|, n requires 0 <= n < |rest| => [1 as Bit] + rest[n])
  }

  /** The k-digit binary numeral of `n`, most significant digit first. */
  function Bits(n: nat, k: nat): (v: seq<Bit>)
    requires n < Pow2(k)
    ensures |v| == k
  {
    if k == 0 then []
    else if n < Pow2(k - 1) then [0 as Bit] + Bits(n, k - 1)
    else [1 as Bit] + Bits(n - Pow2(k - 1), k - 1)
  }

  /** The number a bit tuple denotes, first position most significant. */
  function FromBits(v: seq<Bit>): (n: nat)
    ensures n < Pow2(|v|)
  {
    if v == [] then 0 else (if v[0] == 1 then Pow2(|v| - 1) else 0) + FromBits(v[1..])
  }

  /** A leading bit contributes its place value. */
  lemma FromBitsCons(b: Bit, w: seq<Bit>)
    ensures FromBits([b] + w) == (if b == 1 then Pow2(|w|) else 0) + FromBits(w)
  {
    assert ([b] + w)[1..] == w;
  }

  /** Reading a numeral gives back the number. */
  lemma {:induction false} FromBitsOfBits(n: nat, k: nat)
    requires n < Pow2(k)
    ensures FromBits(Bits(n, k)) == n
  {
    if k > 0 {
      if n < Pow2(k - 1) {
        FromBitsOfBits(n, k - 1);
        FromBitsCons(0, Bits(n, k - 1));
      } else {
        FromBitsOfBits(n - Pow2(k - 1), k - 1);
        FromBitsCons(1, Bits(n - Pow2(k - 1), k - 1));
      }
    }
  }

  /** Writing the number of a tuple gives back the tuple. */
  lemma {:induction false} BitsOfFromBits(v: seq<Bit>)
    ensures Bits(FromBits(v), |v|) == v
  {
    if v != [] {
      BitsOfFromBits(v[1..]);
      assert v == [v[0]] + v[1..];
    }
  }

  /** The n-th tuple of the enumeration is the binary numeral of n: binary counting order. */
  lemma {:induction false} CombinationAt(k: nat, n: nat)
    requires n < Pow2(k)
    ensures Combinations(k)[n] == Bits(n, k)
  {
    if k > 0 {
      var half := Pow2(k - 1);
      if n < half {
        CombinationAt(k - 1, n);
      } else {
        CombinationAt(k - 1, n - half);
      }
    }
  }

  /** Read as a binary number, the n-th tuple is n. */
  lemma CombinationValue(k: nat, n: nat)
    requires n < Pow2(k)
    ensures FromBits(Combinations(k)[n]) == n
  {
    CombinationAt(k, n);
    FromBitsOfBits(n, k);
  }

  /** Every bit tuple of length k occurs, at the position it denotes. */
  lemma CombinationsComplete(v: seq<Bit>)
    ensures FromBits(v) < |Combinations(|v|)| && Combinations(|v|)[FromBits(v)] == v
  {
    CombinationAt(|v|, FromBits(v));
    BitsOfFromBits(v);
  }

  /** No tuple occurs twice. */
  lemma CombinationsDistinct(k: nat)
    ensures NoDup(Combinations(k))
  {
    var cs := Combinations(k);
    forall i, j | 0 <= i < j < |cs| ensures cs[i] != cs[j] {
      CombinationValue(k, i);
      CombinationValue(k, j);
    }
  }
}
