/** Sequence helpers: duplicate-free sequences and insertion-ordered "append if new",
    which is how a Python dict (and so a networkx adjacency) keeps its keys. */
module Seqs {

  /** No element occurs twice. */
  predicate NoDup<T(==,!new)>(s: seq<T>)
  {
    forall i, j | 0 <= i < j < |s| :: s[i] != s[j]
  }

  /** Appends `x` unless it is already present: assigning an existing dict key keeps its position. */
  function AppendNew<T(==,!new)>(p: seq<T>, x: T): (r: seq<T>)
    ensures forall y :: y in r <==> y in p || y == x
    ensures NoDup(p) ==> NoDup(r)
  {
    if x in p then p else p + [x]
  }

  /** Appends the elements of `xs` to `p`, left to right, each unless already present. */
  function Extend<T(==,!new)>(p: seq<T>, xs: seq<T>): (r: seq<T>)
    ensures forall y :: y in r <==> y in p || y in xs
    ensures NoDup(p) ==> NoDup(r)
    decreases |xs|
  {
    if xs == [] then p else AppendNew(Extend(p, xs[..|xs| - 1]), xs[|xs| - 1])
  }

  /** The elements of `xs` in order of first occurrence. */
  function Dedup<T(==,!new)>(xs: seq<T>): (r: seq<T>)
    ensures NoDup(r)
    ensures forall y :: y in r <==> y in xs
  {
    Extend([], xs)
  }

  /** Extending by two sequences in turn is extending by their concatenation. */
  lemma {:induction false} ExtendConcat<T(!new)>(p: seq<T>, a: seq<T>, b: seq<T>)
    ensures Extend(Extend(p, a), b) == Extend(p, a + b)
    decreases |b|
  {
    if b == [] {
      assert a + b == a;
    } else {
      var b' := b[..|b| - 1];
      assert (a + b)[..|a + b| - 1] == a + b';
      assert (a + b)[|a + b| - 1] == b[|b| - 1];
      ExtendConcat(p, a, b');
    }
  }

  /** A sequence without duplicates is its own deduplication. */
  lemma {:induction false} DedupOfDistinct<T(!new)>(xs: seq<T>)
    requires NoDup(xs)
    ensures Dedup(xs) == xs
    decreases |xs|
  {
    if xs != [] {
      var xs' := xs[..|xs| - 1];
      assert NoDup(xs');
      DedupOfDistinct(xs');
      assert xs[|xs| - 1] !in xs';
      assert xs' + [xs[|xs| - 1]] == xs;
    }
  }
}
