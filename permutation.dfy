/**
 * random_permutation: collect 0..n into a vector and shuffle it in place with
 * a generator seeded from `seed`. The seeded generator is modelled by the
 * stream `rng` of its raw draws: draw k is the k-th number the generator
 * yields, so the permutation is a function of (n, rng) and equal seeds give
 * equal permutations.
 */
module Permutations {
  import opened Options
  import opened Hypergraphs

  /** p is a permutation of [0, n): n entries, codomain n, holding the values 0..n once each. */
  predicate IsPermutation(p: FinFun, n: nat) {
    |p.table| == n && p.target == n && multiset(p.table) == multiset(Range(n))
  }

  /** Swaps the entries at positions i and j. */
  function Swap<T>(s: seq<T>, i: nat, j: nat): (r: seq<T>)
    requires i < |s| && j < |s|
    ensures |r| == |s|
  {
    s[i := s[j]][j := s[i]]
  }

  /** The index the shuffle draws for position i with draw number `step`: a value in [0, i]. */
  function Draw(rng: nat -> nat, step: nat, i: nat): (j: nat)
    ensures j <= i
  {
    rng(step) % (i + 1)
  }

  /**
   * Positions i, i - 1, ..., 1 of the Fisher-Yates shuffle of s: position i
   * is swapped with a drawn position at or below it. The walk is modelled as
   * going from the last position of s down, with one draw per position,
   * numbered in the order they are taken.
   */
  function ShuffleDown<T>(s: seq<T>, i: nat, rng: nat -> nat): (r: seq<T>)
    requires i < |s|
    ensures |r| == |s|
    decreases i
  {
    if i == 0 then s else ShuffleDown(Swap(s, i, Draw(rng, |s| - 1 - i, i)), i - 1, rng)
  }

  /** Each step only exchanges two entries, so the shuffle rearranges s without adding or losing anything. */
  lemma {:induction false} ShuffleDownPermutes<T>(s: seq<T>, i: nat, rng: nat -> nat)
    requires i < |s|
    ensures multiset(ShuffleDown(s, i, rng)) == multiset(s)
    decreases i
  {
    if i > 0 {
      var j := Draw(rng, |s| - 1 - i, i);
      ShuffleDownPermutes(Swap(s, i, j), i - 1, rng);
      assert multiset(Swap(s, i, j)) == multiset(s);
    }
  }

  /** The slice shuffle, modelled as: a slice of at most one element is left alone, a longer one is shuffled from its last position down. */
  function Shuffle<T>(s: seq<T>, rng: nat -> nat): (r: seq<T>)
    ensures |r| == |s|
    ensures |s| <= 1 ==> r == s
  {
    if |s| <= 1 then s else ShuffleDown(s, |s| - 1, rng)
  }

  /** The shuffle is a rearrangement of its input. */
  lemma ShufflePermutes<T>(s: seq<T>, rng: nat -> nat)
    ensures multiset(Shuffle(s, rng)) == multiset(s)
  {
    if |s| > 1 {
      ShuffleDownPermutes(s, |s| - 1, rng);
    }
  }

  /** Each value below n occurs once in 0..n, and no other value occurs. */
  lemma {:induction false} RangeCounts(n: nat)
    ensures forall v: nat :: multiset(Range(n))[v] == if v < n then 1 else 0
  {
    if n == 0 {
      assert Range(n) == [];
    } else {
      var last: nat := n - 1;
      RangeCounts(last);
      assert Range(n) == Range(last) + [last];
      assert multiset(Range(n)) == multiset(Range(last)) + multiset{last};
    }
  }

  /** A rearrangement of 0..n holds only values below n. */
  lemma EntriesBelow(s: seq<nat>, n: nat)
    requires multiset(s) == multiset(Range(n))
    ensures forall i :: 0 <= i < |s| ==> s[i] < n
  {
    forall i | 0 <= i < |s|
      ensures s[i] < n
    {
      assert s[i] in multiset(s);
      RangeCounts(n);
    }
  }

  /** The permutation random_permutation(n, seed) returns, when `rng` is the draw stream of the seeded generator. */
  function RandomPermutationOf(n: nat, rng: nat -> nat): (p: FinFun)
    ensures IsPermutation(p, n)
    ensures n <= 1 ==> p == Identity(n)
  {
    var s := Shuffle(Range(n), rng);
    ShufflePermutes(Range(n), rng);
    EntriesBelow(s, n);
    FiniteFunction(s, n)
  }

  /** One step of the shuffle: once position i is swapped with its draw, the positions below it remain. */
  lemma ShuffleStep<T>(s: seq<T>, swapped: seq<T>, i: nat, rng: nat -> nat)
    requires 0 < i < |s|
    requires swapped == Swap(s, i, Draw(rng, |s| - 1 - i, i))
    ensures ShuffleDown(swapped, i - 1, rng) == ShuffleDown(s, i, rng)
  {
  }

  /** Slice::swap on an array. */
  method SwapInPlace<T>(a: array<T>, i: nat, j: nat)
    requires i < a.Length && j < a.Length
    modifies a
    ensures a[..] == Swap(old(a[..]), i, j)
  {
    a[i], a[j] := a[j], a[i];
  }

  /** SliceRandom::shuffle on an array, modelled as swapping position i with its draw for i from the last position down to 1. */
  method ShuffleInPlace<T>(a: array<T>, rng: nat -> nat)
    modifies a
    ensures a[..] == Shuffle(old(a[..]), rng)
  {
    if a.Length > 1 {
      ghost var shuffled := Shuffle(a[..], rng);
      var i: nat := a.Length - 1;
      while i > 0
        invariant i < a.Length
        invariant ShuffleDown(a[..], i, rng) == shuffled
      {
        ghost var before := a[..];
        var j := Draw(rng, a.Length - 1 - i, i);
        SwapInPlace(a, i, j);
        ShuffleStep(before, a[..], i, rng);
        i := i - 1;
      }
    }
  }

  /** random_permutation: fills an array with 0..n, shuffles it in place and wraps it as a finite function into [0, n). */
  method RandomPermutation(n: nat, rng: nat -> nat) returns (p: FinFun)
    ensures p == RandomPermutationOf(n, rng)
    ensures IsPermutation(p, n)
  {
    var permutation := new nat[n](i => i);
    assert permutation[..] == Range(n);
    ShuffleInPlace(permutation, rng);
    var table := permutation[..];
    assert table == RandomPermutationOf(n, rng).table;
    var made := NewFinFun(table, n);
    // the unwrap of FiniteFunction::new cannot fail: every entry is below n
    assert made.Some?;
    p := made.value;
  }

  /** Each value of [0, n) occurs in a permutation exactly once, and nothing else occurs. */
  lemma PermutationCounts(p: FinFun, n: nat)
    requires IsPermutation(p, n)
    ensures forall v: nat :: multiset(p.table)[v] == if v < n then 1 else 0
  {
    RangeCounts(n);
  }

  /** A permutation sends distinct positions to distinct values. */
  lemma PermutationInjective(p: FinFun, n: nat)
    requires IsPermutation(p, n)
    ensures forall i, j :: 0 <= i < n && 0 <= j < n && p.table[i] == p.table[j] ==> i == j
  {
    var s := p.table;
    forall i, j | 0 <= i < j < n
      ensures s[i] != s[j]
    {
      if s[i] == s[j] {
        assert s == s[..j] + [s[j]] + s[j + 1..];
        assert s[..j][i] == s[i];
        assert multiset(s)[s[i]] >= 2;
        PermutationCounts(p, n);
        assert false;
      }
    }
  }

  /** Every value of [0, n) is the image of some position. */
  lemma PermutationOnto(p: FinFun, n: nat)
    requires IsPermutation(p, n)
    ensures forall v :: 0 <= v < n ==> v in p.table
  {
    forall v | 0 <= v < n
      ensures v in p.table
    {
      PermutationCounts(p, n);
      assert v in multiset(p.table);
    }
  }

  /** The first position at which v occurs in s. */
  function IndexOf(s: seq<nat>, v: nat): (r: nat)
    requires v in s
    ensures r < |s| && s[r] == v
  {
    if s[0] == v then 0 else 1 + IndexOf(s[1..], v)
  }

  /** The inverse of a permutation of [0, n): it undoes p on both sides. */
  function Inverse(p: FinFun, n: nat): (q: FinFun)
    requires IsPermutation(p, n)
    ensures |q.table| == n && q.target == n
    ensures forall v :: 0 <= v < n ==> p.table[q.table[v]] == v
    ensures forall i :: 0 <= i < n ==> q.table[p.table[i]] == i
  {
    PermutationOnto(p, n);
    PermutationInjective(p, n);
    FiniteFunction(seq(n, v requires 0 <= v < n => IndexOf(p.table, v)), n)
  }
}
