/**
 * The isomorphism generator of main.rs: relabel the wires and the edges of a
 * strict open hypergraph through a wire permutation pw and an edge
 * permutation px. Every `unwrap` of the program is modelled by an Option
 * result: None stands for the panic at that unwrap.
 *
 * As written, the relabelling precomposes the wire types and the edge labels
 * with the permutations (new w[i] = w[pw[i]], new x[j] = x[px[j]]) but
 * postcomposes the stored wire indices (v becomes pw[v]) and leaves the
 * segment that each edge owns where it was.
 */
module Relabel {
  import opened Options
  import opened Hypergraphs
  import opened Permutations
  import opened Signature

  /** The wires vs, each sent through f. */
  function Through(f: FinFun, vs: seq<nat>): (r: seq<nat>)
    requires forall k :: 0 <= k < |vs| ==> vs[k] < |f.table|
    ensures |r| == |vs|
    ensures forall k :: 0 <= k < |vs| ==> r[k] == f.table[vs[k]]
  {
    seq(|vs|, k requires 0 <= k < |vs| => f.table[vs[k]])
  }

  /**
   * permute_hypergraph: each of its four unwraps needs a codomain to match a
   * length; the result keeps the segment lengths, rewrites every stored wire
   * index v to pw[v], and reads wire types and edge labels through pw and px.
   */
  function PermuteHypergraph<O, A>(h: Hypergraph<O, A>, pw: FinFun, px: FinFun): (r: Option<Hypergraph<O, A>>)
    ensures r.Some? <==>
      h.s.values.target == |pw.table| && h.t.values.target == |pw.table| &&
      pw.target == |h.w| && px.target == |h.x|
    ensures r.Some? ==> r.value.s.lengths == h.s.lengths && r.value.t.lengths == h.t.lengths
    ensures r.Some? ==>
      r.value.s.values.table == Through(pw, h.s.values.table) &&
      r.value.t.values.table == Through(pw, h.t.values.table)
    ensures r.Some? ==> r.value.s.values.target == pw.target && r.value.t.values.target == pw.target
    ensures r.Some? ==> |r.value.w| == |pw.table| && forall i :: 0 <= i < |pw.table| ==> r.value.w[i] == h.w[pw.table[i]]
    ensures r.Some? ==> |r.value.x| == |px.table| && forall j :: 0 <= j < |px.table| ==> r.value.x[j] == h.x[px.table[j]]
  {
    match (MapValues(h.s, pw), MapValues(h.t, pw), ComposeSemi(pw, h.w), ComposeSemi(px, h.x))
    case (Some(s), Some(t), Some(w), Some(x)) => Some(Hypergraph(s, t, w, x))
    case _ => None
  }

  /**
   * permute_open_hypergraph: sends both boundaries through pw, keeping their
   * length and order, relabels the hypergraph, and rebuilds the open
   * hypergraph, whose constructor accepts only well-formed results.
   */
  function PermuteOpenHypergraph<O, A>(term: OpenHypergraph<O, A>, pw: FinFun, px: FinFun): (r: Option<OpenHypergraph<O, A>>)
    ensures r.Some? ==> r.value.Valid()
    ensures r.Some? ==> term.s.target == |pw.table| && term.t.target == |pw.table|
    ensures r.Some? ==> r.value.s.table == Through(pw, term.s.table) && r.value.t.table == Through(pw, term.t.table)
    ensures r.Some? ==> PermuteHypergraph(term.h, pw, px) == Some(r.value.h)
  {
    match (Compose(term.s, pw), Compose(term.t, pw))
    case (Some(s), Some(t)) =>
      (match PermuteHypergraph(term.h, pw, px)
       case Some(h) => NewOpenHypergraph(s, t, h)
       case None => None)
    case _ => None
  }

  /**
   * random_isomorphic: one permutation sized to the wires and one sized to
   * the edges, both drawn from a generator seeded with the same seed.
   */
  function RandomIsomorphic(term: Term, rng: nat -> nat): (r: Option<Term>)
    ensures r.Some? ==> r.value.Valid()
    ensures r.Some? ==>
      |r.value.h.w| == |term.h.w| && |r.value.h.x| == |term.h.x| &&
      |r.value.s.table| == |term.s.table| && |r.value.t.table| == |term.t.table|
  {
    var pw := RandomPermutationOf(|term.h.w|, rng);
    var px := RandomPermutationOf(|term.h.x|, rng);
    PermuteOpenHypergraph(term, pw, px)
  }

  /**
   * None of the unwraps can fail on a well-formed open hypergraph when pw maps
   * [0, |w|) into itself and px maps [0, |x|) into itself (in particular when
   * they are permutations): the result is well formed, has as many wires,
   * edges and boundary entries as the input, and every index it stores is a wire.
   */
  lemma PermuteSucceeds<O, A>(term: OpenHypergraph<O, A>, pw: FinFun, px: FinFun)
    requires term.Valid()
    requires |pw.table| == |term.h.w| && pw.target == |term.h.w|
    requires |px.table| == |term.h.x| && px.target == |term.h.x|
    ensures PermuteOpenHypergraph(term, pw, px).Some?
    ensures var r := PermuteOpenHypergraph(term, pw, px).value;
      r.Valid() &&
      |r.h.w| == |term.h.w| && |r.h.x| == |term.h.x| &&
      |r.s.table| == |term.s.table| && |r.t.table| == |term.t.table| &&
      (forall k :: 0 <= k < |r.h.s.values.table| ==> r.h.s.values.table[k] < |term.h.w|) &&
      (forall k :: 0 <= k < |r.h.t.values.table| ==> r.h.t.values.table[k] < |term.h.w|) &&
      (forall k :: 0 <= k < |r.s.table| ==> r.s.table[k] < |term.h.w|) &&
      (forall k :: 0 <= k < |r.t.table| ==> r.t.table[k] < |term.h.w|)
  {
    var h := PermuteHypergraph(term.h, pw, px).value;
    assert h.Valid();
  }

  /** random_isomorphic never panics on a well-formed term, whatever the draws. */
  lemma RandomIsomorphicSucceeds(term: Term, rng: nat -> nat)
    requires term.Valid()
    ensures RandomIsomorphic(term, rng).Some?
  {
    PermuteSucceeds(term, RandomPermutationOf(|term.h.w|, rng), RandomPermutationOf(|term.h.x|, rng));
  }

  /** Sending wires through the identity changes nothing. */
  lemma ThroughIdentity(n: nat, vs: seq<nat>)
    requires forall k :: 0 <= k < |vs| ==> vs[k] < n
    ensures Through(Identity(n), vs) == vs
  {
  }

  /** With the identity on wires and on edges, permute_open_hypergraph returns its input unchanged. */
  lemma PermuteIdentity<O, A>(term: OpenHypergraph<O, A>)
    requires term.Valid()
    ensures PermuteOpenHypergraph(term, Identity(|term.h.w|), Identity(|term.h.x|)) == Some(term)
  {
    var n, m := |term.h.w|, |term.h.x|;
    PermuteSucceeds(term, Identity(n), Identity(m));
    var r := PermuteOpenHypergraph(term, Identity(n), Identity(m)).value;
    ThroughIdentity(n, term.s.table);
    ThroughIdentity(n, term.t.table);
    ThroughIdentity(n, term.h.s.values.table);
    ThroughIdentity(n, term.h.t.values.table);
    assert r.s == term.s && r.t == term.t;
    assert r.h.s == term.h.s && r.h.t == term.h.t;
    assert r.h.w == term.h.w && r.h.x == term.h.x;
  }

  /** Sending wires through a permutation and then through its inverse gives them back. */
  lemma ThroughInverse(pw: FinFun, n: nat, vs: seq<nat>)
    requires IsPermutation(pw, n)
    requires forall k :: 0 <= k < |vs| ==> vs[k] < n
    ensures Through(Inverse(pw, n), Through(pw, vs)) == vs
  {
  }

  /**
   * Relabelling is undone by relabelling with the inverse permutations: the
   * result of permute_open_hypergraph determines its input.
   */
  lemma PermuteRoundTrip<O, A>(term: OpenHypergraph<O, A>, pw: FinFun, px: FinFun)
    requires term.Valid()
    requires IsPermutation(pw, |term.h.w|) && IsPermutation(px, |term.h.x|)
    ensures PermuteOpenHypergraph(term, pw, px).Some?
    ensures PermuteOpenHypergraph(PermuteOpenHypergraph(term, pw, px).value,
                                  Inverse(pw, |term.h.w|), Inverse(px, |term.h.x|)) == Some(term)
  {
    var n, m := |term.h.w|, |term.h.x|;
    PermuteSucceeds(term, pw, px);
    var r := PermuteOpenHypergraph(term, pw, px).value;
    var qw, qx := Inverse(pw, n), Inverse(px, m);
    PermuteSucceeds(r, qw, qx);
    var back := PermuteOpenHypergraph(r, qw, qx).value;
    ThroughInverse(pw, n, term.s.table);
    ThroughInverse(pw, n, term.t.table);
    ThroughInverse(pw, n, term.h.s.values.table);
    ThroughInverse(pw, n, term.h.t.values.table);
    assert back.s == term.s && back.t == term.t;
    assert back.h.s == term.h.s && back.h.t == term.h.t;
    assert back.h.w == term.h.w;
    assert back.h.x == term.h.x;
  }

  /**
   * Edge j keeps the slots it owned, each slot's wire v now reading pw[v],
   * while its label becomes the one edge px[j] had.
   */
  lemma EdgeSlotsRewritten<O, A>(h: Hypergraph<O, A>, pw: FinFun, px: FinFun, j: nat)
    requires h.Valid() && PermuteHypergraph(h, pw, px).Some?
    requires j < |h.x| && j < |px.table|
    ensures var r := PermuteHypergraph(h, pw, px).value;
      r.s.Cut() && r.t.Cut() && j < |r.x| &&
      Slots(r.s, j) == Through(pw, Slots(h.s, j)) &&
      Slots(r.t, j) == Through(pw, Slots(h.t, j)) &&
      r.x[j] == h.x[px.table[j]]
  {
    var r := PermuteHypergraph(h, pw, px).value;
    SegmentInside(h.s.lengths, j);
    SegmentInside(h.t.lengths, j);
  }

  /** pw is its own inverse. */
  predicate Involution(pw: FinFun) {
    forall i :: 0 <= i < |pw.table| ==> pw.table[i] < |pw.table| && pw.table[pw.table[i]] == i
  }

  /** All wires have the same type. */
  ghost predicate Uniform<O>(w: seq<O>) {
    forall i, k :: 0 <= i < |w| && 0 <= k < |w| ==> w[i] == w[k]
  }

  /** The wire types the slots vs refer to. */
  function TypesOf<O>(w: seq<O>, vs: seq<nat>): (r: seq<O>)
    requires forall k :: 0 <= k < |vs| ==> vs[k] < |w|
    ensures |r| == |vs|
  {
    seq(|vs|, k requires 0 <= k < |vs| => w[vs[k]])
  }

  /**
   * Since wire types are precomposed with pw while stored indices are
   * postcomposed with it, a slot keeps the type of its wire only when pw is
   * an involution or all wires have one type; then every edge's slots and
   * both boundaries refer to wires of the types they referred to before.
   */
  lemma SlotTypesPreserved<O, A>(term: OpenHypergraph<O, A>, pw: FinFun, px: FinFun)
    requires term.Valid() && PermuteOpenHypergraph(term, pw, px).Some?
    requires Involution(pw) || Uniform(term.h.w)
    ensures var r := PermuteOpenHypergraph(term, pw, px).value;
      TypesOf(r.h.w, r.h.s.values.table) == TypesOf(term.h.w, term.h.s.values.table) &&
      TypesOf(r.h.w, r.h.t.values.table) == TypesOf(term.h.w, term.h.t.values.table) &&
      TypesOf(r.h.w, r.s.table) == TypesOf(term.h.w, term.s.table) &&
      TypesOf(r.h.w, r.t.table) == TypesOf(term.h.w, term.t.table)
  {
    var r := PermuteOpenHypergraph(term, pw, px).value;
    assert |pw.table| == |term.h.w|;
    forall v | 0 <= v < |term.h.w|
      ensures pw.table[v] < |r.h.w| && r.h.w[pw.table[v]] == term.h.w[v]
    {
      if Involution(pw) {
        assert pw.table[pw.table[v]] == v;
      }
    }
  }

  /** For circuit terms the hypothesis always holds: Obj has a single value, so all wire types agree. */
  lemma TermSlotTypesPreserved(term: Term, pw: FinFun, px: FinFun)
    requires term.Valid() && PermuteOpenHypergraph(term, pw, px).Some?
    ensures var r := PermuteOpenHypergraph(term, pw, px).value;
      TypesOf(r.h.w, r.h.s.values.table) == TypesOf(term.h.w, term.h.s.values.table) &&
      TypesOf(r.h.w, r.h.t.values.table) == TypesOf(term.h.w, term.h.t.values.table)
  {
    assert Uniform(term.h.w);
    SlotTypesPreserved(term, pw, px);
  }

  /**
   * Without either hypothesis the types move: one Discard edge on wire 0 of
   * three wires typed 10, 20, 30, relabelled by the cycle 0 -> 1 -> 2 -> 0,
   * ends up reading a wire of type 30.
   */
  lemma PrecomposedTypesMove()
    ensures var h := Hypergraph(Segmented([1], FiniteFunction([0], 3)), Segmented([0], FiniteFunction([], 3)),
                                [10, 20, 30], [Discard]);
            var pw := FiniteFunction([1, 2, 0], 3);
            var r := PermuteHypergraph(h, pw, Identity(1));
            h.Valid() && IsPermutation(pw, 3) && r.Some? &&
            r.value.w[r.value.s.values.table[0]] == 30 && h.w[h.s.values.table[0]] == 10
  {
    var h := Hypergraph(Segmented([1], FiniteFunction([0], 3)), Segmented([0], FiniteFunction([], 3)),
                        [10, 20, 30], [Discard]);
    assert Sum([1]) == 1 && Sum([0]) == 0 by {
      assert [1][..0] == [] && [0][..0] == [];
    }
    assert Range(3) == [0, 1, 2];
    assert multiset([1, 2, 0]) == multiset([0, 1, 2]);
  }

  /**
   * On a conforming circuit, the relabelled circuit conforms to the signature
   * exactly when every edge receives a label with the profile of the label it
   * had: edge j keeps its slot counts but takes the label of edge px[j].
   */
  lemma ConformsIff(term: Term, pw: FinFun, px: FinFun)
    requires term.Valid() && Conforms(term.h) && PermuteOpenHypergraph(term, pw, px).Some?
    ensures var r := PermuteOpenHypergraph(term, pw, px).value;
      Conforms(r.h) <==>
        forall j :: 0 <= j < |term.h.x| ==> Profile(term.h.x[px.table[j]]) == Profile(term.h.x[j])
  {
    var r := PermuteOpenHypergraph(term, pw, px).value;
    assert |px.table| == |term.h.x|;
    if Conforms(r.h) {
      forall j | 0 <= j < |term.h.x|
        ensures Profile(term.h.x[px.table[j]]) == Profile(term.h.x[j])
      {
        assert r.h.x[j] == term.h.x[px.table[j]];
      }
    }
  }

  /** In particular, relabelling with px the identity keeps a circuit conforming, whatever pw is. */
  lemma ConformsWhenEdgesStay(term: Term, pw: FinFun)
    requires term.Valid() && Conforms(term.h)
    requires PermuteOpenHypergraph(term, pw, Identity(|term.h.x|)).Some?
    ensures Conforms(PermuteOpenHypergraph(term, pw, Identity(|term.h.x|)).value.h)
  {
    ConformsIff(term, pw, Identity(|term.h.x|));
  }

  /** For two elements the shuffle swaps them exactly when the first draw is even. */
  lemma TwoShuffle(rng: nat -> nat)
    ensures RandomPermutationOf(2, rng).table == if rng(0) % 2 == 0 then [1, 0] else [0, 1]
  {
    assert Range(2) == [0, 1];
  }

  /**
   * random_isomorphic does not always return an isomorphic circuit: on
   * copy_and, every seed whose first draw is even swaps the two labels, so
   * edge 0 becomes an And with one source and two targets.
   */
  lemma RandomIsomorphicBreaksCopyAnd(rng: nat -> nat)
    requires rng(0) % 2 == 0
    ensures RandomIsomorphic(CopyAnd(), rng).Some?
    ensures !Conforms(RandomIsomorphic(CopyAnd(), rng).value.h)
  {
    var term := CopyAnd();
    var pw, px := RandomPermutationOf(4, rng), RandomPermutationOf(2, rng);
    TwoShuffle(rng);
    PermuteSucceeds(term, pw, px);
    ConformsIff(term, pw, px);
    assert Profile(term.h.x[px.table[0]]) != Profile(term.h.x[0]);
  }
}
