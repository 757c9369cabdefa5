/**
 * The relabelling that random_isomorphic evidently intends: a genuine
 * isomorphism of open hypergraphs. Edge j of the result is edge px[j] of the
 * input, which carries its whole segment of slots along and not only its
 * label; wire v of the input becomes wire pw[v] and keeps its type, so the
 * wire types are read through the inverse of pw.
 */
module RelabelFixed {
  import opened Hypergraphs
  import opened Permutations
  import opened Signature
  import opened Relabel

  /** The segments ss laid end to end. */
  function Flatten(ss: seq<seq<nat>>): seq<nat> {
    if ss == [] then [] else Flatten(ss[..|ss| - 1]) + ss[|ss| - 1]
  }

  /** The length of each segment. */
  function Lengths(ss: seq<seq<nat>>): (r: seq<nat>)
    ensures |r| == |ss|
    ensures forall j :: 0 <= j < |ss| ==> r[j] == |ss[j]|
  {
    seq(|ss|, j requires 0 <= j < |ss| => |ss[j]|)
  }

  /** The first j segments, laid end to end, are a prefix of all of them, as long as the first j lengths add up to. */
  lemma {:induction false} FlattenPrefix(ss: seq<seq<nat>>, j: nat)
    requires j <= |ss|
    ensures |Flatten(ss[..j])| == Offset(Lengths(ss), j)
    ensures Flatten(ss[..j]) <= Flatten(ss)
    decreases |ss|
  {
    if ss != [] {
      var front := ss[..|ss| - 1];
      assert Lengths(front) == Lengths(ss)[..|ss| - 1];
      if j < |ss| {
        FlattenPrefix(front, j);
        assert front[..j] == ss[..j];
        assert Lengths(front)[..j] == Lengths(ss)[..j];
      } else {
        FlattenPrefix(front, |front|);
        var lengths := Lengths(ss);
        assert front[..|front|] == front;
        assert Lengths(front)[..|front|] == Lengths(front);
        assert ss[..j] == ss;
        assert lengths[..j] == lengths;
        assert Sum(lengths) == Sum(lengths[..|lengths| - 1]) + lengths[|lengths| - 1];
        assert Flatten(ss) == Flatten(front) + ss[|ss| - 1];
      }
    }
  }

  /** Segments whose entries are all below n lay out to entries below n. */
  lemma {:induction false} FlattenBelow(ss: seq<seq<nat>>, n: nat)
    requires forall j, k :: 0 <= j < |ss| && 0 <= k < |ss[j]| ==> ss[j][k] < n
    ensures forall k :: 0 <= k < |Flatten(ss)| ==> Flatten(ss)[k] < n
    decreases |ss|
  {
    if ss != [] {
      FlattenBelow(ss[..|ss| - 1], n);
    }
  }

  /** The laid-out segments are cut exactly by their own lengths. */
  lemma FlattenCut(ss: seq<seq<nat>>)
    ensures Sum(Lengths(ss)) == |Flatten(ss)|
  {
    FlattenPrefix(ss, |ss|);
    assert ss[..|ss|] == ss;
    assert Lengths(ss)[..|ss|] == Lengths(ss);
  }

  /** Segment j sits in the laid-out segments right after the segments before it. */
  lemma SegmentOfFlatten(ss: seq<seq<nat>>, j: nat)
    requires j < |ss|
    ensures Offset(Lengths(ss), j) + |ss[j]| <= |Flatten(ss)|
    ensures Flatten(ss)[Offset(Lengths(ss), j) .. Offset(Lengths(ss), j) + |ss[j]|] == ss[j]
  {
    FlattenPrefix(ss, j);
    FlattenPrefix(ss, j + 1);
    var all, before, upto := Flatten(ss), Flatten(ss[..j]), Flatten(ss[..j + 1]);
    assert ss[..j + 1][..j] == ss[..j];
    assert upto == before + ss[j];
    assert all[|before|..|upto|] == upto[|before|..|upto|];
  }

  /** Cutting the laid-out segments by their own lengths gives segment j back. */
  lemma SlotOfFlatten(ss: seq<seq<nat>>, c: Segmented, j: nat)
    requires c.lengths == Lengths(ss) && c.values.table == Flatten(ss)
    requires j < |ss|
    ensures c.Cut() && Slots(c, j) == ss[j]
  {
    FlattenCut(ss);
    SegmentOfFlatten(ss, j);
  }

  /** Cutting the laid-out segments by their own lengths gives each segment back. */
  lemma SlotsOfFlatten(ss: seq<seq<nat>>, c: Segmented)
    requires c.lengths == Lengths(ss) && c.values.table == Flatten(ss)
    ensures c.Cut()
    ensures forall j :: 0 <= j < |ss| ==> Slots(c, j) == ss[j]
  {
    FlattenCut(ss);
    forall j | 0 <= j < |ss|
      ensures Slots(c, j) == ss[j]
    {
      SlotOfFlatten(ss, c, j);
    }
  }

  /** The segments of c in the order px gives, each wire sent through pw. */
  function Moved(c: Segmented, pw: FinFun, px: FinFun): (ss: seq<seq<nat>>)
    requires c.Cut() && c.values.target == |pw.table| && px.target == |c.lengths|
    ensures |ss| == |px.table|
    ensures forall j :: 0 <= j < |ss| ==> ss[j] == Through(pw, Slots(c, px.table[j]))
  {
    seq(|px.table|, j requires 0 <= j < |px.table| => Through(pw, Slots(c, px.table[j])))
  }

  /**
   * The indexed coproduct with its segments reordered by px and its values
   * sent through pw: segment j of the result is segment px[j] of c, rewritten.
   */
  function Reindex(c: Segmented, pw: FinFun, px: FinFun): (r: Segmented)
    requires c.Cut() && c.values.target == |pw.table| && px.target == |c.lengths|
    ensures r.Cut() && r.values.target == pw.target && |r.lengths| == |px.table|
    ensures forall j :: 0 <= j < |px.table| ==> Slots(r, j) == Through(pw, Slots(c, px.table[j]))
  {
    var ss := Moved(c, pw, px);
    FlattenBelow(ss, pw.target);
    var r := Segmented(Lengths(ss), FiniteFunction(Flatten(ss), pw.target));
    SlotsOfFlatten(ss, r);
    r
  }

  /** Wire types read through the inverse of pw: wire pw[v] gets the type of wire v. */
  function TypesMoved<O>(w: seq<O>, pw: FinFun): (r: seq<O>)
    requires IsPermutation(pw, |w|)
    ensures |r| == |w|
    ensures forall v :: 0 <= v < |w| ==> r[pw.table[v]] == w[v]
  {
    var qw := Inverse(pw, |w|);
    seq(|w|, i requires 0 <= i < |w| => w[qw.table[i]])
  }

  /** Edge labels read through px, as the program does: edge j gets the label of edge px[j]. */
  function LabelsMoved<A>(x: seq<A>, px: FinFun): (r: seq<A>)
    requires IsPermutation(px, |x|)
    ensures |r| == |x|
    ensures forall j :: 0 <= j < |x| ==> r[j] == x[px.table[j]]
  {
    seq(|x|, j requires 0 <= j < |x| => x[px.table[j]])
  }

  /**
   * The corrected permute_hypergraph: edge j of the result is edge px[j] of
   * h with its label and its slots, every stored wire v becomes pw[v], and
   * wire pw[v] of the result has the type wire v had.
   */
  function PermuteHypergraphFixed<O, A>(h: Hypergraph<O, A>, pw: FinFun, px: FinFun): (r: Hypergraph<O, A>)
    requires h.Valid() && IsPermutation(pw, |h.w|) && IsPermutation(px, |h.x|)
    ensures r.Valid() && |r.w| == |h.w| && |r.x| == |h.x|
    ensures forall v :: 0 <= v < |h.w| ==> r.w[pw.table[v]] == h.w[v]
    ensures forall j :: 0 <= j < |h.x| ==>
      r.x[j] == h.x[px.table[j]] &&
      Slots(r.s, j) == Through(pw, Slots(h.s, px.table[j])) &&
      Slots(r.t, j) == Through(pw, Slots(h.t, px.table[j]))
  {
    var s, t := Reindex(h.s, pw, px), Reindex(h.t, pw, px);
    var w := TypesMoved(h.w, pw);
    var x := LabelsMoved(h.x, px);
    assert forall v :: 0 <= v < |h.w| ==> w[pw.table[v]] == h.w[v];
    assert forall j :: 0 <= j < |h.x| ==> x[j] == h.x[px.table[j]];
    Hypergraph(s, t, w, x)
  }

  /** The corrected permute_open_hypergraph: boundaries go through pw in their order, as in the program. */
  function PermuteOpenHypergraphFixed<O, A>(term: OpenHypergraph<O, A>, pw: FinFun, px: FinFun): (r: OpenHypergraph<O, A>)
    requires term.Valid() && IsPermutation(pw, |term.h.w|) && IsPermutation(px, |term.h.x|)
    ensures r.Valid() && |r.h.w| == |term.h.w| && |r.h.x| == |term.h.x|
    ensures r.s.table == Through(pw, term.s.table) && r.t.table == Through(pw, term.t.table)
  {
    var n := |term.h.w|;
    OpenHypergraph(FiniteFunction(Through(pw, term.s.table), n), FiniteFunction(Through(pw, term.t.table), n),
                   PermuteHypergraphFixed(term.h, pw, px))
  }

  /**
   * The corrected relabelling is an isomorphism: edge j of the result has the
   * label and the typed source and target slots of edge px[j] of the input,
   * and each boundary entry keeps the type of its wire.
   */
  lemma FixedIsIsomorphism<O, A>(term: OpenHypergraph<O, A>, pw: FinFun, px: FinFun)
    requires term.Valid() && IsPermutation(pw, |term.h.w|) && IsPermutation(px, |term.h.x|)
    ensures var r := PermuteOpenHypergraphFixed(term, pw, px);
      (forall j :: 0 <= j < |term.h.x| ==>
        r.h.x[j] == term.h.x[px.table[j]] &&
        TypesOf(r.h.w, Slots(r.h.s, j)) == TypesOf(term.h.w, Slots(term.h.s, px.table[j])) &&
        TypesOf(r.h.w, Slots(r.h.t, j)) == TypesOf(term.h.w, Slots(term.h.t, px.table[j]))) &&
      TypesOf(r.h.w, r.s.table) == TypesOf(term.h.w, term.s.table) &&
      TypesOf(r.h.w, r.t.table) == TypesOf(term.h.w, term.t.table)
  {
    var r := PermuteOpenHypergraphFixed(term, pw, px);
    forall j | 0 <= j < |term.h.x|
      ensures TypesOf(r.h.w, Slots(r.h.s, j)) == TypesOf(term.h.w, Slots(term.h.s, px.table[j]))
      ensures TypesOf(r.h.w, Slots(r.h.t, j)) == TypesOf(term.h.w, Slots(term.h.t, px.table[j]))
    {
      assert Slots(r.h.s, j) == Through(pw, Slots(term.h.s, px.table[j]));
      assert Slots(r.h.t, j) == Through(pw, Slots(term.h.t, px.table[j]));
    }
  }

  /** Relabelling a circuit that conforms to the signature yields one that conforms, whatever the permutations. */
  lemma FixedConforms(term: Term, pw: FinFun, px: FinFun)
    requires term.Valid() && Conforms(term.h)
    requires IsPermutation(pw, |term.h.w|) && IsPermutation(px, |term.h.x|)
    ensures Conforms(PermuteOpenHypergraphFixed(term, pw, px).h)
  {
    var r := PermuteOpenHypergraphFixed(term, pw, px);
    forall j | 0 <= j < |r.h.x|
      ensures r.h.s.lengths[j] == Profile(r.h.x[j]).0 && r.h.t.lengths[j] == Profile(r.h.x[j]).1
    {
      assert |Slots(r.h.s, j)| == |Slots(term.h.s, px.table[j])|;
      assert |Slots(r.h.t, j)| == |Slots(term.h.t, px.table[j])|;
    }
  }

  /** random_isomorphic with the corrected relabelling: the same two permutations from the same draws. */
  function RandomIsomorphicFixed(term: Term, rng: nat -> nat): (r: Term)
    requires term.Valid()
    ensures r.Valid()
    ensures |r.h.w| == |term.h.w| && |r.h.x| == |term.h.x|
    ensures |r.s.table| == |term.s.table| && |r.t.table| == |term.t.table|
  {
    PermuteOpenHypergraphFixed(term, RandomPermutationOf(|term.h.w|, rng), RandomPermutationOf(|term.h.x|, rng))
  }

  /** The corrected generator turns copy_and into a conforming circuit for every seed. */
  lemma RandomIsomorphicFixedKeepsCopyAnd(rng: nat -> nat)
    ensures Conforms(RandomIsomorphicFixed(CopyAnd(), rng).h)
  {
    FixedConforms(CopyAnd(), RandomPermutationOf(4, rng), RandomPermutationOf(2, rng));
  }
}
