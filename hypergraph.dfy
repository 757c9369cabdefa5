/**
 * The strict (index-compact) data shape of the open_hypergraphs crate that the
 * isomorphism generator works over: finite functions, indexed coproducts
 * (segmented arrays), hypergraphs and open hypergraphs, together with the
 * crate's composition operators as main.rs uses them. The crate itself is not
 * part of this model; each operator below states the behaviour main.rs relies on.
 */
module Hypergraphs {
  import opened Options

  /** A table of naturals together with a declared codomain size. */
  datatype FiniteFunction = FiniteFunction(table: seq<nat>, target: nat) {
    /** Every entry lies in the codomain [0, target). */
    predicate InBounds() {
      forall i :: 0 <= i < |table| ==> table[i] < target
    }
  }

  /** A finite function [0, |table|) -> [0, target): position i holds the image of i. */
  type FinFun = f: FiniteFunction | f.InBounds() witness FiniteFunction([], 0)

  /** FiniteFunction::new: accepts a table exactly when every entry is below the target. */
  function NewFinFun(table: seq<nat>, target: nat): (r: Option<FinFun>)
    ensures r.Some? <==> forall i :: 0 <= i < |table| ==> table[i] < target
    ensures r.Some? ==> r.value.table == table && r.value.target == target
  {
    if FiniteFunction(table, target).InBounds() then Some(FiniteFunction(table, target)) else None
  }

  /** The values 0..n, collected in order. */
  function Range(n: nat): (r: seq<nat>)
    ensures |r| == n
    ensures forall i :: 0 <= i < n ==> r[i] == i
  {
    seq(n, i => i)
  }

  /** The identity function on [0, n). */
  function Identity(n: nat): (r: FinFun)
    ensures |r.table| == n && r.target == n
    ensures forall i :: 0 <= i < n ==> r.table[i] == i
  {
    FiniteFunction(Range(n), n)
  }

  /**
   * `f >> g` on finite functions (diagrammatic order): defined exactly when the
   * codomain of f is the domain of g, and then it sends i to g(f(i)).
   */
  function Compose(f: FinFun, g: FinFun): (r: Option<FinFun>)
    ensures r.Some? <==> f.target == |g.table|
    ensures r.Some? ==> |r.value.table| == |f.table| && r.value.target == g.target
    ensures r.Some? ==> forall i :: 0 <= i < |f.table| ==> r.value.table[i] == g.table[f.table[i]]
  {
    if f.target == |g.table| then
      Some(FiniteFunction(seq(|f.table|, i requires 0 <= i < |f.table| => g.table[f.table[i]]), g.target))
    else
      None
  }

  /**
   * `f >> w` where w is a semifinite function (a plain array of values):
   * defined exactly when the codomain of f is the length of w; then i |-> w[f(i)].
   */
  function ComposeSemi<T>(f: FinFun, w: seq<T>): (r: Option<seq<T>>)
    ensures r.Some? <==> f.target == |w|
    ensures r.Some? ==> |r.value| == |f.table|
    ensures r.Some? ==> forall i :: 0 <= i < |f.table| ==> r.value[i] == w[f.table[i]]
  {
    if f.target == |w| then
      Some(seq(|f.table|, i requires 0 <= i < |f.table| => w[f.table[i]]))
    else
      None
  }

  /** The sum of a sequence of lengths, folded from the back. */
  function Sum(s: seq<nat>): nat {
    if s == [] then 0 else Sum(s[..|s| - 1]) + s[|s| - 1]
  }

  /** Where segment j starts: the total length of the segments before it. */
  function Offset(lengths: seq<nat>, j: nat): nat
    requires j <= |lengths|
  {
    Sum(lengths[..j])
  }

  /** Segment j ends where segment j + 1 starts, and never past the total length. */
  lemma {:induction false} SegmentInside(lengths: seq<nat>, j: nat)
    requires j < |lengths|
    ensures Offset(lengths, j) + lengths[j] == Offset(lengths, j + 1)
    ensures Offset(lengths, j + 1) <= Sum(lengths)
    decreases |lengths|
  {
    assert lengths[..j + 1][..j] == lengths[..j];
    if j + 1 < |lengths| {
      var front := lengths[..|lengths| - 1];
      SegmentInside(front, j);
      assert front[..j + 1] == lengths[..j + 1];
      assert front[..j] == lengths[..j];
    } else {
      assert lengths[..j + 1] == lengths;
    }
  }

  /**
   * An indexed coproduct: the flat array `values` of wire indices, cut into
   * consecutive segments, segment j (owned by edge j) holding lengths[j] slots.
   */
  datatype Segmented = Segmented(lengths: seq<nat>, values: FinFun) {
    /** The segment lengths add up to the number of stored values. */
    predicate Cut() {
      Sum(lengths) == |values.table|
    }
  }

  /** The wire indices that fill the slots of edge j, in slot order. */
  function Slots(c: Segmented, j: nat): (r: seq<nat>)
    requires c.Cut() && j < |c.lengths|
    ensures |r| == c.lengths[j]
    ensures forall k :: 0 <= k < |r| ==> r[k] < c.values.target
  {
    SegmentInside(c.lengths, j);
    c.values.table[Offset(c.lengths, j) .. Offset(c.lengths, j) + c.lengths[j]]
  }

  /** IndexedCoproduct::map_values: keeps the segment lengths and composes the values with f. */
  function MapValues(c: Segmented, f: FinFun): (r: Option<Segmented>)
    ensures r.Some? <==> c.values.target == |f.table|
    ensures r.Some? ==> r.value.lengths == c.lengths && Compose(c.values, f) == Some(r.value.values)
  {
    match Compose(c.values, f)
    case Some(v) => Some(Segmented(c.lengths, v))
    case None => None
  }

  /**
   * A strict hypergraph: wire types w, edge labels x, and for each edge the
   * wires filling its source slots (s) and target slots (t).
   */
  datatype Hypergraph<O, A> = Hypergraph(s: Segmented, t: Segmented, w: seq<O>, x: seq<A>) {
    /** Every edge owns one source and one target segment, and every stored wire index is a wire. */
    predicate Valid() {
      s.Cut() && t.Cut() &&
      |s.lengths| == |x| && |t.lengths| == |x| &&
      s.values.target == |w| && t.values.target == |w|
    }
  }

  /** A hypergraph with an ordered input boundary s and output boundary t of wire indices. */
  datatype OpenHypergraph<O, A> = OpenHypergraph(s: FinFun, t: FinFun, h: Hypergraph<O, A>) {
    predicate Valid() {
      h.Valid() && s.target == |h.w| && t.target == |h.w|
    }
  }

  /** OpenHypergraph::new: accepts exactly the well-formed open hypergraphs. */
  function NewOpenHypergraph<O, A>(s: FinFun, t: FinFun, h: Hypergraph<O, A>): (r: Option<OpenHypergraph<O, A>>)
    ensures r.Some? <==> OpenHypergraph(s, t, h).Valid()
    ensures r.Some? ==> r.value == OpenHypergraph(s, t, h)
  {
    if OpenHypergraph(s, t, h).Valid() then Some(OpenHypergraph(s, t, h)) else None
  }
}
