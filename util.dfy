/**
 * Helpers of util.rs: collecting an iterator into a fixed-length array, and
 * building a diagram whose source variables are created in order with given
 * types on a shared graph under construction.
 */
module Util {
  import opened Options

  /**
   * iter_to_array: collects every item the iterator yields and converts the
   * collection to an array of length n; the conversion fails, giving None,
   * for too few items and for too many alike.
   */
  function IterToArray<T>(items: seq<T>, n: nat): (r: Option<seq<T>>)
    ensures r.Some? <==> |items| == n
    ensures r.Some? ==> |r.value| == n && forall i :: 0 <= i < n ==> r.value[i] == items[i]
  {
    if |items| == n then Some(items) else None
  }

  /** The conversion fails both when the iterator falls short and when it runs over. */
  lemma IterToArrayRejects<T>(items: seq<T>, n: nat)
    requires |items| < n || |items| > n
    ensures IterToArray(items, n) == None
  {
  }

  /** A variable of the builder: it names node `node` of the graph under construction. */
  datatype Var = Var(node: nat)

  /**
   * The graph under construction, shared by every variable built on it. Only
   * its nodes, each with its type, are modelled.
   */
  class Builder<O> {
    var nodes: seq<O>

    constructor ()
      ensures nodes == []
    {
      nodes := [];
    }

    /** Var::new: adds a node of type ty to the graph and returns the variable naming it. */
    method NewVar(ty: O) returns (v: Var)
      modifies this
      ensures nodes == old(nodes) + [ty]
      ensures v == Var(|old(nodes)|)
    {
      v := Var(|nodes|);
      nodes := nodes + [ty];
    }
  }

  /**
   * The body build_typed hands to `build`: it creates one source variable per
   * entry of sourceTypes, in order (array::from_fn), passes them to f and
   * returns them, unchanged and in the same order, with f's targets.
   */
  method BuildTyped<O>(state: Builder<O>, sourceTypes: seq<O>, f: seq<Var> -> seq<Var>)
    returns (sources: seq<Var>, targets: seq<Var>)
    modifies state
    ensures |sources| == |sourceTypes|
    ensures state.nodes == old(state.nodes) + sourceTypes
    ensures forall i :: 0 <= i < |sources| ==>
      sources[i] == Var(|old(state.nodes)| + i) && state.nodes[sources[i].node] == sourceTypes[i]
    ensures targets == f(sources)
  {
    var made := new Var[|sourceTypes|];
    var i := 0;
    while i < |sourceTypes|
      invariant 0 <= i <= |sourceTypes|
      invariant state.nodes == old(state.nodes) + sourceTypes[..i]
      invariant forall k :: 0 <= k < i ==> made[k] == Var(|old(state.nodes)| + k)
    {
      made[i] := state.NewVar(sourceTypes[i]);
      assert sourceTypes[..i + 1] == sourceTypes[..i] + [sourceTypes[i]];
      i := i + 1;
    }
    assert sourceTypes[..i] == sourceTypes;
    sources := made[..];
    targets := f(sources);
  }
}
