/**
 * The signature of polynomial circuits: a single wire type and six generating
 * operations, each with its arity and coarity, and the one-edge diagram that
 * each generator denotes.
 */
module Signature {
  import opened Hypergraphs

  /** The single generating object: every wire has this type. */
  datatype Obj = Obj

  /** The generating operations. */
  datatype Arr = Copy | Discard | Xor | F | And | T

  /**
   * A circuit term, in the strict form this model uses in place of the
   * program's lax open hypergraph over Obj and Arr.
   */
  type Term = OpenHypergraph<Obj, Arr>

  /**
   * Arity and coarity of a generator. The contract pins the table down:
   * only the constants T and F take no input, only the binary gates Xor
   * and And take two, only Discard yields nothing and only Copy yields two.
   */
  function Profile(a: Arr): (r: (nat, nat))
    ensures r.0 == 0 <==> a == T || a == F
    ensures r.0 == 2 <==> a == Xor || a == And
    ensures r.0 <= 2 && r.1 <= 2
    ensures r.1 == 0 <==> a == Discard
    ensures r.1 == 2 <==> a == Copy
    ensures r.0 + r.1 >= 1
  {
    match a
    case Copy => (1, 2)
    case Discard => (1, 0)
    case Xor | And => (2, 1)
    case T | F => (0, 1)
  }

  /** Copy's coarity is And's arity, so Copy composes with And. */
  lemma CopyFeedsAnd()
    ensures Profile(Copy).1 == Profile(And).0 == 2
  {
  }

  /** Every edge owns as many source slots as its label's arity and as many target slots as its coarity. */
  predicate Conforms(h: Hypergraph<Obj, Arr>) {
    |h.s.lengths| == |h.x| && |h.t.lengths| == |h.x| &&
    forall j :: 0 <= j < |h.x| ==> h.s.lengths[j] == Profile(h.x[j]).0 && h.t.lengths[j] == Profile(h.x[j]).1
  }

  /** The wires m, m + 1, ..., m + n - 1. */
  function Block(m: nat, n: nat): (r: seq<nat>)
    ensures |r| == n
    ensures forall i :: 0 <= i < n ==> r[i] == m + i
  {
    seq(n, i => m + i)
  }

  /**
   * The singleton diagram of generator a: fresh input wires 0..m and fresh
   * output wires m..m+n, all of type Obj, and one edge labelled a whose
   * source slots are the inputs and whose target slots are the outputs; the
   * diagram's boundaries are those same wires in the same order.
   */
  function Singleton(a: Arr): (r: Term)
    ensures r.Valid() && Conforms(r.h)
    ensures |r.s.table| == Profile(a).0 && |r.t.table| == Profile(a).1
    ensures r.h.x == [a]
    ensures Slots(r.h.s, 0) == r.s.table && Slots(r.h.t, 0) == r.t.table
    ensures r.s.table + r.t.table == Range(|r.h.w|)
  {
    var (m, n) := Profile(a);
    var inputs := FiniteFunction(Block(0, m), m + n);
    var outputs := FiniteFunction(Block(m, n), m + n);
    var r := OpenHypergraph(inputs, outputs,
      Hypergraph(Segmented([m], inputs), Segmented([n], outputs), seq(m + n, _ => Obj), [a]));
    assert [m][..0] == [] && [m][..1] == [m];
    assert [n][..0] == [] && [n][..1] == [n];
    assert Sum([m]) == m && Sum([n]) == n by {
      assert [m][..|[m]| - 1] == [] && [n][..|[n]| - 1] == [];
    }
    assert Block(0, m) + Block(m, n) == Range(m + n);
    r
  }

  /**
   * Arr::term: the term of a generator is a well-formed circuit with one edge,
   * labelled a, whose boundaries have the generator's arity and coarity.
   */
  function TermOf(a: Arr): (r: Term)
    ensures r.Valid() && Conforms(r.h) && r.h.x == [a]
    ensures |r.s.table| == Profile(a).0 && |r.t.table| == Profile(a).1
  {
    Singleton(a)
  }

  /**
   * The strict shape of copy_and: wire 0 feeds Copy, whose outputs 1 and 2
   * feed And, whose output is wire 3; edge 0 is Copy and edge 1 is And.
   */
  function CopyAnd(): (r: Term)
    ensures r.Valid() && Conforms(r.h)
    ensures r.h.x == [Copy, And] && |r.s.table| == 1 && |r.t.table| == 1
    ensures |r.h.w| == 4 && Slots(r.h.t, 0) == Slots(r.h.s, 1)
    ensures r.s.table == Slots(r.h.s, 0) && r.t.table == Slots(r.h.t, 1)
  {
    var ws := seq(4, _ => Obj);
    assert Sum([1, 2]) == 3 && Sum([2, 1]) == 3 by {
      assert [1, 2][..1] == [1] && [1][..0] == [];
      assert [2, 1][..1] == [2] && [2][..0] == [];
    }
    OpenHypergraph(FiniteFunction([0], 4), FiniteFunction([3], 4),
      Hypergraph(Segmented([1, 2], FiniteFunction([0, 1, 2], 4)),
                 Segmented([2, 1], FiniteFunction([1, 2, 3], 4)), ws, [Copy, And]))
  }
}
