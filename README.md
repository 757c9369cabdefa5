# Random isomorphic circuits, modelled in Dafny

The program draws polynomial circuits. Each circuit is an open hypergraph over
one wire type (`Obj`) and six generators (`Copy`, `Discard`, `Xor`, `F`, `And`,
`T`). To produce a second, differently numbered drawing of the same circuit,
it generates a random isomorphic copy. It takes the strict form of the circuit
and draws two random permutations from a seeded generator: `pw` over the wires
and `px` over the edges. It then rewrites every stored wire index through
`pw`, reads wire types through `pw` and edge labels through `px`, and rebuilds
the open hypergraph.

This project models that core:

- `hypergraph.dfy` (module `Hypergraphs`) covers the strict data shape: finite
  functions, indexed coproducts (segmented arrays of slots), hypergraphs and
  open hypergraphs. It also covers the composition operators the generator
  calls, each with the condition under which the program's `unwrap` succeeds.
- `signature.dfy` (module `Signature`) covers `Obj`, `Arr`, `profile`, the
  one-edge term of a generator and the strict shape of the `copy_and` example.
- `permutation.dfy` (module `Permutations`) covers `random_permutation`. It is
  an in-place Fisher–Yates shuffle on an array, proved equal to a
  specification function, and the lemmas show that function yields a
  permutation.
- `relabel.dfy` (module `Relabel`) covers `permute_hypergraph`,
  `permute_open_hypergraph` and `random_isomorphic` as written, with the
  properties they have and the one they lack.
- `relabel_fixed.dfy` (module `RelabelFixed`) covers the corrected relabelling
  and proves that it is an isomorphism.
- `util.dfy` (module `Util`) covers `iter_to_array` and `build_typed`, with the
  graph under construction as a class whose node list grows.

Each `unwrap` becomes an `Option` result, and `None` stands for the panic. The
seeded generator is a parameter `rng: nat -> nat`, the stream of its raw
draws. Draw number k reduced for position i is `rng(k) % (i + 1)`. Since `rng`
is arbitrary, this covers every sequence of choices the shuffle can make.

In these points the model follows the code:

- `Obj` is a unit type (src/circuit.rs:10): every wire has the same type.
- Both permutations are drawn from generators seeded with the same seed
  (src/main.rs:50-51).
- A stored wire index v becomes `pw[v]`, but new wire i gets the type of old
  wire `pw[i]` (src/main.rs:30-32).
- The slot segments stay with their edge positions while the labels move
  (src/main.rs:30-33). So, contrary to the comment at src/main.rs:48, which
  says the function constructs a random isomorphism, the result is not always
  isomorphic to its input. See "## Findings".

## Model

| member | source | states |
|---|---|---|
| `Signature.Profile` | src/circuit.rs:25-33 | The arity and coarity table, characterised: arity 0 exactly for T and F, 2 exactly for Xor and And; coarity 0 exactly for Discard, 2 exactly for Copy; nothing exceeds 2 and no generator is (0, 0) |
| `Signature.CopyFeedsAnd` | src/examples.rs:8-11 | Copy's coarity equals And's arity (both 2), which is what lets copy_and compose the two |
| `Signature.Singleton` | src/circuit.rs:40-46 | The one-edge diagram of a generator is well formed and conforms to the signature; its boundaries have the profile's lengths; its single edge carries the generator, takes the input boundary as its source slots and the output boundary as its target slots; and the wires are exactly the inputs followed by the outputs |
| `Signature.TermOf` | src/circuit.rs:35-37 | Arr::term gives a well-formed, conforming one-edge circuit labelled by the generator, with arity-many inputs and coarity-many outputs |
| `Hypergraphs.NewFinFun` | src/main.rs:21 | FiniteFunction::new succeeds exactly when every table entry is below the target, and then keeps table and target |
| `Hypergraphs.Compose` | src/main.rs:43-44 | `f >> g` is defined exactly when f's codomain is g's domain, and then maps i to g(f(i)) with g's codomain |
| `Hypergraphs.ComposeSemi` | src/main.rs:32-33 | `f >> w` on an array of values is defined exactly when f's codomain is the array's length, and then reads w at f(i) |
| `Hypergraphs.MapValues` | src/main.rs:30-31 | map_values is defined exactly when the stored values' codomain is f's domain; it keeps the segment lengths and composes the values with f |
| `Hypergraphs.NewOpenHypergraph` | src/main.rs:45 | OpenHypergraph::new accepts exactly the well-formed open hypergraphs, unchanged |
| `Permutations.RandomPermutation` | src/main.rs:17-22 | Filling an array with 0..n and shuffling it in place returns exactly the specification permutation for the same draws (so equal seeds give equal permutations), and that is a permutation of [0, n); the final unwrap cannot fail |
| `Permutations.RandomPermutationOf` | src/main.rs:17-22 | The shuffled 0..n is a permutation of [0, n) with codomain n; for n at most 1 it is the identity |
| `Permutations.ShuffleInPlace` | src/main.rs:20 | Shuffling the array in place leaves it holding exactly the specification shuffle of its old contents, for the same draws |
| `Permutations.SwapInPlace` | src/main.rs:20 | One step of the shuffle exchanges two array entries and changes nothing else |
| `Permutations.ShuffleDownPermutes` | src/main.rs:20 | The Fisher–Yates steps from any position down rearrange the slice without adding or losing elements |
| `Permutations.ShufflePermutes` | src/main.rs:20 | The slice shuffle is a rearrangement of its input |
| `Permutations.Shuffle` | src/main.rs:20 | The shuffle keeps the length and leaves a slice of at most one element untouched |
| `Permutations.PermutationCounts` | src/main.rs:19-21 | Each value of [0, n) occurs exactly once in a permutation, and no other value occurs |
| `Permutations.PermutationInjective` | src/main.rs:19-21 | A permutation sends distinct positions to distinct values |
| `Permutations.PermutationOnto` | src/main.rs:19-21 | Every value of [0, n) is the image of some position |
| `Permutations.Inverse` | src/main.rs:19-21 | The permutation has a two-sided inverse on [0, n) |
| `Relabel.PermuteHypergraph` | src/main.rs:24-35 | The relabelling succeeds exactly when the four codomain/length conditions of its unwraps hold; it keeps every edge's segment lengths, maps every stored wire v to pw[v] with codomain pw's, gives wire i the type of wire pw[i] and edge j the label of edge px[j] |
| `Relabel.PermuteOpenHypergraph` | src/main.rs:37-46 | A successful result is well formed, its boundaries are the old ones sent through pw in the same order, and its hypergraph is the relabelled one |
| `Relabel.RandomIsomorphic` | src/main.rs:48-54 | A successful result is well formed and has as many wires, edges, inputs and outputs as the input |
| `Relabel.PermuteSucceeds` | src/main.rs:29-45 | On a well-formed term, with pw and px mapping the wires and edges into themselves, none of the seven unwraps (lines 30, 31, 32, 33, 43, 44 and 45) panics; the result is well formed with the same counts, and every stored index is a wire |
| `Relabel.RandomIsomorphicSucceeds` | src/main.rs:49-53 | random_isomorphic never panics on a well-formed term, whatever the seed |
| `Relabel.PermuteIdentity` | src/main.rs:29-45 | Relabelling with identity permutations returns the term unchanged |
| `Relabel.PermuteRoundTrip` | src/main.rs:29-45 | Relabelling with pw and px and then with their inverses gives back the original term, so the relabelling loses no information |
| `Relabel.EdgeSlotsRewritten` | src/main.rs:30-33 | After relabelling, edge j keeps its own slots, each wire v rewritten to pw[v], while its label becomes that of edge px[j] |
| `Relabel.SlotTypesPreserved` | src/main.rs:30-32 | When pw is an involution or all wires share one type, every edge slot and boundary entry refers to a wire of the type it referred to before |
| `Relabel.TermSlotTypesPreserved` | src/circuit.rs:10 | For circuits, whose single wire type makes all types equal, edge slots keep their wire types under any relabelling |
| `Relabel.PrecomposedTypesMove` | src/main.rs:30-32 | Without those hypotheses the types move: with types 10, 20, 30 and the 3-cycle, a Discard edge on a type-10 wire ends up on a type-30 wire |
| `Relabel.ConformsIff` | src/main.rs:30-33 | A relabelled conforming circuit conforms exactly when every edge j receives a label with the same profile as its own (the profile of label px[j] equals that of label j) |
| `Relabel.ConformsWhenEdgesStay` | src/main.rs:30-33 | With px the identity, the relabelled circuit still conforms, whatever pw is |
| `Signature.CopyAnd` | src/examples.rs:8-11 | The strict copy_and circuit is well formed and conforms, with four wires and edges [Copy, And]; Copy's target slots are And's source slots, the input boundary is Copy's source slot and the output boundary is And's target slot |
| `Relabel.TwoShuffle` | src/main.rs:19-20 | Shuffling two elements swaps them exactly when the first draw is even |
| `Relabel.RandomIsomorphicBreaksCopyAnd` | src/main.rs:49-53 | For every seed whose first draw is even, random_isomorphic on copy_and succeeds but its result does not conform to the signature |
| `RelabelFixed.Reindex` | src/main.rs:30-31 | The corrected slot relabelling is a well-cut indexed coproduct whose segment j is segment px[j] of the input, each wire sent through pw |
| `RelabelFixed.TypesMoved` | src/main.rs:32 | The corrected wire types: wire pw[v] gets the type wire v had |
| `RelabelFixed.LabelsMoved` | src/main.rs:33 | Edge j gets the label of edge px[j], as in the program |
| `RelabelFixed.PermuteHypergraphFixed` | src/main.rs:24-35 | The corrected relabelling of a well-formed hypergraph is well formed with the same counts; edge j carries the label and the slots (through pw) of edge px[j]; wire pw[v] has v's type |
| `RelabelFixed.PermuteOpenHypergraphFixed` | src/main.rs:37-46 | The corrected open relabelling is well formed, keeps the counts, and sends both boundaries through pw in order |
| `RelabelFixed.FixedIsIsomorphism` | src/main.rs:48-54 | The corrected relabelling is an isomorphism: edge j has the label and the typed source and target slots of edge px[j], and every boundary entry keeps its wire's type |
| `RelabelFixed.FixedConforms` | src/main.rs:48-54 | The corrected relabelling of a conforming circuit conforms, for all permutations |
| `RelabelFixed.RandomIsomorphicFixed` | src/main.rs:48-54 | The corrected generator turns a well-formed term into a well-formed term with the same counts |
| `RelabelFixed.RandomIsomorphicFixedKeepsCopyAnd` | src/main.rs:49-53 | The corrected generator keeps copy_and conforming for every seed |
| `Util.IterToArray` | src/util.rs:27-29 | Collecting into an array of length N succeeds exactly when the iterator yields N items, and keeps them in order |
| `Util.IterToArrayRejects` | src/util.rs:28 | Too few and too many items are both rejected |
| `Util.Builder.NewVar` | src/util.rs:19 | Var::new appends one node of the given type and names the new node |
| `Util.BuildTyped` | src/util.rs:8-25 | One source variable is created per source type, in order, on consecutive new nodes with those types; the sources are returned in that order with f's targets |

## Left out

- main and save_image: they iterate over the examples, print and render SVG files. This is I/O.
- src/svg.rs and serve_examples.py are rendering and serving. They are not part of this model.
- The StdRng algorithm is not part of this model. Its output is the parameter `rng`, and the reduction of a draw into [0, i] is `rng(k) % (i + 1)`. Because `rng` is arbitrary, every choice sequence is still covered. The shuffle is modelled as walking from the last position down to position 1 with one draw per position; this direction and draw numbering are this model's choice, since the rand version is not pinned and its newer releases walk upward and can serve several positions from one draw. No proved property depends on the direction, but which permutation a given draw stream yields does.
- The open_hypergraphs crate is not part of this model. Its finite functions, indexed coproducts and constructors are modelled by the data shape and the conditions main.rs relies on. Category laws of `compose` are not modelled.
- to_strict and the lax-to-strict conversion are not modelled. `Signature.Singleton` gives the strict shape directly, with inputs numbered before outputs. That numbering is this model's choice.
- copy_and is given directly in strict form (`Signature.CopyAnd`), not built with the crate's `compose`. The wire numbering that `compose` and `to_strict` would produce is not modelled.
- `Util.BuildTyped`: f is modelled as a function of the sources alone. Nodes and edges that f itself adds to the shared graph, and the `Rc<RefCell<…>>` aliasing, are not modelled. The crate's `build`, which turns the returned sources and targets into boundaries, is not part of this model.
- Only nodes and their types are modelled for the graph under construction in `Util.Builder`. Edges are not.
- Integer widths: `usize` and `u64` are unbounded here. The program does no arithmetic that could overflow on these sizes.
- Serialization (serde derives on `Obj` and `Arr`) is not modelled.

## Findings

| source | as written | input that shows it | evidently intended | confidence | as-written member | corrected member |
|---|---|---|---|---|---|---|
| src/main.rs:30-33 | Edge j takes the label of edge px[j], but its source and target slot segments stay those of edge j (map_values rewrites only the wire indices) | copy_and with any seed whose first draw for the two edges is even: px = [1, 0], so edge 0 becomes an And with one source and two targets | Edge j takes the label and the slots of edge px[j], and wire types are read through the inverse of pw, so the result is an isomorphic circuit | high; not executed | `Relabel.RandomIsomorphicBreaksCopyAnd` | `RelabelFixed.FixedIsIsomorphism` |

A second problem only appears with more than one wire type. The wire types are
read through `pw` while the stored indices are sent through `pw`, so a slot
keeps its type only if `pw` is an involution or all types agree
(`Relabel.SlotTypesPreserved`, `Relabel.PrecomposedTypesMove`). Circuits have
the single type `Obj`, so circuits are not affected
(`Relabel.TermSlotTypesPreserved`). The corrected relabelling reads types
through the inverse of `pw` (`RelabelFixed.TypesMoved`).
