/**
  Vertices, graphs and the vowel classification used by the knight-move counter.

  A graph maps a vertex label to the ordered list of labels reachable in one move.
  The list may repeat a label; every occurrence is a separate move.
 */
module Graphs {

  type Vertex = string

  type Graph = map<Vertex, seq<Vertex>>

  /** The labels that count against the vowel budget (fixed by the constructor). */
  const Vowels: set<Vertex> := {"A", "E", "I", "O", "U"}

  predicate IsVowel(v: Vertex) {
    v in Vowels
  }

  /** Budget units consumed by entering `v`. */
  function VowelCost(v: Vertex): nat {
    if IsVowel(v) then 1 else 0
  }

  /** Every listed vertex is a key of the graph. */
  ghost predicate AllIn(g: Graph, vs: seq<Vertex>) {
    forall i :: 0 <= i < |vs| ==> vs[i] in g
  }

  /** Every neighbour label is itself a key of the graph, so no lookup can miss. */
  ghost predicate Closed(g: Graph) {
    forall v :: v in g ==> AllIn(g, g[v])
  }

  /** A non-empty walk: every vertex is in the graph and each step follows a listed move. */
  ghost predicate IsWalk(g: Graph, w: seq<Vertex>) {
    && |w| >= 1
    && AllIn(g, w)
    && forall i :: 0 <= i < |w| - 1 ==> w[i + 1] in g[w[i]]
  }

  /** The number of vowel vertices on a walk. */
  function VowelCount(w: seq<Vertex>): (n: nat)
    ensures n <= |w|
  {
    if |w| == 0 then 0 else VowelCost(w[0]) + VowelCount(w[1..])
  }

  /** No label occurs twice. */
  ghost predicate Distinct<T>(xs: seq<T>) {
    forall i, j :: 0 <= i < j < |xs| ==> xs[i] != xs[j]
  }

  /** No adjacency list names the same neighbour twice. */
  ghost predicate NoRepeatedMoves(g: Graph) {
    forall v :: v in g ==> Distinct(g[v])
  }

  /** `xs` lists every element of `s` exactly once. */
  ghost predicate Enumerates<T>(xs: seq<T>, s: set<T>) {
    && Distinct(xs)
    && (forall i :: 0 <= i < |xs| ==> xs[i] in s)
    && (forall x :: x in s ==> x in xs)
  }

  /** Extending a walk backwards by a move into its first vertex gives a walk. */
  lemma ConsWalk(g: Graph, v: Vertex, w: seq<Vertex>)
    requires v in g && IsWalk(g, w) && w[0] in g[v]
    ensures IsWalk(g, [v] + w)
    ensures VowelCount([v] + w) == VowelCost(v) + VowelCount(w)
  {
  }

  /** Dropping the first vertex of a walk of two or more vertices leaves a walk. */
  lemma TailWalk(g: Graph, w: seq<Vertex>)
    requires IsWalk(g, w) && |w| >= 2
    ensures IsWalk(g, w[1..])
    ensures w[1] in g[w[0]]
    ensures VowelCount(w) == VowelCost(w[0]) + VowelCount(w[1..])
  {
  }
}
