/**
  The counter's recursion without its cache: the value the private `calculate`
  computes for a vertex list, a remaining vowel budget and a remaining depth, and
  the value one cache cell is meant to hold.  The lemmas tie these to the explicit
  walk enumeration and derive the facts the counter promises.
 */
module WalkCount {
  import opened Graphs
  import opened Sums
  import opened WalkEnumeration

  /** A vertex may be entered when the budget is positive or the vertex is no vowel. */
  predicate Admits(v: Vertex, b: nat) {
    b > 0 || !IsVowel(v)
  }

  /**
    The private `calculate(vs, b, n)`: 1 at depth 0, otherwise the sum over the
    listed vertices of their cell value at depth `n - 1`.
   */
  function Walks(g: Graph, vs: seq<Vertex>, b: nat, n: nat): (r: nat)
    requires Closed(g) && AllIn(g, vs)
    decreases n, 0
  {
    if n == 0 then 1 else SumEntries(g, vs, b, n - 1)
  }

  /**
    The value of cache cell `[v][b][d]`: entering `v` with budget `b` either is
    refused (0) or continues into the neighbours of `v` with `v`'s cost paid.
   */
  function Entry(g: Graph, v: Vertex, b: nat, d: nat): (r: nat)
    requires Closed(g) && v in g
    decreases d, 1
  {
    if Admits(v, b) then Walks(g, g[v], b - VowelCost(v), d) else 0
  }

  /** The sum of the cell values of the listed vertices, in list order. */
  function SumEntries(g: Graph, vs: seq<Vertex>, b: nat, d: nat): (r: nat)
    requires Closed(g) && AllIn(g, vs)
    decreases d, 2, |vs|
  {
    if |vs| == 0 then 0
    else SumEntries(g, vs[..|vs| - 1], b, d) + Entry(g, vs[|vs| - 1], b, d)
  }

  /** The cell values of every vertex of the graph. */
  ghost function EntryMap(g: Graph, b: nat, d: nat): (m: map<Vertex, nat>)
    requires Closed(g)
    ensures m.Keys == g.Keys
  {
    map v | v in g :: Entry(g, v, b, d)
  }

  /** What the public `calculate()` returns: the cell values of all vertices, added up in no particular order. */
  ghost function Total(g: Graph, b: nat, depth: nat): nat
    requires Closed(g) && depth >= 1
  {
    SumMap(EntryMap(g, b, depth - 1))
  }

  /** The out-degree of every vertex (adjacency-list length, repeats included). */
  ghost function DegreeMap(g: Graph): (m: map<Vertex, nat>)
    ensures m.Keys == g.Keys
  {
    map v | v in g :: |g[v]|
  }

  // ---------------------------------------------------------------------------
  // Meaning: the recursion counts the walks that fit the vowel budget
  // ---------------------------------------------------------------------------

  /** Cell `[v][b][d]` counts the walks of `d + 1` vertices from `v` with at most `b` vowels. */
  lemma {:induction false} EntryCountsWalks(g: Graph, v: Vertex, b: nat, d: nat)
    requires Closed(g) && v in g
    ensures Entry(g, v, b, d) == CountWithin(WalksFrom(g, v, d), b)
    decreases d, 1
  {
    if d == 0 {
      assert [v][1..] == [];
      assert VowelCount([v]) == VowelCost(v);
      assert [[v]][..0] == [];
    } else {
      CountWithinPrepend(v, WalksThrough(g, g[v], d - 1), b);
      if Admits(v, b) {
        SumEntriesCountsWalks(g, g[v], b - VowelCost(v), d - 1);
      }
    }
  }

  /** The sum over a vertex list counts the walks of `d + 1` vertices from any listed vertex within the budget. */
  lemma {:induction false} SumEntriesCountsWalks(g: Graph, us: seq<Vertex>, b: nat, d: nat)
    requires Closed(g) && AllIn(g, us)
    ensures SumEntries(g, us, b, d) == CountWithin(WalksThrough(g, us, d), b)
    decreases d, 2, |us|
  {
    if |us| > 0 {
      var n := |us| - 1;
      SumEntriesCountsWalks(g, us[..n], b, d);
      EntryCountsWalks(g, us[n], b, d);
      CountWithinConcat(WalksThrough(g, us[..n], d), WalksFrom(g, us[n], d), b);
    }
  }

  /** Summing cell values along a list is summing the list's entries of the cell map. */
  lemma {:induction false} SumEntriesIsSeqSum(g: Graph, vs: seq<Vertex>, b: nat, d: nat)
    requires Closed(g) && AllIn(g, vs)
    ensures SumEntries(g, vs, b, d) == SeqSum(EntryMap(g, b, d), vs)
  {
    if |vs| > 0 {
      SumEntriesIsSeqSum(g, vs[..|vs| - 1], b, d);
    }
  }

  /** Any duplicate-free order of the keys yields the same total. */
  lemma KeyOrderIrrelevant(g: Graph, ks: seq<Vertex>, b: nat, depth: nat)
    requires Closed(g) && depth >= 1 && Enumerates(ks, g.Keys)
    ensures AllIn(g, ks)
    ensures Walks(g, ks, b, depth) == Total(g, b, depth)
  {
    var d := depth - 1;
    assert AllIn(g, ks);
    assert Walks(g, ks, b, d + 1) == SumEntries(g, ks, b, d);
    SumEntriesIsSeqSum(g, ks, b, d);
    var m := EntryMap(g, b, d);
    SumMapBySeq(m, ks);
    assert Total(g, b, d + 1) == SumMap(m);
  }

  /**
    The total counts every walk of `depth` vertices, starting anywhere, that visits
    at most `b` vowel vertices: the enumeration it counts holds exactly those walks,
    and holds each of them once when no adjacency list repeats a neighbour.
   */
  lemma TotalCountsWalks(g: Graph, ks: seq<Vertex>, b: nat, depth: nat)
    requires Closed(g) && depth >= 1 && Enumerates(ks, g.Keys)
    ensures AllIn(g, ks)
    ensures Total(g, b, depth) == CountWithin(WalksThrough(g, ks, depth - 1), b)
    ensures forall w :: w in WalksThrough(g, ks, depth - 1) <==> IsWalk(g, w) && |w| == depth
    ensures NoRepeatedMoves(g) ==> Distinct(WalksThrough(g, ks, depth - 1))
  {
    KeyOrderIrrelevant(g, ks, b, depth);
    var n := depth - 1;
    assert Walks(g, ks, b, n + 1) == SumEntries(g, ks, b, n);
    SumEntriesCountsWalks(g, ks, b, n);
    WalksThroughSound(g, ks, n);
    forall w | IsWalk(g, w) && |w| == depth
      ensures w in WalksThrough(g, ks, n)
    {
      assert w[0] in g;
      WalksThroughComplete(g, ks, n, w);
    }
    if NoRepeatedMoves(g) {
      WalksThroughDistinct(g, ks, n);
    }
  }

  // ---------------------------------------------------------------------------
  // The vowel budget
  // ---------------------------------------------------------------------------

  /**
    A vowel entered with no budget left contributes nothing; a non-vowel entered
    with no budget left is still counted and continues with budget 0.
   */
  lemma ZeroBudget(g: Graph, v: Vertex, d: nat)
    requires Closed(g) && v in g
    ensures IsVowel(v) ==> Entry(g, v, 0, d) == 0
    ensures !IsVowel(v) ==> Entry(g, v, 0, d) == Walks(g, g[v], 0, d)
    ensures !IsVowel(v) ==> Entry(g, v, 0, 0) == 1
  {
  }

  /** Raising the budget never lowers a cell value. */
  lemma EntryMonotone(g: Graph, v: Vertex, b: nat, d: nat)
    requires Closed(g) && v in g
    ensures Entry(g, v, b, d) <= Entry(g, v, b + 1, d)
  {
    EntryCountsWalks(g, v, b, d);
    EntryCountsWalks(g, v, b + 1, d);
    CountWithinMonotone(WalksFrom(g, v, d), b);
  }

  /** Raising the number of allowed vowels never lowers the total. */
  lemma TotalMonotone(g: Graph, b: nat, depth: nat)
    requires Closed(g) && depth >= 1
    ensures Total(g, b, depth) <= Total(g, b + 1, depth)
  {
    var m1 := EntryMap(g, b, depth - 1);
    var m2 := EntryMap(g, b + 1, depth - 1);
    forall v | v in m1
      ensures m1[v] <= m2[v]
    {
      EntryMonotone(g, v, b, depth - 1);
    }
    SumMapMonotone(m1, m2);
  }

  // ---------------------------------------------------------------------------
  // Small depths and the empty graph
  // ---------------------------------------------------------------------------

  /** With a budget of at least 1, each vertex alone is one walk: the total at depth 1 is the vertex count. */
  lemma DepthOne(g: Graph, b: nat)
    requires Closed(g) && b >= 1
    ensures Total(g, b, 1) == |g.Keys|
  {
    SumMapOfOnes(EntryMap(g, b, 0));
  }

  /** With a budget of at least 1, every listed neighbour is one walk of one vertex. */
  lemma {:induction false} SumEntriesAtDepthZero(g: Graph, us: seq<Vertex>, b: nat)
    requires Closed(g) && AllIn(g, us) && b >= 1
    ensures SumEntries(g, us, b, 0) == |us|
  {
    if |us| > 0 {
      SumEntriesAtDepthZero(g, us[..|us| - 1], b);
    }
  }

  /** With a budget of at least 2, the total at depth 2 is the sum of all adjacency-list lengths. */
  lemma DepthTwo(g: Graph, b: nat)
    requires Closed(g) && b >= 2
    ensures Total(g, b, 2) == SumMap(DegreeMap(g))
  {
    forall v | v in g
      ensures Entry(g, v, b, 1) == |g[v]|
    {
      SumEntriesAtDepthZero(g, g[v], b - VowelCost(v));
    }
    assert EntryMap(g, b, 1) == DegreeMap(g);
  }

  /** A graph with no vertices has no walks at any depth. */
  lemma EmptyGraph(b: nat, depth: nat)
    requires depth >= 1
    ensures Closed(map[]) && Total(map[], b, depth) == 0
  {
    assert EntryMap(map[], b, depth - 1).Keys == {};
  }
}
