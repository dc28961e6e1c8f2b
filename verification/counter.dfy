/**
  The knight-move sequence counter: construction with argument validation, the
  per-vertex cache, and the memoized recursion that fills it.

  The Java class keeps its cache in a mutable field; here an instance is an
  immutable value and every operation that touches the cache returns the updated
  instance alongside its result.
 */
module Counter {
  import opened Graphs
  import opened WalkCount

  datatype Option<T> = None | Some(value: T)

  /**
    The ways construction fails: the two argument checks, and the negative array
    size that a wrapped-around table height produces.
   */
  datatype Error =
    | NullArgument(message: string)
    | IllegalArgument(message: string)
    | NegativeArraySize(size: int)

  datatype Result<T> = Success(value: T) | Failure(error: Error)

  const MaxDepth: int := 32

  const MinInt: int := -0x8000_0000
  const MaxInt: int := 0x7fff_ffff

  /** A Java `int`. */
  type Int32 = x: int | MinInt <= x <= MaxInt

  /** Java's `int` addition: the exact sum when it fits, otherwise wrapped around modulo 2^32. */
  function AddInt32(a: Int32, b: Int32): (r: Int32)
    ensures MinInt <= a + b <= MaxInt ==> r == a + b
    ensures (r - (a + b)) % 0x1_0000_0000 == 0
  {
    if a + b > MaxInt then a + b - 0x1_0000_0000
    else if a + b < MinInt then a + b + 0x1_0000_0000
    else a + b
  }

  const GraphMessage := "Graph argument must not be null"
  const VowelsMessage := "Number of vowels argument must not be negative"
  const DepthMessage := "Depth argument must be an integer between 1 and 32, inclusive"

  /**
    Per vertex, a table indexed by `[vowelsAllowed][depth]`; a 0 entry means
    "not computed yet".
   */
  type Cache = map<Vertex, seq<seq<nat>>>

  /** A counter instance: its configuration and its cache. */
  datatype KnightMoves = KnightMoves(graph: Graph, numberOfVowels: nat, depth: nat, cache: Cache)

  /** Both instances count over the same graph with the same budget and depth. */
  predicate SameConfiguration(a: KnightMoves, b: KnightMoves) {
    a.graph == b.graph && a.numberOfVowels == b.numberOfVowels && a.depth == b.depth
  }

  /** Every vertex has a `(numberOfVowels + 1) x (depth + 1)` table and nothing else does. */
  ghost predicate CacheShaped(km: KnightMoves) {
    && km.cache.Keys == km.graph.Keys
    && forall v :: v in km.cache ==>
         && |km.cache[v]| == km.numberOfVowels + 1
         && forall b :: 0 <= b < |km.cache[v]| ==> |km.cache[v][b]| == km.depth + 1
  }

  /** Every filled cell holds the value the uncached recursion gives for its state. */
  ghost predicate CacheSound(km: KnightMoves)
    requires Closed(km.graph)
  {
    forall v, b, d ::
      (v in km.cache && v in km.graph && 0 <= b < |km.cache[v]| && 0 <= d < |km.cache[v][b]| &&
       km.cache[v][b][d] != 0) ==> km.cache[v][b][d] == Entry(km.graph, v, b, d)
  }

  /** The state every operation keeps: a valid configuration, a closed graph, a sound cache. */
  ghost predicate Valid(km: KnightMoves) {
    && 0 < km.depth <= MaxDepth
    && Closed(km.graph)
    && CacheShaped(km)
    && CacheSound(km)
  }

  /** A `(numberOfVowels + 1) x (depth + 1)` table of zeroes for every vertex. */
  function EmptyCache(g: Graph, numberOfVowels: nat, depth: nat): (c: Cache)
    ensures c.Keys == g.Keys
    ensures forall v :: v in c ==> |c[v]| == numberOfVowels + 1
    ensures forall v, b :: v in c && 0 <= b < |c[v]| ==> |c[v][b]| == depth + 1
    ensures forall v, b, d :: v in c && 0 <= b < |c[v]| && 0 <= d < |c[v][b]| ==> c[v][b][d] == 0
  {
    map v | v in g :: seq(numberOfVowels + 1, _ => seq(depth + 1, _ => 0))
  }

  /**
    The constructor.  The graph is checked first, then the vowel budget, then the
    depth.  The table height `numberOfVowels + 1` is a Java `int` sum: at the
    largest budget it wraps to a negative size, and allocating the first vertex's
    table fails.  A successful instance starts with an empty cache, which is sound
    for any closed graph.
   */
  function New(graph: Option<Graph>, numberOfVowels: Int32, depth: Int32): (r: Result<KnightMoves>)
    ensures graph.None? ==> r == Failure(NullArgument(GraphMessage))
    ensures graph.Some? && numberOfVowels < 0 ==> r == Failure(IllegalArgument(VowelsMessage))
    ensures graph.Some? && numberOfVowels >= 0 && !(0 < depth <= MaxDepth) ==>
              r == Failure(IllegalArgument(DepthMessage))
    ensures graph.Some? && numberOfVowels == MaxInt && 0 < depth <= MaxDepth && graph.value != map[] ==>
              r == Failure(NegativeArraySize(MinInt))
    ensures r.Success? <==>
              && graph.Some? && numberOfVowels >= 0 && 0 < depth <= MaxDepth
              && (numberOfVowels < MaxInt || graph.value == map[])
    ensures r.Success? ==>
              && r.value.graph == graph.value
              && r.value.numberOfVowels == numberOfVowels
              && r.value.depth == depth
              && r.value.cache == EmptyCache(graph.value, numberOfVowels, depth)
              && CacheShaped(r.value)
    ensures r.Success? && Closed(graph.value) ==> Valid(r.value)
  {
    if graph.None? then Failure(NullArgument(GraphMessage))
    else if numberOfVowels < 0 then Failure(IllegalArgument(VowelsMessage))
    else if !(depth > 0 && depth <= MaxDepth) then Failure(IllegalArgument(DepthMessage))
    else
      var rows := AddInt32(numberOfVowels, 1);
      if rows < 0 && graph.value != map[] then Failure(NegativeArraySize(rows))
      else Success(KnightMoves(graph.value, numberOfVowels, depth, EmptyCache(graph.value, numberOfVowels, depth)))
  }

  /** Writes `count` into cell `[v][b][d]`. */
  function Store(cache: Cache, v: Vertex, b: nat, d: nat, count: nat): (c: Cache)
    requires v in cache && b < |cache[v]| && d < |cache[v][b]|
    ensures c.Keys == cache.Keys
    ensures |c[v]| == |cache[v]| && |c[v][b]| == |cache[v][b]|
    ensures c[v][b][d] == count
  {
    cache[v := cache[v][b := cache[v][b][d := count]]]
  }

  /** Storing a cell's true value keeps the cache shaped and sound. */
  lemma StoreKeepsValid(km: KnightMoves, v: Vertex, b: nat, d: nat, count: nat)
    requires Valid(km) && v in km.graph && b <= km.numberOfVowels && d <= km.depth
    requires count == Entry(km.graph, v, b, d)
    ensures Valid(km.(cache := Store(km.cache, v, b, d, count)))
    ensures km.(cache := Store(km.cache, v, b, d, count)).cache[v][b][d] == count
  {
    var km' := km.(cache := Store(km.cache, v, b, d, count));
    forall u, c, e |
      u in km'.cache && u in km'.graph && 0 <= c < |km'.cache[u]| && 0 <= e < |km'.cache[u][c]| &&
      km'.cache[u][c][e] != 0
      ensures km'.cache[u][c][e] == Entry(km'.graph, u, c, e)
    {
      if u != v || c != b || e != d {
        assert km'.cache[u][c][e] == km.cache[u][c][e];
      }
    }
  }

  /**
    The body of the loop in the private `calculate`: reads cell
    `[vertex][vowelsAllowed][depth]`; a 0 there is a miss, on which the cell is
    computed (0 when the vertex is a vowel and the budget is spent, otherwise the
    neighbours' count with the vertex's cost paid) and stored.  Either way the
    value is the one the uncached recursion gives.
   */
  method CachedEntry(km: KnightMoves, vertex: Vertex, vowelsAllowed: nat, depth: nat)
    returns (count: nat, km': KnightMoves)
    requires Valid(km) && vertex in km.graph
    requires vowelsAllowed <= km.numberOfVowels && depth < km.depth
    ensures count == Entry(km.graph, vertex, vowelsAllowed, depth)
    ensures Valid(km') && SameConfiguration(km, km')
    ensures km'.cache[vertex][vowelsAllowed][depth] == count
    decreases depth, 1
  {
    km' := km;
    count := km.cache[vertex][vowelsAllowed][depth];
    if count == 0 {
      var vowelsFound := if vertex in Vowels then 1 else 0;
      if vowelsAllowed > 0 || vowelsFound == 0 {
        count, km' := CalculateFrom(km, km.graph[vertex], vowelsAllowed - vowelsFound, depth);
      }
      StoreKeepsValid(km', vertex, vowelsAllowed, depth, count);
      km' := km'.(cache := Store(km'.cache, vertex, vowelsAllowed, depth, count));
    }
  }

  /**
    The private recursive `calculate(vertices, vowelsAllowed, depth)`: 1 at depth
    0; otherwise the sum of the listed vertices' cells at the decremented depth.
    Every cache index it uses stays inside the tables, and its result is what the
    uncached recursion gives.
   */
  method CalculateFrom(km: KnightMoves, vertices: seq<Vertex>, vowelsAllowed: nat, depth: nat)
    returns (sequences: nat, km': KnightMoves)
    requires Valid(km) && AllIn(km.graph, vertices)
    requires vowelsAllowed <= km.numberOfVowels && depth <= km.depth
    ensures sequences == Walks(km.graph, vertices, vowelsAllowed, depth)
    ensures Valid(km') && SameConfiguration(km, km')
    decreases depth, 0
  {
    km' := km;
    if depth == 0 {
      return 1, km';
    }
    var d := depth - 1;
    sequences := 0;
    var i := 0;
    while i < |vertices|
      invariant i <= |vertices|
      invariant Valid(km') && SameConfiguration(km, km')
      invariant sequences == SumEntries(km.graph, vertices[..i], vowelsAllowed, d)
    {
      var count;
      count, km' := CachedEntry(km', vertices[i], vowelsAllowed, d);
      assert vertices[..i + 1][..i] == vertices[..i];
      sequences := sequences + count;
      i := i + 1;
    }
    assert vertices[..i] == vertices;
  }

  /** The key set as a duplicate-free sequence, in an unspecified order. */
  method KeysToArray(g: Graph) returns (keys: seq<Vertex>)
    ensures Enumerates(keys, g.Keys)
  {
    keys := [];
    var rest := g.Keys;
    while rest != {}
      invariant rest <= g.Keys
      invariant Distinct(keys)
      invariant forall i :: 0 <= i < |keys| ==> keys[i] in g.Keys && keys[i] !in rest
      invariant forall v :: v in g.Keys ==> v in rest || v in keys
      decreases |rest|
    {
      var v :| v in rest;
      keys := keys + [v];
      rest := rest - {v};
    }
  }

  /**
    The public `calculate()`: the memoized count over every vertex of the graph as
    a start, with the full vowel budget and the configured depth.
   */
  method Calculate(km: KnightMoves) returns (sequences: nat, km': KnightMoves)
    requires Valid(km)
    ensures sequences == Total(km.graph, km.numberOfVowels, km.depth)
    ensures Valid(km') && SameConfiguration(km, km')
  {
    var vertices := KeysToArray(km.graph);
    KeyOrderIrrelevant(km.graph, vertices, km.numberOfVowels, km.depth);
    sequences, km' := CalculateFrom(km, vertices, km.numberOfVowels, km.depth);
  }

  /** Calling `calculate()` a second time on the same instance, with its cache filled, gives the same count. */
  method CalculateTwice(km: KnightMoves) returns (first: nat, second: nat)
    requires Valid(km)
    ensures first == second
  {
    var km1, km2;
    first, km1 := Calculate(km);
    second, km2 := Calculate(km1);
  }
}
