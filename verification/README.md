# Knight-move sequence counter in Dafny

This project models `km.KnightMoves`, a counter for the telephone-keypad knight-move
puzzle. The input is a directed graph that maps each key label to the ordered list
of labels one knight move away. The counter reports how many sequences of exactly
`depth` keys exist, starting from any key, where each step follows a listed move
and at most `numberOfVowels` of the keys are vowels (`A`, `E`, `I`, `O`, `U`). A
label that appears twice in one adjacency list is two different moves.

The Java class uses a memo table. For each vertex there is a
`long[numberOfVowels + 1][depth + 1]` grid indexed by the remaining vowel budget and
the remaining depth, and a 0 entry means "not computed yet". The model has four
parts:

- `WalkCount.Walks`, `WalkCount.Entry` and `WalkCount.SumEntries` give the uncached
  recursion. `Walks` is what the private `calculate(vertices, vowelsAllowed, depth)`
  returns. `Entry` is the value that one cache cell `[v][b][d]` should hold.
- `WalkEnumeration` lists every walk explicitly. This is an independent reference:
  `WalkCount.EntryCountsWalks` proves that a cell value is the number of listed walks
  that fit the vowel budget. The soundness and completeness lemmas there show that
  the listing holds exactly the walks of the graph.
- `Counter` holds the instance (`KnightMoves`), the validating constructor `New` and
  the memoized methods. The Java cache is a mutable field. Here the instance is an
  immutable value, and each method returns the updated instance next to its result.
  The cache invariant `Counter.CacheSound` says that every non-zero cell equals
  `Entry` for its state. Indexing the per-vertex tables as Dafny sequences makes the
  verifier prove that every cache access is in bounds.
- `DefaultGraph` holds the 18-key graph of `createDefaultGraph` and its concrete
  counts: 18 at depth 1 and 60 at depth 2.

`Sums` proves that adding the per-vertex values along any duplicate-free key order
gives the same order-free sum (`Sums.SumMap`). So the order in which the Java
`HashMap` key set is traversed does not affect the result.

The program's own tests `numberOfSequencesAtDepthOneIsNumberOfVertices` and
`numberOfSequencesAtDepthTwoIsSumOfCountOfAllNeighbours`
(knight-moves/src/test/java/km/KnightMovesTests.java:65-82) are named as general
identities: depth 1 gives the vertex count, and depth 2 gives the sum of out-degrees.
They check them only with a budget of 2. In the code, a vowel vertex entered with
no budget contributes 0. So the identities hold only with a budget of at least 1
(depth 1) or at least 2 (depth 2), and `WalkCount.DepthOne` and `WalkCount.DepthTwo`
are stated with those bounds.

## Model

| member | source | states |
|---|---|---|
| `Counter.New` | knight-moves/src/main/java/km/KnightMoves.java:24-38 | A missing graph is refused with the null-argument error before anything else is checked. A negative vowel budget is refused next, then a depth outside 1..32, each with the invalid-argument error. The table height `numberOfVowels + 1` is a Java `int` sum: at the largest `int` budget it wraps to a negative size, and a graph with at least one vertex then fails with a negative array size. Construction succeeds exactly when none of these failures applies. A new instance keeps the given graph, budget and depth, and has a (budget+1) x (depth+1) table of zeroes for every vertex. That cache is valid for any closed graph. |
| `Counter.AddInt32` | knight-moves/src/main/java/km/KnightMoves.java:36 | Java `int` addition: the exact sum when it fits in 32 bits, otherwise a value that differs from the sum by a multiple of 2^32 and lies in the `int` range. |
| `Counter.StoreKeepsValid` | knight-moves/src/main/java/km/KnightMoves.java:52-58 | Writing a state's true count into its cell keeps every table the right shape and keeps every non-zero cell equal to the uncached value. |
| `Counter.CachedEntry` | knight-moves/src/main/java/km/KnightMoves.java:52-58 | One loop step reads the vertex's cell. A stored 0 counts as a miss, and then the cell is computed and written back. Either way, the value returned equals the uncached count for that vertex, budget and depth, and the cell holds that value afterwards. A vowel is refused only when the budget it is entered with is 0. |
| `Counter.CalculateFrom` | knight-moves/src/main/java/km/KnightMoves.java:44-64 | The memoized recursion returns what the uncached recursion returns for the same vertex list, budget and depth. Every cache index it uses lies inside the tables: the budget stays in 0..numberOfVowels and the depth index in 0..depth-1. The returned instance has the same configuration and a cache that is still sound. |
| `Counter.KeysToArray` | knight-moves/src/main/java/km/KnightMoves.java:41 | The key set becomes a sequence that lists every vertex exactly once, in an unspecified order. |
| `Counter.Calculate` | knight-moves/src/main/java/km/KnightMoves.java:40-42 | The public count equals the order-free sum, over every vertex, of the walks of `depth` vertices from it within the full vowel budget. The instance keeps its configuration and a sound cache. |
| `Counter.CalculateTwice` | knight-moves/src/main/java/km/KnightMoves.java:40-60 | Calling `calculate()` again on the instance returned by the first call, with its cache partly filled, gives the same value. |
| `WalkCount.EntryCountsWalks` | knight-moves/src/main/java/km/KnightMoves.java:44-63 | The value for cell `[v][b][d]` is the number of enumerated walks of d+1 vertices from `v` (one per sequence of listed moves) that contain at most `b` vowels. |
| `WalkCount.SumEntriesCountsWalks` | knight-moves/src/main/java/km/KnightMoves.java:50-61 | Adding the cell values of a vertex list counts the walks within the budget that start at any listed vertex, each list entry counted separately. |
| `WalkCount.KeyOrderIrrelevant` | knight-moves/src/main/java/km/KnightMoves.java:40-42 | Feeding the recursion the keys in any duplicate-free order gives the same order-free total. |
| `WalkCount.TotalCountsWalks` | knight-moves/src/main/java/km/KnightMoves.java:40-63 | The total is the number of walks of `depth` vertices, starting anywhere, that visit at most `numberOfVowels` vowel vertices. The enumeration it counts holds a sequence exactly when that sequence is a walk of `depth` vertices. When no adjacency list repeats a neighbour, it holds each such walk once. |
| `WalkCount.ZeroBudget` | knight-moves/src/main/java/km/KnightMoves.java:54-57 | A vowel entered with no budget left contributes 0. A non-vowel entered with no budget left is still counted: it continues with budget 0 and counts 1 on its own. |
| `WalkCount.EntryMonotone` | knight-moves/src/main/java/km/KnightMoves.java:54-57 | Raising the budget of a cell never lowers its count. |
| `WalkCount.TotalMonotone` | knight-moves/src/main/java/km/KnightMoves.java:40-42 | Raising `numberOfVowels` never lowers the result of `calculate()`. |
| `WalkCount.DepthOne` | knight-moves/src/main/java/km/KnightMoves.java:44-57 | With a budget of at least 1, the total at depth 1 equals the number of vertices. |
| `WalkCount.SumEntriesAtDepthZero` | knight-moves/src/main/java/km/KnightMoves.java:47-56 | With a budget of at least 1, each listed neighbour contributes exactly one one-vertex walk, so the sum is the list length. |
| `WalkCount.DepthTwo` | knight-moves/src/main/java/km/KnightMoves.java:44-63 | With a budget of at least 2, the total at depth 2 equals the sum of all adjacency-list lengths, repeats included. |
| `WalkCount.EmptyGraph` | knight-moves/src/main/java/km/KnightMoves.java:40-45 | A graph with no vertices yields 0 at every valid depth. |
| `DefaultGraph.DefaultClosed` | knight-moves/src/main/java/km/KnightMoves.java:78-99 | Every move of the default graph lands on one of its keys, so the counter's cache lookups never miss. |
| `DefaultGraph.DefaultDepthOne` | knight-moves/src/test/java/km/KnightMovesTests.java:65-70 | The default graph with budget 2 gives 18 sequences at depth 1. |
| `DefaultGraph.DefaultDepthTwo` | knight-moves/src/test/java/km/KnightMovesTests.java:72-82 | The default graph with budget 2 gives 60 sequences at depth 2, the sum of its adjacency-list lengths. |
| `DefaultGraph.DefaultAtDepthOne` | knight-moves/src/main/java/km/KnightMoves.java:24-42 | Constructing a counter on the default graph with budget 2 and depth 1, then running `calculate()`, returns 18. |

## Left out

- `main` (command-line parsing, printing, exit status) is input/output glue and is not modelled.
- Counter.Calculate: counts are unbounded naturals, so the wrap-around of the 64-bit `long` accumulator and cache cells is not modelled. The model assumes no overflow.
- Counter.New: running out of memory while the tables are allocated is not modelled. With a large budget or a large graph, the Java constructor throws an out-of-memory error, but the model accepts any size. The `int` wrap-around of the table height is modelled.
- Counter.CalculateFrom: it requires a closed graph, where every neighbour label is a key. The Java code fails on a dangling label only when line 52 looks that label up. That needs a remaining depth of at least 1 when the label is reached as a neighbour. At remaining depth 0 the recursion returns 1 at lines 47-48 without reading the list. The model neither reproduces the null-pointer exception nor covers the dangling-label graphs on which the Java code succeeds.
- Counter.Calculate: it inherits the closure requirement through `Counter.Valid`. So it says nothing about a graph with dangling labels at depth 1, where the Java `calculate()` never reads a neighbour and succeeds.
- WalkCount.DepthOne: it requires a closed graph, as `WalkCount.Total` does, although at depth 1 the Java result does not depend on the neighbour lists.
- The accessors `getGraph`, `getNumberOfVowels` and `getDepth` are the fields of the `KnightMoves` datatype. The read-only map view that `getGraph` returns is not modelled separately.
- Counter.CalculateTwice: it assumes nobody changes the graph after construction. The Java constructor keeps the caller's map by reference (line 29). `getGraph` (line 67) wraps the map but leaves the `String[]` adjacency arrays writable. So a change between two calls can leave stale cache cells, or make `cache.get` at line 52 return null. Dafny values cannot be changed, so the model has no such sharing.
- The vowel set is a module constant (`Graphs.Vowels`) instead of a per-instance field. The constructor always sets it to the same five labels.
- The iteration order of the Java hash map is not modelled. `Counter.KeysToArray` picks any order, and the result is proved not to depend on it.
- The depth-10 value is not pinned. The depth-10 test checks only which digits appear, and the print-all test only prints.
- Concurrent use of one instance is not modelled. The class is single-threaded.
