/**
  An explicit enumeration of the walks of a graph, used as the reference meaning of
  the counter: the counter's value for a vertex is the number of enumerated walks
  from it whose vowel count fits the budget.

  A walk that uses a move listed twice in an adjacency list is enumerated twice,
  once per listed occurrence, which is how the counter treats it.
 */
module WalkEnumeration {
  import opened Graphs

  /** Puts `v` in front of every walk of `ws`. */
  function Prepend(v: Vertex, ws: seq<seq<Vertex>>): (r: seq<seq<Vertex>>) {
    seq(|ws|, i requires 0 <= i < |ws| => [v] + ws[i])
  }

  /** Every walk of `d + 1` vertices starting at `v`, one per sequence of listed moves. */
  ghost function WalksFrom(g: Graph, v: Vertex, d: nat): (ws: seq<seq<Vertex>>)
    requires Closed(g) && v in g
    decreases d, 1
  {
    if d == 0 then [[v]] else Prepend(v, WalksThrough(g, g[v], d - 1))
  }

  /** The walks of `d + 1` vertices starting at each listed vertex in turn. */
  ghost function WalksThrough(g: Graph, us: seq<Vertex>, d: nat): (ws: seq<seq<Vertex>>)
    requires Closed(g) && AllIn(g, us)
    decreases d, 2, |us|
  {
    if |us| == 0 then []
    else WalksThrough(g, us[..|us| - 1], d) + WalksFrom(g, us[|us| - 1], d)
  }

  /** How many of the walks `ws` hold at most `b` vowels. */
  function CountWithin(ws: seq<seq<Vertex>>, b: nat): (n: nat)
    ensures n <= |ws|
  {
    if |ws| == 0 then 0
    else CountWithin(ws[..|ws| - 1], b) + (if VowelCount(ws[|ws| - 1]) <= b then 1 else 0)
  }

  /** Counting distributes over concatenation. */
  lemma {:induction false} CountWithinConcat(a: seq<seq<Vertex>>, c: seq<seq<Vertex>>, b: nat)
    ensures CountWithin(a + c, b) == CountWithin(a, b) + CountWithin(c, b)
  {
    if |c| == 0 {
      assert a + c == a;
    } else {
      var n := |c| - 1;
      assert (a + c)[..|a + c| - 1] == a + c[..n];
      CountWithinConcat(a, c[..n], b);
    }
  }

  /**
    Putting `v` in front of every walk spends `v`'s cost from the budget; when
    the budget cannot pay for `v`, none of the walks fit.
   */
  lemma {:induction false} CountWithinPrepend(v: Vertex, ws: seq<seq<Vertex>>, b: nat)
    ensures CountWithin(Prepend(v, ws), b) ==
              if VowelCost(v) <= b then CountWithin(ws, b - VowelCost(v)) else 0
  {
    if |ws| > 0 {
      var n := |ws| - 1;
      assert Prepend(v, ws)[..n] == Prepend(v, ws[..n]);
      CountWithinPrepend(v, ws[..n], b);
      var w := [v] + ws[n];
      assert w[1..] == ws[n];
      assert VowelCount(w) == VowelCost(v) + VowelCount(ws[n]);
    }
  }

  /** A larger budget admits at least as many walks. */
  lemma {:induction false} CountWithinMonotone(ws: seq<seq<Vertex>>, b: nat)
    ensures CountWithin(ws, b) <= CountWithin(ws, b + 1)
  {
    if |ws| > 0 {
      CountWithinMonotone(ws[..|ws| - 1], b);
    }
  }

  /** Every enumerated walk from `v` is a walk of `d + 1` vertices that starts at `v`. */
  lemma {:induction false} WalksFromSound(g: Graph, v: Vertex, d: nat)
    requires Closed(g) && v in g
    ensures forall w :: w in WalksFrom(g, v, d) ==> |w| == d + 1 && w[0] == v && IsWalk(g, w)
    decreases d, 1
  {
    if d > 0 {
      var ws := WalksThrough(g, g[v], d - 1);
      WalksThroughSound(g, g[v], d - 1);
      forall w | w in WalksFrom(g, v, d)
        ensures |w| == d + 1 && w[0] == v && IsWalk(g, w)
      {
        var i :| 0 <= i < |ws| && w == [v] + ws[i];
        assert ws[i] in ws;
        ConsWalk(g, v, ws[i]);
      }
    }
  }

  /** Every enumerated walk through `us` is a walk of `d + 1` vertices starting at a listed vertex. */
  lemma {:induction false} WalksThroughSound(g: Graph, us: seq<Vertex>, d: nat)
    requires Closed(g) && AllIn(g, us)
    ensures forall w :: w in WalksThrough(g, us, d) ==> |w| == d + 1 && w[0] in us && IsWalk(g, w)
    decreases d, 2, |us|
  {
    if |us| > 0 {
      var n := |us| - 1;
      var us' := us[..n];
      WalksThroughSound(g, us', d);
      WalksFromSound(g, us[n], d);
      forall w | w in WalksThrough(g, us, d)
        ensures |w| == d + 1 && w[0] in us && IsWalk(g, w)
      {
        if w in WalksThrough(g, us', d) {
          var j :| 0 <= j < n && us'[j] == w[0];
          assert us[j] == w[0];
        }
      }
    }
  }

  /** Every walk of `d + 1` vertices from `v` is enumerated. */
  lemma {:induction false} WalksFromComplete(g: Graph, v: Vertex, d: nat, w: seq<Vertex>)
    requires Closed(g) && v in g
    requires IsWalk(g, w) && |w| == d + 1 && w[0] == v
    ensures w in WalksFrom(g, v, d)
    decreases d, 1
  {
    if d == 0 {
      assert w == [v];
    } else {
      TailWalk(g, w);
      var t := w[1..];
      WalksThroughComplete(g, g[v], d - 1, t);
      var ws := WalksThrough(g, g[v], d - 1);
      var i :| 0 <= i < |ws| && ws[i] == t;
      assert w == [v] + t;
      assert Prepend(v, ws)[i] == w;
    }
  }

  /** Every walk of `d + 1` vertices whose first vertex is listed in `us` is enumerated. */
  lemma {:induction false} WalksThroughComplete(g: Graph, us: seq<Vertex>, d: nat, w: seq<Vertex>)
    requires Closed(g) && AllIn(g, us)
    requires IsWalk(g, w) && |w| == d + 1 && w[0] in us
    ensures w in WalksThrough(g, us, d)
    decreases d, 2, |us|
  {
    var n := |us| - 1;
    if w[0] == us[n] {
      WalksFromComplete(g, us[n], d, w);
    } else {
      var j :| 0 <= j < |us| && us[j] == w[0];
      assert us[..n][j] == w[0];
      WalksThroughComplete(g, us[..n], d, w);
    }
  }

  /** Two duplicate-free lists with no element in common concatenate to a duplicate-free list. */
  lemma DistinctConcat(a: seq<seq<Vertex>>, c: seq<seq<Vertex>>)
    requires Distinct(a) && Distinct(c)
    requires forall i, j :: 0 <= i < |a| && 0 <= j < |c| ==> a[i] != c[j]
    ensures Distinct(a + c)
  {
    forall i, j | 0 <= i < j < |a + c|
      ensures (a + c)[i] != (a + c)[j]
    {
      if j < |a| {
        assert (a + c)[i] == a[i] && (a + c)[j] == a[j];
      } else if i < |a| {
        assert (a + c)[i] == a[i] && (a + c)[j] == c[j - |a|];
      } else {
        assert (a + c)[i] == c[i - |a|] && (a + c)[j] == c[j - |a|];
      }
    }
  }

  /** Putting the same vertex in front of distinct walks keeps them distinct. */
  lemma PrependDistinct(v: Vertex, ws: seq<seq<Vertex>>)
    requires Distinct(ws)
    ensures Distinct(Prepend(v, ws))
  {
    var r := Prepend(v, ws);
    forall i, j | 0 <= i < j < |r|
      ensures r[i] != r[j]
    {
      assert r[i][1..] == ws[i] && r[j][1..] == ws[j];
    }
  }

  /** Without repeated moves, no walk from `v` is enumerated twice. */
  lemma {:induction false} WalksFromDistinct(g: Graph, v: Vertex, d: nat)
    requires Closed(g) && NoRepeatedMoves(g) && v in g
    ensures Distinct(WalksFrom(g, v, d))
    decreases d, 1
  {
    if d > 0 {
      WalksThroughDistinct(g, g[v], d - 1);
      PrependDistinct(v, WalksThrough(g, g[v], d - 1));
    }
  }

  /** Without repeated moves, no walk through a duplicate-free list `us` is enumerated twice. */
  lemma {:induction false} WalksThroughDistinct(g: Graph, us: seq<Vertex>, d: nat)
    requires Closed(g) && NoRepeatedMoves(g) && AllIn(g, us) && Distinct(us)
    ensures Distinct(WalksThrough(g, us, d))
    decreases d, 2, |us|
  {
    if |us| > 0 {
      var n := |us| - 1;
      var us' := us[..n];
      var a, c := WalksThrough(g, us', d), WalksFrom(g, us[n], d);
      WalksThroughDistinct(g, us', d);
      WalksFromDistinct(g, us[n], d);
      WalksThroughSound(g, us', d);
      WalksFromSound(g, us[n], d);
      forall i, j | 0 <= i < |a| && 0 <= j < |c|
        ensures a[i] != c[j]
      {
        assert a[i] in a && c[j] in c;
        var k :| 0 <= k < n && us'[k] == a[i][0];
        assert us[k] == a[i][0];
      }
      DistinctConcat(a, c);
    }
  }
}
