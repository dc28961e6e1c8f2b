/**
  Order-free sums over the values of a map, and their agreement with a sum taken
  along any duplicate-free listing of the keys.  The counter adds up one value per
  vertex in whatever order the key set happens to be traversed; these lemmas show
  that the order does not matter.
 */
module Sums {
  import opened Graphs

  /** The sum of all values of `m`, with no order on the keys. */
  ghost function SumMap<K>(m: map<K, nat>): (r: nat)
    decreases |m.Keys|
  {
    if m.Keys == {} then 0
    else
      var k :| k in m.Keys;
      m[k] + SumMap(m - {k})
  }

  /** The sum of `m[ks[i]]` along the listing `ks`, last element last. */
  function SeqSum<K>(m: map<K, nat>, ks: seq<K>): (r: nat)
    requires forall i :: 0 <= i < |ks| ==> ks[i] in m
  {
    if |ks| == 0 then 0 else SeqSum(m, ks[..|ks| - 1]) + m[ks[|ks| - 1]]
  }

  /** The sum of a list of numbers, last element last. */
  function Sum(xs: seq<nat>): (r: nat) {
    if |xs| == 0 then 0 else Sum(xs[..|xs| - 1]) + xs[|xs| - 1]
  }

  /** The sum of a concatenation is the sum of its parts. */
  lemma {:induction false} SumConcat(xs: seq<nat>, ys: seq<nat>)
    ensures Sum(xs + ys) == Sum(xs) + Sum(ys)
  {
    if |ys| == 0 {
      assert xs + ys == xs;
    } else {
      var n := |ys| - 1;
      assert (xs + ys)[..|xs + ys| - 1] == xs + ys[..n];
      SumConcat(xs, ys[..n]);
    }
  }

  /** The sum of a three-element list. */
  lemma SumOfThree(a: nat, b: nat, c: nat)
    ensures Sum([a, b, c]) == a + b + c
  {
    assert [a][..0] == [];
    assert Sum([a]) == a;
    assert [a, b][..1] == [a];
    assert Sum([a, b]) == a + b;
    assert [a, b, c][..2] == [a, b];
  }

  /** Summing the map along a listing is summing the listed values. */
  lemma {:induction false} SeqSumIsSum<K>(m: map<K, nat>, ks: seq<K>, xs: seq<nat>)
    requires |ks| == |xs|
    requires forall i :: 0 <= i < |ks| ==> ks[i] in m && m[ks[i]] == xs[i]
    ensures SeqSum(m, ks) == Sum(xs)
  {
    if |ks| > 0 {
      SeqSumIsSum(m, ks[..|ks| - 1], xs[..|xs| - 1]);
    }
  }

  /** `m` restricted to the keys in `s`. */
  ghost function Restrict<K>(m: map<K, nat>, s: set<K>): (r: map<K, nat>)
    ensures r.Keys == m.Keys * s
    ensures forall k :: k in r ==> r[k] == m[k]
  {
    map k | k in m && k in s :: m[k]
  }

  /** Any key can be the one taken out first. */
  lemma {:induction false} SumMapRemove<K>(m: map<K, nat>, k: K)
    requires k in m
    ensures SumMap(m) == m[k] + SumMap(m - {k})
    decreases |m.Keys|
  {
    var j :| j in m.Keys && SumMap(m) == m[j] + SumMap(m - {j});
    if j != k {
      var mj, mk := m - {j}, m - {k};
      assert mj.Keys == m.Keys - {j} && mk.Keys == m.Keys - {k};
      SumMapRemove(mj, k);
      SumMapRemove(mk, j);
      assert mj - {k} == mk - {j};
    }
  }

  /** The elements of a listing, as a set. */
  ghost function Elements<K>(ks: seq<K>): (s: set<K>)
    ensures forall i :: 0 <= i < |ks| ==> ks[i] in s
    ensures forall k :: k in s ==> k in ks
  {
    set k | k in ks
  }

  /** Dropping the last element of a duplicate-free listing drops exactly that key. */
  lemma ElementsOfPrefix<K>(ks: seq<K>)
    requires Distinct(ks) && |ks| > 0
    ensures Elements(ks[..|ks| - 1]) == Elements(ks) - {ks[|ks| - 1]}
  {
  }

  /** Summing along a duplicate-free listing gives the order-free sum over the listed keys. */
  lemma {:induction false} SeqSumIsRestrictedSum<K>(m: map<K, nat>, ks: seq<K>)
    requires Distinct(ks)
    requires forall i :: 0 <= i < |ks| ==> ks[i] in m
    ensures SeqSum(m, ks) == SumMap(Restrict(m, Elements(ks)))
  {
    if |ks| == 0 {
      assert Restrict(m, Elements(ks)).Keys == {};
    } else {
      var n := |ks| - 1;
      var x := ks[n];
      var ks' := ks[..n];
      assert Distinct(ks');
      SeqSumIsRestrictedSum(m, ks');
      var r := Restrict(m, Elements(ks));
      SumMapRemove(r, x);
      ElementsOfPrefix(ks);
      assert r - {x} == Restrict(m, Elements(ks'));
    }
  }

  /** The sum along any listing of all keys, each once, is the order-free sum. */
  lemma SumMapBySeq<K>(m: map<K, nat>, ks: seq<K>)
    requires Enumerates(ks, m.Keys)
    ensures SeqSum(m, ks) == SumMap(m)
  {
    SeqSumIsRestrictedSum(m, ks);
    assert Restrict(m, Elements(ks)) == m;
  }

  /** A duplicate-free listing of a set is as long as the set is large. */
  lemma {:induction false} EnumerationSize<K>(ks: seq<K>, s: set<K>)
    requires Enumerates(ks, s)
    ensures |ks| == |s|
  {
    if |ks| > 0 {
      var n := |ks| - 1;
      var ks' := ks[..n];
      assert Enumerates(ks', s - {ks[n]}) by {
        forall x | x in s - {ks[n]}
          ensures x in ks'
        {
          var i :| 0 <= i < |ks| && ks[i] == x;
          assert i != n;
          assert ks'[i] == x;
        }
      }
      EnumerationSize(ks', s - {ks[n]});
    } else {
      assert forall x :: x !in s;
    }
  }

  /** Summing a map whose values are all 1 counts its keys. */
  lemma {:induction false} SumMapOfOnes<K>(m: map<K, nat>)
    requires forall k :: k in m ==> m[k] == 1
    ensures SumMap(m) == |m.Keys|
    decreases |m.Keys|
  {
    if m.Keys != {} {
      var k :| k in m;
      SumMapRemove(m, k);
      assert (m - {k}).Keys == m.Keys - {k};
      SumMapOfOnes(m - {k});
    }
  }

  /** The sum is monotone in every value. */
  lemma {:induction false} SumMapMonotone<K>(m1: map<K, nat>, m2: map<K, nat>)
    requires m1.Keys == m2.Keys
    requires forall k :: k in m1 ==> m1[k] <= m2[k]
    ensures SumMap(m1) <= SumMap(m2)
    decreases |m1.Keys|
  {
    if m1.Keys != {} {
      var k :| k in m1;
      SumMapRemove(m1, k);
      SumMapRemove(m2, k);
      assert (m1 - {k}).Keys == (m2 - {k}).Keys;
      SumMapMonotone(m1 - {k}, m2 - {k});
    }
  }
}
