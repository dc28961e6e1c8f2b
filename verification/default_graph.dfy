/**
  The reference keypad graph of `createDefaultGraph` and the counts it yields at
  depths 1 and 2 with the default budget of two vowels.
 */
module DefaultGraph {
  import opened Graphs
  import opened Sums
  import opened WalkCount
  import opened Counter

  /** The vowel budget the command line uses. */
  const DefaultMaxNumberOfVowels: nat := 2

  /** Eighteen keys (letters A to O and digits 1 to 3) with their knight moves. */
  const Default: Graph := map[
    "A" := ["H", "L"],
    "B" := ["K", "M", "I"],
    "C" := ["F", "L", "N", "J"],
    "D" := ["G", "M", "O"],
    "E" := ["H", "N"],
    "F" := ["1", "M", "C"],
    "G" := ["2", "N", "D"],
    "H" := ["A", "K", "1", "3", "E", "O"],
    "I" := ["2", "B", "L"],
    "J" := ["3", "C", "M"],
    "K" := ["B", "H", "2"],
    "L" := ["A", "C", "I", "3"],
    "M" := ["B", "D", "F", "J"],
    "N" := ["1", "G", "C", "E"],
    "O" := ["2", "H", "D"],
    "1" := ["F", "H", "N"],
    "2" := ["G", "I", "K", "O"],
    "3" := ["L", "H", "J"]
  ]

  /** The keys of the default graph, in the order they are inserted. */
  const DefaultKeys: seq<Vertex> :=
    ["A", "B", "C", "D", "E", "F", "G", "H", "I", "J", "K", "L", "M", "N", "O", "1", "2", "3"]

  lemma DefaultKeysEnumerate()
    ensures Enumerates(DefaultKeys, Default.Keys)
  {
  }

  /** Every move of the default graph lands on a key, so the counter never misses a lookup. */
  lemma DefaultClosed()
    ensures Closed(Default)
  {
  }

  /** At depth 1 the default graph has 18 sequences, one per key. */
  lemma DefaultDepthOne()
    ensures Closed(Default)
    ensures Total(Default, DefaultMaxNumberOfVowels, 1) == 18
  {
    DefaultClosed();
    DepthOne(Default, DefaultMaxNumberOfVowels);
    DefaultKeysEnumerate();
    EnumerationSize(DefaultKeys, Default.Keys);
  }

  /** The adjacency-list lengths of the default graph, in the order of `DefaultKeys`. */
  const DefaultDegrees: seq<nat> := [2, 3, 4, 3, 2, 3, 3, 6, 3, 3, 3, 4, 4, 4, 3, 3, 4, 3]

  lemma DefaultDegreesAgree()
    ensures |DefaultDegrees| == |DefaultKeys|
    ensures forall i :: 0 <= i < |DefaultKeys| ==>
              DefaultKeys[i] in DegreeMap(Default) && DegreeMap(Default)[DefaultKeys[i]] == DefaultDegrees[i]
  {
    var m := DegreeMap(Default);
    forall i | 0 <= i < |DefaultKeys|
      ensures DefaultKeys[i] in m && m[DefaultKeys[i]] == DefaultDegrees[i]
    {
      var k := DefaultKeys[i];
      assert k in Default && m[k] == |Default[k]|;
    }
  }

  /** At depth 2 the default graph has 60 sequences, the sum of its adjacency-list lengths. */
  lemma DefaultDepthTwo()
    ensures Closed(Default)
    ensures Total(Default, DefaultMaxNumberOfVowels, 2) == 60
  {
    DefaultClosed();
    DepthTwo(Default, DefaultMaxNumberOfVowels);
    DefaultDegreeSum();
  }

  /** The adjacency-list lengths of the default graph add up to 60. */
  lemma DefaultDegreeSum()
    ensures SumMap(DegreeMap(Default)) == 60
  {
    DefaultKeysEnumerate();
    SumMapBySeq(DegreeMap(Default), DefaultKeys);
    DefaultDegreesAgree();
    SeqSumIsSum(DegreeMap(Default), DefaultKeys, DefaultDegrees);
    SumOfDefaultDegrees();
  }

  /** The degree list, added up in blocks of three keys. */
  lemma SumOfDefaultDegrees()
    ensures Sum(DefaultDegrees) == 60
  {
    var b1, b2, b3 := [2, 3, 4], [3, 2, 3], [3, 6, 3];
    var b4, b5, b6 := [3, 3, 4], [4, 4, 3], [3, 4, 3];
    assert DefaultDegrees == b1 + b2 + b3 + b4 + b5 + b6;
    SumOfThree(2, 3, 4);
    SumOfThree(3, 2, 3);
    SumOfThree(3, 6, 3);
    SumOfThree(3, 3, 4);
    SumOfThree(4, 4, 3);
    SumOfThree(3, 4, 3);
    SumConcat(b1, b2);
    SumConcat(b1 + b2, b3);
    SumConcat(b1 + b2 + b3, b4);
    SumConcat(b1 + b2 + b3 + b4, b5);
    SumConcat(b1 + b2 + b3 + b4 + b5, b6);
  }

  /** Constructing and running the counter on the default graph at depth 1 gives 18. */
  method DefaultAtDepthOne() returns (sequences: nat)
    ensures sequences == 18
  {
    DefaultClosed();
    var r := New(Some(Default), DefaultMaxNumberOfVowels, 1);
    var km := r.value;
    var km';
    sequences, km' := Calculate(km);
    DefaultDepthOne();
  }
}
