/** The `shuffle` helper of src/FourLeafCloverGame.jsx (lines 20–27): a Fisher–Yates shuffle of a copy of its input. */
module Shuffling {
  import opened Random

  /** No element occurs twice. */
  predicate Distinct<T(==)>(s: seq<T>) {
    forall i, j :: 0 <= i < j < |s| ==> s[i] != s[j]
  }

  /** Draws consumed when shuffling n elements: one per position n-1 down to 1. */
  function ShuffleDraws(n: nat): nat {
    if n == 0 then 0 else n - 1
  }

  /** Walks i from the last position down to 1, swapping a[i] with a[j] for
      j = floor(draw * (i + 1)). The input is a value, so the caller's
      sequence is left as it was; the result is a rearrangement of it. */
  method Shuffle<T(==)>(arr: seq<T>, draws: seq<real>) returns (a: seq<T>)
    requires ValidDraws(draws)
    requires |draws| >= ShuffleDraws(|arr|)
    ensures |a| == |arr|
    ensures multiset(a) == multiset(arr)
    ensures forall x :: x in a <==> x in arr
    ensures Distinct(arr) ==> Distinct(a)
  {
    a := arr;
    var i := |a| - 1;
    while i > 0
      invariant -1 <= i < |a|
      invariant |a| == |arr|
      invariant multiset(a) == multiset(arr)
      invariant Distinct(arr) ==> Distinct(a)
      decreases i
    {
      var j := UniformIndex(draws[|arr| - 1 - i], i + 1);
      a := a[i := a[j]][j := a[i]];
      i := i - 1;
    }
    forall x
      ensures x in a <==> x in arr
    {
      assert x in a <==> x in multiset(a);
      assert x in arr <==> x in multiset(arr);
    }
  }
}
