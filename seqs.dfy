/**
  Sequence facts behind Python's `Counter` (keys in first-insertion order),
  `list.index(max(list))` and the size of `set(list)`.
*/
module Seqs {

  predicate NoDuplicates<T(==)>(s: seq<T>) {
    forall i, j :: 0 <= i < j < |s| ==> s[i] != s[j]
  }

  /** The position of the first occurrence of `x` in `s`. */
  function FirstIndex<T(==)>(s: seq<T>, x: T): (i: nat)
    requires x in s
    ensures i < |s| && s[i] == x
    ensures forall j :: 0 <= j < i ==> s[j] != x
    decreases |s|
  {
    if s[0] == x then 0 else 1 + FirstIndex(s[1..], x)
  }

  /** The distinct elements of `s`, each once, in the order of their first occurrence. */
  function Distinct<T(==)>(s: seq<T>): (d: seq<T>)
    ensures forall i :: 0 <= i < |s| ==> s[i] in d
    ensures forall i :: 0 <= i < |d| ==> d[i] in s
    ensures NoDuplicates(d)
    decreases |s|
  {
    if s == [] then []
    else
      var p := Distinct(s[..|s| - 1]);
      if s[|s| - 1] in p then p else p + [s[|s| - 1]]
  }

  /** Past a first element other than `x`, the first occurrence of `x` is one place further on. */
  lemma FirstIndexOfTail<T>(s: seq<T>, x: T)
    requires s != [] && s[0] != x && x in s[1..]
    ensures x in s && FirstIndex(s, x) == 1 + FirstIndex(s[1..], x)
  {
  }

  lemma {:induction false} FirstIndexOfPrefix<T>(s: seq<T>, t: seq<T>, x: T)
    requires x in s
    ensures FirstIndex(s + t, x) == FirstIndex(s, x)
    decreases |s|
  {
    if s[0] != x {
      assert (s + t)[1..] == s[1..] + t;
      FirstIndexOfPrefix(s[1..], t, x);
    }
  }

  /** `Distinct` lists the elements in the order in which they first occur. */
  lemma {:induction false} DistinctInFirstOccurrenceOrder<T>(s: seq<T>, i: nat, j: nat)
    requires i < j < |Distinct(s)|
    ensures FirstIndex(s, Distinct(s)[i]) < FirstIndex(s, Distinct(s)[j])
    decreases |s|
  {
    var n := |s|;
    var front := s[..n - 1];
    var p := Distinct(front);
    var d := Distinct(s);
    assert s == front + [s[n - 1]];
    assert d[i] in front by {
      if s[n - 1] !in p {
        assert i < |p| && d[i] == p[i];
      }
      assert d[i] in p;
    }
    FirstIndexOfPrefix(front, [s[n - 1]], d[i]);
    if j < |p| {
      assert d[j] == p[j] && d[i] == p[i];
      FirstIndexOfPrefix(front, [s[n - 1]], d[j]);
      DistinctInFirstOccurrenceOrder(front, i, j);
    } else {
      assert d[j] == s[n - 1] && s[n - 1] !in front;
      assert FirstIndex(s, d[j]) == n - 1;
    }
  }

  /** A prefix one longer is the prefix and the next element. */
  lemma TakeOneMore<T>(s: seq<T>, i: nat)
    requires i < |s|
    ensures s[..i + 1] == s[..i] + [s[i]]
  {
    assert forall k :: 0 <= k <= i ==> s[..i + 1][k] == (s[..i] + [s[i]])[k];
  }

  /** A sequence without duplicates has as many elements as its set. */
  lemma {:induction false} CardinalityOfDistinct<T>(s: seq<T>)
    requires NoDuplicates(s)
    ensures |set x | x in s| == |s|
    decreases |s|
  {
    if s != [] {
      var rest := s[1..];
      CardinalityOfDistinct(rest);
      assert (set x | x in s) == (set x | x in rest) + {s[0]};
      assert s[0] !in rest;
    }
  }

  /**
    `scores.index(max(scores))`: the lowest index at which the maximum is attained.
    The two last postconditions determine the index uniquely.
  */
  function FirstArgMax(s: seq<int>): (k: nat)
    requires |s| > 0
    ensures k < |s|
    ensures forall j :: 0 <= j < |s| ==> s[j] <= s[k]
    ensures forall j :: 0 <= j < k ==> s[j] < s[k]
    decreases |s|
  {
    if |s| == 1 then 0
    else
      var k := FirstArgMax(s[..|s| - 1]);
      if s[|s| - 1] > s[k] then |s| - 1 else k
  }
}
