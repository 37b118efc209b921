/** A dimension's order of the records: sorted values and the record of each rank. */
module Ranking {
  import opened Int32
  import opened Sorting
  import opened Quicksort
  import opened TypedArrays
  import opened Filters

  /** The numbers below n in order. */
  function Upto(n: nat): (s: seq<nat>)
    ensures |s| == n && forall i :: 0 <= i < n ==> s[i] == i
  {
    seq(n, i => i)
  }

  /** index holds each of the ids below n once. */
  ghost predicate IsPermutation(index: seq<nat>, n: nat) {
    multiset(index) == multiset(Upto(n))
  }

  lemma {:induction false} UptoOnce(n: nat)
    ensures forall x: nat :: multiset(Upto(n))[x] == if x < n then 1 else 0
  {
    if n > 0 {
      UptoOnce(n - 1);
      assert Upto(n) == Upto(n - 1) + [n - 1];
    } else {
      assert Upto(0) == [];
    }
  }

  lemma PermutationFacts(index: seq<nat>, n: nat)
    requires IsPermutation(index, n)
    ensures |index| == n
    ensures forall i :: 0 <= i < n ==> index[i] < n
    ensures forall x: nat :: x < n ==> x in index
    ensures Distinct(index)
  {
    UptoOnce(n);
    assert |multiset(index)| == |multiset(Upto(n))|;
    forall i | 0 <= i < |index| ensures index[i] < n {
      assert index[i] in multiset(index);
    }
    forall x: nat | x < n ensures x in index {
      assert x in multiset(index);
    }
    forall i, j | 0 <= i < j < |index| ensures index[i] != index[j] {
      TwiceInMultiset(index, i, j);
      assert multiset(index)[index[i]] <= 1;
    }
  }

  lemma TwiceInMultiset<A>(s: seq<A>, i: nat, j: nat)
    requires i < j < |s|
    ensures s[i] == s[j] ==> multiset(s)[s[i]] >= 2
  {
    assert s == s[..i] + [s[i]] + s[i + 1..j] + [s[j]] + s[j + 1..];
  }

  /** Rank i belongs to record index[i], whose value is at position i of the sorted values. */
  ghost predicate Ranked(all: seq<real>, values: seq<real>, index: seq<nat>) {
    && |values| == |index| == |all|
    && IsPermutation(index, |all|)
    && SortedRange(Identity, values, 0, |values|)
    && forall i :: 0 <= i < |index| ==> index[i] < |all| && values[i] == all[index[i]]
  }

  ghost predicate IsIndex(index: seq<nat>, n: nat) {
    |index| == n && Distinct(index) && forall i :: 0 <= i < n ==> index[i] < n
  }

  lemma RankedFacts(all: seq<real>, values: seq<real>, index: seq<nat>)
    requires Ranked(all, values, index)
    ensures |values| == |all| && SortedRange(Identity, values, 0, |values|)
    ensures IsIndex(index, |all|)
    ensures forall r: nat :: r < |all| ==> r in index
  {
    PermutationFacts(index, |all|);
  }

  /** crossfilter_range: the ids below n, in elements wide enough for them. */
  method Range(n: nat) returns (range: array<nat>)
    requires n <= MAX_LENGTH
    ensures fresh(range) && range[..] == Upto(n)
  {
    range := new nat[n];
    var i := 0;
    while i < n
      invariant i <= n
      invariant forall j :: 0 <= j < i ==> range[j] == j
    {
      IndexFits(n, i);
      range[i] := Stored(IndexWidth(n), i);
      i := i + 1;
    }
  }

  /** permute: the elements of s in the order of index. */
  method Permute<A(0)>(s: seq<A>, index: seq<nat>) returns (copy: seq<A>)
    requires forall i :: 0 <= i < |index| ==> index[i] < |s|
    ensures |copy| == |index| && forall i :: 0 <= i < |index| ==> copy[i] == s[index[i]]
  {
    copy := [];
    for i := 0 to |index|
      invariant |copy| == i && forall j :: 0 <= j < i ==> copy[j] == s[index[j]]
    {
      copy := copy + [s[index[i]]];
    }
  }

  /** The value of an id, for the sort. */
  function ValueOf(all: seq<real>): nat -> real {
    (i: nat) => if i < |all| then all[i] else 0.0
  }

  lemma SortedIsRanked(all: seq<real>, values: seq<real>, index: seq<nat>)
    requires IsPermutation(index, |all|)
    requires SortedRange(ValueOf(all), index, 0, |index|)
    requires |values| == |index| && forall i :: 0 <= i < |index| ==> index[i] < |all| && values[i] == all[index[i]]
    ensures Ranked(all, values, index)
  {
    PermutationFacts(index, |all|);
    forall i, j | 0 <= i < j < |values| ensures Identity(values[i]) <= Identity(values[j]) {
      assert ValueOf(all)(index[i]) <= ValueOf(all)(index[j]);
    }
  }

  /** Ranks a batch of values: sorts their ids and permutes them into that order. */
  method Rank(all: seq<real>) returns (values: seq<real>, index: seq<nat>)
    requires |all| <= MAX_LENGTH
    ensures Ranked(all, values, index)
  {
    var n := |all|;
    var range := Range(n);
    Sort(ValueOf(all), range, 0, n);
    index := range[..];
    assert index[0..n] == index && Upto(n)[0..n] == Upto(n);
    PermutationFacts(index, n);
    values := Permute(all, index);
    SortedIsRanked(all, values, index);
  }

  /** New ids counted from n0. */
  ghost function Shifted(index: seq<nat>, n0: nat): seq<nat> {
    seq(|index|, i requires 0 <= i < |index| => index[i] + n0)
  }

  /** The state of the merge after i0 old and i1 new ranks. */
  ghost predicate Merged(all: seq<real>, n0: nat, oldValues: seq<real>, oldIndex: seq<nat>, newValues: seq<real>,
      newIndex: seq<nat>, i0: nat, i1: nat, values: seq<real>, index: seq<nat>)
  {
    && i0 <= |oldIndex| == |oldValues| && i1 <= |newIndex| == |newValues|
    && |values| == |index| == i0 + i1
    && multiset(index) == multiset(oldIndex[..i0]) + multiset(Shifted(newIndex, n0)[..i1])
    && SortedRange(Identity, values, 0, |values|)
    && (forall p :: 0 <= p < |index| ==> index[p] < |all| && values[p] == all[index[p]])
    && (i0 < |oldValues| ==> forall p :: 0 <= p < |values| ==> values[p] <= oldValues[i0])
    && (i1 < |newValues| ==> forall p :: 0 <= p < |values| ==> values[p] <= newValues[i1])
  }

  lemma MergeStarts(all: seq<real>, n0: nat, oldValues: seq<real>, oldIndex: seq<nat>, newValues: seq<real>,
      newIndex: seq<nat>)
    requires n0 <= |all| && Ranked(all[..n0], oldValues, oldIndex) && Ranked(all[n0..], newValues, newIndex)
    ensures |oldValues| == |oldIndex| == n0 && |newValues| == |newIndex| == |all| - n0
    ensures Merged(all, n0, oldValues, oldIndex, newValues, newIndex, 0, 0, [], [])
  {
  }

  lemma TakeOld(all: seq<real>, n0: nat, oldValues: seq<real>, oldIndex: seq<nat>, newValues: seq<real>,
      newIndex: seq<nat>, i0: nat, i1: nat, values: seq<real>, index: seq<nat>)
    requires Merged(all, n0, oldValues, oldIndex, newValues, newIndex, i0, i1, values, index)
    requires n0 <= |all| && Ranked(all[..n0], oldValues, oldIndex)
    requires i0 < |oldIndex| && (i1 < |newValues| ==> oldValues[i0] <= newValues[i1])
    ensures oldIndex[i0] < n0
    ensures Merged(all, n0, oldValues, oldIndex, newValues, newIndex, i0 + 1, i1, values + [oldValues[i0]],
      index + [oldIndex[i0]])
  {
    assert oldIndex[..i0 + 1] == oldIndex[..i0] + [oldIndex[i0]];
    assert i0 + 1 < |oldValues| ==> Identity(oldValues[i0]) <= Identity(oldValues[i0 + 1]);
  }

  lemma TakeNew(all: seq<real>, n0: nat, oldValues: seq<real>, oldIndex: seq<nat>, newValues: seq<real>,
      newIndex: seq<nat>, i0: nat, i1: nat, values: seq<real>, index: seq<nat>)
    requires Merged(all, n0, oldValues, oldIndex, newValues, newIndex, i0, i1, values, index)
    requires n0 <= |all| && Ranked(all[n0..], newValues, newIndex)
    requires i1 < |newIndex| && (i0 < |oldValues| ==> newValues[i1] <= oldValues[i0])
    ensures newIndex[i1] + n0 < |all|
    ensures Merged(all, n0, oldValues, oldIndex, newValues, newIndex, i0, i1 + 1, values + [newValues[i1]],
      index + [newIndex[i1] + n0])
  {
    var shifted := Shifted(newIndex, n0);
    assert shifted[..i1 + 1] == shifted[..i1] + [shifted[i1]];
    assert i1 + 1 < |newValues| ==> Identity(newValues[i1]) <= Identity(newValues[i1 + 1]);
    assert all[n0..][newIndex[i1]] == all[newIndex[i1] + n0];
  }

  lemma {:induction false} ShiftedMultiplicity(index: seq<nat>, n0: nat, x: nat)
    ensures multiset(Shifted(index, n0))[x] == if x < n0 then 0 else multiset(index)[x - n0]
  {
    if index == [] {
      assert Shifted(index, n0) == [];
    } else {
      var n := |index| - 1;
      assert index == index[..n] + [index[n]];
      assert Shifted(index, n0) == Shifted(index[..n], n0) + [index[n] + n0];
      ShiftedMultiplicity(index[..n], n0, x);
    }
  }

  /** The ids below n0 and, shifted by n0, the ids below n1 are the ids below n0 + n1. */
  lemma PermutationsConcatenate(oldIndex: seq<nat>, n0: nat, newIndex: seq<nat>, n1: nat, index: seq<nat>)
    requires IsPermutation(oldIndex, n0) && IsPermutation(newIndex, n1)
    requires multiset(index) == multiset(oldIndex) + multiset(Shifted(newIndex, n0))
    ensures IsPermutation(index, n0 + n1)
  {
    UptoOnce(n0);
    UptoOnce(n1);
    UptoOnce(n0 + n1);
    forall x: nat ensures multiset(index)[x] == multiset(Upto(n0 + n1))[x] {
      ShiftedMultiplicity(newIndex, n0, x);
    }
  }

  /** Merges the order of n0 old records with that of the new ones. On a tie the new record comes first. */
  method Merge(ghost all: seq<real>, n0: nat, oldValues: seq<real>, oldIndex: seq<nat>, newValues: seq<real>,
      newIndex: seq<nat>)
    returns (values: seq<real>, index: seq<nat>)
    requires n0 <= |all| <= MAX_LENGTH
    requires Ranked(all[..n0], oldValues, oldIndex) && Ranked(all[n0..], newValues, newIndex)
    ensures Ranked(all, values, index)
  {
    hide Merged, Ranked, IsPermutation;
    MergeStarts(all, n0, oldValues, oldIndex, newValues, newIndex);
    var n1 := |newValues|;
    var n := n0 + n1;
    var i0, i1 := 0, 0;
    values, index := [], [];
    while i0 < n0 && i1 < n1
      invariant i0 <= n0 && i1 <= n1
      invariant Merged(all, n0, oldValues, oldIndex, newValues, newIndex, i0, i1, values, index)
    {
      if oldValues[i0] < newValues[i1] {
        TakeOld(all, n0, oldValues, oldIndex, newValues, newIndex, i0, i1, values, index);
        IndexFits(n, oldIndex[i0]);
        values := values + [oldValues[i0]];
        index := index + [Stored(IndexWidth(n), oldIndex[i0])];
        i0 := i0 + 1;
      } else {
        TakeNew(all, n0, oldValues, oldIndex, newValues, newIndex, i0, i1, values, index);
        IndexFits(n, newIndex[i1] + n0);
        values := values + [newValues[i1]];
        index := index + [Stored(IndexWidth(n), newIndex[i1] + n0)];
        i1 := i1 + 1;
      }
    }
    while i0 < n0
      invariant i0 <= n0 && i1 <= n1 && (i0 < n0 ==> i1 == n1)
      invariant Merged(all, n0, oldValues, oldIndex, newValues, newIndex, i0, i1, values, index)
    {
      TakeOld(all, n0, oldValues, oldIndex, newValues, newIndex, i0, i1, values, index);
      IndexFits(n, oldIndex[i0]);
      values := values + [oldValues[i0]];
      index := index + [Stored(IndexWidth(n), oldIndex[i0])];
      i0 := i0 + 1;
    }
    while i1 < n1
      invariant i1 <= n1
      invariant Merged(all, n0, oldValues, oldIndex, newValues, newIndex, n0, i1, values, index)
    {
      TakeNew(all, n0, oldValues, oldIndex, newValues, newIndex, n0, i1, values, index);
      IndexFits(n, newIndex[i1] + n0);
      values := values + [newValues[i1]];
      index := index + [Stored(IndexWidth(n), newIndex[i1] + n0)];
      i1 := i1 + 1;
    }
    AllMerged(all, n0, oldValues, oldIndex, newValues, newIndex, values, index);
  }

  lemma AllMerged(all: seq<real>, n0: nat, oldValues: seq<real>, oldIndex: seq<nat>, newValues: seq<real>,
      newIndex: seq<nat>, values: seq<real>, index: seq<nat>)
    requires n0 <= |all| && Ranked(all[..n0], oldValues, oldIndex) && Ranked(all[n0..], newValues, newIndex)
    requires Merged(all, n0, oldValues, oldIndex, newValues, newIndex, n0, |newValues|, values, index)
    ensures Ranked(all, values, index)
  {
    var n1 := |all| - n0;
    assert oldIndex[..n0] == oldIndex;
    assert Shifted(newIndex, n0)[..n1] == Shifted(newIndex, n0);
    PermutationsConcatenate(oldIndex, n0, newIndex, n1, index);
  }
}
