/** Dual-pivot quicksort with an insertion sort for short slices. */
module Quicksort {
  import opened Int32
  import opened Sorting
  import opened Insertion

  const SIZE_THRESHOLD: nat := 32

  /** Exchanges two cells of a[lo..hi]. */
  method Exchange<A>(a: array<A>, i: nat, j: nat, ghost was: seq<A>, ghost lo: nat, ghost hi: nat)
    requires lo <= i < hi <= a.Length && lo <= j < hi
    requires PermutesRange(was, a[..], lo, hi)
    modifies a
    ensures a[i] == old(a[j]) && a[j] == old(a[i])
    ensures forall p :: 0 <= p < a.Length && p != i && p != j ==> a[p] == old(a[p])
    ensures PermutesRange(was, a[..], lo, hi)
  {
    hide PermutesRange;
    ghost var before := a[..];
    SwapPermutesRange(before, i, j, lo, hi);
    var t := a[i];
    a[i] := a[j];
    a[j] := t;
    assert a[..] == Swap(before, i, j);
    PermutesTransitively(was, before, a[..], lo, hi);
  }

  /** A rotation of three cells is two exchanges. */
  lemma RotationPermutes<A>(s: seq<A>, t: seq<A>, k: nat, less: nat, great: nat, lo: nat, hi: nat)
    requires lo <= less <= k < great < hi <= |s|
    requires t == s[k := s[less]][less := s[great]][great := s[k]]
    ensures PermutesRange(s, t, lo, hi)
  {
    hide PermutesRange;
    var once := Swap(s, k, great);
    assert t == Swap(once, k, less);
    SwapPermutesRange(s, k, great, lo, hi);
    SwapPermutesRange(once, k, less, lo, hi);
    PermutesTransitively(s, once, t, lo, hi);
  }

  /** The "triple exchange": a[k] goes to great, a[great] to less and a[less] to k. */
  method TripleExchange<A>(a: array<A>, k: nat, less: nat, great: nat, ghost was: seq<A>, ghost lo: nat, ghost hi: nat)
    requires lo <= less <= k < great < hi <= a.Length
    requires PermutesRange(was, a[..], lo, hi)
    modifies a
    ensures a[great] == old(a[k]) && a[less] == old(a[great])
    ensures k != less ==> a[k] == old(a[less])
    ensures forall p :: 0 <= p < a.Length && p != k && p != less && p != great ==> a[p] == old(a[p])
    ensures PermutesRange(was, a[..], lo, hi)
  {
    hide PermutesRange;
    ghost var before := a[..];
    var ek := a[k];
    a[k] := a[less];
    a[less] := a[great];
    a[great] := ek;
    RotationPermutes(before, a[..], k, less, great, lo, hi);
    PermutesTransitively(was, before, a[..], lo, hi);
  }

  /** The pass for equal pivots. A cell holding the pivot value must exist: it stops the search from
      the right. When that search ends left of k, a pivot-valued cell is left in the right part,
      which is therefore only known to be at least the pivot. */
  method EqualPivotPass<A>(f: A -> real, a: array<A>, l: nat, r: nat, p: real, ghost el3: nat)
    returns (less: nat, great: int)
    requires l <= el3 < r <= a.Length && f(a[el3]) == p
    modifies a
    ensures l <= less <= great + 1 <= r
    ensures PermutesRange(old(a[..]), a[..], l, r)
    ensures forall i :: l <= i < less ==> f(a[i]) < p
    ensures forall i :: less <= i <= great ==> f(a[i]) == p
    ensures forall i :: great < i < r ==> f(a[i]) >= p
  {
    hide PermutesRange;
    less, great := l, r - 1;
    var k := less;
    ghost var w := el3;
    PermutesReflexively(a[..], l, r);
    while k <= great
      invariant l <= less <= k && less <= great + 1 <= r && k <= great + 3
      invariant PermutesRange(old(a[..]), a[..], l, r)
      invariant forall i :: l <= i < less ==> f(a[i]) < p
      invariant forall i :: less <= i < k && i <= great ==> f(a[i]) == p
      invariant forall i :: great < i < r ==> f(a[i]) > p || (k > great && f(a[i]) == p)
      invariant k <= great ==> less <= w <= great && f(a[w]) == p
      decreases great + 3 - k
    {
      var xk := f(a[k]);
      if xk < p {
        if k != less {
          Exchange(a, k, less, old(a[..]), l, r);
          w := if w == less then k else w;
        }
        less := less + 1;
      } else if xk > p {
        while f(a[great]) > p
          invariant k - 1 <= great < r && less <= w <= great
          invariant forall i :: great < i < r ==> f(a[i]) > p
          decreases great + 1
        {
          great := great - 1;
        }
        if f(a[great]) < p {
          TripleExchange(a, k, less, great, old(a[..]), l, r);
          w := if w == less then k else w;
          less := less + 1;
        } else {
          Exchange(a, k, great, old(a[..]), l, r);
          w := k;
        }
        great := great - 1;
      }
      k := k + 1;
    }
  }

  /** The pass for distinct pivots: below pivot 1, between the pivots, above pivot 2. */
  method ThreeWayPass<A>(f: A -> real, a: array<A>, l: nat, r: nat, p1: real, p2: real)
    returns (less: nat, great: int)
    requires l <= r <= a.Length && p1 < p2
    modifies a
    ensures l <= less <= great + 1 <= r
    ensures PermutesRange(old(a[..]), a[..], l, r)
    ensures forall i :: l <= i < less ==> f(a[i]) < p1
    ensures forall i :: less <= i <= great ==> p1 <= f(a[i]) <= p2
    ensures forall i :: great < i < r ==> p2 < f(a[i])
  {
    hide PermutesRange;
    less, great := l, r - 1;
    var k := less;
    PermutesReflexively(a[..], l, r);
    while k <= great
      invariant l <= less <= k && less <= great + 1 <= r && k <= great + 2
      invariant PermutesRange(old(a[..]), a[..], l, r)
      invariant forall i :: l <= i < less ==> f(a[i]) < p1
      invariant forall i :: less <= i < k && i <= great ==> p1 <= f(a[i]) <= p2
      invariant forall i :: great < i < r ==> p2 < f(a[i])
      decreases great + 2 - k
    {
      var xk := f(a[k]);
      if xk < p1 {
        if k != less {
          Exchange(a, k, less, old(a[..]), l, r);
        }
        less := less + 1;
      } else if xk > p2 {
        while k <= great && f(a[great]) > p2
          invariant k - 1 <= great < r
          invariant forall i :: great < i < r ==> p2 < f(a[i])
          decreases great + 1
        {
          great := great - 1;
        }
        if k <= great {
          if f(a[great]) < p1 {
            TripleExchange(a, k, less, great, old(a[..]), l, r);
            less := less + 1;
          } else {
            Exchange(a, k, great, old(a[..]), l, r);
          }
          great := great - 1;
        }
      }
      k := k + 1;
    }
  }

  /** The pass that takes pivot-valued cells out of a part between the pivots: those left of less are pivot 1, those
      right of great are pivot 2, and no pivot 2 stays between them. Pivot 1 may: a cell exchanged with one from the
      right is not looked at again. */
  method PivotRemovalPass<A>(f: A -> real, a: array<A>, l: nat, r: nat, p1: real, p2: real)
    returns (less: nat, great: int)
    requires l <= r <= a.Length && p1 < p2
    modifies a
    ensures l <= less <= great + 1 <= r
    ensures PermutesRange(old(a[..]), a[..], l, r)
    ensures forall i :: l <= i < less ==> f(a[i]) <= p1
    ensures forall i :: less <= i <= great ==> f(a[i]) != p2
    ensures old(Between(f, a[..], l, r, p1, p2)) ==> Between(f, a[..], l, r, p1, p2)
    ensures forall i :: great < i < r ==> f(a[i]) == p2
  {
    hide PermutesRange;
    less, great := l, r - 1;
    var k := less;
    PermutesReflexively(a[..], l, r);
    while k <= great
      invariant l <= less <= k && less <= great + 1 <= r && k <= great + 2
      invariant PermutesRange(old(a[..]), a[..], l, r)
      invariant forall i :: l <= i < less ==> f(a[i]) <= p1
      invariant forall i :: less <= i < k && i <= great ==> f(a[i]) != p2
      invariant forall i :: great < i < r ==> f(a[i]) == p2
      decreases great + 2 - k
    {
      var xk := f(a[k]);
      if xk <= p1 && xk >= p1 {
        if k != less {
          Exchange(a, k, less, old(a[..]), l, r);
        }
        less := less + 1;
      } else if xk <= p2 && xk >= p2 {
        while k <= great && f(a[great]) <= p2 && f(a[great]) >= p2
          invariant k - 1 <= great < r
          invariant forall i :: great < i < r ==> f(a[i]) == p2
          decreases great + 1
        {
          great := great - 1;
        }
        if k <= great {
          if f(a[great]) < p1 {
            TripleExchange(a, k, less, great, old(a[..]), l, r);
            less := less + 1;
          } else {
            Exchange(a, k, great, old(a[..]), l, r);
          }
          great := great - 1;
        }
      }
      k := k + 1;
    }
    PermutesKeeps(f, old(a[..]), a[..], l, r, p1);
    PermutesKeeps(f, old(a[..]), a[..], l, r, p2);
  }

  /** The five sampled cells, in increasing order and inside [lo, hi). */
  ghost predicate SampleCells(at: seq<nat>, lo: nat, hi: nat) {
    |at| == 5 && lo <= at[0] < at[1] < at[2] < at[3] < at[4] < hi
  }

  /** s with the elements e written over the sampled cells. */
  ghost function Written<A>(s: seq<A>, at: seq<nat>, e: seq<A>): (t: seq<A>)
    requires SampleCells(at, 0, |s|) && |e| == 5
    ensures |t| == |s|
  {
    s[at[0] := e[0]][at[1] := e[1]][at[2] := e[2]][at[3] := e[3]][at[4] := e[4]]
  }

  lemma WrittenAt<A>(s: seq<A>, at: seq<nat>, e: seq<A>, i: nat)
    requires SampleCells(at, 0, |s|) && |e| == 5 && i < 5
    ensures Written(s, at, e)[at[i]] == e[i]
  {
  }

  lemma WrittenSwap<A>(s: seq<A>, at: seq<nat>, e: seq<A>, i: nat, j: nat)
    requires SampleCells(at, 0, |s|) && |e| == 5 && i < j < 5
    ensures Written(s, at, Swap(e, i, j)) == Swap(Written(s, at, e), at[i], at[j])
  {
    var t, u := Written(s, at, Swap(e, i, j)), Swap(Written(s, at, e), at[i], at[j]);
    forall q: nat | q < |s| ensures t[q] == u[q] {
      WrittenAt(s, at, e, i);
      WrittenAt(s, at, e, j);
    }
  }

  /** One comparator of the sorting network: the smaller of the elements i and j comes first. */
  method Comparator<A>(f: A -> real, e: seq<A>, i: nat, j: nat, ghost s: seq<A>, ghost at: seq<nat>, ghost lo: nat,
      ghost hi: nat)
    returns (e': seq<A>)
    requires SampleCells(at, lo, hi) && hi <= |s| && |e| == 5 && i < j < 5
    requires PermutesRange(s, Written(s, at, e), lo, hi)
    ensures |e'| == 5 && PermutesRange(s, Written(s, at, e'), lo, hi)
    ensures f(e'[i]) == if f(e[i]) > f(e[j]) then f(e[j]) else f(e[i])
    ensures f(e'[j]) == if f(e[i]) > f(e[j]) then f(e[i]) else f(e[j])
    ensures forall p :: 0 <= p < 5 && p != i && p != j ==> e'[p] == e[p]
  {
    hide PermutesRange, Written;
    if f(e[i]) > f(e[j]) {
      e' := Swap(e, i, j);
      ghost var t := Written(s, at, e);
      WrittenSwap(s, at, e, i, j);
      PermutesOnlyInside(s, t, lo, hi);
      SwapPermutesRange(t, at[i], at[j], lo, hi);
      PermutesTransitively(s, t, Swap(t, at[i], at[j]), lo, hi);
    } else {
      e' := e;
    }
  }

  /** The network of nine comparators that sorts the five sampled elements. */
  method SortFive<A>(f: A -> real, sample: seq<A>, ghost s: seq<A>, ghost at: seq<nat>, ghost lo: nat, ghost hi: nat)
    returns (e: seq<A>)
    requires SampleCells(at, lo, hi) && hi <= |s|
    requires sample == [s[at[0]], s[at[1]], s[at[2]], s[at[3]], s[at[4]]]
    ensures |e| == 5 && f(e[0]) <= f(e[1]) <= f(e[2]) <= f(e[3]) <= f(e[4])
    ensures PermutesRange(s, Written(s, at, e), lo, hi)
  {
    assert Written(s, at, sample) == s;
    PermutesReflexively(s, lo, hi);
    hide PermutesRange, Written;
    e := Comparator(f, sample, 0, 1, s, at, lo, hi);
    e := Comparator(f, e, 3, 4, s, at, lo, hi);
    e := Comparator(f, e, 0, 2, s, at, lo, hi);
    e := Comparator(f, e, 1, 2, s, at, lo, hi);
    e := Comparator(f, e, 0, 3, s, at, lo, hi);
    e := Comparator(f, e, 2, 3, s, at, lo, hi);
    e := Comparator(f, e, 1, 4, s, at, lo, hi);
    e := Comparator(f, e, 1, 2, s, at, lo, hi);
    e := Comparator(f, e, 3, 4, s, at, lo, hi);
  }

  /** The two holes at the ends of [lo, hi) filled with the pivots. */
  ghost function Filled<A>(s: seq<A>, lo: nat, hi: nat, pivot1: A, pivot2: A): (t: seq<A>)
    requires lo < hi - 1 && hi <= |s|
    ensures |t| == |s|
  {
    s[lo := pivot1][hi - 1 := pivot2]
  }

  lemma WrittenElsewhere<A>(s: seq<A>, at: seq<nat>, e: seq<A>, q: nat)
    requires SampleCells(at, 0, |s|) && |e| == 5 && q < |s| && q !in at
    ensures Written(s, at, e)[q] == s[q]
  {
  }

  /** The end cells are read while the sample is being written back, and are not part of it. */
  lemma WrittenInOrder<A>(s: seq<A>, at: seq<nat>, e: seq<A>, lo: nat, hi: nat)
    requires lo + 1 < hi <= |s| && SampleCells(at, lo + 1, hi - 1) && |e| == 5
    ensures s[at[0] := e[0]][at[1] := s[at[0] := e[0]][lo]][at[2] := e[2]][at[3] := s[hi - 1]][at[4] := e[4]]
         == Written(s, at, [e[0], s[lo], e[2], s[hi - 1], e[4]])
  {
  }

  lemma WrittenUpdate<A>(s: seq<A>, at: seq<nat>, e: seq<A>, i: nat, x: A)
    requires SampleCells(at, 0, |s|) && |e| == 5 && i < 5
    ensures Written(s, at, e[i := x]) == Written(s, at, e)[at[i] := x]
  {
  }

  /** Exchanging an inner cell with each end, written as the source's assignments. */
  lemma ExchangeWithEnds<A>(u: seq<A>, lo: nat, m: nat, g: nat, h: nat)
    requires lo < m < g < h < |u|
    ensures Swap(Swap(u, lo, m), h, g) == u[m := u[lo]][g := u[h]][lo := u[m]][h := u[g]]
  {
  }

  /** Filling a hole from cell m is exchanging the two once the hole holds x. */
  lemma FillAndSwap<A>(s: seq<A>, hole: nat, m: nat, x: A)
    requires hole < |s| && m < |s|
    ensures Swap(s[hole := x], hole, m) == s[hole := s[m]][m := x]
  {
  }

  /** Exchanging each filled hole with a cell of its own moves the pivots there. */
  lemma FillTwo<A>(s: seq<A>, lo: nat, m: nat, g: nat, hi: nat, x: A, y: A)
    requires lo <= m < g <= hi - 1 < |s|
    ensures Swap(Swap(Filled(s, lo, hi, x, y), lo, m), hi - 1, g) == s[lo := s[m]][m := x][hi - 1 := s[g]][g := y]
  {
    var t := s[lo := s[m]][m := x];
    FillAndSwap(s, lo, m, x);
    assert Swap(s[lo := x][hi - 1 := y], lo, m) == t[hi - 1 := y];
    FillAndSwap(t, hi - 1, g, y);
  }

  /** Writing the end cells in the places of the pivots and the pivots into the holes is exchanging them. */
  lemma PivotsExchanged<A>(s: seq<A>, at: seq<nat>, e: seq<A>, lo: nat, hi: nat)
    requires lo + 1 < hi && SampleCells(at, lo + 1, hi - 1) && hi <= |s| && |e| == 5
    ensures var u, t := Written(s, at, e), Written(s, at, [e[0], s[lo], e[2], s[hi - 1], e[4]]);
            Swap(Swap(u, lo, at[1]), hi - 1, at[3]) == Filled(t, lo, hi, e[1], e[3])
  {
    hide Swap, Written;
    var u := Written(s, at, e);
    WrittenAt(s, at, e, 1);
    WrittenAt(s, at, e, 3);
    WrittenElsewhere(s, at, e, lo);
    WrittenElsewhere(s, at, e, hi - 1);
    assert u[at[1] := u[lo]][at[3] := u[hi - 1]] == Written(s, at, [e[0], s[lo], e[2], s[hi - 1], e[4]]) by {
      WrittenUpdate(s, at, e, 1, s[lo]);
      WrittenUpdate(s, at, e[1 := s[lo]], 3, s[hi - 1]);
      assert e[1 := s[lo]][3 := s[hi - 1]] == [e[0], s[lo], e[2], s[hi - 1], e[4]];
    }
    ExchangeWithEnds(u, lo, at[1], at[3], hi - 1);
  }

  /** Once the sample is written back with the end cells in the places of the pivots, filling the
      ends with the pivots would complete a permutation of the slice. */
  lemma SamplePermutes<A>(s: seq<A>, at: seq<nat>, e: seq<A>, lo: nat, hi: nat)
    requires lo + 1 < hi && SampleCells(at, lo + 1, hi - 1) && hi <= |s| && |e| == 5
    requires PermutesRange(s, Written(s, at, e), lo, hi)
    ensures var t := Written(s, at, [e[0], s[lo], e[2], s[hi - 1], e[4]]);
            PermutesRange(s, Filled(t, lo, hi, e[1], e[3]), lo, hi)
  {
    hide PermutesRange, Swap, Written, Filled;
    var u := Written(s, at, e);
    var v := Swap(u, lo, at[1]);
    PivotsExchanged(s, at, e, lo, hi);
    SwapPermutesRange(u, lo, at[1], lo, hi);
    PermutesTransitively(s, u, v, lo, hi);
    SwapPermutesRange(v, hi - 1, at[3], lo, hi);
    PermutesTransitively(s, v, Swap(v, hi - 1, at[3]), lo, hi);
  }

  /** Permuting between the holes permutes the slice with the holes filled. */
  lemma FilledPermutes<A>(s: seq<A>, t: seq<A>, lo: nat, hi: nat, pivot1: A, pivot2: A)
    requires lo < hi - 1 < |s| && PermutesRange(s, t, lo + 1, hi - 1)
    ensures PermutesRange(Filled(s, lo, hi, pivot1, pivot2), Filled(t, lo, hi, pivot1, pivot2), lo, hi)
  {
    PermutesOnlyInside(s, t, lo + 1, hi - 1);
    var u, v := Filled(s, lo, hi, pivot1, pivot2), Filled(t, lo, hi, pivot1, pivot2);
    assert u[lo..hi] == [pivot1] + s[lo + 1..hi - 1] + [pivot2];
    assert v[lo..hi] == [pivot1] + t[lo + 1..hi - 1] + [pivot2];
    assert u[..lo] == v[..lo] && u[hi..] == v[hi..];
  }

  /** Moving the pivots to their final positions. */
  lemma PlacementPermutes<A>(s: seq<A>, lo: nat, hi: nat, m: nat, g: nat, pivot1: A, pivot2: A)
    requires lo <= m < g <= hi - 1 < |s|
    ensures PermutesRange(Filled(s, lo, hi, pivot1, pivot2), s[lo := s[m]][m := pivot1][hi - 1 := s[g]][g := pivot2],
      lo, hi)
  {
    hide PermutesRange, Swap, Filled;
    FillTwo(s, lo, m, g, hi, pivot1, pivot2);
    var u := Filled(s, lo, hi, pivot1, pivot2);
    var v := Swap(u, lo, m);
    SwapPermutesRange(u, lo, m, lo, hi);
    SwapPermutesRange(v, hi - 1, g, lo, hi);
    PermutesTransitively(u, v, Swap(v, hi - 1, g), lo, hi);
  }

  /** The state after the pivots are in place: at less - 1 and great + 1, with the three parts around them. */
  ghost predicate Partitioned<A>(f: A -> real, s: seq<A>, lo: nat, less: nat, great: int, hi: nat, p1: real, p2: real) {
    && lo + 1 <= less <= great + 1 <= hi - 1 < |s| && p1 <= p2
    && AtMost(f, s, lo, less - 1, p1)
    && f(s[less - 1]) == p1
    && Between(f, s, less, great + 1, p1, p2)
    && f(s[great + 1]) == p2
    && AtLeast(f, s, great + 2, hi, p2)
  }

  /** The five sampled positions: the midpoint, and two on either side a sixth apart. */
  function SampleAt(lo: nat, hi: nat): (at: seq<nat>)
    requires lo + SIZE_THRESHOLD <= hi <= MAX_LENGTH
    ensures SampleCells(at, lo + 1, hi - 1)
  {
    var sixth := (hi - lo) / 6;
    var i3 := Half(lo + hi - 1);
    [lo + sixth, i3 - sixth, i3, i3 + sixth, hi - 1 - sixth]
  }

  /** Writes the sorted sample back, with the end cells in the places of the two pivots. */
  method WriteSample<A>(a: array<A>, at: seq<nat>, e: seq<A>, lo: nat, hi: nat)
    requires lo + 1 < hi <= a.Length && SampleCells(at, lo + 1, hi - 1) && |e| == 5
    modifies a
    ensures a[..] == Written(old(a[..]), at, [e[0], old(a[lo]), e[2], old(a[hi - 1]), e[4]])
  {
    WrittenInOrder(a[..], at, e, lo, hi);
    hide Written;
    a[at[0]] := e[0];
    a[at[1]] := a[lo];
    a[at[2]] := e[2];
    a[at[3]] := a[hi - 1];
    a[at[4]] := e[4];
  }

  /** Samples five cells and saves the second and fourth as pivots, leaving holes at both ends. */
  method Sample<A>(f: A -> real, a: array<A>, lo: nat, hi: nat) returns (pivot1: A, pivot2: A, i3: nat)
    requires lo + SIZE_THRESHOLD <= hi <= a.Length <= MAX_LENGTH
    modifies a
    ensures PermutesRange(old(a[..]), Filled(a[..], lo, hi, pivot1, pivot2), lo, hi)
    ensures lo < i3 < hi - 1 && f(pivot1) <= f(a[i3]) <= f(pivot2)
  {
    hide PermutesRange, Written, Filled, SampleAt;
    var at := SampleAt(lo, hi);
    var e := SortFive(f, [a[at[0]], a[at[1]], a[at[2]], a[at[3]], a[at[4]]], a[..], at, lo, hi);
    pivot1, pivot2, i3 := e[1], e[3], at[2];
    SamplePermutes(a[..], at, e, lo, hi);
    WrittenAt(a[..], at, [e[0], a[lo], e[2], a[hi - 1], e[4]], 2);
    WriteSample(a, at, e, lo, hi);
    assert a[i3] == a[..][i3];
  }

  /** Moves the pivots to their final positions. */
  method PlacePivots<A>(a: array<A>, lo: nat, hi: nat, less: nat, great: int, pivot1: A, pivot2: A)
    requires lo + 1 <= less <= great + 1 <= hi - 1 < a.Length
    modifies a
    ensures PermutesRange(Filled(old(a[..]), lo, hi, pivot1, pivot2), a[..], lo, hi)
    ensures a[less - 1] == pivot1 && a[great + 1] == pivot2
    ensures less - 1 > lo ==> a[lo] == old(a[less - 1])
    ensures great + 1 < hi - 1 ==> a[hi - 1] == old(a[great + 1])
    ensures forall i :: lo < i < hi - 1 && i != less - 1 && i != great + 1 ==> a[..][i] == old(a[..])[i]
  {
    hide PermutesRange, Filled;
    PlacementPermutes(a[..], lo, hi, less - 1, great + 1, pivot1, pivot2);
    a[lo] := a[less - 1];
    a[less - 1] := pivot1;
    a[hi - 1] := a[great + 1];
    a[great + 1] := pivot2;
  }

  /** Runs the pass that suits the pivot values over the cells between the holes. */
  method Pass<A>(f: A -> real, a: array<A>, l: nat, r: nat, p1: real, p2: real, ghost i3: nat)
    returns (less: nat, great: int)
    requires l <= i3 < r <= a.Length && p1 <= f(a[i3]) <= p2
    modifies a
    ensures l <= less <= great + 1 <= r
    ensures PermutesRange(old(a[..]), a[..], l, r)
    ensures AtMost(f, a[..], l, less, p1) && Between(f, a[..], less, great + 1, p1, p2)
      && AtLeast(f, a[..], great + 1, r, p2)
  {
    hide PermutesRange;
    if p1 <= p2 && p1 >= p2 {
      less, great := EqualPivotPass(f, a, l, r, p1, i3);
    } else {
      less, great := ThreeWayPass(f, a, l, r, p1, p2);
    }
  }

  /** Placing the pivots turns the result of a pass into a partition. */
  lemma PlacedIsPartitioned<A>(f: A -> real, s: seq<A>, t: seq<A>, lo: nat, less: nat, great: int, hi: nat, p1: real,
      p2: real)
    requires lo + 1 <= less <= great + 1 <= hi - 1 < |s| == |t| && p1 <= p2
    requires AtMost(f, s, lo + 1, less, p1) && Between(f, s, less, great + 1, p1, p2)
      && AtLeast(f, s, great + 1, hi - 1, p2)
    requires f(t[less - 1]) == p1 && f(t[great + 1]) == p2
    requires less - 1 > lo ==> t[lo] == s[less - 1]
    requires great + 1 < hi - 1 ==> t[hi - 1] == s[great + 1]
    requires forall i :: lo < i < hi - 1 && i != less - 1 && i != great + 1 ==> t[i] == s[i]
    ensures Partitioned(f, t, lo, less, great, hi, p1, p2)
  {
  }

  /** Chooses the pivots, partitions around them and puts them in place. */
  method Partition<A>(f: A -> real, a: array<A>, lo: nat, hi: nat) returns (less: nat, great: int, p1: real, p2: real)
    requires lo + SIZE_THRESHOLD <= hi <= a.Length <= MAX_LENGTH
    modifies a
    ensures PermutesRange(old(a[..]), a[..], lo, hi)
    ensures Partitioned(f, a[..], lo, less, great, hi, p1, p2)
    ensures lo + 1 <= less <= great + 1 <= hi - 1 && p1 <= p2
  {
    hide PermutesRange, Filled, AtMost, AtLeast, Between, Partitioned;
    ghost var was := a[..];
    var pivot1, pivot2, i3 := Sample(f, a, lo, hi);
    ghost var holed := a[..];
    p1, p2 := f(pivot1), f(pivot2);
    less, great := Pass(f, a, lo + 1, hi - 1, p1, p2, i3);
    ghost var passed := a[..];
    PlacePivots(a, lo, hi, less, great, pivot1, pivot2);
    PlacedIsPartitioned(f, passed, a[..], lo, less, great, hi, p1, p2);
    FilledPermutes(holed, passed, lo, hi, pivot1, pivot2);
    PermutesTransitively(was, Filled(holed, lo, hi, pivot1, pivot2), Filled(passed, lo, hi, pivot1, pivot2), lo, hi);
    PermutesTransitively(was, Filled(passed, lo, hi, pivot1, pivot2), a[..], lo, hi);
  }

  /** Skips the pivot values at both ends of the middle part. The pivots just outside it stop the search. */
  method SkipPivots<A>(f: A -> real, a: array<A>, less0: nat, great0: int, p1: real, p2: real)
    returns (less: nat, great: int)
    requires 1 <= less0 <= great0 + 1 < a.Length && p1 < p2
    requires f(a[less0 - 1]) == p1 && f(a[great0 + 1]) == p2
    ensures less0 <= less <= great + 1 <= great0 + 1
    ensures Between(f, a[..], less0, less, p1, p1)
    ensures Between(f, a[..], great + 1, great0 + 1, p2, p2)
  {
    less, great := less0, great0;
    while f(a[less]) <= p1 && f(a[less]) >= p1
      invariant less0 <= less <= great0 + 1
      invariant forall i :: less0 <= i < less ==> f(a[i]) == p1
      decreases great0 + 1 - less
    {
      less := less + 1;
    }
    while f(a[great]) <= p2 && f(a[great]) >= p2
      invariant less - 1 <= great <= great0
      invariant forall i :: great < i <= great0 ==> f(a[i]) == p2
      decreases great + 1
    {
      great := great - 1;
    }
  }

  /** Takes the pivot values off the ends of the middle part, then out of its inside. */
  method Trim<A>(f: A -> real, a: array<A>, less0: nat, great0: int, p1: real, p2: real) returns (less: nat, great: int)
    requires 1 <= less0 <= great0 + 1 < a.Length && p1 < p2
    requires f(a[less0 - 1]) == p1 && f(a[great0 + 1]) == p2
    requires Between(f, a[..], less0, great0 + 1, p1, p2)
    modifies a
    ensures less0 <= less <= great + 1 <= great0 + 1
    ensures PermutesRange(old(a[..]), a[..], less0, great0 + 1)
    ensures Between(f, a[..], less0, less, p1, p1)
    ensures Between(f, a[..], great + 1, great0 + 1, p2, p2)
  {
    hide PermutesRange, Between;
    ghost var was := a[..];
    ghost var l, r;
    less, great := SkipPivots(f, a, less0, great0, p1, p2);
    l, r := less, great + 1;
    less, great := PivotRemovalPass(f, a, less, great + 1, p1, p2);
    TrimmedEnds(f, was, a[..], less0, l, less, great, r, great0 + 1, p1, p2);
  }

  /** What has been taken off both ends has the values of the pivots. */
  lemma TrimmedEnds<A>(f: A -> real, s: seq<A>, t: seq<A>, lo: nat, l: nat, less: nat, great: int, r: nat, hi: nat,
      p1: real, p2: real)
    requires lo <= l <= less <= great + 1 <= r <= hi <= |s|
    requires PermutesRange(s, t, l, r) && Between(f, s, lo, hi, p1, p2)
    requires Between(f, s, lo, l, p1, p1) && Between(f, s, r, hi, p2, p2)
    requires AtMost(f, t, l, less, p1) && forall i :: great < i < r ==> i < |t| && f(t[i]) == p2
    ensures PermutesRange(s, t, lo, hi)
    ensures Between(f, t, lo, less, p1, p1) && Between(f, t, great + 1, hi, p2, p2)
  {
    hide PermutesRange;
    PermutesWider(s, t, l, r, lo, hi);
    PermutesOnlyInside(s, t, l, r);
    PermutesKeeps(f, s, t, lo, hi, p1);
  }

  /** Two successive permutations of subranges permute the range around them. */
  lemma WidenTwo<A>(s: seq<A>, t: seq<A>, u: seq<A>, v: seq<A>, l: nat, r: nat, l': nat, r': nat, lo: nat, hi: nat)
    requires PermutesRange(s, t, lo, hi) && PermutesRange(t, u, l, r) && PermutesRange(u, v, l', r')
    requires lo <= l && r <= hi <= |s| && lo <= l' && r' <= hi
    ensures PermutesRange(s, v, lo, hi)
  {
    PermutesOnlyInside(s, t, lo, hi);
    PermutesOnlyInside(t, u, l, r);
    PermutesWider(t, u, l, r, lo, hi);
    PermutesTransitively(s, t, u, lo, hi);
    PermutesWider(u, v, l', r', lo, hi);
    PermutesTransitively(s, u, v, lo, hi);
  }

  /** Sorting the trimmed middle part completes the slice. */
  lemma MiddleSorted<A>(f: A -> real, s: seq<A>, t: seq<A>, lo: nat, less0: nat, less: nat, great: int, great0: int,
      hi: nat, p1: real, p2: real)
    requires Partitioned(f, s, lo, less0, great0, hi, p1, p2)
    requires less0 <= less <= great + 1 <= great0 + 1
    requires SortedRange(f, s, lo, less0 - 1) && SortedRange(f, s, great0 + 2, hi)
    requires Between(f, s, less0, less, p1, p1) && Between(f, s, great + 1, great0 + 1, p2, p2)
    requires PermutesRange(s, t, less, great + 1) && SortedRange(f, t, less, great + 1)
    ensures SortedRange(f, t, lo, hi)
  {
    hide PermutesRange, SortedRange, AtMost, AtLeast, Between;
    PermutesWider(s, t, less, great + 1, less0, great0 + 1);
    PartitionKept(f, s, t, less0, great0 + 1, lo, less0, great0, hi, p1, p2);
    OrderKept(f, s, t, less, great + 1, lo, less0 - 1);
    OrderKept(f, s, t, less, great + 1, great0 + 2, hi);
    OrderKept(f, s, t, less, great + 1, less0, less);
    OrderKept(f, s, t, less, great + 1, great + 1, great0 + 1);
    Assemble(f, t, lo, less0, less, great, great0, hi, p1, p2);
  }

  /** Permuting inside one of the three parts keeps the partition. */
  lemma PartitionKept<A>(f: A -> real, s: seq<A>, t: seq<A>, from: nat, to: nat, lo: nat, less: nat, great: int,
      hi: nat, p1: real, p2: real)
    requires Partitioned(f, s, lo, less, great, hi, p1, p2)
    requires (from, to) == (lo, less - 1) || (from, to) == (less, great + 1) || (from, to) == (great + 2, hi)
    requires PermutesRange(s, t, from, to)
    ensures Partitioned(f, t, lo, less, great, hi, p1, p2)
  {
    PermutesOnlyInside(s, t, from, to);
    hide PermutesRange;
    PermutesKeeps(f, s, t, from, to, p1);
    PermutesKeeps(f, s, t, from, to, p2);
  }

  /** Permuting a range leaves the order of a disjoint range alone. */
  lemma OrderKept<A>(f: A -> real, s: seq<A>, t: seq<A>, from: nat, to: nat, l: nat, r: nat)
    requires PermutesRange(s, t, from, to) && r <= |s| && (r <= from || to <= l)
    ensures SortedRange(f, s, l, r) ==> SortedRange(f, t, l, r)
    ensures forall p, q :: Between(f, s, l, r, p, q) ==> Between(f, t, l, r, p, q)
  {
    PermutesOnlyInside(s, t, from, to);
  }

  /** The left part and the values equal to pivot 1 after it. */
  lemma AssembleLeft<A>(f: A -> real, s: seq<A>, lo: nat, less0: nat, less: nat, p1: real)
    requires lo + 1 <= less0 <= less <= |s|
    requires SortedRange(f, s, lo, less0 - 1) && AtMost(f, s, lo, less0 - 1, p1)
    requires f(s[less0 - 1]) == p1 && Between(f, s, less0, less, p1, p1)
    ensures SortedRange(f, s, lo, less) && AtMost(f, s, lo, less, p1)
  {
  }

  /** The values equal to pivot 2 and the right part after them. */
  lemma AssembleRight<A>(f: A -> real, s: seq<A>, great: int, great0: int, hi: nat, p2: real)
    requires 0 <= great + 1 <= great0 + 1 < hi <= |s|
    requires Between(f, s, great + 1, great0 + 1, p2, p2) && f(s[great0 + 1]) == p2
    requires SortedRange(f, s, great0 + 2, hi) && AtLeast(f, s, great0 + 2, hi, p2)
    ensures SortedRange(f, s, great + 1, hi) && AtLeast(f, s, great + 1, hi, p2)
  {
  }

  /** The sorted parts, with the trimmed pivot values between them, make a sorted slice. */
  lemma Assemble<A>(f: A -> real, s: seq<A>, lo: nat, less0: nat, less: nat, great: int, great0: int, hi: nat,
      p1: real, p2: real)
    requires Partitioned(f, s, lo, less0, great0, hi, p1, p2)
    requires less0 <= less <= great + 1 <= great0 + 1
    requires SortedRange(f, s, lo, less0 - 1) && SortedRange(f, s, less, great + 1) && SortedRange(f, s, great0 + 2, hi)
    requires Between(f, s, less0, less, p1, p1) && Between(f, s, great + 1, great0 + 1, p2, p2)
    ensures SortedRange(f, s, lo, hi)
  {
    hide SortedRange;
    AssembleLeft(f, s, lo, less0, less, p1);
    AssembleRight(f, s, great, great0, hi, p2);
    assert Between(f, s, less, great + 1, p1, p2);
    JoinSorted(f, s, lo, less, great + 1, p1);
    JoinSorted(f, s, lo, great + 1, hi, p2);
  }

  /** When the pivots are equal the middle part needs no sorting. */
  lemma AssembleEqual<A>(f: A -> real, s: seq<A>, lo: nat, less: nat, great: int, hi: nat, p1: real, p2: real)
    requires Partitioned(f, s, lo, less, great, hi, p1, p2) && p1 == p2
    requires SortedRange(f, s, lo, less - 1) && SortedRange(f, s, great + 2, hi)
    ensures SortedRange(f, s, lo, hi)
  {
    Assemble(f, s, lo, less, great + 1, great, great, hi, p1, p2);
  }

  /** Removes pivot values from the middle part when it takes up more than the space between the
      outermost sampled cells. */
  method TrimLarge<A>(f: A -> real, a: array<A>, lo: nat, less0: nat, great0: int, hi: nat, p1: real, p2: real)
    returns (less: nat, great: int)
    requires lo + SIZE_THRESHOLD <= hi <= a.Length <= MAX_LENGTH && p1 < p2
    requires Partitioned(f, a[..], lo, less0, great0, hi, p1, p2)
    modifies a
    ensures less0 <= less <= great + 1 <= great0 + 1
    ensures PermutesRange(old(a[..]), a[..], less0, great0 + 1)
    ensures Between(f, a[..], less0, less, p1, p1)
    ensures Between(f, a[..], great + 1, great0 + 1, p2, p2)
  {
    var at := SampleAt(lo, hi);
    if less0 < at[0] && great0 > at[4] {
      less, great := Trim(f, a, less0, great0, p1, p2);
    } else {
      less, great := less0, great0;
    }
  }

  /** Sorts a[lo..hi] by f in place. */
  method Sort<A>(f: A -> real, a: array<A>, lo: nat, hi: nat)
    requires lo <= hi <= a.Length <= MAX_LENGTH
    modifies a
    ensures PermutesRange(old(a[..]), a[..], lo, hi)
    ensures SortedRange(f, a[..], lo, hi)
    decreases hi - lo, 2
  {
    if hi - lo < SIZE_THRESHOLD {
      InsertionSort(f, a, lo, hi);
    } else {
      QuicksortSlice(f, a, lo, hi);
    }
  }

  /** Partitions the slice and sorts its outer parts. */
  method SortOuterParts<A>(f: A -> real, a: array<A>, lo: nat, hi: nat)
    returns (less: nat, great: int, p1: real, p2: real)
    requires lo + SIZE_THRESHOLD <= hi <= a.Length <= MAX_LENGTH
    modifies a
    ensures PermutesRange(old(a[..]), a[..], lo, hi)
    ensures Partitioned(f, a[..], lo, less, great, hi, p1, p2)
    ensures lo + 1 <= less <= great + 1 <= hi - 1 && p1 <= p2
    ensures SortedRange(f, a[..], lo, less - 1) && SortedRange(f, a[..], great + 2, hi)
    decreases hi - lo, 0
  {
    hide PermutesRange, SortedRange, Partitioned;
    ghost var was := a[..];
    less, great, p1, p2 := Partition(f, a, lo, hi);
    ghost var s0 := a[..];
    Sort(f, a, lo, less - 1);
    ghost var s1 := a[..];
    PartitionKept(f, s0, s1, lo, less - 1, lo, less, great, hi, p1, p2);
    Sort(f, a, great + 2, hi);
    PartitionKept(f, s1, a[..], great + 2, hi, lo, less, great, hi, p1, p2);
    OrderKept(f, s1, a[..], great + 2, hi, lo, less - 1);
    WidenTwo(was, s0, s1, a[..], lo, less - 1, great + 2, hi, lo, hi);
  }

  /** Trimming the middle part and then sorting what is left of it completes the slice. */
  lemma MiddleDone<A>(f: A -> real, s: seq<A>, t: seq<A>, u: seq<A>, lo: nat, less0: nat, less: nat, great: int,
      great0: int, hi: nat, p1: real, p2: real)
    requires lo + 1 <= less0 <= less <= great + 1 <= great0 + 1 <= hi - 1 < |s|
    requires Partitioned(f, s, lo, less0, great0, hi, p1, p2)
    requires SortedRange(f, s, lo, less0 - 1) && SortedRange(f, s, great0 + 2, hi)
    requires PermutesRange(s, t, less0, great0 + 1) && PermutesRange(t, u, less, great + 1)
    requires Between(f, t, less0, less, p1, p1) && Between(f, t, great + 1, great0 + 1, p2, p2)
    requires SortedRange(f, u, less, great + 1)
    ensures PermutesRange(s, u, lo, hi) && SortedRange(f, u, lo, hi)
  {
    hide PermutesRange, SortedRange, Partitioned, Between;
    PermutesOnlyInside(s, t, less0, great0 + 1);
    PartitionKept(f, s, t, less0, great0 + 1, lo, less0, great0, hi, p1, p2);
    OrderKept(f, s, t, less0, great0 + 1, lo, less0 - 1);
    OrderKept(f, s, t, less0, great0 + 1, great0 + 2, hi);
    MiddleSorted(f, t, u, lo, less0, less, great, great0, hi, p1, p2);
    PermutesReflexively(s, lo, hi);
    WidenTwo(s, s, t, u, less0, great0 + 1, less, great + 1, lo, hi);
  }

  /** Trims the middle part when it is large and sorts it. */
  method SortMiddlePart<A>(f: A -> real, a: array<A>, lo: nat, less0: nat, great0: int, hi: nat, p1: real, p2: real)
    requires lo + SIZE_THRESHOLD <= hi <= a.Length <= MAX_LENGTH && p1 < p2
    requires lo + 1 <= less0 <= great0 + 1 <= hi - 1 && Partitioned(f, a[..], lo, less0, great0, hi, p1, p2)
    requires SortedRange(f, a[..], lo, less0 - 1) && SortedRange(f, a[..], great0 + 2, hi)
    modifies a
    ensures PermutesRange(old(a[..]), a[..], lo, hi)
    ensures SortedRange(f, a[..], lo, hi)
    decreases hi - lo, 0
  {
    hide PermutesRange, SortedRange, Partitioned, Between;
    ghost var s := a[..];
    var less, great := TrimLarge(f, a, lo, less0, great0, hi, p1, p2);
    ghost var t := a[..];
    Sort(f, a, less, great + 1);
    MiddleDone(f, s, t, a[..], lo, less0, less, great, great0, hi, p1, p2);
  }

  /** Sorts the outer parts and then, unless the pivots are equal, the middle part. */
  method QuicksortSlice<A>(f: A -> real, a: array<A>, lo: nat, hi: nat)
    requires lo + SIZE_THRESHOLD <= hi <= a.Length <= MAX_LENGTH
    modifies a
    ensures PermutesRange(old(a[..]), a[..], lo, hi)
    ensures SortedRange(f, a[..], lo, hi)
    decreases hi - lo, 1
  {
    hide PermutesRange, SortedRange, Partitioned;
    var less, great, p1, p2 := SortOuterParts(f, a, lo, hi);
    if p1 <= p2 && p1 >= p2 {
      AssembleEqual(f, a[..], lo, less, great, hi, p1, p2);
    } else {
      ghost var s2 := a[..];
      SortMiddlePart(f, a, lo, less, great, hi, p1, p2);
      PermutesTransitively(old(a[..]), s2, a[..], lo, hi);
    }
  }
}
