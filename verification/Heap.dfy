/** A binary heap with its least element first, the descending heap sort and top-k selection. */
module Heap {
  import opened Int32
  import opened Sorting

  /** Positions in a heap count from 1: node i of the heap at lo is the cell lo + i - 1, and its
      children are nodes 2 i and 2 i + 1. This says that the children of every node from k on,
      except node hole, are not below it. */
  ghost predicate HeapExcept<A>(f: A -> real, s: seq<A>, lo: nat, n: nat, k: nat, hole: nat) {
    && lo + n <= |s|
    && forall j :: 2 <= j <= n && k <= j / 2 && j / 2 != hole ==> f(s[lo + j / 2 - 1]) <= f(s[lo + j - 1])
  }

  ghost predicate HeapFrom<A>(f: A -> real, s: seq<A>, lo: nat, n: nat, k: nat) {
    HeapExcept(f, s, lo, n, k, 0)
  }

  ghost predicate IsHeap<A>(f: A -> real, s: seq<A>, lo: nat, n: nat) {
    HeapFrom(f, s, lo, n, 1)
  }

  /** Node i's parent is not above node i's children. */
  ghost predicate Bridged<A>(f: A -> real, s: seq<A>, lo: nat, n: nat, k: nat, i: nat) {
    && lo + n <= |s| && 1 <= k
    && (k <= i / 2 && 2 * i <= n ==> f(s[lo + i / 2 - 1]) <= f(s[lo + 2 * i - 1]))
    && (k <= i / 2 && 2 * i + 1 <= n ==> f(s[lo + i / 2 - 1]) <= f(s[lo + 2 * i]))
  }

  /** Exchanging the hole with its smaller child, which is smaller than the hole's element, moves the hole down. */
  lemma HoleMovesDown<A>(f: A -> real, s: seq<A>, lo: nat, n: nat, k: nat, i: nat, child: nat)
    requires 1 <= k <= i && child <= n && child / 2 == i
    requires HeapExcept(f, s, lo, n, k, i) && Bridged(f, s, lo, n, k, i)
    requires f(s[lo + child - 1]) <= f(s[lo + i - 1])
    requires 2 * i <= n ==> f(s[lo + child - 1]) <= f(s[lo + 2 * i - 1])
    requires 2 * i + 1 <= n ==> f(s[lo + child - 1]) <= f(s[lo + 2 * i])
    ensures var t := Swap(s, lo + i - 1, lo + child - 1);
            HeapExcept(f, t, lo, n, k, child) && Bridged(f, t, lo, n, k, child)
  {
    var t := Swap(s, lo + i - 1, lo + child - 1);
    forall j | 2 <= j <= n && k <= j / 2 && j / 2 != child
      ensures f(t[lo + j / 2 - 1]) <= f(t[lo + j - 1])
    {
      assert child == 2 * i || child == 2 * i + 1;
      if j / 2 == i {
        assert j == 2 * i || j == 2 * i + 1;
      }
    }
    assert child / 2 == i;
    if 2 * child <= n { assert (2 * child) / 2 == child; }
    if 2 * child + 1 <= n { assert (2 * child + 1) / 2 == child; }
  }

  /** A hole at the starting node has no bridged parent to respect. */
  lemma HoleAtStart<A>(f: A -> real, s: seq<A>, lo: nat, n: nat, i: nat)
    requires 1 <= i && HeapFrom(f, s, lo, n, i + 1)
    ensures HeapExcept(f, s, lo, n, i, i) && Bridged(f, s, lo, n, i, i)
  {
  }

  /** The hole may be filled where it is as soon as its element is not above its children. */
  lemma HoleFilled<A>(f: A -> real, s: seq<A>, lo: nat, n: nat, k: nat, i: nat)
    requires 1 <= k <= i && HeapExcept(f, s, lo, n, k, i)
    requires 2 * i <= n ==> f(s[lo + i - 1]) <= f(s[lo + 2 * i - 1])
    requires 2 * i + 1 <= n ==> f(s[lo + i - 1]) <= f(s[lo + 2 * i])
    ensures HeapFrom(f, s, lo, n, k)
  {
    forall j | 2 <= j <= n && j / 2 == i ensures j == 2 * i || j == 2 * i + 1 {
    }
  }

  /** The copy into the hole is an exchange, as seen with the hole filled. */
  lemma MovedIntoHole<A>(s: seq<A>, v: seq<A>, t: seq<A>, hole: nat, child: nat, d: A)
    requires hole < |s| && child < |s| && hole != child
    requires v == s[hole := d] && t == s[hole := s[child]][child := d]
    ensures t == Swap(v, hole, child)
  {
  }

  /** Copying the smaller child up into the hole, with the sifted element d to be put in the child's place. */
  lemma CopiedUp<A>(f: A -> real, was: seq<A>, s: seq<A>, v: seq<A>, t: seq<A>, d: A, lo: nat, n: nat, k: nat, i: nat,
      child: nat)
    requires 1 <= k <= i <= n && child <= n && child / 2 == i && lo + n <= |s|
    requires v == s[lo + i - 1 := d] && t == s[lo + i - 1 := s[lo + child - 1]][lo + child - 1 := d]
    requires PermutesRange(was, v, lo, lo + n)
    requires HeapExcept(f, v, lo, n, k, i) && Bridged(f, v, lo, n, k, i)
    requires f(v[lo + child - 1]) <= f(d)
    requires 2 * i <= n ==> f(v[lo + child - 1]) <= f(v[lo + 2 * i - 1])
    requires 2 * i + 1 <= n ==> f(v[lo + child - 1]) <= f(v[lo + 2 * i])
    ensures PermutesRange(was, t, lo, lo + n)
    ensures HeapExcept(f, t, lo, n, k, child) && Bridged(f, t, lo, n, k, child)
  {
    hide PermutesRange, HeapExcept, Bridged, Swap;
    CopiedUpPermutes(was, s, v, t, d, lo, lo + n, lo + i - 1, lo + child - 1);
    MovedIntoHole(s, v, t, lo + i - 1, lo + child - 1, d);
    HoleMovesDown(f, v, lo, n, k, i, child);
  }

  lemma CopiedUpPermutes<A>(was: seq<A>, s: seq<A>, v: seq<A>, t: seq<A>, d: A, lo: nat, hi: nat, hole: nat, child: nat)
    requires lo <= hole < hi <= |s| && lo <= child < hi && hole != child
    requires v == s[hole := d] && t == s[hole := s[child]][child := d]
    requires PermutesRange(was, v, lo, hi)
    ensures PermutesRange(was, t, lo, hi)
  {
    hide PermutesRange;
    MovedIntoHole(s, v, t, hole, child, d);
    SwapPermutesRange(v, hole, child, lo, hi);
    PermutesTransitively(was, v, t, lo, hi);
  }

  /** The child of node i with the smaller key, the left one on a tie. */
  method SmallerChild<A>(f: A -> real, a: array<A>, lo: nat, n: nat, i: nat) returns (child: nat)
    requires 1 <= i && 2 * i <= n < MAX_LENGTH && lo + n <= a.Length
    ensures child == 2 * i || (child == 2 * i + 1 && child <= n)
    ensures f(a[lo + child - 1]) <= f(a[lo + 2 * i - 1])
    ensures 2 * i + 1 <= n ==> f(a[lo + child - 1]) <= f(a[lo + 2 * i])
  {
    DoubleExact(i);
    child := Double(i);
    if child < n && f(a[lo + child - 1]) > f(a[lo + child]) { child := child + 1; }
  }

  /** Sifts node i down the heap of n nodes at lo. */
  method Sift<A>(f: A -> real, a: array<A>, i: nat, n: nat, lo: nat)
    requires 1 <= i <= n < MAX_LENGTH && lo + n <= a.Length
    requires HeapFrom(f, a[..], lo, n, i + 1)
    modifies a
    ensures HeapFrom(f, a[..], lo, n, i)
    ensures PermutesRange(old(a[..]), a[..], lo, lo + n)
  {
    hide PermutesRange, HeapExcept, HeapFrom, Bridged, Double;
    HoleAtStart(f, a[..], lo, n, i);
    var d := a[lo + i - 1];
    var x := f(d);
    var hole := i;
    ghost var was := a[..];
    ghost var v := was;
    PermutesReflexively(was, lo, lo + n);
    DoubleExact(hole);
    while Double(hole) <= n
      invariant i <= hole <= n && Double(hole) == 2 * hole
      invariant v == a[..][lo + hole - 1 := d]
      invariant PermutesRange(was, v, lo, lo + n)
      invariant HeapExcept(f, v, lo, n, i, hole) && Bridged(f, v, lo, n, i, hole)
      decreases n - hole
    {
      var child := SmallerChild(f, a, lo, n, hole);
      if x <= f(a[lo + child - 1]) {
        break;
      }
      ghost var s, u := a[..], v;
      a[lo + hole - 1] := a[lo + child - 1];
      v := a[..][lo + child - 1 := d];
      CopiedUp(f, was, s, u, v, d, lo, n, i, hole, child);
      hole := child;
      DoubleExact(hole);
    }
    HoleFilled(f, v, lo, n, i, hole);
    a[lo + hole - 1] := d;
    assert a[..] == v;
  }

  /** Builds a heap of a[lo..hi]. */
  method Heapify<A>(f: A -> real, a: array<A>, lo: nat, hi: nat)
    requires lo <= hi <= a.Length && hi - lo < MAX_LENGTH
    modifies a
    ensures IsHeap(f, a[..], lo, hi - lo)
    ensures PermutesRange(old(a[..]), a[..], lo, hi)
  {
    var n := hi - lo;
    var i := n / 2 + 1;
    PermutesReflexively(a[..], lo, hi);
    LeavesAreHeaps(f, a[..], lo, n);
    hide PermutesRange, HeapFrom;
    while i > 1
      invariant 1 <= i <= n / 2 + 1
      invariant HeapFrom(f, a[..], lo, n, i)
      invariant PermutesRange(old(a[..]), a[..], lo, hi)
    {
      ghost var before := a[..];
      i := i - 1;
      Sift(f, a, i, n, lo);
      PermutesTransitively(old(a[..]), before, a[..], lo, hi);
    }
  }

  lemma LeavesAreHeaps<A>(f: A -> real, s: seq<A>, lo: nat, n: nat)
    requires lo + n <= |s|
    ensures HeapFrom(f, s, lo, n, n / 2 + 1)
  {
  }

  /** The root of a heap is a least element of it. */
  lemma {:induction false} RootIsLeast<A>(f: A -> real, s: seq<A>, lo: nat, n: nat, i: nat)
    requires IsHeap(f, s, lo, n) && 1 <= i <= n
    ensures f(s[lo]) <= f(s[lo + i - 1])
  {
    if i > 1 {
      RootIsLeast(f, s, lo, n, i / 2);
    }
  }

  ghost predicate Descending<A>(f: A -> real, s: seq<A>, lo: nat, hi: nat) {
    hi <= |s| && forall i, j :: lo <= i < j < hi ==> f(s[i]) >= f(s[j])
  }

  /** The sorting state: a heap of n elements, then the rest in descending order, none above the heap. */
  ghost predicate HeapThenSorted<A>(f: A -> real, s: seq<A>, lo: nat, n: nat, hi: nat) {
    && lo + n <= hi <= |s|
    && IsHeap(f, s, lo, n)
    && Descending(f, s, lo + n, hi)
    && (forall i, j :: lo <= i < lo + n <= j < hi ==> f(s[i]) >= f(s[j]))
  }

  /** Moving the root behind the heap leaves a heap with an unsifted root and a longer sorted rest. */
  lemma RootMovedBack<A>(f: A -> real, s: seq<A>, lo: nat, n: nat, hi: nat)
    requires HeapThenSorted(f, s, lo, n + 1, hi)
    ensures var t := Swap(s, lo, lo + n);
            HeapFrom(f, t, lo, n, 2) && Descending(f, t, lo + n, hi)
            && forall i, j :: lo <= i < lo + n <= j < hi ==> f(t[i]) >= f(t[j])
  {
    forall p | lo <= p < lo + n + 1 ensures f(s[lo]) <= f(s[p]) {
      RootIsLeast(f, s, lo, n + 1, p - lo + 1);
    }
  }

  /** Permuting the heap keeps it above the sorted rest. */
  lemma StillAboveRest<A>(f: A -> real, s: seq<A>, t: seq<A>, lo: nat, n: nat, hi: nat)
    requires PermutesRange(s, t, lo, lo + n) && lo + n <= hi <= |s|
    requires IsHeap(f, t, lo, n) && Descending(f, s, lo + n, hi)
    requires forall i, j :: lo <= i < lo + n <= j < hi ==> f(s[i]) >= f(s[j])
    ensures HeapThenSorted(f, t, lo, n, hi)
  {
    PermutesOnlyInside(s, t, lo, lo + n);
    forall i, j | lo <= i < lo + n <= j < hi ensures f(t[i]) >= f(t[j]) {
      assert AtLeast(f, s, lo, lo + n, f(s[j]));
      PermutesKeeps(f, s, t, lo, lo + n, f(s[j]));
    }
  }

  /** Sorts the heap a[lo..hi] in descending order. */
  method HeapSort<A>(f: A -> real, a: array<A>, lo: nat, hi: nat)
    requires lo <= hi <= a.Length && hi - lo < MAX_LENGTH
    requires IsHeap(f, a[..], lo, hi - lo)
    modifies a
    ensures PermutesRange(old(a[..]), a[..], lo, hi)
    ensures Descending(f, a[..], lo, hi)
  {
    var n: nat := hi - lo;
    PermutesReflexively(a[..], lo, hi);
    while n > 1
      invariant n <= hi - lo
      invariant PermutesRange(old(a[..]), a[..], lo, hi)
      invariant HeapThenSorted(f, a[..], lo, n, hi)
    {
      n := n - 1;
      SwapRootAndSift(f, a, lo, n, hi, old(a[..]));
    }
    LastOfHeap(f, a[..], lo, n, hi);
  }

  lemma LastOfHeap<A>(f: A -> real, s: seq<A>, lo: nat, n: nat, hi: nat)
    requires HeapThenSorted(f, s, lo, n, hi) && n <= 1
    ensures Descending(f, s, lo, hi)
  {
  }

  method MoveRootBack<A>(a: array<A>, lo: nat, n: nat)
    requires lo + n < a.Length
    modifies a
    ensures a[..] == Swap(old(a[..]), lo, lo + n)
  {
    var t := a[lo];
    a[lo] := a[lo + n];
    a[lo + n] := t;
  }

  /** One step of the heap sort: the least element of the heap goes behind the n others. */
  method SwapRootAndSift<A>(f: A -> real, a: array<A>, lo: nat, n: nat, hi: nat, ghost was: seq<A>)
    requires 1 <= n < MAX_LENGTH && lo + n < hi <= a.Length
    requires HeapThenSorted(f, a[..], lo, n + 1, hi)
    requires PermutesRange(was, a[..], lo, hi)
    modifies a
    ensures HeapThenSorted(f, a[..], lo, n, hi)
    ensures PermutesRange(was, a[..], lo, hi)
  {
    hide PermutesRange, HeapThenSorted, HeapFrom, Descending, Swap;
    ghost var s := a[..];
    RootMovedBack(f, s, lo, n, hi);
    MoveRootBack(a, lo, n);
    ghost var u := a[..];
    SwapPermutesRange(s, lo, lo + n, lo, hi);
    PermutesTransitively(was, s, u, lo, hi);
    Sift(f, a, 1, n, lo);
    StillAboveRest(f, u, a[..], lo, n, hi);
    PermutesWider(u, a[..], lo, lo + n, lo, hi);
    PermutesTransitively(was, u, a[..], lo, hi);
  }

  /** chosen is as many as possible up to k of the elements of whole, and none left out is above one chosen. */
  ghost predicate IsTop<A>(f: A -> real, chosen: seq<A>, whole: seq<A>, k: nat) {
    && |chosen| == (if k < |whole| then k else |whole|)
    && multiset(chosen) <= multiset(whole)
    && forall x, y :: x in multiset(whole) - multiset(chosen) && y in chosen ==> f(x) <= f(y)
  }

  /** Of the elements seen so far the queue holds as many as it can, and the rest are not above its least. */
  ghost predicate Selecting<A>(f: A -> real, queue: seq<A>, rest: seq<A>, seen: seq<A>) {
    && |queue| > 0
    && IsHeap(f, queue, 0, |queue|)
    && multiset(queue) + multiset(rest) == multiset(seen)
    && forall x :: x in rest ==> f(x) <= f(queue[0])
  }

  lemma NoneLeftOut<A>(f: A -> real, queue: seq<A>, seen: seq<A>)
    requires |queue| > 0 && IsHeap(f, queue, 0, |queue|) && multiset(queue) == multiset(seen)
    ensures Selecting(f, queue, [], seen)
  {
  }

  lemma NoneToSelect<A>(f: A -> real, queue: seq<A>, whole: seq<A>, k: nat)
    requires |queue| == |whole| == 0
    ensures IsTop(f, queue, whole, k)
  {
  }

  lemma KeptOut<A>(f: A -> real, queue: seq<A>, rest: seq<A>, seen: seq<A>, d: A)
    requires Selecting(f, queue, rest, seen) && f(d) <= f(queue[0])
    ensures Selecting(f, queue, rest + [d], seen + [d])
  {
  }

  lemma SelectedIsTop<A>(f: A -> real, queue: seq<A>, rest: seq<A>, seen: seq<A>, k: nat)
    requires Selecting(f, queue, rest, seen)
    requires |queue| == if k < |seen| then k else |seen|
    ensures IsTop(f, queue, seen, k) && IsHeap(f, queue, 0, |queue|)
  {
    assert multiset(seen) - multiset(queue) == multiset(rest);
    forall i | 0 <= i < |queue| ensures f(queue[0]) <= f(queue[i]) {
      RootIsLeast(f, queue, 0, |queue|, i + 1);
    }
  }

  /** An element above the queue's least replaces it; the least one joins the rest. */
  lemma LeastReplaced<A>(f: A -> real, queue: seq<A>, queue': seq<A>, rest: seq<A>, seen: seq<A>, d: A)
    requires Selecting(f, queue, rest, seen) && f(d) > f(queue[0])
    requires IsHeap(f, queue', 0, |queue'|) && multiset(queue') == multiset(queue[0 := d]) && |queue'| == |queue|
    ensures Selecting(f, queue', rest + [queue[0]], seen + [d])
  {
    assert queue'[0] in multiset(queue');
    assert queue'[0] in queue[0 := d];
    var i :| 0 <= i < |queue| && queue[0 := d][i] == queue'[0];
    RootIsLeast(f, queue, 0, |queue|, i + 1);
    assert multiset(queue[0 := d]) == multiset(queue) - multiset{queue[0]} + multiset{d};
  }

  /** Puts d in the place of the least element of the queue and rebuilds the heap. */
  method ReplaceLeast<A>(f: A -> real, queue: array<A>, d: A, ghost rest: seq<A>, ghost seen: seq<A>)
    requires Selecting(f, queue[..], rest, seen) && f(d) > f(queue[0]) && queue.Length < MAX_LENGTH
    modifies queue
    ensures Selecting(f, queue[..], rest + [old(queue[0])], seen + [d])
  {
    ghost var before := queue[..];
    queue[0] := d;
    ghost var replaced := queue[..];
    Heapify(f, queue, 0, queue.Length);
    assert replaced[0..queue.Length] == replaced && queue[..][0..queue.Length] == queue[..];
    LeastReplaced(f, before, queue[..], rest, seen, d);
  }

  /** A queue of the first elements, as a heap. */
  method FirstQueue<A>(f: A -> real, a: seq<A>, lo: nat, k: nat) returns (queue: array<A>)
    requires lo + k <= |a| && k < MAX_LENGTH
    ensures fresh(queue) && queue.Length == k
    ensures IsHeap(f, queue[..], 0, k)
    ensures multiset(queue[..]) == multiset(a[lo..lo + k])
  {
    queue := new A[k](i requires 0 <= i < k => a[lo + i]);
    ghost var before := queue[..];
    assert before == a[lo..lo + k];
    Heapify(f, queue, 0, k);
    assert before[0..k] == before && queue[..][0..k] == queue[..];
  }

  /** Selects the k largest elements of a[lo..hi], as a heap. a itself is only read. */
  method Heapselect<A>(f: A -> real, a: seq<A>, lo0: nat, hi: nat, k0: nat) returns (queue: array<A>)
    requires lo0 <= hi <= |a|
    requires (k0 >= 1 || lo0 == hi) && (k0 < MAX_LENGTH || hi - lo0 < MAX_LENGTH)
    ensures fresh(queue)
    ensures IsTop(f, queue[..], a[lo0..hi], k0)
    ensures IsHeap(f, queue[..], 0, queue.Length)
  {
    hide IsHeap, Selecting, IsTop;
    var k := if hi - lo0 < k0 then hi - lo0 else k0;
    queue := FirstQueue(f, a, lo0, k);
    var lo := lo0 + k;
    if lo0 < hi {
      ghost var rest: seq<A> := [];
      NoneLeftOut(f, queue[..], a[lo0..lo]);
      var min := f(queue[0]);
      while lo < hi
        invariant min == f(queue[0])
        invariant lo0 + k <= lo <= hi && queue.Length == k
        invariant Selecting(f, queue[..], rest, a[lo0..lo])
      {
        var d := a[lo];
        assert a[lo0..lo + 1] == a[lo0..lo] + [d];
        if f(d) > min {
          ghost var least := queue[0];
          ReplaceLeast(f, queue, d, rest, a[lo0..lo]);
          min := f(queue[0]);
          rest := rest + [least];
        } else {
          KeptOut(f, queue[..], rest, a[lo0..lo], d);
          rest := rest + [d];
        }
        lo := lo + 1;
      }
      SelectedIsTop(f, queue[..], rest, a[lo0..hi], k0);
    } else {
      NoneToSelect(f, queue[..], a[lo0..hi], k0);
    }
  }

  lemma TopSize<A>(f: A -> real, chosen: seq<A>, whole: seq<A>, k: nat)
    requires IsTop(f, chosen, whole, k)
    ensures |chosen| <= k && |chosen| <= |whole|
  {
  }

  lemma TopInAnyOrder<A>(f: A -> real, s: seq<A>, t: seq<A>, whole: seq<A>, k: nat)
    requires IsTop(f, s, whole, k) && multiset(s) == multiset(t)
    ensures IsTop(f, t, whole, k)
  {
    assert |multiset(s)| == |multiset(t)|;
    forall y | y in t ensures y in s {
      assert y in multiset(t);
    }
  }

  /** Selection followed by the heap sort: the k largest elements, largest first. */
  method SelectAndSort<A>(f: A -> real, a: seq<A>, k: nat) returns (top: seq<A>)
    requires (k >= 1 || a == []) && (k < MAX_LENGTH || |a| < MAX_LENGTH)
    ensures IsTop(f, top, a, k) && Descending(f, top, 0, |top|)
  {
    hide IsTop, IsHeap;
    var queue := Heapselect(f, a, 0, |a|, k);
    assert a[0..|a|] == a;
    ghost var s := queue[..];
    TopSize(f, s, a, k);
    HeapSort(f, queue, 0, queue.Length);
    top := queue[..];
    assert s[0..queue.Length] == s && top[0..queue.Length] == top;
    TopInAnyOrder(f, s, top, a, k);
  }
}
