module Insertion {
  import opened Sorting

  /** s with the element at position i moved down to position j. */
  ghost function MovedDown<A>(s: seq<A>, i: nat, j: nat): seq<A>
    requires j <= i < |s|
  {
    s[..j] + [s[i]] + s[j..i] + s[i + 1..]
  }

  lemma MovedDownPermutes<A>(s: seq<A>, i: nat, j: nat, lo: nat, hi: nat)
    requires lo <= j <= i < hi <= |s|
    ensures PermutesRange(s, MovedDown(s, i, j), lo, hi)
  {
    var t := MovedDown(s, i, j);
    assert t[lo..hi] == s[lo..j] + [s[i]] + s[j..i] + s[i + 1..hi];
    assert s[lo..hi] == s[lo..j] + s[j..i] + [s[i]] + s[i + 1..hi];
    assert t[..lo] == s[..lo];
    assert t[hi..] == s[hi..];
  }

  /** Moving the next element down past exactly the larger ones extends the sorted part by it. */
  lemma MovedDownSorted<A>(f: A -> real, s: seq<A>, i: nat, j: nat, lo: nat)
    requires lo <= j <= i < |s|
    requires SortedRange(f, s, lo, i)
    requires forall p :: j <= p < i ==> f(s[p]) > f(s[i])
    requires j > lo ==> f(s[j - 1]) <= f(s[i])
    ensures SortedRange(f, MovedDown(s, i, j), lo, i + 1)
  {
  }

  /** One round of the outer loop: a[i] goes down to the place that keeps a[lo..i + 1] sorted. */
  method Insert<A>(f: A -> real, a: array<A>, lo: nat, i: nat) returns (ghost place: nat)
    requires lo <= i < a.Length
    modifies a
    ensures lo <= place <= i
    ensures a[..] == MovedDown(old(a[..]), i, place)
    ensures forall p :: place <= p < i ==> f(old(a[p])) > f(old(a[i]))
    ensures place > lo ==> f(old(a[place - 1])) <= f(old(a[i]))
  {
    var j, t := i, a[i];
    var x := f(t);
    while j > lo && f(a[j - 1]) > x
      invariant lo <= j <= i
      invariant forall p :: 0 <= p < j || i < p < a.Length ==> a[p] == old(a[p])
      invariant forall p :: j < p <= i ==> a[p] == old(a[p - 1])
      invariant forall p :: j <= p < i ==> f(old(a[p])) > x
    {
      a[j] := a[j - 1];
      j := j - 1;
    }
    a[j] := t;
    place := j;
  }

  /** Sorts a[lo..hi] by f in place, moving each element down past the larger ones before it. */
  method InsertionSort<A>(f: A -> real, a: array<A>, lo: nat, hi: nat)
    requires lo <= hi <= a.Length
    modifies a
    ensures PermutesRange(old(a[..]), a[..], lo, hi)
    ensures SortedRange(f, a[..], lo, hi)
  {
    var i := lo + 1;
    while i < hi
      invariant lo + 1 <= i
      invariant PermutesRange(old(a[..]), a[..], lo, hi)
      invariant if i <= hi then SortedRange(f, a[..], lo, i) else hi == lo
    {
      ghost var before := a[..];
      ghost var place := Insert(f, a, lo, i);
      MovedDownPermutes(before, i, place, lo, hi);
      MovedDownSorted(f, before, i, place, lo);
      PermutesTransitively(old(a[..]), before, a[..], lo, hi);
      i := i + 1;
    }
  }
}
