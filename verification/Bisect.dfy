/** Binary search for an insertion point in a sorted slice. */
module Bisect {
  import opened Int32
  import opened Sorting

  /** The first position of s whose key is not below x, searching up to the end of s. */
  ghost predicate IsLeftPoint<A>(f: A -> real, s: seq<A>, x: real, lo: nat, hi: nat, p: nat) {
    && lo <= p <= hi <= |s|
    && (forall i :: lo <= i < p ==> f(s[i]) < x)
    && (forall i :: p <= i < hi ==> x <= f(s[i]))
  }

  /** The first position of s whose key is above x. */
  ghost predicate IsRightPoint<A>(f: A -> real, s: seq<A>, x: real, lo: nat, hi: nat, p: nat) {
    && lo <= p <= hi <= |s|
    && (forall i :: lo <= i < p ==> f(s[i]) <= x)
    && (forall i :: p <= i < hi ==> x < f(s[i]))
  }

  method BisectLeft<A>(f: A -> real, a: seq<A>, x: real, lo: nat, hi: nat) returns (p: nat)
    requires lo <= hi <= |a| <= MAX_LENGTH
    requires SortedRange(f, a, lo, hi)
    ensures IsLeftPoint(f, a, x, lo, hi, p)
  {
    var l, h := lo, hi;
    while l < h
      invariant lo <= l <= h <= hi
      invariant forall i :: lo <= i < l ==> f(a[i]) < x
      invariant forall i :: h <= i < hi ==> x <= f(a[i])
    {
      var mid := Half(l + h);
      if f(a[mid]) < x { l := mid + 1; } else { h := mid; }
    }
    p := l;
  }

  method BisectRight<A>(f: A -> real, a: seq<A>, x: real, lo: nat, hi: nat) returns (p: nat)
    requires lo <= hi <= |a| <= MAX_LENGTH
    requires SortedRange(f, a, lo, hi)
    ensures IsRightPoint(f, a, x, lo, hi, p)
  {
    var l, h := lo, hi;
    while l < h
      invariant lo <= l <= h <= hi
      invariant forall i :: lo <= i < l ==> f(a[i]) <= x
      invariant forall i :: h <= i < hi ==> x < f(a[i])
    {
      var mid := Half(l + h);
      if x < f(a[mid]) { h := mid; } else { l := mid + 1; }
    }
    p := l;
  }
}
