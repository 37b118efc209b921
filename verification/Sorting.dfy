/** What it means to sort by an accessor, and the facts about permutations the sorts share. */
module Sorting {

  /** The keys of s[lo..hi] never decrease. */
  ghost predicate SortedRange<A>(f: A -> real, s: seq<A>, lo: nat, hi: nat) {
    hi <= |s| && forall i, j :: lo <= i < j < hi ==> f(s[i]) <= f(s[j])
  }

  ghost predicate AtMost<A>(f: A -> real, s: seq<A>, lo: nat, hi: nat, p: real) {
    hi <= |s| && forall i :: lo <= i < hi ==> f(s[i]) <= p
  }

  ghost predicate AtLeast<A>(f: A -> real, s: seq<A>, lo: nat, hi: nat, p: real) {
    hi <= |s| && forall i :: lo <= i < hi ==> p <= f(s[i])
  }

  ghost predicate Between<A>(f: A -> real, s: seq<A>, lo: nat, hi: nat, p: real, q: real) {
    AtLeast(f, s, lo, hi, p) && AtMost(f, s, lo, hi, q)
  }

  /** s with the elements at positions i and j exchanged. */
  function Swap<A>(s: seq<A>, i: nat, j: nat): (t: seq<A>)
    requires i < |s| && j < |s|
    ensures |t| == |s|
  {
    s[i := s[j]][j := s[i]]
  }

  lemma SwapIsPermutation<A>(s: seq<A>, i: nat, j: nat)
    requires i < |s| && j < |s|
    ensures multiset(Swap(s, i, j)) == multiset(s)
  {
  }

  /** The same array outside [lo, hi), the same elements in some order inside it. */
  ghost predicate PermutesRange<A>(before: seq<A>, after: seq<A>, lo: nat, hi: nat) {
    && |before| == |after| && lo <= hi <= |before|
    && after[..lo] == before[..lo]
    && after[hi..] == before[hi..]
    && multiset(after[lo..hi]) == multiset(before[lo..hi])
  }

  lemma PermutesReflexively<A>(s: seq<A>, lo: nat, hi: nat)
    requires lo <= hi <= |s|
    ensures PermutesRange(s, s, lo, hi)
  {
  }

  lemma PermutesTransitively<A>(s: seq<A>, t: seq<A>, u: seq<A>, lo: nat, hi: nat)
    requires PermutesRange(s, t, lo, hi) && PermutesRange(t, u, lo, hi)
    ensures PermutesRange(s, u, lo, hi)
  {
  }

  lemma PermutesOnlyInside<A>(s: seq<A>, t: seq<A>, lo: nat, hi: nat)
    requires PermutesRange(s, t, lo, hi)
    ensures |s| == |t|
    ensures forall i :: 0 <= i < lo || hi <= i < |s| ==> s[i] == t[i]
  {
    forall i | hi <= i < |s| ensures s[i] == t[i] {
      assert s[i] == s[hi..][i - hi] && t[i] == t[hi..][i - hi];
    }
    forall i | 0 <= i < lo ensures s[i] == t[i] {
      assert s[i] == s[..lo][i] && t[i] == t[..lo][i];
    }
  }

  /** Permuting a subrange permutes every range around it. */
  lemma PermutesWider<A>(s: seq<A>, t: seq<A>, lo: nat, hi: nat, lo': nat, hi': nat)
    requires PermutesRange(s, t, lo, hi) && lo' <= lo && hi <= hi' <= |s|
    ensures PermutesRange(s, t, lo', hi')
  {
    assert s[lo'..hi'] == s[..lo][lo'..] + s[lo..hi] + s[hi..][..hi' - hi];
    assert t[lo'..hi'] == t[..lo][lo'..] + t[lo..hi] + t[hi..][..hi' - hi];
    assert t[..lo'] == t[..lo][..lo'] == s[..lo][..lo'] == s[..lo'];
    assert t[hi'..] == t[hi..][hi' - hi..] == s[hi..][hi' - hi..] == s[hi'..];
  }

  lemma SwapPermutesRange<A>(s: seq<A>, i: nat, j: nat, lo: nat, hi: nat)
    requires lo <= i < hi <= |s| && lo <= j < hi
    ensures PermutesRange(s, Swap(s, i, j), lo, hi)
  {
    assert Swap(s, i, j)[lo..hi] == Swap(s[lo..hi], i - lo, j - lo);
    SwapIsPermutation(s[lo..hi], i - lo, j - lo);
  }

  /** A permutation has the same elements, so it keeps every bound on the keys. */
  lemma PermutesKeeps<A>(f: A -> real, s: seq<A>, t: seq<A>, lo: nat, hi: nat, p: real)
    requires PermutesRange(s, t, lo, hi)
    ensures AtMost(f, s, lo, hi, p) ==> AtMost(f, t, lo, hi, p)
    ensures AtLeast(f, s, lo, hi, p) ==> AtLeast(f, t, lo, hi, p)
  {
    forall i | lo <= i < hi ensures exists j :: lo <= j < hi && s[j] == t[i] {
      assert t[i] == t[lo..hi][i - lo];
      assert t[i] in multiset(t[lo..hi]);
      assert t[i] in s[lo..hi];
    }
  }

  /** Two sorted ranges on either side of a bound make one. */
  lemma JoinSorted<A>(f: A -> real, s: seq<A>, lo: nat, mid: nat, hi: nat, p: real)
    requires lo <= mid <= hi <= |s|
    requires SortedRange(f, s, lo, mid) && AtMost(f, s, lo, mid, p)
    requires SortedRange(f, s, mid, hi) && AtLeast(f, s, mid, hi, p)
    ensures SortedRange(f, s, lo, hi)
  {
  }
}
