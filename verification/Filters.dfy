/** What a dimension's filter selects, the ranks it selects, and the change between two filters. */
module Filters {
  import opened Int32
  import opened Sorting
  import opened Bisect

  datatype Filter = All | Exact(value: real) | Range(min: real, max: real)

  /** The values a filter lets pass: a range includes its lower and excludes its upper bound. */
  predicate Passes(filter: Filter, x: real) {
    match filter
    case All => true
    case Exact(v) => x == v
    case Range(min, max) => min <= x < max
  }

  function Identity(x: real): real { x }

  /** The ranks [lo, hi) that the filter's bisections find in sorted values. */
  ghost predicate IsBounds(filter: Filter, values: seq<real>, lo: nat, hi: nat) {
    match filter
    case All => lo == 0 && hi == |values|
    case Exact(v) =>
      IsLeftPoint(Identity, values, v, 0, |values|, lo) && IsRightPoint(Identity, values, v, 0, |values|, hi)
    case Range(min, max) =>
      IsLeftPoint(Identity, values, min, 0, |values|, lo) && IsLeftPoint(Identity, values, max, 0, |values|, hi)
  }

  /** crossfilter_filterAll, crossfilter_filterExact and crossfilter_filterRange. */
  method Refilter(filter: Filter, values: seq<real>) returns (lo: nat, hi: nat)
    requires |values| <= MAX_LENGTH && SortedRange(Identity, values, 0, |values|)
    ensures IsBounds(filter, values, lo, hi)
  {
    var n := |values|;
    match filter {
      case All =>
        lo, hi := 0, n;
      case Exact(v) =>
        lo := BisectLeft(Identity, values, v, 0, n);
        hi := BisectRight(Identity, values, v, 0, n);
      case Range(min, max) =>
        lo := BisectLeft(Identity, values, min, 0, n);
        hi := BisectLeft(Identity, values, max, 0, n);
    }
  }

  /** The ranks found are exactly those of the values that pass. */
  lemma BoundsSelect(filter: Filter, values: seq<real>, lo: nat, hi: nat)
    requires IsBounds(filter, values, lo, hi)
    ensures lo <= |values| && hi <= |values|
    ensures forall i :: 0 <= i < |values| ==> (lo <= i < hi <==> Passes(filter, values[i]))
  {
  }

  predicate AboveLower(filter: Filter, x: real) {
    match filter
    case All => true
    case Exact(v) => v <= x
    case Range(min, _) => min <= x
  }

  predicate BelowUpper(filter: Filter, x: real) {
    match filter
    case All => true
    case Exact(v) => x <= v
    case Range(_, max) => x < max
  }

  /** Where the bounds lie among the values. */
  lemma BoundsSeparate(filter: Filter, values: seq<real>, lo: nat, hi: nat)
    requires IsBounds(filter, values, lo, hi)
    ensures lo <= |values| && hi <= |values|
    ensures forall i :: 0 <= i < |values| ==>
      (lo <= i <==> AboveLower(filter, values[i])) && (i < hi <==> BelowUpper(filter, values[i]))
  {
  }

  function Min(a: nat, b: nat): nat { if a < b then a else b }
  function Max(a: nat, b: nat): nat { if a < b then b else a }

  /** The ranks from lo up to hi. */
  function Ranks(lo: nat, hi: nat): (s: seq<nat>)
    ensures |s| == if lo < hi then hi - lo else 0
    ensures forall i :: 0 <= i < |s| ==> s[i] == lo + i
  {
    if lo < hi then seq(hi - lo, i => lo + i) else []
  }

  /** The ranks `filterIndex` lists as added, in its order, when the bounds go from [lo0, hi0) to [lo1, hi1). */
  function AddedRanks(lo0: nat, hi0: nat, lo1: nat, hi1: nat): seq<nat> {
    (if lo1 < lo0 then Ranks(lo1, Min(lo0, hi1)) else []) + (if hi1 > hi0 then Ranks(Max(lo1, hi0), hi1) else [])
  }

  /** The ranks it lists as removed. */
  function RemovedRanks(lo0: nat, hi0: nat, lo1: nat, hi1: nat): seq<nat> {
    (if lo1 > lo0 then Ranks(lo0, Min(lo1, hi0)) else []) + (if hi1 < hi0 then Ranks(Max(lo0, hi1), hi0) else [])
  }

  ghost predicate Distinct<A>(s: seq<A>) {
    forall i, j :: 0 <= i < j < |s| ==> s[i] != s[j]
  }

  /** Added is new minus old, removed is old minus new, and no rank is listed twice. */
  ghost predicate IsDelta(lo0: nat, hi0: nat, lo1: nat, hi1: nat) {
    var added, removed := AddedRanks(lo0, hi0, lo1, hi1), RemovedRanks(lo0, hi0, lo1, hi1);
    && Distinct(added) && Distinct(removed)
    && (forall i: nat :: i in added <==> lo1 <= i < hi1 && !(lo0 <= i < hi0))
    && (forall i: nat :: i in removed <==> lo0 <= i < hi0 && !(lo1 <= i < hi1))
  }

  /** Going from a proper interval to an inverted one strictly inside it, or back. */
  predicate TurnsInsideOut(lo0: nat, hi0: nat, lo1: nat, hi1: nat) {
    || (lo0 < lo1 && hi1 < hi0 && lo0 < hi0 && hi1 < lo1)
    || (lo1 < lo0 && hi0 < hi1 && lo1 < hi1 && hi0 < lo0)
  }

  lemma RanksMembers(lo: nat, hi: nat, lo': nat, hi': nat, i: nat)
    ensures i in Ranks(lo, hi) + Ranks(lo', hi') <==> lo <= i < hi || lo' <= i < hi'
  {
    if lo <= i < hi { assert Ranks(lo, hi)[i - lo] == i; }
    if lo' <= i < hi' { assert Ranks(lo', hi')[i - lo'] == i; }
  }

  /** Two runs of ranks, one after the other, repeat a rank exactly when they overlap. */
  lemma RanksDistinct(lo: nat, hi: nat, lo': nat, hi': nat)
    ensures Distinct(Ranks(lo, hi) + Ranks(lo', hi')) <==> Max(lo, lo') >= Min(hi, hi')
  {
    var s := Ranks(lo, hi) + Ranks(lo', hi');
    if Max(lo, lo') < Min(hi, hi') {
      var x := Max(lo, lo');
      assert s[x - lo] == s[|Ranks(lo, hi)| + x - lo'] == x;
    }
  }

  /** The two runs of each list, as ranges that may be empty. */
  lemma AsRuns(lo0: nat, hi0: nat, lo1: nat, hi1: nat)
    ensures AddedRanks(lo0, hi0, lo1, hi1) == Ranks(lo1, Min(lo0, hi1)) + Ranks(Max(lo1, hi0), hi1)
    ensures RemovedRanks(lo0, hi0, lo1, hi1) == Ranks(lo0, Min(lo1, hi0)) + Ranks(Max(lo0, hi1), hi0)
  {
  }

  lemma DeltaMembers(lo0: nat, hi0: nat, lo1: nat, hi1: nat, i: nat)
    requires !TurnsInsideOut(lo0, hi0, lo1, hi1)
    ensures i in AddedRanks(lo0, hi0, lo1, hi1) <==> lo1 <= i < hi1 && !(lo0 <= i < hi0)
    ensures i in RemovedRanks(lo0, hi0, lo1, hi1) <==> lo0 <= i < hi0 && !(lo1 <= i < hi1)
  {
    AsRuns(lo0, hi0, lo1, hi1);
    RanksMembers(lo1, Min(lo0, hi1), Max(lo1, hi0), hi1, i);
    RanksMembers(lo0, Min(lo1, hi0), Max(lo0, hi1), hi0, i);
  }

  /** The delta is exact for all bounds but those that turn the interval inside out. */
  lemma DeltaExactness(lo0: nat, hi0: nat, lo1: nat, hi1: nat)
    ensures IsDelta(lo0, hi0, lo1, hi1) <==> !TurnsInsideOut(lo0, hi0, lo1, hi1)
  {
    hide AddedRanks, RemovedRanks, Distinct;
    AsRuns(lo0, hi0, lo1, hi1);
    RanksDistinct(lo1, Min(lo0, hi1), Max(lo1, hi0), hi1);
    RanksDistinct(lo0, Min(lo1, hi0), Max(lo0, hi1), hi0);
    if !TurnsInsideOut(lo0, hi0, lo1, hi1) {
      forall i: nat
        ensures i in AddedRanks(lo0, hi0, lo1, hi1) <==> lo1 <= i < hi1 && !(lo0 <= i < hi0)
        ensures i in RemovedRanks(lo0, hi0, lo1, hi1) <==> lo0 <= i < hi0 && !(lo1 <= i < hi1)
      {
        DeltaMembers(lo0, hi0, lo1, hi1, i);
      }
    }
  }

  /** Of the values xs, the first filter lets some pass, and both some below and some above those that the
      second puts beyond both of its bounds, of which there are some. */
  ghost predicate Engulfs(f: Filter, g: Filter, xs: seq<real>) {
    && (exists x :: x in xs && AboveLower(f, x) && !AboveLower(g, x))
    && (exists x :: x in xs && BelowUpper(f, x) && !BelowUpper(g, x))
    && (exists x :: x in xs && AboveLower(f, x) && BelowUpper(f, x))
    && (exists x :: x in xs && !AboveLower(g, x) && !BelowUpper(g, x))
  }

  /** Going from one filter to the other goes wrong on the values xs. */
  ghost predicate Clash(f: Filter, g: Filter, xs: seq<real>) {
    Engulfs(f, g, xs) || Engulfs(g, f, xs)
  }

  lemma EngulfsByRank(f: Filter, g: Filter, xs: seq<real>, lo0: nat, hi0: nat, lo1: nat, hi1: nat)
    requires IsBounds(f, xs, lo0, hi0) && IsBounds(g, xs, lo1, hi1)
    ensures Engulfs(f, g, xs) <==> lo0 < lo1 && hi1 < hi0 && lo0 < hi0 && hi1 < lo1
  {
    BoundsSeparate(f, xs, lo0, hi0);
    BoundsSeparate(g, xs, lo1, hi1);
    hide IsBounds, AboveLower, BelowUpper;
    if lo0 < lo1 && hi1 < hi0 && lo0 < hi0 && hi1 < lo1 {
      assert xs[lo0] in xs && xs[hi1] in xs;
    }
  }

  /** Two filters clash exactly if going from the one to the other turns the interval of ranks inside out. */
  lemma ClashByRank(f: Filter, g: Filter, xs: seq<real>, lo0: nat, hi0: nat, lo1: nat, hi1: nat)
    requires IsBounds(f, xs, lo0, hi0) && IsBounds(g, xs, lo1, hi1)
    ensures Clash(f, g, xs) <==> TurnsInsideOut(lo0, hi0, lo1, hi1)
  {
    hide Engulfs;
    EngulfsByRank(f, g, xs, lo0, hi0, lo1, hi1);
    EngulfsByRank(g, f, xs, lo1, hi1, lo0, hi0);
  }

  lemma ClashDependsOnValues(f: Filter, g: Filter, xs: seq<real>, ys: seq<real>)
    requires forall x :: x in xs <==> x in ys
    ensures Clash(f, g, xs) <==> Clash(f, g, ys)
  {
  }

  /** The filters that are not ranges with swapped bounds. */
  predicate Proper(filter: Filter) {
    filter.Range? ==> filter.min <= filter.max
  }

  lemma ProperNeverClash(f: Filter, g: Filter, xs: seq<real>)
    requires Proper(f) && Proper(g)
    ensures !Clash(f, g, xs)
  {
  }

  /** A range filter whose bounds are swapped can leave the bitset wrong: on the values 0 to 9, going from no
      filter to the "range" from 7 to 3 lists ranks 3 to 6 as removed twice, which flips their bits back. */
  lemma InvertedRangeFails(values: seq<real>)
    requires values == [0.0, 1.0, 2.0, 3.0, 4.0, 5.0, 6.0, 7.0, 8.0, 9.0]
    ensures SortedRange(Identity, values, 0, 10)
    ensures IsBounds(All, values, 0, 10) && IsBounds(Range(7.0, 3.0), values, 7, 3)
    ensures RemovedRanks(0, 10, 7, 3)[3] == RemovedRanks(0, 10, 7, 3)[7] == 3
    ensures Clash(All, Range(7.0, 3.0), values) && !IsDelta(0, 10, 7, 3)
  {
    ClashByRank(All, Range(7.0, 3.0), values, 0, 10, 7, 3);
    DeltaExactness(0, 10, 7, 3);
  }
}
