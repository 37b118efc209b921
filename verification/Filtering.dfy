/** Moving a dimension's filter: flipping the bits of the ranks that change, and listing their records. */
module Filtering {
  import opened Filters
  import opened Bitset
  import opened Ranking
  import opened Updates

  ghost function Toggled(s: set<nat>, d: nat): set<nat> {
    if d in s then s - {d} else s + {d}
  }

  /** The records of some ranks. */
  ghost function RecordsOf(index: seq<nat>, ranks: seq<nat>): seq<nat>
    requires RanksBelow(ranks, |index|)
  {
    seq(|ranks|, i requires 0 <= i < |ranks| => index[ranks[i]])
  }

  /** One of the loops of `filterIndex`: flips the bits of the ranks [lo, hi) and lists their records. */
  method FlipRanks(bits: FilterBits, index: seq<nat>, d: nat, lo: nat, hi: nat, list0: seq<nat>)
    returns (list: seq<nat>)
    requires bits.Valid() && IsIndex(index, |bits.blocked|) && d < bits.width && lo <= |index| && hi <= |index|
    modifies bits
    ensures bits.Valid() && bits.width == old(bits.width) && |bits.blocked| == |index|
    ensures list == list0 + RecordsOf(index, Ranks(lo, hi))
    ensures forall p :: 0 <= p < |index| ==>
      bits.blocked[index[p]] == if lo <= p < hi then Toggled(old(bits.blocked)[index[p]], d)
        else old(bits.blocked)[index[p]]
  {
    list := list0;
    var i := lo;
    assert RecordsOf(index, Ranks(lo, lo)) == [];
    while i < hi
      invariant lo <= i <= Max(lo, hi)
      invariant bits.Valid() && bits.width == old(bits.width) && |bits.blocked| == |index|
      invariant list == list0 + RecordsOf(index, Ranks(lo, i))
      invariant forall p :: 0 <= p < |index| ==>
        bits.blocked[index[p]] == if lo <= p < i then Toggled(old(bits.blocked)[index[p]], d)
          else old(bits.blocked)[index[p]]
    {
      var k := index[i];
      bits.FlipBit(k, d);
      assert RecordsOf(index, Ranks(lo, i + 1)) == RecordsOf(index, Ranks(lo, i)) + [k];
      list := list + [k];
      i := i + 1;
    }
  }

  /** The ranks flipped because the lower bound moves ... */
  ghost predicate FlippedLow(p: nat, lo0: nat, hi0: nat, lo1: nat, hi1: nat) {
    if lo1 < lo0 then lo1 <= p < Min(lo0, hi1) else lo1 > lo0 && lo0 <= p < Min(lo1, hi0)
  }

  /** ... and because the upper one does. */
  ghost predicate FlippedHigh(p: nat, lo0: nat, hi0: nat, lo1: nat, hi1: nat) {
    if hi1 > hi0 then Max(lo1, hi0) <= p < hi1 else hi1 < hi0 && Max(lo0, hi1) <= p < hi0
  }

  /** The flips turn the old interval into the new one, rank by rank, for all bounds but those that turn
      the interval inside out. */
  lemma FlipExactness(lo0: nat, hi0: nat, lo1: nat, hi1: nat)
    ensures (forall p: nat :: FlippedLow(p, lo0, hi0, lo1, hi1) != FlippedHigh(p, lo0, hi0, lo1, hi1)
                         <==> (lo0 <= p < hi0) != (lo1 <= p < hi1))
       <==> !TurnsInsideOut(lo0, hi0, lo1, hi1)
  {
    if TurnsInsideOut(lo0, hi0, lo1, hi1) {
      var p := Max(Min(lo0, lo1), Min(hi0, hi1));
      assert FlippedLow(p, lo0, hi0, lo1, hi1) && FlippedHigh(p, lo0, hi0, lo1, hi1);
    }
  }

  /** Moves the lower bound. */
  method FlipLow(bits: FilterBits, index: seq<nat>, d: nat, lo0: nat, hi0: nat, lo1: nat, hi1: nat)
    returns (added: seq<nat>, removed: seq<nat>)
    requires bits.Valid() && IsIndex(index, |bits.blocked|) && d < bits.width
    requires lo0 <= |index| && hi0 <= |index| && lo1 <= |index| && hi1 <= |index|
    modifies bits
    ensures bits.Valid() && bits.width == old(bits.width) && |bits.blocked| == |index|
    ensures added == if lo1 < lo0 then RecordsOf(index, Ranks(lo1, Min(lo0, hi1))) else []
    ensures removed == if lo1 > lo0 then RecordsOf(index, Ranks(lo0, Min(lo1, hi0))) else []
    ensures forall p :: 0 <= p < |index| ==>
      bits.blocked[index[p]] == if FlippedLow(p, lo0, hi0, lo1, hi1) then Toggled(old(bits.blocked)[index[p]], d)
        else old(bits.blocked)[index[p]]
  {
    added, removed := [], [];
    if lo1 < lo0 {
      added := FlipRanks(bits, index, d, lo1, Min(lo0, hi1), added);
    } else if lo1 > lo0 {
      removed := FlipRanks(bits, index, d, lo0, Min(lo1, hi0), removed);
    }
  }

  /** Moves the upper bound. */
  method FlipHigh(bits: FilterBits, index: seq<nat>, d: nat, lo0: nat, hi0: nat, lo1: nat, hi1: nat, added0: seq<nat>,
      removed0: seq<nat>)
    returns (added: seq<nat>, removed: seq<nat>)
    requires bits.Valid() && IsIndex(index, |bits.blocked|) && d < bits.width
    requires lo0 <= |index| && hi0 <= |index| && lo1 <= |index| && hi1 <= |index|
    modifies bits
    ensures bits.Valid() && bits.width == old(bits.width) && |bits.blocked| == |index|
    ensures added == added0 + if hi1 > hi0 then RecordsOf(index, Ranks(Max(lo1, hi0), hi1)) else []
    ensures removed == removed0 + if hi1 < hi0 then RecordsOf(index, Ranks(Max(lo0, hi1), hi0)) else []
    ensures forall p :: 0 <= p < |index| ==>
      bits.blocked[index[p]] == if FlippedHigh(p, lo0, hi0, lo1, hi1) then Toggled(old(bits.blocked)[index[p]], d)
        else old(bits.blocked)[index[p]]
  {
    added, removed := added0, removed0;
    if hi1 > hi0 {
      added := FlipRanks(bits, index, d, Max(lo1, hi0), hi1, added);
    } else if hi1 < hi0 {
      removed := FlipRanks(bits, index, d, Max(lo0, hi1), hi0, removed);
    }
  }

  lemma RecordsOfConcatenation(index: seq<nat>, a: seq<nat>, b: seq<nat>)
    requires RanksBelow(a, |index|) && RanksBelow(b, |index|)
    ensures RanksBelow(a + b, |index|) && RecordsOf(index, a + b) == RecordsOf(index, a) + RecordsOf(index, b)
    ensures RecordsOf(index, []) == []
  {
  }

  /** The lists of the two steps, one after the other, are the records of the listed ranks. */
  lemma StepsAreDelta(index: seq<nat>, lo0: nat, hi0: nat, lo1: nat, hi1: nat)
    requires lo0 <= |index| && hi0 <= |index| && lo1 <= |index| && hi1 <= |index|
    ensures RanksBelow(AddedRanks(lo0, hi0, lo1, hi1), |index|) && RanksBelow(RemovedRanks(lo0, hi0, lo1, hi1), |index|)
    ensures RecordsOf(index, AddedRanks(lo0, hi0, lo1, hi1))
         == (if lo1 < lo0 then RecordsOf(index, Ranks(lo1, Min(lo0, hi1))) else [])
           + (if hi1 > hi0 then RecordsOf(index, Ranks(Max(lo1, hi0), hi1)) else [])
    ensures RecordsOf(index, RemovedRanks(lo0, hi0, lo1, hi1))
         == (if lo1 > lo0 then RecordsOf(index, Ranks(lo0, Min(lo1, hi0))) else [])
           + (if hi1 < hi0 then RecordsOf(index, Ranks(Max(lo0, hi1), hi0)) else [])
  {
    var a, a' := if lo1 < lo0 then Ranks(lo1, Min(lo0, hi1)) else [], if hi1 > hi0 then Ranks(Max(lo1, hi0), hi1)
      else [];
    var r, r' := if lo1 > lo0 then Ranks(lo0, Min(lo1, hi0)) else [], if hi1 < hi0 then Ranks(Max(lo0, hi1), hi0)
      else [];
    hide Ranks;
    RecordsOfConcatenation(index, a, a');
    RecordsOfConcatenation(index, r, r');
  }

  /** The four loops of `filterIndex`, whatever the bounds. */
  method FlipDelta(bits: FilterBits, index: seq<nat>, d: nat, lo0: nat, hi0: nat, lo1: nat, hi1: nat)
    returns (added: seq<nat>, removed: seq<nat>)
    requires bits.Valid() && IsIndex(index, |bits.blocked|) && d < bits.width
    requires lo0 <= |index| && hi0 <= |index| && lo1 <= |index| && hi1 <= |index|
    modifies bits
    ensures bits.Valid() && bits.width == old(bits.width) && |bits.blocked| == |index|
    ensures RanksBelow(AddedRanks(lo0, hi0, lo1, hi1), |index|) && RanksBelow(RemovedRanks(lo0, hi0, lo1, hi1), |index|)
    ensures added == RecordsOf(index, AddedRanks(lo0, hi0, lo1, hi1))
    ensures removed == RecordsOf(index, RemovedRanks(lo0, hi0, lo1, hi1))
    ensures forall p :: 0 <= p < |index| ==>
      bits.blocked[index[p]] == if FlippedLow(p, lo0, hi0, lo1, hi1) != FlippedHigh(p, lo0, hi0, lo1, hi1)
                                then Toggled(old(bits.blocked)[index[p]], d) else old(bits.blocked)[index[p]]
  {
    hide FlippedLow, FlippedHigh, RecordsOf, AddedRanks, RemovedRanks, Ranks, RanksBelow;
    StepsAreDelta(index, lo0, hi0, lo1, hi1);
    added, removed := FlipLow(bits, index, d, lo0, hi0, lo1, hi1);
    added, removed := FlipHigh(bits, index, d, lo0, hi0, lo1, hi1, added, removed);
  }

  ghost predicate RanksBelow(ranks: seq<nat>, n: nat) {
    forall i :: 0 <= i < |ranks| ==> ranks[i] < n
  }

  /** Rank p's bit is set exactly outside the bounds. */
  ghost predicate BitsMatch(index: seq<nat>, blocked: seq<set<nat>>, d: nat, lo: nat, hi: nat)
    requires IsIndex(index, |blocked|)
  {
    forall p :: 0 <= p < |index| ==> (d in blocked[index[p]] <==> !(lo <= p < hi))
  }

  /** For all bounds but those that turn the interval inside out, the lists are the change of the bitset
      and the bits match the new bounds. */
  lemma DeltaIsChange(index: seq<nat>, b0: seq<set<nat>>, b1: seq<set<nat>>, d: nat, lo0: nat, hi0: nat, lo1: nat,
      hi1: nat, added: seq<nat>, removed: seq<nat>)
    requires |b0| == |b1| && IsIndex(index, |b0|) && (forall r: nat :: r < |b0| ==> r in index)
    requires BitsMatch(index, b0, d, lo0, hi0) && !TurnsInsideOut(lo0, hi0, lo1, hi1)
    requires RanksBelow(AddedRanks(lo0, hi0, lo1, hi1), |index|)
      && RanksBelow(RemovedRanks(lo0, hi0, lo1, hi1), |index|)
    requires added == RecordsOf(index, AddedRanks(lo0, hi0, lo1, hi1))
      && removed == RecordsOf(index, RemovedRanks(lo0, hi0, lo1, hi1))
    requires forall p :: 0 <= p < |index| ==>
      b1[index[p]] == if FlippedLow(p, lo0, hi0, lo1, hi1) != FlippedHigh(p, lo0, hi0, lo1, hi1)
        then Toggled(b0[index[p]], d) else b0[index[p]]
    ensures BitsMatch(index, b1, d, lo1, hi1)
    ensures IsChange(b0, b1, d, added, removed)
  {
    FlipExactness(lo0, hi0, lo1, hi1);
    DeltaExactness(lo0, hi0, lo1, hi1);
    hide FlippedLow, FlippedHigh, AddedRanks, RemovedRanks, TurnsInsideOut;
    RecordsListed(index, AddedRanks(lo0, hi0, lo1, hi1));
    RecordsListed(index, RemovedRanks(lo0, hi0, lo1, hi1));
    forall r: nat | r < |b0|
      ensures r in added ==> d in b0[r] && b1[r] == b0[r] - {d}
      ensures r in removed ==> d !in b0[r] && b1[r] == b0[r] + {d}
      ensures r !in added && r !in removed ==> b1[r] == b0[r]
    {
      assert r in index;
      var p :| 0 <= p < |index| && index[p] == r;
    }
  }

  /** Bounds that turn the interval inside out leave bits that do not match them. */
  lemma InsideOutIsWrong(index: seq<nat>, b0: seq<set<nat>>, b1: seq<set<nat>>, d: nat, lo0: nat, hi0: nat, lo1: nat,
      hi1: nat)
    requires |b0| == |b1| && IsIndex(index, |b0|) && BitsMatch(index, b0, d, lo0, hi0)
      && TurnsInsideOut(lo0, hi0, lo1, hi1)
    requires lo0 <= |index| && hi0 <= |index| && lo1 <= |index| && hi1 <= |index|
    requires forall p :: 0 <= p < |index| ==>
      b1[index[p]] == if FlippedLow(p, lo0, hi0, lo1, hi1) != FlippedHigh(p, lo0, hi0, lo1, hi1)
        then Toggled(b0[index[p]], d) else b0[index[p]]
    ensures !BitsMatch(index, b1, d, lo1, hi1)
  {
    var p := Max(Min(lo0, lo1), Min(hi0, hi1));
    assert FlippedLow(p, lo0, hi0, lo1, hi1) && FlippedHigh(p, lo0, hi0, lo1, hi1);
    assert b1[index[p]] == b0[index[p]];
  }

  /** A record is listed exactly when its rank is. */
  lemma RecordsListed(index: seq<nat>, ranks: seq<nat>)
    requires RanksBelow(ranks, |index|) && Distinct(index)
    ensures forall p :: 0 <= p < |index| ==> (index[p] in RecordsOf(index, ranks) <==> p in ranks)
    ensures forall r :: r in RecordsOf(index, ranks) ==> r in index
    ensures Distinct(ranks) ==> Distinct(RecordsOf(index, ranks))
  {
    var records := RecordsOf(index, ranks);
    forall p | 0 <= p < |index| ensures index[p] in records <==> p in ranks {
      if p in ranks {
        var i :| 0 <= i < |ranks| && ranks[i] == p;
        assert records[i] == index[p];
      }
      if index[p] in records {
        var i :| 0 <= i < |records| && records[i] == index[p];
        assert ranks[i] == p;
      }
    }
  }

  /** The loops of `preAdd` that put out the new records outside the bounds. */
  method MarkFiltered(bits: FilterBits, newIndex: seq<nat>, n0: nat, lo: nat, hi: nat, d: nat)
    requires bits.Valid() && d < bits.width && IsIndex(newIndex, |newIndex|) && |bits.blocked| == n0 + |newIndex|
    requires lo <= |newIndex| && hi <= |newIndex|
    modifies bits
    ensures bits.Valid() && bits.width == old(bits.width) && |bits.blocked| == old(|bits.blocked|)
    ensures bits.blocked[..n0] == old(bits.blocked)[..n0]
    ensures forall p :: 0 <= p < |newIndex| ==>
      bits.blocked[n0 + newIndex[p]] == if lo <= p < hi then old(bits.blocked)[n0 + newIndex[p]]
        else old(bits.blocked)[n0 + newIndex[p]] + {d}
  {
    var i := 0;
    while i < lo
      invariant i <= lo
      invariant bits.Valid() && bits.width == old(bits.width) && |bits.blocked| == old(|bits.blocked|)
      invariant bits.blocked[..n0] == old(bits.blocked)[..n0]
      invariant forall p :: 0 <= p < |newIndex| ==>
        bits.blocked[n0 + newIndex[p]] == if p >= i then old(bits.blocked)[n0 + newIndex[p]]
          else old(bits.blocked)[n0 + newIndex[p]] + {d}
    {
      bits.SetBit(newIndex[i] + n0, d);
      i := i + 1;
    }
    i := hi;
    while i < |newIndex|
      invariant hi <= i <= |newIndex|
      invariant bits.Valid() && bits.width == old(bits.width) && |bits.blocked| == old(|bits.blocked|)
      invariant bits.blocked[..n0] == old(bits.blocked)[..n0]
      invariant forall p :: 0 <= p < |newIndex| ==>
        bits.blocked[n0 + newIndex[p]] == if lo <= p && !(hi <= p < i) then old(bits.blocked)[n0 + newIndex[p]]
          else old(bits.blocked)[n0 + newIndex[p]] + {d}
    {
      bits.SetBit(newIndex[i] + n0, d);
      i := i + 1;
    }
  }

  /** The highest ranks in [lo, hi) whose records no filter keeps out, highest first, as many as there are up to k. */
  ghost predicate IsTopRanks(index: seq<nat>, blocked: seq<set<nat>>, lo: nat, hi: nat, k: int, ranks: seq<nat>)
    requires IsIndex(index, |blocked|) && hi <= |index|
  {
    && (forall i, j :: 0 <= i < j < |ranks| ==> ranks[i] > ranks[j])
    && (forall p :: p in ranks ==> lo <= p < hi && blocked[index[p]] == {})
    && |ranks| <= (if k <= 0 then 0 else k)
    && (forall p :: lo <= p < hi && blocked[index[p]] == {} && p !in ranks ==>
      |ranks| >= k && forall q :: q in ranks ==> p < q)
  }

  /** The loop of `top`: walks the ranks down from hi. */
  method SelectTop<T>(data: seq<T>, bits: FilterBits, index: seq<nat>, lo: nat, hi: nat, k: int)
    returns (top: seq<T>, ghost ranks: seq<nat>)
    requires bits.Valid() && IsIndex(index, |bits.blocked|) && |data| == |bits.blocked| && hi <= |index|
    ensures IsTopRanks(index, bits.blocked, lo, hi, k, ranks)
    ensures |top| == |ranks| && forall i :: 0 <= i < |ranks| ==> ranks[i] < |index| && top[i] == data[index[ranks[i]]]
  {
    top, ranks := [], [];
    var i, left := hi - 1, k;
    while i >= lo && left > 0
      invariant -1 <= i < hi && (i < lo - 1 ==> hi <= lo)
      invariant if k > 0 then left == k - |ranks| >= 0 else ranks == [] && left == k
      invariant forall s, t :: 0 <= s < t < |ranks| ==> ranks[s] > ranks[t]
      invariant forall p :: p in ranks ==> lo <= p < hi && i < p && bits.blocked[index[p]] == {}
      invariant forall p :: lo <= p < hi && i < p && bits.blocked[index[p]] == {} ==> p in ranks
      invariant |top| == |ranks| && forall s :: 0 <= s < |ranks| ==>
        ranks[s] < |index| && top[s] == data[index[ranks[s]]]
      decreases i + 1
    {
      var j := index[i];
      var selected := bits.AllClear(j);
      if selected {
        top, ranks := top + [data[j]], ranks + [i];
        left := left - 1;
      }
      i := i - 1;
    }
  }
}
