/** Recomputing the reduce values of a group from scratch, and adjusting them when a filter changes. */
module Updates {
  import opened Filters
  import opened Reduction
  import opened Bitset
  import opened Grouping

  ghost predicate SameBinKeys<P>(bins: seq<Bin<P>>, bins': seq<Bin<P>>) {
    |bins| == |bins'| && forall i :: 0 <= i < |bins| ==> bins[i].key == bins'[i].key
  }

  /** The bins hold the reduce values over the first n records. */
  ghost predicate ReducedUpTo<T, P>(red: Reducer<T, P>, data: seq<T>, keys: seq<real>, blocked: seq<set<nat>>, d: nat,
      bins: seq<Bin<P>>, n: nat) {
    n <= |data| && forall i :: 0 <= i < |bins| ==>
      bins[i].value == Fold(red, data[..n], AllMembers(keys, blocked, d, bins[i].key))
  }

  lemma NothingReduced<T, P>(red: Reducer<T, P>, data: seq<T>, keys: seq<real>, blocked: seq<set<nat>>, d: nat,
      bins: seq<Bin<P>>)
    requires forall i :: 0 <= i < |bins| ==> bins[i].value == red.initial
    ensures ReducedUpTo(red, data, keys, blocked, d, bins, 0)
  {
  }

  lemma AllReduced<T, P>(red: Reducer<T, P>, data: seq<T>, keys: seq<real>, blocked: seq<set<nat>>, d: nat,
      bins: seq<Bin<P>>)
    requires ReducedUpTo(red, data, keys, blocked, d, bins, |data|)
    ensures Reduced(red, data, keys, blocked, d, bins)
  {
    assert data[..|data|] == data;
  }

  /** Record n, which belongs to bin i, is added to it if it is selected. */
  lemma OneMoreReduced<T, P>(red: Reducer<T, P>, data: seq<T>, keys: seq<real>, blocked: seq<set<nat>>, d: nat,
      bins: seq<Bin<P>>, n: nat, i: nat)
    requires ReducedUpTo(red, data, keys, blocked, d, bins, n) && n < |data| == |keys| == |blocked|
    requires Ascending(bins) && i < |bins| && bins[i].key == keys[n]
    ensures ReducedUpTo(red, data, keys, blocked, d,
      if blocked[n] <= {d} then bins[i := bins[i].(value := red.add(bins[i].value, data[n]))] else bins, n + 1)
  {
    assert data[..n + 1][..n] == data[..n];
    forall j | 0 <= j < |bins|
      ensures n in AllMembers(keys, blocked, d, bins[j].key) <==> j == i && blocked[n] <= {d}
    {
    }
  }

  /** resetMany: every record is looked up in the group index. */
  method ResetMany<T, P>(red: Reducer<T, P>, data: seq<T>, bits: FilterBits, d: nat, bins0: seq<Bin<P>>,
      groupIndex: seq<nat>, ghost keys: seq<real>)
    returns (bins: seq<Bin<P>>)
    requires bits.Valid() && |bits.blocked| == |data| == |keys| && d < 32
    requires Ascending(bins0) && Indexed(keys, bins0, groupIndex)
    ensures SameBinKeys(bins0, bins) && Reduced(red, data, keys, bits.blocked, d, bins)
  {
    bins := InitialValues(red, bins0);
    NothingReduced(red, data, keys, bits.blocked, d, bins);
    hide ReducedUpTo, Reduced;
    for i := 0 to |data|
      invariant SameBinKeys(bins0, bins) && Ascending(bins)
      invariant ReducedUpTo(red, data, keys, bits.blocked, d, bins, i)
    {
      var selected := bits.OthersClear(i, d);
      var g := groupIndex[i];
      OneMoreReduced(red, data, keys, bits.blocked, d, bins, i, g);
      if selected {
        bins := bins[g := bins[g].(value := red.add(bins[g].value, data[i]))];
      }
    }
    AllReduced(red, data, keys, bits.blocked, d, bins);
  }

  method InitialValues<T, P>(red: Reducer<T, P>, bins0: seq<Bin<P>>) returns (bins: seq<Bin<P>>)
    ensures SameBinKeys(bins0, bins) && forall i :: 0 <= i < |bins| ==> bins[i].value == red.initial
  {
    bins := bins0;
    for i := 0 to |bins0|
      invariant SameBinKeys(bins0, bins) && forall j :: 0 <= j < i ==> bins[j].value == red.initial
    {
      bins := bins[i := bins[i].(value := red.initial)];
    }
  }

  /** resetOne: all records belong to the only bin. */
  method ResetOne<T, P>(red: Reducer<T, P>, data: seq<T>, bits: FilterBits, d: nat, bins0: seq<Bin<P>>,
      ghost keys: seq<real>)
    returns (bins: seq<Bin<P>>)
    requires bits.Valid() && |bits.blocked| == |data| == |keys| && d < 32
    requires |bins0| == 1 && forall r :: 0 <= r < |keys| ==> keys[r] == bins0[0].key
    ensures SameBinKeys(bins0, bins) && Reduced(red, data, keys, bits.blocked, d, bins)
  {
    bins := [bins0[0].(value := red.initial)];
    NothingReduced(red, data, keys, bits.blocked, d, bins);
    hide ReducedUpTo, Reduced;
    for i := 0 to |data|
      invariant SameBinKeys(bins0, bins)
      invariant ReducedUpTo(red, data, keys, bits.blocked, d, bins, i)
    {
      var selected := bits.OthersClear(i, d);
      OneMoreReduced(red, data, keys, bits.blocked, d, bins, i, 0);
      if selected {
        bins := bins[0 := bins[0].(value := red.add(bins[0].value, data[i]))];
      }
    }
    AllReduced(red, data, keys, bits.blocked, d, bins);
  }

  /** b1 is b0 with dimension e's bit cleared for the added records and set for the removed ones. */
  ghost predicate IsChange(b0: seq<set<nat>>, b1: seq<set<nat>>, e: nat, added: seq<nat>, removed: seq<nat>) {
    && |b0| == |b1|
    && Distinct(added) && Distinct(removed)
    && (forall r :: r in added ==> r < |b0| && e in b0[r] && b1[r] == b0[r] - {e})
    && (forall r :: r in removed ==> r < |b0| && e !in b0[r] && b1[r] == b0[r] + {e})
    && (forall r :: 0 <= r < |b0| && r !in added && r !in removed ==> b1[r] == b0[r])
  }

  /** The bitset in which the change has been made only for the first i added and j removed records. */
  ghost function Mixed(b0: seq<set<nat>>, b1: seq<set<nat>>, added: seq<nat>, removed: seq<nat>, i: nat,
      j: nat): (b: seq<set<nat>>)
    requires |b0| == |b1| && i <= |added| && j <= |removed|
    ensures |b| == |b0|
  {
    seq(|b0|, r requires 0 <= r < |b0| => if r in added[..i] || r in removed[..j] then b1[r] else b0[r])
  }

  lemma MixedStarts(b0: seq<set<nat>>, b1: seq<set<nat>>, e: nat, added: seq<nat>, removed: seq<nat>)
    requires IsChange(b0, b1, e, added, removed)
    ensures |b0| == |b1|
    ensures Mixed(b0, b1, added, removed, 0, 0) == b0
    ensures Mixed(b0, b1, added, removed, |added|, |removed|) == b1
  {
    assert added[..|added|] == added && removed[..|removed|] == removed;
  }

  lemma MixedAdd(b0: seq<set<nat>>, b1: seq<set<nat>>, e: nat, added: seq<nat>, removed: seq<nat>, i: nat)
    requires IsChange(b0, b1, e, added, removed) && i < |added|
    ensures added[i] < |b0|
    ensures Mixed(b0, b1, added, removed, i, 0)[added[i]] == b1[added[i]] + {e} && e !in b1[added[i]]
    ensures Mixed(b0, b1, added, removed, i + 1, 0) == Mixed(b0, b1, added, removed, i, 0)[added[i] := b1[added[i]]]
  {
    assert added[i] in added && added[i] !in added[..i];
    assert added[..i + 1] == added[..i] + [added[i]];
  }

  lemma MixedRemove(b0: seq<set<nat>>, b1: seq<set<nat>>, e: nat, added: seq<nat>, removed: seq<nat>, j: nat)
    requires IsChange(b0, b1, e, added, removed) && j < |removed|
    ensures removed[j] < |b0|
    ensures Mixed(b0, b1, added, removed, |added|, j)[removed[j]] == b1[removed[j]] - {e} && e in b1[removed[j]]
    ensures Mixed(b0, b1, added, removed, |added|, j + 1)
      == Mixed(b0, b1, added, removed, |added|, j)[removed[j] := b1[removed[j]]]
  {
    assert removed[j] in removed && removed[j] !in removed[..j];
    assert removed[..j + 1] == removed[..j] + [removed[j]];
    assert added[..|added|] == added;
    assert removed[j] !in added;
  }

  /** Whatever keeps record r out, bins of other keys do not see it. */
  lemma OtherBins<P>(keys: seq<real>, b: seq<set<nat>>, d: nat, bins: seq<Bin<P>>, r: nat, s: set<nat>, i: nat)
    requires r < |keys| == |b| && Ascending(bins) && i < |bins| && bins[i].key == keys[r]
    ensures forall j :: 0 <= j < |bins| && j != i ==>
      AllMembers(keys, b[r := s], d, bins[j].key) == AllMembers(keys, b, d, bins[j].key)
  {
    forall j | 0 <= j < |bins| && j != i
      ensures AllMembers(keys, b[r := s], d, bins[j].key) == AllMembers(keys, b, d, bins[j].key)
    {
      assert bins[j].key != keys[r];
    }
  }

  /** A record that becomes selected is added to its bin. */
  lemma BinGains<T(!new), P(!new)>(red: Reducer<T,
      P>, data: seq<T>, keys: seq<real>, b: seq<set<nat>>, d: nat, bins: seq<Bin<P>>, r: nat, s: set<nat>, i: nat)
    requires Lawful(red) && Reduced(red, data, keys, b, d, bins) && Ascending(bins)
    requires r < |data| == |keys| == |b| && i < |bins| && bins[i].key == keys[r]
    requires !(b[r] <= {d}) && s <= {d}
    ensures Reduced(red, data, keys, b[r := s], d, bins[i := bins[i].(value := red.add(bins[i].value, data[r]))])
  {
    assert AllMembers(keys, b[r := s], d, keys[r]) == AllMembers(keys, b, d, keys[r]) + {r};
    OtherBins(keys, b, d, bins, r, s, i);
    FoldInsert(red, data, AllMembers(keys, b, d, keys[r]), r);
  }

  /** A record that is no longer selected is removed from its bin. */
  lemma BinLoses<T(!new), P(!new)>(red: Reducer<T,
      P>, data: seq<T>, keys: seq<real>, b: seq<set<nat>>, d: nat, bins: seq<Bin<P>>, r: nat, s: set<nat>, i: nat)
    requires Lawful(red) && Reduced(red, data, keys, b, d, bins) && Ascending(bins)
    requires r < |data| == |keys| == |b| && i < |bins| && bins[i].key == keys[r]
    requires b[r] <= {d} && !(s <= {d})
    ensures Reduced(red, data, keys, b[r := s], d, bins[i := bins[i].(value := red.remove(bins[i].value, data[r]))])
  {
    assert AllMembers(keys, b[r := s], d, keys[r]) == AllMembers(keys, b, d, keys[r]) - {r};
    OtherBins(keys, b, d, bins, r, s, i);
    FoldDelete(red, data, AllMembers(keys, b, d, keys[r]), r);
  }

  /** A record that stays selected, or stays out, leaves the bins as they are. */
  lemma BinsKept<T, P>(red: Reducer<T, P>, data: seq<T>, keys: seq<real>, b: seq<set<nat>>, b': seq<set<nat>>, d: nat,
      bins: seq<Bin<P>>)
    requires Reduced(red, data, keys, b, d, bins) && |b| == |b'|
    requires forall r :: 0 <= r < |b| ==> (b[r] <= {d} <==> b'[r] <= {d})
    ensures Reduced(red, data, keys, b', d, bins)
  {
    forall j | 0 <= j < |bins|
      ensures AllMembers(keys, b', d, bins[j].key) == AllMembers(keys, b, d, bins[j].key)
    {
    }
  }

  /** Record k, let in by dimension e, is added to bin g if no other dimension but d keeps it out. */
  method AddIfSelected<T(!new), P(!new)>(red: Reducer<T, P>, data: seq<T>, bits: FilterBits, d: nat,
      bins0: seq<Bin<P>>, k: nat, g: nat,
                                         ghost keys: seq<real>, ghost b: seq<set<nat>>,
                                           ghost e: nat) returns (bins: seq<Bin<P>>)
    requires bits.Valid() && |bits.blocked| == |data| == |keys| == |b| && d < 32 && d != e
    requires Lawful(red) && Ascending(bins0) && k < |keys| && g < |bins0| && bins0[g].key == keys[k]
    requires Reduced(red, data, keys, b, d, bins0) && b[k] == bits.blocked[k] + {e} && e !in bits.blocked[k]
    ensures SameBinKeys(bins0, bins) && Ascending(bins) && Reduced(red, data, keys, b[k := bits.blocked[k]], d, bins)
  {
    hide Reduced, Lawful;
    var selected := bits.OthersClear(k, d);
    bins := bins0;
    if selected {
      BinGains(red, data, keys, b, d, bins, k, bits.blocked[k], g);
      bins := bins[g := bins[g].(value := red.add(bins[g].value, data[k]))];
    } else {
      BinsKept(red, data, keys, b, b[k := bits.blocked[k]], d, bins);
    }
  }

  /** Record k, put out by dimension e, is removed from bin g if no other dimension but d kept it out before. */
  method RemoveIfDeselected<T(!new), P(!new)>(red: Reducer<T,
      P>, data: seq<T>, bits: FilterBits, d: nat, bins0: seq<Bin<P>>, k: nat, g: nat,
                                              ghost keys: seq<real>, ghost b: seq<set<nat>>,
                                                e: nat) returns (bins: seq<Bin<P>>)
    requires bits.Valid() && |bits.blocked| == |data| == |keys| == |b| && d < 32 && e < 32 && d != e
    requires Lawful(red) && Ascending(bins0) && k < |keys| && g < |bins0| && bins0[g].key == keys[k]
    requires Reduced(red, data, keys, b, d, bins0) && b[k] == bits.blocked[k] - {e} && e in bits.blocked[k]
    ensures SameBinKeys(bins0, bins) && Ascending(bins) && Reduced(red, data, keys, b[k := bits.blocked[k]], d, bins)
  {
    hide Reduced, Lawful;
    var deselected := bits.OnlyOther(k, d, e);
    bins := bins0;
    if deselected {
      BinLoses(red, data, keys, b, d, bins, k, bits.blocked[k], g);
      bins := bins[g := bins[g].(value := red.remove(bins[g].value, data[k]))];
    } else {
      BinsKept(red, data, keys, b, b[k := bits.blocked[k]], d, bins);
    }
  }

  /** updateMany: adjusts the bins of the records that another dimension's filter has let in or put out. */
  method UpdateMany<T(!new), P(!new)>(red: Reducer<T,
      P>, data: seq<T>, bits: FilterBits, d: nat, e: nat, bins0: seq<Bin<P>>, groupIndex: seq<nat>,
                                      added: seq<nat>, removed: seq<nat>, ghost keys: seq<real>,
                                        ghost b0: seq<set<nat>>)
    returns (bins: seq<Bin<P>>)
    requires bits.Valid() && |bits.blocked| == |data| == |keys| && d < 32 && e < 32 && d != e
    requires Lawful(red) && Ascending(bins0) && Indexed(keys, bins0, groupIndex)
    requires IsChange(b0, bits.blocked, e, added, removed) && Reduced(red, data, keys, b0, d, bins0)
    ensures SameBinKeys(bins0, bins) && Reduced(red, data, keys, bits.blocked, d, bins)
  {
    hide Reduced, IsChange, Mixed, Lawful;
    ghost var b1 := bits.blocked;
    MixedStarts(b0, b1, e, added, removed);
    bins := bins0;
    for i := 0 to |added|
      invariant SameBinKeys(bins0, bins) && Ascending(bins)
      invariant Reduced(red, data, keys, Mixed(b0, b1, added, removed, i, 0), d, bins)
    {
      MixedAdd(b0, b1, e, added, removed, i);
      bins := AddIfSelected(red, data, bits, d, bins, added[i], groupIndex[added[i]], keys,
        Mixed(b0, b1, added, removed, i, 0), e);
    }
    for j := 0 to |removed|
      invariant SameBinKeys(bins0, bins) && Ascending(bins)
      invariant Reduced(red, data, keys, Mixed(b0, b1, added, removed, |added|, j), d, bins)
    {
      MixedRemove(b0, b1, e, added, removed, j);
      bins := RemoveIfDeselected(red, data, bits, d, bins, removed[j], groupIndex[removed[j]], keys,
        Mixed(b0, b1, added, removed, |added|, j), e);
    }
  }

  /** updateOne: the same with a single bin, without looking at the group index. */
  method UpdateOne<T(!new), P(!new)>(red: Reducer<T, P>, data: seq<T>, bits: FilterBits, d: nat, e: nat,
      bins0: seq<Bin<P>>, added: seq<nat>, removed: seq<nat>, ghost keys: seq<real>, ghost b0: seq<set<nat>>)
    returns (bins: seq<Bin<P>>)
    requires bits.Valid() && |bits.blocked| == |data| == |keys| && d < 32 && e < 32 && d != e
    requires Lawful(red) && |bins0| == 1 && forall r :: 0 <= r < |keys| ==> keys[r] == bins0[0].key
    requires IsChange(b0, bits.blocked, e, added, removed) && Reduced(red, data, keys, b0, d, bins0)
    ensures SameBinKeys(bins0, bins) && Reduced(red, data, keys, bits.blocked, d, bins)
  {
    hide Reduced, IsChange, Mixed, Lawful;
    ghost var b1 := bits.blocked;
    MixedStarts(b0, b1, e, added, removed);
    bins := bins0;
    for i := 0 to |added|
      invariant SameBinKeys(bins0, bins) && Ascending(bins)
      invariant Reduced(red, data, keys, Mixed(b0, b1, added, removed, i, 0), d, bins)
    {
      MixedAdd(b0, b1, e, added, removed, i);
      bins := AddIfSelected(red, data, bits, d, bins, added[i], 0, keys, Mixed(b0, b1, added, removed, i, 0), e);
    }
    for j := 0 to |removed|
      invariant SameBinKeys(bins0, bins) && Ascending(bins)
      invariant Reduced(red, data, keys, Mixed(b0, b1, added, removed, |added|, j), d, bins)
    {
      MixedRemove(b0, b1, e, added, removed, j);
      bins := RemoveIfDeselected(red, data, bits, d, bins, removed[j], 0, keys,
        Mixed(b0, b1, added, removed, |added|, j), e);
    }
  }

  lemma ChangeLength(b0: seq<set<nat>>, b1: seq<set<nat>>, e: nat, added: seq<nat>, removed: seq<nat>)
    requires IsChange(b0, b1, e, added, removed)
    ensures |b0| == |b1|
  {
  }
}
