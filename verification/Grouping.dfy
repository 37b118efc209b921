/** A group's bins: one per key, in key order, each with the reduce value of the records that the
    filters of the other dimensions let pass. */
module Grouping {
  import opened Int32
  import opened TypedArrays
  import opened Ranking
  import opened Reduction
  import opened Bitset

  datatype Bin<P> = Bin(key: real, value: P)

  /** The records that have key x and that no dimension but d keeps out, among those below n and some more. */
  ghost function Members(keys: seq<real>, blocked: seq<set<nat>>, d: nat, x: real, n: nat, more: set<nat>): set<nat> {
    set r: nat | r < |keys| && r < |blocked| && (r < n || r in more) && blocked[r] <= {d} && keys[r] == x
  }

  /** All records that have key x and that no dimension but d keeps out. */
  ghost function AllMembers(keys: seq<real>, blocked: seq<set<nat>>, d: nat, x: real): set<nat> {
    Members(keys, blocked, d, x, |keys|, {})
  }

  ghost predicate Ascending<P>(bins: seq<Bin<P>>) {
    forall i, j :: 0 <= i < j < |bins| ==> bins[i].key < bins[j].key
  }

  ghost predicate HasKey<P>(bins: seq<Bin<P>>, x: real) {
    exists i :: 0 <= i < |bins| && bins[i].key == x
  }

  /** The bins' keys are the records' keys. */
  ghost predicate SameKeys<P>(keys: seq<real>, bins: seq<Bin<P>>) {
    && (forall i :: 0 <= i < |bins| ==> bins[i].key in keys)
    && (forall r :: 0 <= r < |keys| ==> HasKey(bins, keys[r]))
  }

  ghost function KeySet<P>(bins: seq<Bin<P>>): (keys: set<real>)
    ensures forall x :: x in keys <==> HasKey(bins, x)
  {
    if bins == [] then {} else
    var n := |bins| - 1;
    assert forall x :: HasKey(bins, x) <==> HasKey(bins[..n], x) || x == bins[n].key by {
      LastKey(bins[..n], bins[n]);
      assert bins == bins[..n] + [bins[n]];
    }
    KeySet(bins[..n]) + {bins[n].key}
  }

  lemma LastKey<P>(bins: seq<Bin<P>>, b: Bin<P>)
    ensures forall x :: HasKey(bins + [b], x) <==> HasKey(bins, x) || x == b.key
  {
    var all := bins + [b];
    forall x ensures HasKey(all, x) <==> HasKey(bins, x) || x == b.key {
      if HasKey(bins, x) {
        var i :| 0 <= i < |bins| && bins[i].key == x;
        assert all[i].key == x;
      }
      assert all[|bins|].key == b.key;
    }
  }

  /** There are as many bins as keys. */
  lemma {:induction false} BinsPerKey<P>(bins: seq<Bin<P>>)
    requires Ascending(bins)
    ensures |bins| == |KeySet(bins)|
  {
    if bins != [] {
      var n := |bins| - 1;
      BinsPerKey(bins[..n]);
      assert !HasKey(bins[..n], bins[n].key);
    }
  }

  /** The group index sends every record to the bin of its key. */
  ghost predicate Indexed<P>(keys: seq<real>, bins: seq<Bin<P>>, groupIndex: seq<nat>) {
    && |groupIndex| == |keys|
    && forall r :: 0 <= r < |keys| ==> groupIndex[r] < |bins| && bins[groupIndex[r]].key == keys[r]
  }

  ghost predicate Grouped<P>(keys: seq<real>, bins: seq<Bin<P>>, groupIndex: seq<nat>, width: nat) {
    && Ascending(bins) && SameKeys(keys, bins)
    && |bins| <= |keys|
    && (|bins| > 1 ==> Indexed(keys, bins, groupIndex))
    && (width == 8 || width == 16 || width == 32)
    && |bins| < Capacity(width)
  }

  /** Every bin holds what reducing its records from scratch gives. */
  ghost predicate Reduced<T, P>(red: Reducer<T, P>, data: seq<T>, keys: seq<real>, blocked: seq<set<nat>>, d: nat,
      bins: seq<Bin<P>>) {
    forall i :: 0 <= i < |bins| ==>
      bins[i].value == Fold(red, data, AllMembers(keys, blocked, d, bins[i].key))
  }

  /** What a merge of new records into the bins works on. live says that reduce values are kept up to date. */
  datatype Batch<!T, !P> = Batch(data: seq<T>, ghost keys: seq<real>, ghost blocked: seq<set<nat>>,
                               d: nat, red: Reducer<T, P>, live: bool, nil: P,
                               n0: nat, newKeys: seq<real>, newIndex: seq<nat>, oldBins: seq<Bin<P>>)

  ghost predicate NewRecordsOK<T, P>(c: Batch<T, P>) {
    && |c.keys| == |c.data| == |c.blocked| == c.n0 + |c.newKeys|
    && IsPermutation(c.newIndex, |c.newKeys|) && |c.newIndex| == |c.newKeys|
    && (forall t :: 0 <= t < |c.newKeys| ==>
      c.newIndex[t] < |c.newKeys| && c.keys[c.n0 + c.newIndex[t]] == c.newKeys[t])
    && (forall s, t :: 0 <= s < t < |c.newKeys| ==> c.newKeys[s] <= c.newKeys[t])
  }

  ghost predicate OldBinsOK<T(!new), P(!new)>(c: Batch<T, P>) {
    && c.n0 <= |c.keys|
    && Ascending(c.oldBins)
    && (forall j :: 0 <= j < |c.oldBins| ==> c.oldBins[j].key in c.keys)
    && (forall r :: 0 <= r < c.n0 ==> HasKey(c.oldBins, c.keys[r]))
    && (c.live ==> Lawful(c.red))
    && (c.live ==> forall j :: 0 <= j < |c.oldBins| ==>
          c.oldBins[j].value == Fold(c.red, c.data, Members(c.keys, c.blocked, c.d, c.oldBins[j].key, c.n0, {})))
  }

  ghost predicate BatchOK<T(!new), P(!new)>(c: Batch<T, P>) {
    NewRecordsOK(c) && OldBinsOK(c)
  }

  /** The first i1 new records in key order. */
  ghost function Taken<T, P>(c: Batch<T, P>, i1: nat): set<nat>
    requires i1 <= |c.newIndex|
  {
    set t: nat | t < i1 :: c.newIndex[t] + c.n0
  }

  /** The t-th new record is indexed to a bin of its key. */
  ghost predicate InBin<T, P>(c: Batch<T, P>, t: nat, bins: seq<Bin<P>>, groupIndex: seq<nat>)
    requires t < |c.newIndex| && t < |c.newKeys|
  {
    var j := c.newIndex[t] + c.n0;
    j < |groupIndex| && groupIndex[j] < |bins| && bins[groupIndex[j]].key == c.newKeys[t]
  }

  /** The state of the merge: i0 old bins and the first i1 new records are in bins. */
  ghost predicate Placed<T, P>(c: Batch<T, P>, i0: nat, i1: nat, bins: seq<Bin<P>>, reIndex: seq<nat>,
      groupIndex: seq<nat>) {
    && i0 <= |c.oldBins| == |reIndex| && i1 <= |c.newKeys| == |c.newIndex|
      && |groupIndex| == |c.keys| == c.n0 + |c.newKeys|
    && i0 <= |bins| <= i0 + i1 && Ascending(bins)
    && (|bins| == i0 ==> forall j :: 0 <= j < i0 ==> reIndex[j] == j)
    && (i0 < |c.oldBins| ==> forall i :: 0 <= i < |bins| ==> bins[i].key < c.oldBins[i0].key)
    && (i1 < |c.newKeys| ==> forall i :: 0 <= i < |bins| ==> bins[i].key < c.newKeys[i1])
    && (forall i :: 0 <= i < |bins| ==> bins[i].key in c.keys)
    && (forall j :: 0 <= j < i0 ==> reIndex[j] < |bins| && bins[reIndex[j]].key == c.oldBins[j].key)
    && (forall t :: 0 <= t < i1 ==> InBin(c, t, bins, groupIndex))
  }

  /** The bins placed so far have their final values. */
  ghost predicate Settled<T, P>(c: Batch<T, P>, bins: seq<Bin<P>>) {
    c.live ==> forall i :: 0 <= i < |bins| ==>
      bins[i].value == Fold(c.red, c.data, AllMembers(c.keys, c.blocked, c.d, bins[i].key))
  }

  /** v is the reduce value of key x over the old and the first i1 new records. */
  ghost predicate PartValue<T, P>(c: Batch<T, P>, x: real, i1: nat, v: P)
    requires i1 <= |c.newIndex|
  {
    c.live ==> v == Fold(c.red, c.data, Members(c.keys, c.blocked, c.d, x, c.n0, Taken(c, i1)))
  }

  /** A bin's value after record j is added: the null function's null while no values are kept. */
  function Added<T, P>(c: Batch<T, P>, v: P, j: nat): P
    requires j < |c.data|
  {
    if c.live then c.red.add(v, c.data[j]) else c.nil
  }

  /** Taking one more record of key x. */
  lemma Collected<T(!new), P(!new)>(c: Batch<T, P>, x: real, i1: nat, v: P)
    requires BatchOK(c) && i1 < |c.newKeys| && c.newKeys[i1] == x
    requires PartValue(c, x, i1, v)
    ensures c.newIndex[i1] + c.n0 < |c.data|
    ensures PartValue(c, x, i1 + 1, if c.blocked[c.newIndex[i1] + c.n0] <= {c.d}
      then Added(c, v, c.newIndex[i1] + c.n0) else v)
  {
    var j := c.newIndex[i1] + c.n0;
    var before := Members(c.keys, c.blocked, c.d, x, c.n0, Taken(c, i1));
    var after := Members(c.keys, c.blocked, c.d, x, c.n0, Taken(c, i1 + 1));
    PermutationFacts(c.newIndex, |c.newKeys|);
    assert Taken(c, i1 + 1) == Taken(c, i1) + {j};
    assert j !in Taken(c, i1);
    if c.blocked[j] <= {c.d} {
      assert after == before + {j};
      if c.live { FoldInsert(c.red, c.data, before, j); }
    } else {
      assert after == before;
    }
  }

  /** Before any new record of key x is taken, its members are old ones. */
  lemma NothingCollected<T(!new), P(!new)>(c: Batch<T, P>, x: real, i1: nat)
    requires BatchOK(c) && i1 <= |c.newKeys| && forall t :: 0 <= t < i1 ==> c.newKeys[t] < x
    ensures Members(c.keys, c.blocked, c.d, x, c.n0, Taken(c, i1)) == Members(c.keys, c.blocked, c.d, x, c.n0, {})
  {
  }

  /** Once the new records of key x are taken, all members of x are. */
  lemma AllCollected<T(!new), P(!new)>(c: Batch<T, P>, x: real, i1: nat)
    requires BatchOK(c) && i1 <= |c.newKeys| && forall t :: i1 <= t < |c.newKeys| ==> c.newKeys[t] > x
    ensures Members(c.keys, c.blocked, c.d, x, c.n0, Taken(c, i1)) == AllMembers(c.keys, c.blocked, c.d, x)
  {
    PermutationFacts(c.newIndex, |c.newKeys|);
    var partial := Members(c.keys, c.blocked, c.d, x, c.n0, Taken(c, i1));
    forall r | r in AllMembers(c.keys, c.blocked, c.d, x) ensures r in partial {
      if r >= c.n0 {
        assert r - c.n0 in c.newIndex;
        var t :| 0 <= t < |c.newIndex| && c.newIndex[t] == r - c.n0;
        assert t < i1;
      }
    }
  }

  /** A key below the next old bin and above all placed ones is new. */
  lemma NewKeyIsNew<T(!new), P(!new)>(c: Batch<T, P>, i0: nat, i1: nat, bins: seq<Bin<P>>, reIndex: seq<nat>,
      groupIndex: seq<nat>)
    requires BatchOK(c) && Placed(c, i0, i1, bins, reIndex, groupIndex)
    requires i1 < |c.newKeys| && (i0 < |c.oldBins| ==> c.newKeys[i1] < c.oldBins[i0].key)
    ensures Members(c.keys, c.blocked, c.d, c.newKeys[i1], c.n0, {}) == {}
  {
    var x := c.newKeys[i1];
    forall r | 0 <= r < c.n0 ensures c.keys[r] != x {
      assert HasKey(c.oldBins, c.keys[r]);
      var j :| 0 <= j < |c.oldBins| && c.oldBins[j].key == c.keys[r];
      if j < i0 {
        assert bins[reIndex[j]].key < x;
      }
    }
  }

  /** All keys of taken records are below the next key to be placed. */
  lemma TakenBelow<T(!new), P(!new)>(c: Batch<T,
      P>, i0: nat, i1: nat, bins: seq<Bin<P>>, reIndex: seq<nat>, groupIndex: seq<nat>, x: real)
    requires Placed(c, i0, i1, bins, reIndex, groupIndex) && forall i :: 0 <= i < |bins| ==> bins[i].key < x
    ensures forall t :: 0 <= t < i1 ==> c.newKeys[t] < x
  {
    forall t | 0 <= t < i1 ensures c.newKeys[t] < x {
      assert InBin(c, t, bins, groupIndex);
    }
  }

  /** Adds the new records of key x to bin number k: they are next in key order. */
  method Collect<T(!new), P(!new)>(c: Batch<T,
      P>, bits: FilterBits, k: nat, width: nat, x: real, v0: P, start: nat, groupIndex0: seq<nat>)
    returns (i1: nat, groupIndex: seq<nat>, v: P)
    requires BatchOK(c) && bits.Valid() && bits.blocked == c.blocked && c.d < 32
    requires start <= |c.newKeys| && |groupIndex0| == |c.keys| && k < Capacity(width)
    requires start < |c.newKeys| ==> x <= c.newKeys[start]
    requires PartValue(c, x, start, v0)
    ensures start <= i1 <= |c.newKeys| && |groupIndex| == |c.keys|
    ensures start < |c.newKeys| && c.newKeys[start] == x ==> start < i1
    ensures forall t :: i1 <= t < |c.newKeys| ==> c.newKeys[t] > x
    ensures forall t :: start <= t < i1 ==> c.newKeys[t] == x && groupIndex[c.newIndex[t] + c.n0] == k
    ensures forall t :: 0 <= t < start ==> groupIndex[c.newIndex[t] + c.n0] == groupIndex0[c.newIndex[t] + c.n0]
    ensures groupIndex[..c.n0] == groupIndex0[..c.n0]
    ensures PartValue(c, x, i1, v)
  {
    hide PartValue;
    PermutationFacts(c.newIndex, |c.newKeys|);
    i1, groupIndex, v := start, groupIndex0, v0;
    while i1 < |c.newKeys| && !(c.newKeys[i1] > x)
      invariant start <= i1 <= |c.newKeys| && |groupIndex| == |c.keys|
      invariant start < |c.newKeys| && c.newKeys[start] == x && start == i1 ==> !(c.newKeys[i1] > x)
      invariant forall t :: start <= t < i1 ==> c.newKeys[t] == x && groupIndex[c.newIndex[t] + c.n0] == k
      invariant forall t :: 0 <= t < start ==> groupIndex[c.newIndex[t] + c.n0] == groupIndex0[c.newIndex[t] + c.n0]
      invariant groupIndex[..c.n0] == groupIndex0[..c.n0]
      invariant PartValue(c, x, i1, v)
    {
      var j := c.newIndex[i1] + c.n0;
      Collected(c, x, i1, v);
      FitsCapacity(width, k);
      groupIndex := groupIndex[j := Stored(width, k)];
      var selected := bits.OthersClear(j, c.d);
      if selected { v := Added(c, v, j); }
      i1 := i1 + 1;
    }
  }

  /** An old bin starts with the reduce value of its old records. */
  lemma OldPart<T(!new), P(!new)>(c: Batch<T, P>, i0: nat, i1: nat)
    requires BatchOK(c) && i0 < |c.oldBins| && i1 <= |c.newKeys|
    requires forall t :: 0 <= t < i1 ==> c.newKeys[t] < c.oldBins[i0].key
    ensures PartValue(c, c.oldBins[i0].key, i1, c.oldBins[i0].value)
  {
    NothingCollected(c, c.oldBins[i0].key, i1);
  }

  /** A new bin starts with the initial value: no old record has its key. */
  lemma NewPart<T(!new), P(!new)>(c: Batch<T, P>, i0: nat, i1: nat, bins: seq<Bin<P>>, reIndex: seq<nat>,
      groupIndex: seq<nat>, v: P)
    requires BatchOK(c) && Placed(c, i0, i1, bins, reIndex, groupIndex)
    requires i1 < |c.newKeys| && (i0 < |c.oldBins| ==> c.newKeys[i1] < c.oldBins[i0].key)
    requires v == if c.live then c.red.initial else c.nil
    ensures PartValue(c, c.newKeys[i1], i1, v)
  {
    TakenBelow(c, i0, i1, bins, reIndex, groupIndex, c.newKeys[i1]);
    NothingCollected(c, c.newKeys[i1], i1);
    NewKeyIsNew(c, i0, i1, bins, reIndex, groupIndex);
    FoldEmpty(c.red, c.data, {});
  }

  /** The facts about bins that a new bin of key x and value v keeps. */
  lemma BinAppended<T(!new), P(!new)>(c: Batch<T, P>, i0: nat, i1: nat, i0': nat, i1': nat, bins: seq<Bin<P>>, x: real,
      v: P, reIndex: seq<nat>, reIndex': seq<nat>, groupIndex: seq<nat>,
                                        groupIndex': seq<nat>)
    requires BatchOK(c) && Placed(c, i0, i1, bins, reIndex, groupIndex)
    requires i0 <= i0' <= |c.oldBins| && i1 <= i1' <= |c.newKeys| && |groupIndex'| == |groupIndex|
    requires forall i :: 0 <= i < |bins| ==> bins[i].key < x
    requires x in c.keys
    // Either the next old bin, with the new records of its key, ...
    requires (i0' == i0 + 1 && c.oldBins[i0].key == x && reIndex' == reIndex[i0 := |bins|])
          // ... or a bin for the next new key, below the next old one.
          || (i0' == i0 && i1 < i1' && reIndex' == reIndex && (i0 < |c.oldBins| ==> x < c.oldBins[i0].key))
    requires forall t :: i1' <= t < |c.newKeys| ==> c.newKeys[t] > x
    requires forall t :: i1 <= t < i1' ==> c.newKeys[t] == x && InBinNumbered(c, t, |bins|, groupIndex')
    requires forall t :: 0 <= t < i1 ==>
      c.newIndex[t] + c.n0 < |groupIndex| && groupIndex'[c.newIndex[t] + c.n0] == groupIndex[c.newIndex[t] + c.n0]
    ensures Placed(c, i0', i1', bins + [Bin(x, v)], reIndex', groupIndex')
  {
    var bins' := bins + [Bin(x, v)];
    forall t | 0 <= t < i1' ensures InBin(c, t, bins', groupIndex') {
      if t < i1 { assert InBin(c, t, bins, groupIndex); }
    }
  }

  ghost predicate InBinNumbered<T, P>(c: Batch<T, P>, t: nat, k: nat, groupIndex: seq<nat>)
    requires t < |c.newIndex|
  {
    c.newIndex[t] + c.n0 < |groupIndex| && groupIndex[c.newIndex[t] + c.n0] == k
  }

  /** The collected value is final once no new record of the key is left. */
  lemma BinSettled<T(!new), P(!new)>(c: Batch<T, P>, i1: nat, bins: seq<Bin<P>>, x: real, v: P)
    requires BatchOK(c) && Settled(c, bins)
    requires i1 <= |c.newKeys| && forall t :: i1 <= t < |c.newKeys| ==> c.newKeys[t] > x
    requires PartValue(c, x, i1, v)
    ensures Settled(c, bins + [Bin(x, v)])
  {
    AllCollected(c, x, i1);
  }

  ghost predicate ValidWidth(width: nat, k: nat) {
    (width == 8 || width == 16 || width == 32) && k < Capacity(width)
  }

  /** groupIncrement: the width to go on with after bin number k, so that the next number still fits. */
  method Increment(k: nat, width0: nat) returns (width: nat)
    requires ValidWidth(width0, k) && k < MAX_LENGTH
    ensures ValidWidth(width, k + 1)
  {
    width := if k + 1 == Capacity(width0) then 2 * width0 else width0;
  }

  /** Places the lesser of the next old bin and a bin for the next new key, and collects its new records. */
  method PlaceLesser<T(!new), P(!new)>(c: Batch<T, P>, bits: FilterBits, i0_: nat, i1_: nat, bins_: seq<Bin<P>>,
                                       reIndex_: seq<nat>, groupIndex_: seq<nat>, width: nat)
    returns (i0: nat, i1: nat, bins: seq<Bin<P>>, reIndex: seq<nat>, groupIndex: seq<nat>)
    requires BatchOK(c) && bits.Valid() && bits.blocked == c.blocked && c.d < 32
    requires Placed(c, i0_, i1_, bins_, reIndex_, groupIndex_) && Settled(c, bins_)
    requires i1_ < |c.newKeys| && |bins_| < Capacity(width)
    ensures Placed(c, i0, i1, bins, reIndex, groupIndex) && Settled(c, bins)
    ensures |bins| == |bins_| + 1 && i0_ <= i0 && i1_ <= i1 && i0_ + i1_ < i0 + i1
    ensures groupIndex[..c.n0] == groupIndex_[..c.n0]
  {
    hide PartValue;
    i0, reIndex := i0_, reIndex_;
    var k, x1 := |bins_|, c.newKeys[i1_];
    var x, v;
    if i0 < |c.oldBins| && c.oldBins[i0].key <= x1 {
      x, v := c.oldBins[i0].key, c.oldBins[i0].value;
      FitsCapacity(width, k);
      reIndex := reIndex[i0 := Stored(width, k)];
      i0 := i0 + 1;
      TakenBelow(c, i0_, i1_, bins_, reIndex_, groupIndex_, x);
      OldPart(c, i0_, i1_);
    } else {
      x, v := x1, if c.live then c.red.initial else c.nil;
      TakenBelow(c, i0_, i1_, bins_, reIndex_, groupIndex_, x);
      NewPart(c, i0_, i1_, bins_, reIndex_, groupIndex_, v);
    }
    i1, groupIndex, v := Collect(c, bits, k, width, x, v, i1_, groupIndex_);
    BinAppended(c, i0_, i1_, i0, i1, bins_, x, v, reIndex_, reIndex, groupIndex_, groupIndex);
    BinSettled(c, i1, bins_, x, v);
    bins := bins_ + [Bin(x, v)];
  }

  /** An old bin above all new keys keeps its value. */
  lemma LeftoverSettled<T(!new), P(!new)>(c: Batch<T, P>, i0: nat, bins: seq<Bin<P>>, reIndex: seq<nat>,
      groupIndex: seq<nat>)
    requires BatchOK(c) && i0 < |c.oldBins|
    requires Placed(c, i0, |c.newKeys|, bins, reIndex, groupIndex) && Settled(c, bins)
    ensures Settled(c, bins + [c.oldBins[i0]])
    ensures Placed(c, i0 + 1, |c.newKeys|, bins + [c.oldBins[i0]], reIndex[i0 := |bins|], groupIndex)
  {
    var x := c.oldBins[i0].key;
    TakenBelow(c, i0, |c.newKeys|, bins, reIndex, groupIndex, x);
    OldPart(c, i0, |c.newKeys|);
    BinSettled(c, |c.newKeys|, bins, x, c.oldBins[i0].value);
    assert c.oldBins[i0] == Bin(x, c.oldBins[i0].value);
    BinAppended(c, i0, |c.newKeys|, i0 + 1, |c.newKeys|, bins, x, c.oldBins[i0].value, reIndex, reIndex[i0 := |bins|],
      groupIndex, groupIndex);
  }

  /** The group index entries of old records point at the old bins of their keys. */
  ghost predicate OldIndexed<T, P>(c: Batch<T, P>, groupIndex: seq<nat>) {
    && c.n0 <= |groupIndex| && c.n0 <= |c.keys|
    && forall r :: 0 <= r < c.n0 ==> groupIndex[r] < |c.oldBins| && c.oldBins[groupIndex[r]].key == c.keys[r]
  }

  /** Sends the old records' entries to the new numbers of their bins. */
  method Remap<T(!new), P(!new)>(ghost c: Batch<T, P>, n0: nat, reIndex: seq<nat>, groupIndex0: seq<nat>, width: nat,
                                 ghost bins: seq<Bin<P>>)
    returns (groupIndex: seq<nat>)
    requires OldIndexed(c, groupIndex0) && n0 == c.n0 && |bins| < Capacity(width)
    requires Placed(c, |c.oldBins|, |c.newKeys|, bins, reIndex, groupIndex0)
    ensures |groupIndex| == |groupIndex0| && groupIndex[n0..] == groupIndex0[n0..]
    ensures forall r :: 0 <= r < n0 ==> groupIndex[r] < |bins| && bins[groupIndex[r]].key == c.keys[r]
  {
    groupIndex := groupIndex0;
    for r := 0 to n0
      invariant |groupIndex| == |groupIndex0| && groupIndex[r..] == groupIndex0[r..]
      invariant forall q :: 0 <= q < r ==> groupIndex[q] < |bins| && bins[groupIndex[q]].key == c.keys[q]
    {
      assert groupIndex[r] == groupIndex[r..][0] == groupIndex0[r];
      FitsCapacity(width, reIndex[groupIndex[r]]);
      groupIndex := groupIndex[r := Stored(width, reIndex[groupIndex[r]])];
      assert groupIndex[r + 1..] == groupIndex0[r..][1..];
    }
  }

  /** Without new bins before old ones the old numbers stand. */
  lemma NothingToRemap<T(!new), P(!new)>(c: Batch<T, P>, reIndex: seq<nat>, groupIndex: seq<nat>, bins: seq<Bin<P>>)
    requires OldIndexed(c, groupIndex) && |bins| == |c.oldBins|
    requires Placed(c, |c.oldBins|, |c.newKeys|, bins, reIndex, groupIndex)
    ensures forall r :: 0 <= r < c.n0 ==> groupIndex[r] < |bins| && bins[groupIndex[r]].key == c.keys[r]
  {
    forall r | 0 <= r < c.n0 ensures bins[groupIndex[r]].key == c.keys[r] {
      assert reIndex[groupIndex[r]] == groupIndex[r];
    }
  }

  /** With all bins and records placed and the old entries right, the bins group all records. */
  lemma AllGrouped<T(!new), P(!new)>(c: Batch<T,
      P>, reIndex: seq<nat>, groupIndex0: seq<nat>, groupIndex: seq<nat>, bins: seq<Bin<P>>, width: nat)
    requires BatchOK(c) && Placed(c, |c.oldBins|, |c.newKeys|, bins, reIndex, groupIndex0)
    requires ValidWidth(width, |bins|) && |bins| <= |c.keys|
    requires |groupIndex| == |groupIndex0| && groupIndex[c.n0..] == groupIndex0[c.n0..]
    requires forall r :: 0 <= r < c.n0 ==> groupIndex[r] < |bins| && bins[groupIndex[r]].key == c.keys[r]
    ensures Indexed(c.keys, bins, groupIndex) && Grouped(c.keys, bins, groupIndex, width)
  {
    PermutationFacts(c.newIndex, |c.newKeys|);
    forall r | 0 <= r < |c.keys| ensures groupIndex[r] < |bins| && bins[groupIndex[r]].key == c.keys[r] {
      if r >= c.n0 {
        assert groupIndex[r] == groupIndex[c.n0..][r - c.n0] == groupIndex0[r];
        assert r - c.n0 in c.newIndex;
        var t :| 0 <= t < |c.newIndex| && c.newIndex[t] == r - c.n0;
        assert InBin(c, t, bins, groupIndex0);
      }
    }
  }

  /** Merges the new records into the bins: the group's `add` without its listeners. The remap is made for as many ids
      as the elements of the group index take, so that one width will do for both. */
  method MergeBins<T(!new), P(!new)>(c: Batch<T, P>, bits: FilterBits, groupIndex0: seq<nat>, width0: nat)
    returns (bins: seq<Bin<P>>, groupIndex: seq<nat>, width: nat)
    requires BatchOK(c) && bits.Valid() && bits.blocked == c.blocked && c.d < 32
    requires |groupIndex0| == |c.keys| <= MAX_LENGTH && OldIndexed(c, groupIndex0)
    requires ValidWidth(width0, |c.oldBins|) && |c.oldBins| <= c.n0
    ensures Grouped(c.keys, bins, groupIndex, width) && Settled(c, bins)
  {
    hide BatchOK, Settled, Grouped, InBin, Ascending;
    var k0, n1 := |c.oldBins|, |c.newKeys|;
    var i0: nat, i1: nat := 0, 0;
    WidthOfCapacity(width0);
    var reIndex: seq<nat> := seq(k0, _ => 0);
    bins, groupIndex, width := [], groupIndex0, IndexWidth(Capacity(width0));
    MergeStarts(c, reIndex, groupIndex);
    while i1 < n1
      invariant i1 <= n1
      invariant Placed(c, i0, i1, bins, reIndex, groupIndex) && Settled(c, bins)
      invariant ValidWidth(width, |bins|) && OldIndexed(c, groupIndex)
      decreases k0 + n1 - i0 - i1
    {
      ghost var before := groupIndex;
      i0, i1, bins, reIndex, groupIndex := PlaceLesser(c, bits, i0, i1, bins, reIndex, groupIndex, width);
      width := Increment(|bins| - 1, width);
      StillOldIndexed(c, before, groupIndex);
    }
    while i0 < k0
      invariant i0 <= k0
      invariant Placed(c, i0, n1, bins, reIndex, groupIndex) && Settled(c, bins)
      invariant ValidWidth(width, |bins|) && OldIndexed(c, groupIndex)
    {
      LeftoverSettled(c, i0, bins, reIndex, groupIndex);
      FitsCapacity(width, |bins|);
      reIndex := reIndex[i0 := Stored(width, |bins|)];
      bins := bins + [c.oldBins[i0]];
      width := Increment(|bins| - 1, width);
      i0 := i0 + 1;
    }
    ghost var placed := groupIndex;
    if |bins| > i0 {
      groupIndex := Remap(c, c.n0, reIndex, groupIndex, width, bins);
    } else {
      NothingToRemap(c, reIndex, groupIndex, bins);
    }
    AllGrouped(c, reIndex, placed, groupIndex, bins, width);
  }

  lemma MergeStarts<T(!new), P(!new)>(c: Batch<T, P>, reIndex: seq<nat>, groupIndex: seq<nat>)
    requires BatchOK(c) && |reIndex| == |c.oldBins| && |groupIndex| == |c.keys|
    ensures Placed(c, 0, 0, [], reIndex, groupIndex) && Settled(c, [])
  {
  }

  lemma StillOldIndexed<T(!new), P(!new)>(c: Batch<T, P>, before: seq<nat>, after: seq<nat>)
    requires OldIndexed(c, before) && |after| == |before| && after[..c.n0] == before[..c.n0]
    ensures OldIndexed(c, after)
  {
    forall r | 0 <= r < c.n0 ensures after[r] == before[r] {
      assert after[r] == after[..c.n0][r] && before[r] == before[..c.n0][r];
    }
  }
}
